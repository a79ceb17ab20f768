/** The per-(user, event) subscription cooldown of `SynchronizationService`.

    The table maps a (user id, event id) pair to the time, in whole seconds,
    of the last join or leave recorded for it. `window` is the configured
    cooldown length in seconds; a window of zero or less disables the feature.
    The current time is an input. */
module Cooldown {
  import opened Store

  datatype Key = Key(userId: Id, eventId: Id)

  type Table = map<Key, int>

  /** `_is_in_subscription_cooldown`. */
  function InCooldown(t: Table, window: int, now: int, u: Id, e: Id): (r: bool)
    ensures window <= 0 ==> !r
    ensures Key(u, e) !in t ==> !r
    ensures r <==> window > 0 && Key(u, e) in t && now - t[Key(u, e)] < window
  {
    if window <= 0 then false
    else
      var k := Key(u, e);
      if k !in t then false else now - t[k] < window
  }

  /** `_record_subscription_action`: stamps the pair with `now`, overwriting any
      earlier stamp; does nothing while the feature is disabled. */
  function Record(t: Table, window: int, now: int, u: Id, e: Id): (r: Table)
    ensures window <= 0 ==> r == t
    ensures window > 0 ==> r.Keys == t.Keys + {Key(u, e)} && r[Key(u, e)] == now
    ensures forall k :: k in t && k != Key(u, e) ==> k in r && r[k] == t[k]
  {
    if window <= 0 then t else t[Key(u, e) := now]
  }

  /** Stamps every pair of `keys` with `now` (no-op while disabled): the effect
      of recording each of them once, in any order. */
  function StampAll(t: Table, window: int, now: int, keys: set<Key>): (r: Table)
    ensures window <= 0 ==> r == t
    ensures window > 0 ==> r.Keys == t.Keys + keys
    ensures forall k :: k in r && k !in keys ==> r[k] == t[k]
    ensures window > 0 ==> forall k :: k in keys ==> r[k] == now
  {
    if window <= 0 then t else t + map k | k in keys :: now
  }

  /** Stamping no pair leaves the table as it is. */
  lemma StampNone(t: Table, window: int, now: int)
    ensures StampAll(t, window, now, {}) == t
  {
    if window > 0 {
      assert StampAll(t, window, now, {}).Keys == t.Keys;
    }
  }

  /** Two batches of stamps at the same time are one batch of their union. */
  lemma StampAllUnion(t: Table, window: int, now: int, a: set<Key>, b: set<Key>)
    ensures StampAll(StampAll(t, window, now, a), window, now, b) == StampAll(t, window, now, a + b)
  {
    if window > 0 {
      var x := StampAll(StampAll(t, window, now, a), window, now, b);
      assert x.Keys == StampAll(t, window, now, a + b).Keys;
    }
  }

  /** Recording one more pair extends a batch of stamps by that pair. */
  lemma RecordExtendsStamps(t: Table, window: int, now: int, keys: set<Key>, u: Id, e: Id)
    ensures Record(StampAll(t, window, now, keys), window, now, u, e)
         == StampAll(t, window, now, keys + {Key(u, e)})
  {
    if window > 0 {
      var a := Record(StampAll(t, window, now, keys), window, now, u, e);
      var b := StampAll(t, window, now, keys + {Key(u, e)});
      assert a.Keys == b.Keys;
    }
  }

  /** Right after an action is recorded at `t0`, the pair is suppressed at
      `now` exactly when the window is enabled and has not yet run out. */
  lemma SuppressedAfterRecord(t: Table, window: int, t0: int, now: int, u: Id, e: Id)
    ensures InCooldown(Record(t, window, t0, u, e), window, now, u, e) <==> window > 0 && now - t0 < window
  {
  }

  /** Recording one pair never changes whether another pair is suppressed. */
  lemma RecordIsolated(t: Table, window: int, t0: int, now: int, u: Id, e: Id, u': Id, e': Id)
    requires Key(u, e) != Key(u', e')
    ensures InCooldown(Record(t, window, t0, u, e), window, now, u', e') == InCooldown(t, window, now, u', e')
  {
  }

  // ---------------------------------------------------------------------------
  // How many notifications a burst of actions on one pair yields

  /** Whether the `i`-th of a stream of actions on one pair is announced,
      read off the gaps alone: the first action against the table as it was,
      every later one against the action just before it. */
  predicate AnnouncedAt(t: Table, window: int, times: seq<int>, u: Id, e: Id, i: int)
    requires 0 <= i < |times|
  {
    if i == 0 then !InCooldown(t, window, times[0], u, e)
    else window <= 0 || times[i] - times[i - 1] >= window
  }

  /** The announced flags of a whole stream, one per action. */
  function Announced(t: Table, window: int, times: seq<int>, u: Id, e: Id): (r: seq<bool>)
    ensures |r| == |times|
    ensures forall i :: 0 <= i < |times| ==> r[i] == AnnouncedAt(t, window, times, u, e, i)
  {
    seq(|times|, i requires 0 <= i < |times| => AnnouncedAt(t, window, times, u, e, i))
  }

  /** The number of `true` flags. */
  function CountTrue(bs: seq<bool>): nat {
    if |bs| == 0 then 0 else (if bs[0] then 1 else 0) + CountTrue(bs[1..])
  }

  /** After the first action is recorded, the rest of the stream is announced
      exactly as the gaps say. */
  lemma AnnouncedCons(t: Table, window: int, times: seq<int>, u: Id, e: Id)
    requires |times| > 0
    ensures Announced(t, window, times, u, e)
         == [!InCooldown(t, window, times[0], u, e)] + Announced(Record(t, window, times[0], u, e), window, times[1..], u, e)
  {
    var t' := Record(t, window, times[0], u, e);
    var a := Announced(t, window, times, u, e);
    var b := [!InCooldown(t, window, times[0], u, e)] + Announced(t', window, times[1..], u, e);
    forall i | 1 <= i < |times| ensures a[i] == b[i] {
      if i == 1 {
        SuppressedAfterRecord(t, window, times[0], times[1], u, e);
      }
    }
    assert a == b;
  }

  /** The full pass's discipline for a stream of actions on one pair at the
      given times: notify when not suppressed, record every action. Returns the
      number of notifications and the final table. */
  function PassNotifications(t: Table, window: int, times: seq<int>, u: Id, e: Id): (r: (nat, Table))
    ensures r.0 == CountTrue(Announced(t, window, times, u, e))
    ensures window <= 0 || |times| == 0 ==> r.1 == t
    ensures window > 0 && |times| > 0 ==> r.1 == t[Key(u, e) := times[|times| - 1]]
    ensures window <= 0 ==> r.0 == |times|
    decreases |times|
  {
    if |times| == 0 then (0, t)
    else
      var notify := !InCooldown(t, window, times[0], u, e);
      var rest := PassNotifications(Record(t, window, times[0], u, e), window, times[1..], u, e);
      AnnouncedCons(t, window, times, u, e);
      ((if notify then 1 else 0) + rest.0, rest.1)
  }

  /** Two actions closer together than the window give one notification; two
      actions the window apart give two. */
  lemma TwoActions(window: int, t0: int, t1: int, u: Id, e: Id)
    requires window > 0
    ensures PassNotifications(map[], window, [t0, t1], u, e).0 == if t1 - t0 < window then 1 else 2
  {
    var a := Announced(map[], window, [t0, t1], u, e);
    assert a == [true, t1 - t0 >= window];
    assert a[1..][1..] == [];
  }
}
