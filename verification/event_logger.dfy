/** The legacy `EventLogger` cog: a TinyDB document holding, per scheduled
    event, the users subscribed to it, and `bot_ready_check`, which runs once
    at start-up and reconciles that document with the guild's events.

    The TinyDB table is modelled by the one document the cog reads and
    writes, the first one carrying an `events` field, or `None` when there is
    none. The time stamp written for new subscribers is an input. */
module EventLogger {
  import opened Wrappers

  type Id = string

  /** A subscriber's entry: `{"username": ..., "joined_at": ...}`. */
  datatype Entry = Entry(username: string, joinedAt: string)

  type Subscribers = map<Id, Entry>

  /** The document `{"events": ..., "passed_events": ...}`. */
  datatype Doc = Doc(events: map<Id, Subscribers>, passed: map<Id, Subscribers>)

  /** A user as `event.users()` yields it. */
  datatype RemoteUser = RemoteUser(id: Id, displayName: string)

  const EmptyDoc := Doc(map[], map[])

  /** `__init__`: inserts the empty document when none carries `events`. */
  function Init(store: Option<Doc>): (r: Option<Doc>)
    ensures r.Some?
    ensures store.Some? ==> r == store
    ensures Load(r) == Load(store)
  {
    if store.Some? then store else Some(EmptyDoc)
  }

  /** `_load_db`: the stored document, or the empty one. */
  function Load(store: Option<Doc>): (d: Doc)
    ensures store.None? ==> d == EmptyDoc
    ensures store.Some? ==> d == store.value
  {
    store.GetOr(EmptyDoc)
  }

  /** `_save_db`: `update` rewrites the matching document and does nothing
      when there is none. */
  function Save(store: Option<Doc>, d: Doc): (r: Option<Doc>)
    ensures store.Some? <==> r.Some?
    ensures store.Some? ==> Load(r) == d
    ensures store.None? ==> Load(r) == EmptyDoc
  {
    if store.Some? then Some(d) else None
  }

  /** After `__init__` a load sees the stored document and a save replaces it. */
  lemma InitThenLoadSave(store: Option<Doc>, d: Doc)
    ensures Load(Init(store)) == store.GetOr(EmptyDoc)
    ensures Save(Init(store), d) == Some(d)
  {
  }

  // ---------------------------------------------------------------------------
  // One event

  /** The ids of a roster. */
  function Ids(roster: seq<RemoteUser>): (ids: set<Id>)
    ensures forall i :: 0 <= i < |roster| ==> roster[i].id in ids
    ensures forall u :: u in ids ==> exists i :: 0 <= i < |roster| && roster[i].id == u
  {
    set i | 0 <= i < |roster| :: roster[i].id
  }

  /** The display name at the first occurrence of `u` in the roster. */
  function FirstName(roster: seq<RemoteUser>, u: Id): string
    requires u in Ids(roster)
    decreases |roster|
  {
    if roster[0].id == u then roster[0].displayName
    else
      assert u in Ids(roster[1..]) by {
        var i :| 0 <= i < |roster| && roster[i].id == u;
        assert roster[1..][i - 1] == roster[i];
      }
      FirstName(roster[1..], u)
  }

  lemma IdsCons(roster: seq<RemoteUser>)
    requires |roster| > 0
    ensures Ids(roster) == {roster[0].id} + Ids(roster[1..])
  {
    forall u | u in Ids(roster) ensures u in {roster[0].id} + Ids(roster[1..]) {
      var i :| 0 <= i < |roster| && roster[i].id == u;
      if i > 0 {
        assert roster[1..][i - 1] == roster[i];
      }
    }
  }

  /** The loop over the fetched users: each id not yet subscribed gets an
      entry with its display name and the current time. */
  function AddNew(subs: Subscribers, roster: seq<RemoteUser>, now: string): (r: Subscribers)
    ensures r.Keys == subs.Keys + Ids(roster)
    ensures forall u :: u in subs ==> r[u] == subs[u]
    ensures forall u :: u in r && u !in subs ==> r[u] == Entry(FirstName(roster, u), now)
    decreases |roster|
  {
    if |roster| == 0 then subs
    else
      var x := roster[0];
      var subs' := if x.id in subs then subs else subs[x.id := Entry(x.displayName, now)];
      var r := AddNew(subs', roster[1..], now);
      IdsCons(roster);
      assert subs'.Keys == subs.Keys + {x.id};
      assert forall u :: u in r && u !in subs ==> r[u] == Entry(FirstName(roster, u), now) by {
        forall u | u in r && u !in subs
          ensures r[u] == Entry(FirstName(roster, u), now)
        {
          if u != x.id {
            assert u !in subs';
          }
        }
      }
      r
  }

  /** The unsubscribed: entries whose id the roster no longer has are dropped. */
  function KeepOnly(subs: Subscribers, ids: set<Id>): (r: Subscribers)
    ensures r.Keys == subs.Keys * ids
    ensures forall u :: u in r ==> r[u] == subs[u]
  {
    map u | u in subs && u in ids :: subs[u]
  }

  /** The subscribers of event `e` once the loop has handled it: exactly the
      fetched ones, earlier entries kept, newcomers stamped with `now`. */
  function Handled(events: map<Id, Subscribers>, e: Id, roster: seq<RemoteUser>, now: string): Subscribers {
    var subs := if e in events then events[e] else map[];
    KeepOnly(AddNew(subs, roster, now), Ids(roster))
  }

  lemma HandledShape(events: map<Id, Subscribers>, e: Id, roster: seq<RemoteUser>, now: string)
    ensures var r := Handled(events, e, roster, now);
      && r.Keys == Ids(roster)
      && (e in events ==> forall u :: u in events[e] && u in Ids(roster) ==> r[u] == events[e][u])
      && (forall u :: u in r && (e !in events || u !in events[e]) ==> r[u] == Entry(FirstName(roster, u), now))
  {
  }

  /** One iteration of the loop over the guild's events. */
  function SyncEventUsers(events: map<Id, Subscribers>, e: Id, roster: seq<RemoteUser>, now: string)
    : map<Id, Subscribers>
  {
    events[e := Handled(events, e, roster, now)]
  }

  // ---------------------------------------------------------------------------
  // The whole check

  /** The loop over the guild's events, in listing order. */
  function SyncAllEvents(events: map<Id, Subscribers>, order: seq<Id>, rosters: map<Id, seq<RemoteUser>>,
                         now: string): map<Id, Subscribers>
    requires forall i :: 0 <= i < |order| ==> order[i] in rosters
    decreases |order|
  {
    if |order| == 0 then events
    else SyncAllEvents(SyncEventUsers(events, order[0], rosters[order[0]], now), order[1..], rosters, now)
  }

  /** The archiving loop: every event no longer listed moves, with its
      subscribers, to the passed events (replacing an entry of the same id). */
  function Archive(d: Doc, active: set<Id>): (r: Doc)
    ensures r.events.Keys == d.events.Keys * active
    ensures forall e :: e in r.events ==> r.events[e] == d.events[e]
    ensures r.passed.Keys == d.passed.Keys + (d.events.Keys - active)
    ensures forall e :: e in d.events && e !in active ==> r.passed[e] == d.events[e]
    ensures forall e :: e in d.passed && (e !in d.events || e in active) ==> r.passed[e] == d.passed[e]
  {
    Doc(map e | e in d.events && e in active :: d.events[e],
        d.passed + map e | e in d.events && e !in active :: d.events[e])
  }

  function ListedIds(order: seq<Id>): set<Id> {
    set i | 0 <= i < |order| :: order[i]
  }

  /** Every listed event's `users()` ran to the end. */
  predicate AllDelivered(fetched: seq<Id>, rosters: map<Id, Option<seq<RemoteUser>>>) {
    forall i :: 0 <= i < |fetched| ==> fetched[i] in rosters && rosters[fetched[i]].Some?
  }

  /** The rosters that were delivered. */
  function Delivered(rosters: map<Id, Option<seq<RemoteUser>>>): map<Id, seq<RemoteUser>> {
    map e | e in rosters && rosters[e].Some? :: rosters[e].value
  }

  /** Every roster delivered. */
  function AllArrived(rosters: map<Id, seq<RemoteUser>>): (r: map<Id, Option<seq<RemoteUser>>>)
    ensures Delivered(r) == rosters
  {
    var r := map e | e in rosters :: Some(rosters[e]);
    assert Delivered(r).Keys == rosters.Keys;
    r
  }

  /** `bot_ready_check`. `guildFound` says whether the guild was found,
      `fetched` is the list of the guild's event ids, `None` when fetching it
      raised, and `rosters` the users each event's `users()` yields, `None`
      when iterating it raised. That iteration is not guarded: an exception
      there leaves the check before anything is saved. */
  function BotReadyCheck(store: Option<Doc>, guildFound: bool, fetched: Option<seq<Id>>,
                         rosters: map<Id, Option<seq<RemoteUser>>>, now: string): (r: Option<Doc>)
    requires fetched.Some? ==> forall i :: 0 <= i < |fetched.value| ==> fetched.value[i] in rosters
    ensures !guildFound || fetched.None? ==> r == store
    ensures fetched.Some? && !AllDelivered(fetched.value, rosters) ==> r == store
    ensures store.None? ==> r == None
  {
    if !guildFound || fetched.None? || !AllDelivered(fetched.value, rosters) then store
    else
      var d := Load(store);
      var events := SyncAllEvents(d.events, fetched.value, Delivered(rosters), now);
      Save(store, Archive(Doc(events, d.passed), ListedIds(fetched.value)))
  }

  // ---------------------------------------------------------------------------
  // Properties

  /** With every roster delivered, the check saves the archived result of the
      loop over the fetched events. */
  lemma ReadyCheckDelivered(store: Option<Doc>, fetched: seq<Id>, rosters: map<Id, seq<RemoteUser>>, now: string)
    requires forall i :: 0 <= i < |fetched| ==> fetched[i] in rosters
    ensures var d := Load(store);
      BotReadyCheck(store, true, Some(fetched), AllArrived(rosters), now)
        == Save(store, Archive(Doc(SyncAllEvents(d.events, fetched, rosters, now), d.passed), ListedIds(fetched)))
  {
    assert AllDelivered(fetched, AllArrived(rosters));
  }

  /** Independent statement of the loop over the guild's events: the events
      of `listed` as handled once from the loaded document, the others as
      loaded. */
  function Expected(events: map<Id, Subscribers>, listed: set<Id>, rosters: map<Id, seq<RemoteUser>>, now: string)
    : map<Id, Subscribers>
    requires listed <= rosters.Keys
  {
    map x | x in events.Keys + listed :: if x in listed then Handled(events, x, rosters[x], now) else events[x]
  }

  /** Handling an event a second time with the same roster changes nothing. */
  lemma HandledTwice(events: map<Id, Subscribers>, e: Id, roster: seq<RemoteUser>, now: string)
    ensures Handled(SyncEventUsers(events, e, roster, now), e, roster, now) == Handled(events, e, roster, now)
  {
    var h := Handled(events, e, roster, now);
    var h' := Handled(SyncEventUsers(events, e, roster, now), e, roster, now);
    HandledShape(events, e, roster, now);
    HandledShape(SyncEventUsers(events, e, roster, now), e, roster, now);
    assert h'.Keys == h.Keys;
  }

  lemma ListedCons(order: seq<Id>)
    requires |order| > 0
    ensures ListedIds(order) == ListedIds(order[1..]) + {order[0]}
  {
    var rest := order[1..];
    forall x | x in ListedIds(order) ensures x in ListedIds(rest) + {order[0]} {
      var i :| 0 <= i < |order| && order[i] == x;
      if i > 0 {
        assert rest[i - 1] == order[i];
      }
    }
    forall x | x in ListedIds(rest) ensures x in ListedIds(order) {
      var i :| 0 <= i < |rest| && rest[i] == x;
      assert order[i + 1] == x;
    }
  }

  /** Handling `e` first, then the events of `listed`, is handling `listed + {e}`. */
  lemma ExpectedCons(events: map<Id, Subscribers>, e: Id, listed: set<Id>, rosters: map<Id, seq<RemoteUser>>,
                     now: string)
    requires e in rosters && listed <= rosters.Keys
    ensures Expected(SyncEventUsers(events, e, rosters[e], now), listed, rosters, now)
         == Expected(events, listed + {e}, rosters, now)
  {
    var mid := SyncEventUsers(events, e, rosters[e], now);
    var a := Expected(mid, listed, rosters, now);
    var b := Expected(events, listed + {e}, rosters, now);
    forall x | x in a ensures a[x] == b[x] {
      if x == e {
        HandledTwice(events, e, rosters[e], now);
      } else if x in listed {
        HandledElsewhere(events, e, Handled(events, e, rosters[e], now), x, rosters[x], now);
      }
    }
    assert a.Keys == b.Keys;
  }

  /** Handling one event leaves what handling another would produce unchanged. */
  lemma HandledElsewhere(events: map<Id, Subscribers>, e: Id, subs: Subscribers, x: Id, roster: seq<RemoteUser>,
                         now: string)
    requires x != e
    ensures Handled(events[e := subs], x, roster, now) == Handled(events, x, roster, now)
  {
    var before := if x in events then events[x] else map[];
    var after := if x in events[e := subs] then events[e := subs][x] else map[];
    assert after == before;
  }

  /** The loop over the guild's events meets its independent statement. */
  lemma {:induction false} SyncAllEventsExpected(events: map<Id, Subscribers>, order: seq<Id>,
                                                 rosters: map<Id, seq<RemoteUser>>, now: string)
    requires forall i :: 0 <= i < |order| ==> order[i] in rosters
    ensures ListedIds(order) <= rosters.Keys
    ensures SyncAllEvents(events, order, rosters, now) == Expected(events, ListedIds(order), rosters, now)
    decreases |order|
  {
    if |order| > 0 {
      var e := order[0];
      SyncAllEventsExpected(SyncEventUsers(events, e, rosters[e], now), order[1..], rosters, now);
      ListedCons(order);
      ExpectedCons(events, e, ListedIds(order[1..]), rosters, now);
    } else {
      assert ListedIds(order) == {};
      assert Expected(events, {}, rosters, now) == events;
    }
  }

  /** The document `bot_ready_check` saves, stated against the one it loaded:
      the listed events hold exactly their fetched subscribers (existing
      entries kept, newcomers stamped with `now`), every other event has moved
      to the passed events, and the passed events otherwise stay. */
  lemma BotReadyCheckEffect(store: Option<Doc>, fetched: seq<Id>, rosters: map<Id, seq<RemoteUser>>, now: string)
    requires store.Some?
    requires forall i :: 0 <= i < |fetched| ==> fetched[i] in rosters
    ensures var d := store.value;
      var r := BotReadyCheck(store, true, Some(fetched), AllArrived(rosters), now);
      && r.Some?
      && r.value.events.Keys == ListedIds(fetched)
      && (forall e :: e in ListedIds(fetched) ==> r.value.events[e].Keys == Ids(rosters[e]))
      && (forall e, u :: e in ListedIds(fetched) && e in d.events && u in d.events[e] && u in Ids(rosters[e]) ==>
            r.value.events[e][u] == d.events[e][u])
      && (forall e, u :: e in ListedIds(fetched) && u in r.value.events[e] && (e !in d.events || u !in d.events[e]) ==>
            r.value.events[e][u] == Entry(FirstName(rosters[e], u), now))
      && r.value.passed.Keys == d.passed.Keys + (d.events.Keys - ListedIds(fetched))
      && (forall e :: e in d.events && e !in ListedIds(fetched) ==> r.value.passed[e] == d.events[e])
      && (forall e :: e in d.passed && (e !in d.events || e in ListedIds(fetched)) ==> r.value.passed[e] == d.passed[e])
  {
    ReadyCheckDelivered(store, fetched, rosters, now);
    SyncAllEventsExpected(store.value.events, fetched, rosters, now);
    forall e | e in ListedIds(fetched) {
      HandledShape(store.value.events, e, rosters[e], now);
    }
  }

  /** Archiving never copies back: the events the check saves do not depend
      on what the passed events held. */
  lemma PassedNeverRestored(events: map<Id, Subscribers>, passed1: map<Id, Subscribers>,
                            passed2: map<Id, Subscribers>, fetched: seq<Id>,
                            rosters: map<Id, seq<RemoteUser>>, now: string)
    requires forall i :: 0 <= i < |fetched| ==> fetched[i] in rosters
    ensures BotReadyCheck(Some(Doc(events, passed1)), true, Some(fetched), AllArrived(rosters), now).value.events
         == BotReadyCheck(Some(Doc(events, passed2)), true, Some(fetched), AllArrived(rosters), now).value.events
  {
    ReadyCheckDelivered(Some(Doc(events, passed1)), fetched, rosters, now);
    ReadyCheckDelivered(Some(Doc(events, passed2)), fetched, rosters, now);
  }

  /** Archiving with every event still listed changes nothing. */
  lemma ArchiveNothing(d: Doc, active: set<Id>)
    requires d.events.Keys <= active
    ensures Archive(d, active) == d
  {
    var a := Archive(d, active);
    assert a.events.Keys == d.events.Keys;
    assert a.passed.Keys == d.passed.Keys;
  }

  /** The shape of a checked document: the listed events, each with exactly
      its fetched subscribers. */
  lemma CheckedShape(store: Option<Doc>, fetched: seq<Id>, rosters: map<Id, seq<RemoteUser>>, now: string)
    requires store.Some?
    requires forall i :: 0 <= i < |fetched| ==> fetched[i] in rosters
    ensures ListedIds(fetched) <= rosters.Keys
    ensures var r := BotReadyCheck(store, true, Some(fetched), AllArrived(rosters), now);
      && r.Some?
      && r.value.events.Keys == ListedIds(fetched)
      && (forall e :: e in ListedIds(fetched) ==> r.value.events[e].Keys == Ids(rosters[e]))
  {
    ReadyCheckDelivered(store, fetched, rosters, now);
    SyncAllEventsExpected(store.value.events, fetched, rosters, now);
    forall e | e in ListedIds(fetched) {
      HandledShape(store.value.events, e, rosters[e], now);
    }
  }

  /** A second check against the same guild state changes nothing. */
  lemma BotReadyCheckIdempotent(store: Option<Doc>, fetched: seq<Id>, rosters: map<Id, seq<RemoteUser>>,
                                now: string, now': string)
    requires store.Some?
    requires forall i :: 0 <= i < |fetched| ==> fetched[i] in rosters
    ensures var r := BotReadyCheck(store, true, Some(fetched), AllArrived(rosters), now);
      BotReadyCheck(r, true, Some(fetched), AllArrived(rosters), now') == r
  {
    var r := BotReadyCheck(store, true, Some(fetched), AllArrived(rosters), now);
    ReadyCheckDelivered(store, fetched, rosters, now);
    ReadyCheckDelivered(r, fetched, rosters, now');
    CheckedShape(store, fetched, rosters, now);
    var d1 := r.value;
    SyncAllEventsExpected(d1.events, fetched, rosters, now');
    ExpectedFixpoint(d1.events, ListedIds(fetched), rosters, now');
    ArchiveNothing(d1, ListedIds(fetched));
  }

  /** Events already holding exactly their fetched subscribers are left as they are. */
  lemma ExpectedFixpoint(events: map<Id, Subscribers>, listed: set<Id>, rosters: map<Id, seq<RemoteUser>>, now: string)
    requires listed <= rosters.Keys && listed <= events.Keys
    requires forall e :: e in listed ==> events[e].Keys == Ids(rosters[e])
    ensures Expected(events, listed, rosters, now) == events
  {
    var x := Expected(events, listed, rosters, now);
    forall e | e in x ensures x[e] == events[e] {
      if e in listed {
        HandledShape(events, e, rosters[e], now);
        assert x[e].Keys == events[e].Keys;
      }
    }
    assert x.Keys == events.Keys;
  }
}
