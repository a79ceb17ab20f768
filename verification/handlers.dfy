/** The real-time handlers of `SynchronizationService`: `handle_user_add` and
    `handle_user_remove`, run when the gateway reports that a user subscribed
    to or unsubscribed from a scheduled event.

    Each handler opens its own unit of work. Driver failures are inputs:
    `commitFails` for the handler's explicit `uow.commit()` and
    `exitCommitFails` for the commit `__exit__` issues when the block is left
    without an exception. `channelOk` says whether the guild and its
    notification channel were found.

    Leaving the block goes through `ExitClosing`, the variant of `__exit__`
    that also closes after a failed commit. The code as written is `Exit`;
    `ExitClosingAgrees` shows the two give the same durable store and raise
    alike, and those are the only parts of the step a handler reads. */
module Handlers {
  import opened Wrappers
  import opened Store
  import opened Cooldown
  import opened Notify
  import opened UnitOfWork
  import opened SyncSteps

  /** What a handler leaves: the durable store, the cooldown table and the
      texts sent to the notification channel. */
  datatype Outcome = Outcome(durable: Db, cooldown: Table, sent: seq<string>)

  /** The writes of `handle_user_add` inside its unit of work: the
      participation, then the user when the store does not know them. */
  function AddWrites(db: Db, e: Id, u: Id, name: string): (r: Db)
    requires Valid(db) && Participation(e, u) !in db.participations
    ensures Valid(r)
    ensures r.participations == db.participations + {Participation(e, u)}
    ensures r.users.Keys == db.users.Keys + {u}
    ensures forall x :: x in db.users ==> r.users[x] == db.users[x]
    ensures u !in db.users ==> r.users[u].username == name
    ensures r.events == db.events
  {
    var db1 := ParticipationCreate(db, e, u).value;
    if UserByDiscordId(db1, u).Some? then db1 else UserGetOrCreate(db1, u, name, None).0
  }

  /** `handle_user_add`. `user` is what the gateway handed over, from which
      the display name is taken. */
  function HandleUserAdd(durable: Db, t: Table, window: int, now: int, e: Id, eventName: string, u: Id,
                         user: Snapshot, commitFails: bool, exitCommitFails: bool, channelOk: bool,
                         header: string): (r: Outcome)
    requires Valid(durable)
    ensures InCooldown(t, window, now, u, e) || Participation(e, u) in durable.participations ==>
      r == Outcome(durable, t, [])
    ensures commitFails ==> r.durable == durable && r.cooldown == t && r.sent == []
    ensures !InCooldown(t, window, now, u, e) && Participation(e, u) !in durable.participations && !commitFails ==>
      && r.durable.participations == durable.participations + {Participation(e, u)}
      && r.durable.users.Keys == durable.users.Keys + {u}
      && (forall x :: x in durable.users ==> r.durable.users[x] == durable.users[x])
      && (u !in durable.users ==> r.durable.users[u].username == DisplayName(Some(user), u))
      && r.durable.events == durable.events
      && (exitCommitFails ==> r.cooldown == t && r.sent == [])
      && (!exitCommitFails ==> r.cooldown == Record(t, window, now, u, e))
      && (!exitCommitFails && channelOk ==>
            r.sent == [header, Message(Note(Join, e, u, DisplayName(Some(user), u)), eventName)])
      && (!channelOk ==> r.sent == [])
  {
    if InCooldown(t, window, now, u, e) then Outcome(durable, t, [])
    else
      var name := DisplayName(Some(user), u);
      var s := Enter(Fresh(durable));
      if u in ParticipantsOf(s.session.value, e) then
        // Already registered: the block returns early and its exit commits an
        // unchanged session.
        Outcome(ExitClosing(s, false, exitCommitFails, false, false).uow.durable, t, [])
      else
        var c := Commit(Apply(s, AddWrites(s.session.value, e, u, name)), commitFails);
        if c.raised then
          Outcome(ExitClosing(c.uow, true, false, false, false).uow.durable, t, [])
        else
          var x := ExitClosing(c.uow, false, exitCommitFails, false, false);
          if x.raised then Outcome(x.uow.durable, t, [])
          else
            var sent := if channelOk then Publish(header, [Note(Join, e, u, name)], map[e := eventName]) else [];
            Outcome(x.uow.durable, Record(t, window, now, u, e), sent)
  }

  /** `handle_user_remove`. Publishing and recording happen inside the unit of
      work, before its exit commit, so a failing exit commit no longer
      undoes them. */
  function HandleUserRemove(durable: Db, t: Table, window: int, now: int, e: Id, eventName: string, u: Id,
                            commitFails: bool, exitCommitFails: bool, channelOk: bool, header: string): (r: Outcome)
    requires Valid(durable)
    ensures InCooldown(t, window, now, u, e) || Participation(e, u) !in durable.participations ==>
      r == Outcome(durable, t, [])
    ensures commitFails ==> r.durable == durable && r.cooldown == t && r.sent == []
    ensures !InCooldown(t, window, now, u, e) && Participation(e, u) in durable.participations && !commitFails ==>
      && r.durable == durable.(participations := durable.participations - {Participation(e, u)})
      && r.cooldown == Record(t, window, now, u, e)
      && (channelOk ==> r.sent == [header, Message(Note(Leave, e, u, LeaveName(durable.users, u)), eventName)])
      && (!channelOk ==> r.sent == [])
  {
    if InCooldown(t, window, now, u, e) then Outcome(durable, t, [])
    else
      var s := Enter(Fresh(durable));
      var name := LeaveName(s.session.value.users, u);
      var removal := ParticipationRemove(s.session.value, e, u);
      if !removal.1 then
        Outcome(ExitClosing(Apply(s, removal.0), false, exitCommitFails, false, false).uow.durable, t, [])
      else
        var c := Commit(Apply(s, removal.0), commitFails);
        if c.raised then
          Outcome(ExitClosing(c.uow, true, false, false, false).uow.durable, t, [])
        else
          var sent := if channelOk then Publish(header, [Note(Leave, e, u, name)], map[e := eventName]) else [];
          var x := ExitClosing(c.uow, false, exitCommitFails, false, false);
          Outcome(x.uow.durable, Record(t, window, now, u, e), sent)
  }

  /** Delivering the same subscription twice registers it once: when the
      first delivery was handled (not in cooldown, its commit succeeded), the
      second changes nothing and announces nothing, at any later time. */
  lemma AddIdempotent(durable: Db, t: Table, window: int, now: int, now': int, e: Id, eventName: string, u: Id,
                      user: Snapshot, commitFails: bool, exitCommitFails: bool, channelOk: bool, header: string,
                      commitFails': bool, exitCommitFails': bool, channelOk': bool)
    requires Valid(durable) && !InCooldown(t, window, now, u, e) && !commitFails
    ensures var r := HandleUserAdd(durable, t, window, now, e, eventName, u, user, commitFails, exitCommitFails,
                                   channelOk, header);
      Valid(r.durable) &&
      var r' := HandleUserAdd(r.durable, r.cooldown, window, now', e, eventName, u, user, commitFails',
                              exitCommitFails', channelOk', header);
      r'.durable == r.durable && r'.sent == []
  {
  }

  /** Delivering the same unsubscription twice removes once: when the first
      delivery was handled, the second changes nothing and announces nothing. */
  lemma RemoveIdempotent(durable: Db, t: Table, window: int, now: int, now': int, e: Id, eventName: string, u: Id,
                         commitFails: bool, exitCommitFails: bool, channelOk: bool, header: string,
                         commitFails': bool, exitCommitFails': bool, channelOk': bool)
    requires Valid(durable) && !InCooldown(t, window, now, u, e) && !commitFails
    ensures var r := HandleUserRemove(durable, t, window, now, e, eventName, u, commitFails, exitCommitFails,
                                      channelOk, header);
      Valid(r.durable) &&
      var r' := HandleUserRemove(r.durable, r.cooldown, window, now', e, eventName, u, commitFails',
                                 exitCommitFails', channelOk', header);
      r'.durable == r.durable && r'.sent == []
  {
  }

  /** A subscription followed, once the cooldown has run out, by the matching
      unsubscription leaves the participations as they were. */
  lemma AddThenRemoveRestores(durable: Db, t: Table, window: int, now: int, now': int, e: Id, eventName: string,
                              u: Id, user: Snapshot, channelOk: bool, header: string)
    requires Valid(durable)
    requires Participation(e, u) !in durable.participations && !InCooldown(t, window, now, u, e)
    requires window <= 0 || now' - now >= window
    ensures var r := HandleUserAdd(durable, t, window, now, e, eventName, u, user, false, false, channelOk, header);
      var r' := HandleUserRemove(r.durable, r.cooldown, window, now', e, eventName, u, false, false, channelOk, header);
      r'.durable.participations == durable.participations
      && r'.sent == (if channelOk then [header, Message(Note(Leave, e, u, LeaveName(r.durable.users, u)), eventName)] else [])
  {
    var r := HandleUserAdd(durable, t, window, now, e, eventName, u, user, false, false, channelOk, header);
    SuppressedAfterRecord(t, window, now, now', u, e);
    assert durable.participations + {Participation(e, u)} - {Participation(e, u)} == durable.participations;
  }

  /** Within the cooldown window an unsubscription right after a subscription
      is ignored before the store is touched: the participation stays. */
  lemma RemoveWithinCooldownIgnored(durable: Db, t: Table, window: int, now: int, now': int, e: Id,
                                    eventName: string, u: Id, user: Snapshot, channelOk: bool, header: string,
                                    commitFails: bool, exitCommitFails: bool)
    requires Valid(durable)
    requires Participation(e, u) !in durable.participations && !InCooldown(t, window, now, u, e)
    requires window > 0 && now' - now < window
    ensures var r := HandleUserAdd(durable, t, window, now, e, eventName, u, user, false, false, channelOk, header);
      var r' := HandleUserRemove(r.durable, r.cooldown, window, now', e, eventName, u, commitFails, exitCommitFails,
                                 channelOk, header);
      r' == Outcome(r.durable, r.cooldown, []) && Participation(e, u) in r'.durable.participations
  {
    var r := HandleUserAdd(durable, t, window, now, e, eventName, u, user, false, false, channelOk, header);
    SuppressedAfterRecord(t, window, now, now', u, e);
  }
}
