/** `SQLiteUnitOfWork` as a state machine over the store.

    `durable` is what the database holds; `session` is the open session's view
    of the store, including changes not yet committed, or `None` when no
    session is open. Failures of the database driver are inputs: a flag per
    call says whether that call's driver operation raises. */
module UnitOfWork {
  import opened Wrappers
  import opened Store

  datatype Uow = Uow(durable: Db, session: Option<Db>)

  /** The state after a call, and whether the call ends by raising. */
  datatype Step = Step(uow: Uow, raised: bool)

  /** A unit of work before `__enter__`. */
  function Fresh(durable: Db): Uow {
    Uow(durable, None)
  }

  /** `__enter__`: opens a new session on the committed state; every
      repository of the unit of work operates on this one session. */
  function Enter(u: Uow): (r: Uow)
    ensures r.durable == u.durable && r.session == Some(u.durable)
  {
    Uow(u.durable, Some(u.durable))
  }

  /** The repositories write into the open session. */
  function Apply(u: Uow, pending: Db): (r: Uow)
    requires u.session.Some?
    ensures r.durable == u.durable && r.session == Some(pending)
  {
    u.(session := Some(pending))
  }

  /** `commit`: without a session, nothing; otherwise the session's changes
      become durable, or — when the driver's commit raises — the session is
      rolled back and the error re-raised. */
  function Commit(u: Uow, fails: bool): (r: Step)
    ensures u.session.None? ==> r == Step(u, false)
    ensures u.session.Some? && !fails ==>
      r == Step(Uow(u.session.value, u.session), false)
    ensures u.session.Some? && fails ==>
      r == Step(Uow(u.durable, Some(u.durable)), true)
  {
    match u.session
    case None => Step(u, false)
    case Some(pending) =>
      if fails then Step(Uow(u.durable, Some(u.durable)), true)
      else Step(Uow(pending, Some(pending)), false)
  }

  /** `rollback`: discards the session's changes; a failing driver rollback is
      logged and swallowed, so this never raises. */
  function Rollback(u: Uow, fails: bool): (r: Uow)
    ensures r.durable == u.durable
    ensures u.session.None? ==> r == u
    ensures u.session.Some? && !fails ==> r.session == Some(u.durable)
    ensures r.session.None? <==> u.session.None?
  {
    match u.session
    case None => u
    case Some(_) => if fails then u else Uow(u.durable, Some(u.durable))
  }

  /** `close`: the session is dropped whether or not closing it raised (the
      `finally` branch); uncommitted changes are lost, committed ones stay. */
  function Close(u: Uow, fails: bool): (r: Uow)
    ensures r.session.None? && r.durable == u.durable
  {
    Uow(u.durable, None)
  }

  /** `__exit__` as written. With an exception in flight it rolls back, closes
      and lets the exception propagate. Without one it commits and then closes
      — but a commit that raises leaves `__exit__` before `close`. */
  function Exit(u: Uow, exc: bool, commitFails: bool, rollbackFails: bool, closeFails: bool): (r: Step)
    requires u.session.Some?
    ensures exc ==> r == Step(Uow(u.durable, None), true)
    ensures !exc && !commitFails ==> r == Step(Uow(u.session.value, None), false)
    ensures !exc && commitFails ==> r == Step(Uow(u.durable, Some(u.durable)), true)
  {
    if exc then Step(Close(Rollback(u, rollbackFails), closeFails), true)
    else
      var c := Commit(u, commitFails);
      if c.raised then c else Step(Close(c.uow, closeFails), false)
  }

  /** A unit of work whose commit fails on `__exit__` is left with its session
      still open. */
  lemma ExitSkipsCloseOnCommitFailure(durable: Db, pending: Db)
    ensures var r := Exit(Apply(Enter(Fresh(durable)), pending), false, true, false, false);
      r.raised && r.uow.session.Some?
  {
  }

  /** `__exit__` with the close the `finally` discipline of `close` suggests:
      the session is closed on every path. */
  function ExitClosing(u: Uow, exc: bool, commitFails: bool, rollbackFails: bool, closeFails: bool): (r: Step)
    requires u.session.Some?
    ensures r.uow.session.None?
    ensures r.raised <==> exc || commitFails
    ensures r.uow.durable == if !exc && !commitFails then u.session.value else u.durable
  {
    if exc then Step(Close(Rollback(u, rollbackFails), closeFails), true)
    else
      var c := Commit(u, commitFails);
      Step(Close(c.uow, closeFails), c.raised)
  }

  /** All or nothing: whatever the body of a `with` block wrote into the
      session, leaving the block makes either all of it durable (clean exit,
      commit succeeds) or none of it. */
  lemma TransactionAtomic(durable: Db, pending: Db, exc: bool, commitFails: bool, rollbackFails: bool, closeFails: bool)
    ensures var r := Exit(Apply(Enter(Fresh(durable)), pending), exc, commitFails, rollbackFails, closeFails);
      && (r.uow.durable == pending <== !exc && !commitFails)
      && (exc || commitFails ==> r.uow.durable == durable)
      && (r.raised <==> exc || commitFails)
  {
  }

  /** A session that changed nothing commits nothing: leaving such a block
      cleanly keeps the store as it was. */
  lemma UnchangedSessionCommitsNothing(durable: Db, commitFails: bool)
    ensures Exit(Enter(Fresh(durable)), false, commitFails, false, false).uow.durable == durable
  {
  }

  /** Closing the session on a failed commit changes neither what is durable
      nor whether `__exit__` raises. */
  lemma ExitClosingAgrees(u: Uow, exc: bool, commitFails: bool, rollbackFails: bool, closeFails: bool)
    requires u.session.Some?
    ensures ExitClosing(u, exc, commitFails, rollbackFails, closeFails).uow.durable
         == Exit(u, exc, commitFails, rollbackFails, closeFails).uow.durable
    ensures ExitClosing(u, exc, commitFails, rollbackFails, closeFails).raised
         == Exit(u, exc, commitFails, rollbackFails, closeFails).raised
  {
  }
}
