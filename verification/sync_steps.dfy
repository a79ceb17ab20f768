/** The per-event body of the full pass (`sync_guild`, step 2): the diff of an
    event's remote participants against its stored ones, the loop over the
    newcomers and the loop over the departed. Python iterates these sets in an
    unspecified order, so the loops pick an arbitrary remaining element. */
module SyncSteps {
  import opened Wrappers
  import opened Store
  import opened Cooldown
  import opened Notify
  import opened Differ

  /** `user_lookup.get(user_id)`. */
  function Lookup(roster: map<Id, Snapshot>, u: Id): Option<Snapshot> {
    if u in roster then Some(roster[u]) else None
  }

  /** The name a join entry carries: the stored username of a known user,
      otherwise the display name from the roster (the user is created with it). */
  function JoinName(users: map<Id, User>, roster: map<Id, Snapshot>, u: Id): string {
    if u in users then users[u].username else DisplayName(Lookup(roster, u), u)
  }

  /** The name a leave entry carries: the stored username, or the raw id. */
  function LeaveName(users: map<Id, User>, u: Id): string {
    if u in users then users[u].username else u
  }

  function JoinNames(users: map<Id, User>, roster: map<Id, Snapshot>, us: set<Id>): map<Id, string> {
    map u | u in us :: JoinName(users, roster, u)
  }

  function LeaveNames(users: map<Id, User>, us: set<Id>): map<Id, string> {
    map u | u in us :: LeaveName(users, u)
  }

  /** The (event, user) pairs for users `us` of event `e`. */
  function Pairs(e: Id, us: set<Id>): (ps: set<Participation>)
    ensures forall p :: p in ps <==> p.eventId == e && p.userId in us
  {
    set u | u in us :: Participation(e, u)
  }

  /** The cooldown keys for users `us` of event `e`. */
  function KeysOf(e: Id, us: set<Id>): (ks: set<Key>)
    ensures forall k :: k in ks <==> k.eventId == e && k.userId in us
  {
    set u | u in us :: Key(u, e)
  }

  /** The users of `us` whose pair with `e` is not in cooldown. */
  function Unsuppressed(t: Table, window: int, now: int, e: Id, us: set<Id>): (r: set<Id>)
    ensures forall u :: u in r <==> u in us && !InCooldown(t, window, now, u, e)
  {
    set u | u in us && !InCooldown(t, window, now, u, e)
  }

  function UsersOf(notes: seq<Note>): set<Id> {
    set i | 0 <= i < |notes| :: notes[i].userId
  }

  predicate OncePerUser(notes: seq<Note>) {
    forall i, j :: 0 <= i < j < |notes| ==> notes[i].userId != notes[j].userId
  }

  /** `notes` holds one `action` entry for event `e` per user of `who`, and no
      other entry; each carries the user's name from `names`. */
  predicate NotesFor(notes: seq<Note>, action: Action, e: Id, who: set<Id>, names: map<Id, string>) {
    && OncePerUser(notes)
    && UsersOf(notes) == who
    && forall i :: 0 <= i < |notes| ==>
         notes[i].userId in names && notes[i] == Note(action, e, notes[i].userId, names[notes[i].userId])
  }

  function OptionToSeq<T>(o: Option<T>): seq<T> {
    if o.Some? then [o.value] else []
  }

  lemma AppendNote(notes: seq<Note>, n: Note)
    requires OncePerUser(notes) && n.userId !in UsersOf(notes)
    ensures OncePerUser(notes + [n])
    ensures UsersOf(notes + [n]) == UsersOf(notes) + {n.userId}
  {
    var s := notes + [n];
    forall i | 0 <= i < |notes|
      ensures notes[i].userId in UsersOf(notes)
    {
    }
    assert s[|notes|] == n;
    assert forall i :: 0 <= i < |notes| ==> s[i] == notes[i];
  }

  /** Moving one element from the to-do part to the done part of a set. */
  lemma DoneOneMore<T>(all: set<T>, todo: set<T>, x: T)
    requires x in todo && todo <= all
    ensures (all - todo) + {x} == all - (todo - {x})
    ensures x !in all - todo
  {
  }

  /** Stamping other pairs does not change whether a pair is suppressed. */
  lemma StampedElsewhere(t: Table, window: int, now: int, keys: set<Key>, u: Id, e: Id)
    requires Key(u, e) !in keys
    ensures InCooldown(StampAll(t, window, now, keys), window, now, u, e) == InCooldown(t, window, now, u, e)
  {
  }

  /** Recording one more pair extends the stamped key set. */
  lemma StampStep(t: Table, window: int, now: int, e: Id, done: set<Id>, u: Id)
    ensures Record(StampAll(t, window, now, KeysOf(e, done)), window, now, u, e)
         == StampAll(t, window, now, KeysOf(e, done + {u}))
  {
    RecordExtendsStamps(t, window, now, KeysOf(e, done), u, e);
    assert KeysOf(e, done) + {Key(u, e)} == KeysOf(e, done + {u});
  }

  // ---------------------------------------------------------------------------
  // The cooldown and the queue, shared by both loops

  /** The cooldown table and the queue once the users of `done` are handled:
      every handled pair stamped, one entry per handled user not in cooldown. */
  predicate Logged(t: Table, window: int, now: int, e: Id, action: Action, names: map<Id, string>,
                   done: set<Id>, t': Table, notes: seq<Note>) {
    && t' == StampAll(t, window, now, KeysOf(e, done))
    && NotesFor(notes, action, e, Unsuppressed(t, window, now, e, done), names)
  }

  lemma LoggedStart(t: Table, window: int, now: int, e: Id, action: Action, names: map<Id, string>)
    ensures Logged(t, window, now, e, action, names, {}, t, [])
  {
    assert KeysOf(e, {}) == {};
    assert Unsuppressed(t, window, now, e, {}) == {};
    StampNone(t, window, now);
  }

  /** Handling one more user: queue its entry unless the pair is in cooldown
      (judged on the table as it stands), then record the pair. */
  lemma LoggedStep(t: Table, window: int, now: int, e: Id, action: Action, names: map<Id, string>,
                   done: set<Id>, t': Table, notes: seq<Note>, u: Id)
    requires Logged(t, window, now, e, action, names, done, t', notes)
    requires u !in done && u in names
    ensures var n := if InCooldown(t', window, now, u, e) then None else Some(Note(action, e, u, names[u]));
      Logged(t, window, now, e, action, names, done + {u}, Record(t', window, now, u, e), notes + OptionToSeq(n))
  {
    StampedElsewhere(t, window, now, KeysOf(e, done), u, e);
    StampStep(t, window, now, e, done, u);
    var n := if InCooldown(t', window, now, u, e) then None else Some(Note(action, e, u, names[u]));
    assert Unsuppressed(t, window, now, e, done + {u}) ==
      Unsuppressed(t, window, now, e, done) + (if n.None? then {} else {u});
    if n.Some? {
      AppendNote(notes, n.value);
      var s := notes + [n.value];
      assert forall i :: 0 <= i < |notes| ==> s[i] == notes[i];
    } else {
      assert notes + OptionToSeq(n) == notes;
    }
  }

  // ---------------------------------------------------------------------------
  // The join loop

  /** The store side of one newcomer of the join loop: create the
      participation, then create the user from its display name when unknown.
      Also returns the name the join entry carries. */
  function JoinStore(db: Db, e: Id, u: Id, roster: map<Id, Snapshot>): (r: (Db, string))
    requires Valid(db) && Participation(e, u) !in db.participations
    ensures Valid(r.0)
    ensures r.0.participations == db.participations + {Participation(e, u)}
    ensures r.0.events == db.events && r.0.nextEventPk == db.nextEventPk
    ensures r.0.users.Keys == db.users.Keys + {u}
    ensures forall x :: x in db.users ==> r.0.users[x] == db.users[x]
    ensures u !in db.users ==> r.0.users[u].username == DisplayName(Lookup(roster, u), u)
    ensures r.1 == JoinName(db.users, roster, u)
  {
    var db1 := ParticipationCreate(db, e, u).value;
    if u in db1.users then (db1, db1.users[u].username)
    else
      var created := UserGetOrCreate(db1, u, DisplayName(Lookup(roster, u), u), None);
      (created.0, created.1.username)
  }

  /** The participations after the join loop has handled `joined - todo`. */
  predicate JoinPartsStored(ps: set<Participation>, e: Id, joined: set<Id>, todo: set<Id>, ps': set<Participation>) {
    && (forall u :: u in todo ==> Participation(e, u) !in ps')
    && ps' == ps + Pairs(e, joined - todo)
  }

  /** The users after the join loop has handled `joined - todo`. */
  predicate JoinUsersStored(users: map<Id, User>, joined: set<Id>, roster: map<Id, Snapshot>, todo: set<Id>,
                            users': map<Id, User>) {
    && users'.Keys == users.Keys + (joined - todo)
    && (forall u :: u in users ==> users'[u] == users[u])
    && (forall u :: u in joined - todo && u !in users ==> users'[u].username == DisplayName(Lookup(roster, u), u))
  }

  /** The store after the join loop has handled the users of `joined - todo`. */
  predicate JoinsStored(db: Db, e: Id, joined: set<Id>, roster: map<Id, Snapshot>, todo: set<Id>, db': Db) {
    && todo <= joined
    && Valid(db')
    && JoinPartsStored(db.participations, e, joined, todo, db'.participations)
    && db'.events == db.events && db'.nextEventPk == db.nextEventPk
    && JoinUsersStored(db.users, joined, roster, todo, db'.users)
  }

  lemma JoinPartsStep(ps: set<Participation>, e: Id, joined: set<Id>, todo: set<Id>, ps': set<Participation>, u: Id)
    requires JoinPartsStored(ps, e, joined, todo, ps') && todo <= joined && u in todo
    ensures JoinPartsStored(ps, e, joined, todo - {u}, ps' + {Participation(e, u)})
  {
    var done := joined - todo;
    assert done + {u} == joined - (todo - {u});
    assert Pairs(e, done) + {Participation(e, u)} == Pairs(e, done + {u});
  }

  lemma JoinUsersStep(users: map<Id, User>, joined: set<Id>, roster: map<Id, Snapshot>, todo: set<Id>,
                      users': map<Id, User>, u: Id, users'': map<Id, User>)
    requires JoinUsersStored(users, joined, roster, todo, users') && todo <= joined && u in todo
    requires users''.Keys == users'.Keys + {u}
    requires forall x :: x in users' ==> users''[x] == users'[x]
    requires u !in users' ==> users''[u].username == DisplayName(Lookup(roster, u), u)
    ensures JoinUsersStored(users, joined, roster, todo - {u}, users'')
    ensures JoinName(users', roster, u) == JoinName(users, roster, u)
  {
    var done := joined - todo;
    assert done + {u} == joined - (todo - {u});
    assert u in users' <==> u in users;
    forall x | x in done + {u} && x !in users
      ensures users''[x].username == DisplayName(Lookup(roster, x), x)
    {
      if x != u {
        assert x in users';
      }
    }
  }

  lemma JoinsStoredStep(db: Db, e: Id, joined: set<Id>, roster: map<Id, Snapshot>, todo: set<Id>, db': Db, u: Id)
    requires JoinsStored(db, e, joined, roster, todo, db') && u in todo
    ensures Valid(db') && Participation(e, u) !in db'.participations
    ensures JoinsStored(db, e, joined, roster, todo - {u}, JoinStore(db', e, u, roster).0)
    ensures JoinStore(db', e, u, roster).1 == JoinName(db.users, roster, u)
  {
    var r := JoinStore(db', e, u, roster);
    JoinPartsStep(db.participations, e, joined, todo, db'.participations, u);
    JoinUsersStep(db.users, joined, roster, todo, db'.users, u, r.0.users);
  }

  lemma JoinsStart(db: Db, e: Id, joined: set<Id>, roster: map<Id, Snapshot>)
    requires Valid(db)
    requires forall u :: u in joined ==> Participation(e, u) !in db.participations
    ensures JoinsStored(db, e, joined, roster, joined, db)
  {
    assert joined - joined == {} && Pairs(e, {}) == {};
  }

  /** The join loop (`for user_id in new_participants`). Every newcomer gets a
      participation and, if unknown, a user named after its display name; the
      cooldown is recorded for every newcomer, and a join entry is queued only
      for those not in cooldown. */
  method ApplyJoins(db: Db, t: Table, window: int, now: int, e: Id, joined: set<Id>, roster: map<Id, Snapshot>)
    returns (db': Db, t': Table, notes: seq<Note>)
    requires Valid(db)
    requires forall u :: u in joined ==> Participation(e, u) !in db.participations
    ensures Valid(db')
    ensures db'.participations == db.participations + Pairs(e, joined)
    ensures db'.events == db.events && db'.nextEventPk == db.nextEventPk
    ensures db'.users.Keys == db.users.Keys + joined
    ensures forall u :: u in db.users ==> db'.users[u] == db.users[u]
    ensures forall u :: u in joined && u !in db.users ==>
      db'.users[u].username == DisplayName(Lookup(roster, u), u)
    ensures t' == StampAll(t, window, now, KeysOf(e, joined))
    ensures NotesFor(notes, Join, e, Unsuppressed(t, window, now, e, joined), JoinNames(db.users, roster, joined))
  {
    ghost var names := JoinNames(db.users, roster, joined);
    db', t', notes := db, t, [];
    var todo := joined;
    JoinsStart(db, e, joined, roster);
    LoggedStart(t, window, now, e, Join, names);
    while todo != {}
      invariant JoinsStored(db, e, joined, roster, todo, db')
      invariant Logged(t, window, now, e, Join, names, joined - todo, t', notes)
      decreases |todo|
    {
      var u :| u in todo;
      var stored := JoinStore(db', e, u, roster);
      JoinsStoredStep(db, e, joined, roster, todo, db', u);
      assert stored.1 == names[u];
      var entry := if InCooldown(t', window, now, u, e) then None else Some(Note(Join, e, u, stored.1));
      DoneOneMore(joined, todo, u);
      LoggedStep(t, window, now, e, Join, names, joined - todo, t', notes, u);
      db', t', notes := stored.0, Record(t', window, now, u, e), notes + OptionToSeq(entry);
      todo := todo - {u};
    }
    assert joined - todo == joined;
  }

  // ---------------------------------------------------------------------------
  // The leave loop

  /** The store after the leave loop has handled the users of `left - todo`. */
  predicate LeavesStored(db: Db, e: Id, left: set<Id>, todo: set<Id>, db': Db) {
    && todo <= left
    && (forall u :: u in todo ==> Participation(e, u) in db'.participations)
    && db' == db.(participations := db.participations - Pairs(e, left - todo))
  }

  lemma LeavesStoredStep(db: Db, e: Id, left: set<Id>, todo: set<Id>, db': Db, u: Id)
    requires LeavesStored(db, e, left, todo, db')
    requires u in todo
    ensures ParticipationRemove(db', e, u).1
    ensures LeavesStored(db, e, left, todo - {u}, ParticipationRemove(db', e, u).0)
  {
    var done := left - todo;
    assert done + {u} == left - (todo - {u});
    assert db.participations - Pairs(e, done) - {Participation(e, u)}
        == db.participations - Pairs(e, done + {u});
  }

  /** The leave loop (`for user_id in removed_participants`). Every departed
      user's participation is removed; for each removal the cooldown is
      recorded and a leave entry, named after the stored username (or the raw
      id), is queued unless the pair is in cooldown. */
  method ApplyLeaves(db: Db, t: Table, window: int, now: int, e: Id, left: set<Id>)
    returns (db': Db, t': Table, notes: seq<Note>)
    requires forall u :: u in left ==> Participation(e, u) in db.participations
    ensures db' == db.(participations := db.participations - Pairs(e, left))
    ensures t' == StampAll(t, window, now, KeysOf(e, left))
    ensures NotesFor(notes, Leave, e, Unsuppressed(t, window, now, e, left), LeaveNames(db.users, left))
  {
    ghost var names := LeaveNames(db.users, left);
    db', t', notes := db, t, [];
    var todo := left;
    assert left - todo == {} && Pairs(e, {}) == {};
    assert db' == db.(participations := db.participations - Pairs(e, left - todo));
    LoggedStart(t, window, now, e, Leave, names);
    while todo != {}
      invariant LeavesStored(db, e, left, todo, db')
      invariant Logged(t, window, now, e, Leave, names, left - todo, t', notes)
      decreases |todo|
    {
      var u :| u in todo;
      var username := LeaveName(db'.users, u);
      LeavesStoredStep(db, e, left, todo, db', u);
      var removal := ParticipationRemove(db', e, u);
      db' := removal.0;
      if removal.1 {
        var entry := if InCooldown(t', window, now, u, e) then None else Some(Note(Leave, e, u, username));
        DoneOneMore(left, todo, u);
        LoggedStep(t, window, now, e, Leave, names, left - todo, t', notes, u);
        t', notes := Record(t', window, now, u, e), notes + OptionToSeq(entry);
      }
      todo := todo - {u};
    }
    assert left - todo == left;
  }

  // ---------------------------------------------------------------------------
  // One event

  /** Remote participants not yet stored for `e`: the `new_participants` set. */
  function Arrived(db: Db, e: Id, roster: map<Id, Snapshot>): set<Id> {
    Diff(roster.Keys, ParticipantsOf(db, e)).added
  }

  /** Stored participants of `e` no longer remote: `removed_participants`. */
  function Departed(db: Db, e: Id, roster: map<Id, Snapshot>): set<Id> {
    Diff(roster.Keys, ParticipantsOf(db, e)).removed
  }

  /** Stamping pairs of users outside `us` leaves the unsuppressed part of `us` as it is. */
  lemma UnsuppressedAfterOthers(t: Table, window: int, now: int, e: Id, others: set<Id>, us: set<Id>)
    requires others !! us
    ensures Unsuppressed(StampAll(t, window, now, KeysOf(e, others)), window, now, e, us)
         == Unsuppressed(t, window, now, e, us)
  {
    forall u | u in us
      ensures InCooldown(StampAll(t, window, now, KeysOf(e, others)), window, now, u, e)
           == InCooldown(t, window, now, u, e)
    {
      StampedElsewhere(t, window, now, KeysOf(e, others), u, e);
    }
  }

  /** Adding users outside `us` and touching no existing user keeps the leave names of `us`. */
  lemma LeaveNamesKept(users: map<Id, User>, users': map<Id, User>, added: set<Id>, us: set<Id>)
    requires added !! us
    requires users'.Keys == users.Keys + added
    requires forall u :: u in users ==> users'[u] == users[u]
    ensures LeaveNames(users', us) == LeaveNames(users, us)
  {
  }

  lemma KeysOfUnion(e: Id, a: set<Id>, b: set<Id>)
    ensures KeysOf(e, a) + KeysOf(e, b) == KeysOf(e, a + b)
  {
  }

  /** The store after one event: its participants are the remote ones, the
      other events' participations are untouched, and every newcomer is a user. */
  ghost predicate EventSynced(db: Db, e: Id, roster: map<Id, Snapshot>, db': Db) {
    && Valid(db')
    && ParticipantsOf(db', e) == roster.Keys
    && (forall p: Participation :: p.eventId != e ==> (p in db'.participations <==> p in db.participations))
    && db'.events == db.events && db'.nextEventPk == db.nextEventPk
    && db'.users.Keys == db.users.Keys + Arrived(db, e, roster)
    && (forall u :: u in db.users ==> db'.users[u] == db.users[u])
    && (forall u :: u in Arrived(db, e, roster) && u !in db.users ==>
          db'.users[u].username == DisplayName(Lookup(roster, u), u))
  }

  lemma JoinsThenLeaves(db: Db, e: Id, roster: map<Id, Snapshot>, db1: Db, db': Db)
    requires Valid(db1)
    requires db1.participations == db.participations + Pairs(e, Arrived(db, e, roster))
    requires db1.events == db.events && db1.nextEventPk == db.nextEventPk
    requires db1.users.Keys == db.users.Keys + Arrived(db, e, roster)
    requires forall u :: u in db.users ==> db1.users[u] == db.users[u]
    requires forall u :: u in Arrived(db, e, roster) && u !in db.users ==>
      db1.users[u].username == DisplayName(Lookup(roster, u), u)
    requires db' == db1.(participations := db1.participations - Pairs(e, Departed(db, e, roster)))
    ensures EventSynced(db, e, roster, db')
  {
    forall u
      ensures u in ParticipantsOf(db', e) <==> u in roster.Keys
    {
    }
  }

  /** One iteration of step 2 of `sync_guild`: diff the event's remote
      participants against its stored ones, then run the join loop and the
      leave loop. Returns the entries each loop queued. */
  method SyncEvent(db: Db, t: Table, window: int, now: int, e: Id, roster: map<Id, Snapshot>)
    returns (db': Db, t': Table, joins: seq<Note>, leaves: seq<Note>)
    requires Valid(db)
    ensures EventSynced(db, e, roster, db')
    ensures t' == StampAll(t, window, now, KeysOf(e, Arrived(db, e, roster) + Departed(db, e, roster)))
    ensures NotesFor(joins, Join, e, Unsuppressed(t, window, now, e, Arrived(db, e, roster)),
                     JoinNames(db.users, roster, Arrived(db, e, roster)))
    ensures NotesFor(leaves, Leave, e, Unsuppressed(t, window, now, e, Departed(db, e, roster)),
                     LeaveNames(db.users, Departed(db, e, roster)))
  {
    var d := Diff(roster.Keys, ParticipantsOf(db, e));
    var db1, t1;
    db1, t1, joins := ApplyJoins(db, t, window, now, e, d.added, roster);
    db', t', leaves := ApplyLeaves(db1, t1, window, now, e, d.removed);
    JoinsThenLeaves(db, e, roster, db1, db');
    UnsuppressedAfterOthers(t, window, now, e, d.added, d.removed);
    StampAllUnion(t, window, now, KeysOf(e, d.added), KeysOf(e, d.removed));
    KeysOfUnion(e, d.added, d.removed);
    LeaveNamesKept(db.users, db1.users, d.added, d.removed);
  }
}
