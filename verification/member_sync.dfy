/** `_sync_members_table`: the user table is brought in line with the guild's
    member list. Members are given as a map from discord id to display name:
    `fetched` is what the member fetch returned (possibly partial or empty
    after a failure), `cached` the gateway's cached member list. */
module MemberSync {
  import opened Wrappers
  import opened Store
  import opened Differ
  import opened SyncSteps

  /** `members_map`: the fetched members, or the cached ones when the fetch
      returned nobody. */
  function EffectiveMembers(fetched: map<Id, string>, cached: map<Id, string>): map<Id, string> {
    if |fetched| == 0 then cached else fetched
  }

  // ---------------------------------------------------------------------------
  // Adding the members the store does not know

  predicate AddsDone(db: Db, members: map<Id, string>, added: set<Id>, todo: set<Id>, db': Db) {
    && todo <= added <= members.Keys
    && Valid(db')
    && (forall u :: u in todo ==> u !in db'.users)
    && db'.users.Keys == db.users.Keys + (added - todo)
    && (forall u :: u in db.users ==> db'.users[u] == db.users[u])
    && (forall u :: u in added - todo ==>
          db'.users[u].username == members[u] && db'.users[u].officialName == members[u])
    && db'.participations == db.participations
    && db'.events == db.events && db'.nextEventPk == db.nextEventPk
  }

  lemma AddsStep(db: Db, members: map<Id, string>, added: set<Id>, todo: set<Id>, db': Db, u: Id)
    requires AddsDone(db, members, added, todo, db') && u in todo
    ensures AddsDone(db, members, added, todo - {u}, UserGetOrCreate(db', u, members[u], None).0)
  {
    DoneOneMore(added, todo, u);
  }

  /** `for user_id in new_member_ids`: each new member becomes a user named
      after its display name. */
  method AddMembers(db: Db, members: map<Id, string>, added: set<Id>) returns (db': Db)
    requires Valid(db) && added <= members.Keys && added !! db.users.Keys
    ensures AddsDone(db, members, added, {}, db')
  {
    db' := db;
    var todo := added;
    assert added - todo == {};
    while todo != {}
      invariant AddsDone(db, members, added, todo, db')
      decreases |todo|
    {
      var u :| u in todo;
      AddsStep(db, members, added, todo, db', u);
      db' := UserGetOrCreate(db', u, members[u], None).0;
      todo := todo - {u};
    }
  }

  // ---------------------------------------------------------------------------
  // Deleting the users who are no longer members

  ghost predicate RemovesDone(db: Db, gone: set<Id>, todo: set<Id>, db': Db) {
    && todo <= gone <= db.users.Keys
    && Valid(db')
    && db'.users.Keys == db.users.Keys - (gone - todo)
    && (forall u :: u in db'.users ==> db'.users[u] == db.users[u])
    && (forall p :: p in db'.participations <==> p in db.participations && p.userId !in gone - todo)
    && db'.events == db.events
    && db'.nextUserPk == db.nextUserPk && db'.nextEventPk == db.nextEventPk
  }

  lemma RemovesStep(db: Db, gone: set<Id>, todo: set<Id>, db': Db, u: Id)
    requires Valid(db) && RemovesDone(db, gone, todo, db') && u in todo
    ensures u in db'.users && db'.users[u] == db.users[u]
    ensures RemovesDone(db, gone, todo - {u}, UserDelete(db', db.users[u].pk).0)
  {
    DoneOneMore(gone, todo, u);
    var after := UserDelete(db', db.users[u].pk).0;
    assert after.users.Keys == db'.users.Keys - {u};
  }

  /** `for user_id in removed_member_ids`: each user found in the snapshot
      taken before the additions is deleted by primary key, together with its
      participations. */
  method RemoveMembers(db: Db, snapshot: map<Id, User>, gone: set<Id>) returns (db': Db)
    requires Valid(db) && gone <= db.users.Keys
    requires forall u :: u in gone ==> u in snapshot && snapshot[u] == db.users[u]
    ensures RemovesDone(db, gone, {}, db')
  {
    db' := db;
    var todo := gone;
    assert gone - todo == {};
    assert forall p :: p in db'.participations <==> p in db.participations && p.userId !in gone - todo;
    while todo != {}
      invariant RemovesDone(db, gone, todo, db')
      decreases |todo|
    {
      var u :| u in todo;
      RemovesStep(db, gone, todo, db', u);
      var user := if u in snapshot then Some(snapshot[u]) else None;
      if user.Some? {
        db' := UserDelete(db', user.value.pk).0;
      }
      todo := todo - {u};
    }
  }

  // ---------------------------------------------------------------------------
  // The whole table

  /** The user table agrees with `members`: users who stay are untouched,
      newcomers carry their display name, and only the participations of
      deleted users are gone. */
  ghost predicate MembersSynced(db: Db, members: map<Id, string>, db': Db) {
    && Valid(db')
    && db'.users.Keys == members.Keys
    && (forall u :: u in members && u in db.users ==> db'.users[u] == db.users[u])
    && (forall u :: u in members && u !in db.users ==>
          db'.users[u].username == members[u] && db'.users[u].officialName == members[u])
    && (forall p :: p in db'.participations <==>
          p in db.participations && (p.userId in members || p.userId !in db.users))
    && db'.events == db.events
  }

  lemma AddThenRemove(db: Db, members: map<Id, string>, db1: Db, db': Db)
    requires AddsDone(db, members, members.Keys - db.users.Keys, {}, db1)
    requires RemovesDone(db1, db.users.Keys - members.Keys, {}, db')
    ensures MembersSynced(db, members, db')
  {
    var added, gone := members.Keys - db.users.Keys, db.users.Keys - members.Keys;
    assert added - {} == added && gone - {} == gone;
    forall p
      ensures p in db'.participations <==>
              p in db.participations && (p.userId in members || p.userId !in db.users)
    {
    }
  }

  /** `_sync_members_table`: afterwards the users are exactly the members (see
      `MembersSynced`). Returns the number of users added and deleted. */
  method SyncMembersTable(db: Db, fetched: map<Id, string>, cached: map<Id, string>)
    returns (db': Db, added: nat, removed: nat)
    requires Valid(db)
    ensures MembersSynced(db, EffectiveMembers(fetched, cached), db')
    ensures added == |EffectiveMembers(fetched, cached).Keys - db.users.Keys|
    ensures removed == |db.users.Keys - EffectiveMembers(fetched, cached).Keys|
  {
    var members := EffectiveMembers(fetched, cached);
    var snapshot := db.users;
    var d := Diff(members.Keys, db.users.Keys);
    var db1 := AddMembers(db, members, d.added);
    db' := RemoveMembers(db1, snapshot, d.removed);
    AddThenRemove(db, members, db1, db');
    added, removed := |d.added|, |d.removed|;
  }

  /** A second member synchronisation against the same member list changes
      nothing: same users, same participations, same events. */
  lemma MembersSyncIdempotent(db: Db, members: map<Id, string>, db': Db, db'': Db)
    requires MembersSynced(db, members, db')
    requires MembersSynced(db', members, db'')
    ensures db''.users == db'.users
    ensures db''.participations == db'.participations
    ensures db''.events == db'.events
  {
  }
}
