/** The relational store behind the unit of work, as immutable maps: the user,
    event and participation repositories of `sqlite_repository.py`.

    Users and events are keyed by their Discord id, which the schema declares
    unique; each row also keeps its autoincrement primary key, because
    `delete(id)` addresses rows by that key. Participations form a SET of
    (event id, user id) pairs: the schema's unique constraint on that pair is
    what makes a set the faithful representation. */
module Store {
  import opened Wrappers

  /** A Discord snowflake as the store keeps it: text. */
  type Id = string

  datatype User = User(pk: nat, username: string, officialName: string)
  datatype Event = Event(pk: nat, name: string, isPassed: bool)
  datatype Participation = Participation(eventId: Id, userId: Id)

  datatype Db = Db(
    users: map<Id, User>,
    events: map<Id, Event>,
    participations: set<Participation>,
    nextUserPk: nat,
    nextEventPk: nat)

  /** Errors the database raises at flush time. */
  datatype DbError = UniqueViolation

  /** Store invariant: primary keys are below the autoincrement counter and
      distinct within each table. */
  predicate Valid(db: Db) {
    && (forall d :: d in db.users ==> db.users[d].pk < db.nextUserPk)
    && (forall d, d' :: d in db.users && d' in db.users && db.users[d].pk == db.users[d'].pk ==> d == d')
    && (forall d :: d in db.events ==> db.events[d].pk < db.nextEventPk)
    && (forall d, d' :: d in db.events && d' in db.events && db.events[d].pk == db.events[d'].pk ==> d == d')
  }

  const Empty := Db(map[], map[], {}, 0, 0)

  lemma EmptyValid()
    ensures Valid(Empty)
  {
  }

  // ---------------------------------------------------------------------------
  // Users

  function UserByDiscordId(db: Db, d: Id): Option<User> {
    if d in db.users then Some(db.users[d]) else None
  }

  /** `official_name or username`: an absent or empty official name falls back
      to the username. */
  function OfficialOr(officialName: Option<string>, username: string): string {
    if officialName.Some? && officialName.value != "" then officialName.value else username
  }

  /** `get_or_create_by_discord_id`: an unknown id gets a new user with the next
      primary key; a known id keeps its row and only takes the new username. */
  function UserGetOrCreate(db: Db, d: Id, username: string, officialName: Option<string>): (r: (Db, User))
    ensures r.0.users.Keys == db.users.Keys + {d}
    ensures r.0.users[d] == r.1 && r.1.username == username
    ensures forall k :: k in db.users && k != d ==> r.0.users[k] == db.users[k]
    ensures d in db.users ==>
      r.1.pk == db.users[d].pk && r.1.officialName == db.users[d].officialName && r.0.nextUserPk == db.nextUserPk
    ensures d !in db.users ==>
      r.1.pk == db.nextUserPk && r.0.nextUserPk == db.nextUserPk + 1
      && r.1.officialName == OfficialOr(officialName, username)
    ensures r.0.events == db.events && r.0.participations == db.participations
    ensures r.0.nextEventPk == db.nextEventPk
    ensures Valid(db) ==> Valid(r.0)
  {
    if d in db.users then
      var u := db.users[d].(username := username);
      (db.(users := db.users[d := u]), u)
    else
      var u := User(db.nextUserPk, username, OfficialOr(officialName, username));
      (db.(users := db.users[d := u], nextUserPk := db.nextUserPk + 1), u)
  }

  /** Asking twice for the same user with the same name is asking once. */
  lemma GetOrCreateIdempotent(db: Db, d: Id, username: string, officialName: Option<string>)
    ensures var once := UserGetOrCreate(db, d, username, officialName);
      UserGetOrCreate(once.0, d, username, officialName) == once
  {
    var once := UserGetOrCreate(db, d, username, officialName);
    assert once.0.users[d := once.1] == once.0.users;
  }

  /** `update_username`: `None` and no change for an unknown id; otherwise that
      user's username is replaced and nothing else changes. */
  function UserUpdateUsername(db: Db, d: Id, newName: string): (r: (Db, Option<User>))
    ensures d !in db.users ==> r == (db, None)
    ensures d in db.users ==>
      && r.1 == Some(db.users[d].(username := newName))
      && r.0 == db.(users := db.users[d := r.1.value])
    ensures Valid(db) ==> Valid(r.0)
  {
    if d in db.users then
      var u := db.users[d].(username := newName);
      (db.(users := db.users[d := u]), Some(u))
    else (db, None)
  }

  /** `delete(id)` on the user repository: true iff a user with that primary key
      existed. The ORM relationship is declared with cascade delete, so the
      user's participations go with it. */
  function UserDelete(db: Db, pk: nat): (r: (Db, bool))
    ensures r.1 <==> exists d :: d in db.users && db.users[d].pk == pk
    ensures forall d :: d in r.0.users <==> d in db.users && db.users[d].pk != pk
    ensures forall d :: d in r.0.users ==> r.0.users[d] == db.users[d]
    ensures forall p :: p in r.0.participations <==>
      p in db.participations && !(p.userId in db.users && db.users[p.userId].pk == pk)
    ensures r.0.events == db.events
    ensures r.0.nextUserPk == db.nextUserPk && r.0.nextEventPk == db.nextEventPk
    ensures Valid(db) ==> Valid(r.0)
  {
    var gone := set d | d in db.users && db.users[d].pk == pk;
    var db' := db.(
      users := db.users - gone,
      participations := set p | p in db.participations && p.userId !in gone);
    (db', exists d :: d in db.users && db.users[d].pk == pk)
  }

  /** In a valid store primary keys are distinct, so a successful delete
      removes exactly one user. */
  lemma UserDeleteRemovesOne(db: Db, pk: nat)
    requires Valid(db) && UserDelete(db, pk).1
    ensures |UserDelete(db, pk).0.users| == |db.users| - 1
  {
    var d :| d in db.users && db.users[d].pk == pk;
    var after := UserDelete(db, pk).0.users;
    assert after.Keys == db.users.Keys - {d};
  }

  // ---------------------------------------------------------------------------
  // Events

  /** `create_by_discord_id`: a new, not-yet-passed event with the next primary
      key; the unique Discord id column makes a second row with the same id an
      error. */
  function EventCreate(db: Db, d: Id, name: string): (r: Result<(Db, Event), DbError>)
    ensures d in db.events <==> r.Failure?
    ensures r.Success? ==>
      && r.value.1 == Event(db.nextEventPk, name, false)
      && r.value.0.events == db.events[d := r.value.1]
      && r.value.0.nextEventPk == db.nextEventPk + 1
      && r.value.0.users == db.users && r.value.0.participations == db.participations
      && r.value.0.nextUserPk == db.nextUserPk
    ensures r.Success? && Valid(db) ==> Valid(r.value.0)
  {
    if d in db.events then Failure(UniqueViolation)
    else
      var e := Event(db.nextEventPk, name, false);
      Success((db.(events := db.events[d := e], nextEventPk := db.nextEventPk + 1), e))
  }

  /** `update_name`: `None` and no change for an unknown id. */
  function EventUpdateName(db: Db, d: Id, newName: string): (r: (Db, Option<Event>))
    ensures d !in db.events ==> r == (db, None)
    ensures d in db.events ==>
      && r.1 == Some(db.events[d].(name := newName))
      && r.0 == db.(events := db.events[d := r.1.value])
    ensures Valid(db) ==> Valid(r.0)
  {
    if d in db.events then
      var e := db.events[d].(name := newName);
      (db.(events := db.events[d := e]), Some(e))
    else (db, None)
  }

  /** `mark_as_passed`: sets the flag on the matching event, `None` and no
      change when there is none. */
  function EventMarkAsPassed(db: Db, d: Id): (r: (Db, Option<Event>))
    ensures d !in db.events ==> r == (db, None)
    ensures d in db.events ==>
      && r.1 == Some(db.events[d].(isPassed := true))
      && r.0 == db.(events := db.events[d := r.1.value])
    ensures Valid(db) ==> Valid(r.0)
  {
    if d in db.events then
      var e := db.events[d].(isPassed := true);
      (db.(events := db.events[d := e]), Some(e))
    else (db, None)
  }

  /** Marking an event passed twice is marking it once. */
  lemma MarkAsPassedIdempotent(db: Db, d: Id)
    ensures var once := EventMarkAsPassed(db, d);
      EventMarkAsPassed(once.0, d) == once
  {
    var once := EventMarkAsPassed(db, d);
    if d in db.events {
      assert once.0.events[d := once.1.value] == once.0.events;
    }
  }

  /** `get_active_events`: the events whose `is_passed` flag is false. */
  function ActiveEvents(db: Db): (active: map<Id, Event>)
    ensures forall d :: d in active <==> d in db.events && !db.events[d].isPassed
    ensures forall d :: d in active ==> active[d] == db.events[d]
  {
    map d | d in db.events && !db.events[d].isPassed :: db.events[d]
  }

  /** An event that was marked passed is no longer active, and no other event
      changes its active status. */
  lemma MarkAsPassedLeavesActive(db: Db, d: Id)
    requires d in db.events
    ensures var after := ActiveEvents(EventMarkAsPassed(db, d).0);
      after.Keys == ActiveEvents(db).Keys - {d}
  {
  }

  /** `delete(id)` on the event repository, cascading to its participations. */
  function EventDelete(db: Db, pk: nat): (r: (Db, bool))
    ensures r.1 <==> exists d :: d in db.events && db.events[d].pk == pk
    ensures forall d :: d in r.0.events <==> d in db.events && db.events[d].pk != pk
    ensures forall d :: d in r.0.events ==> r.0.events[d] == db.events[d]
    ensures forall p :: p in r.0.participations <==>
      p in db.participations && !(p.eventId in db.events && db.events[p.eventId].pk == pk)
    ensures r.0.users == db.users
    ensures r.0.nextUserPk == db.nextUserPk && r.0.nextEventPk == db.nextEventPk
    ensures Valid(db) ==> Valid(r.0)
  {
    var gone := set d | d in db.events && db.events[d].pk == pk;
    var db' := db.(
      events := db.events - gone,
      participations := set p | p in db.participations && p.eventId !in gone);
    (db', exists d :: d in db.events && db.events[d].pk == pk)
  }

  // ---------------------------------------------------------------------------
  // Participations

  /** `get_by_event`: exactly the participations of one event. */
  function ParticipationsOf(db: Db, e: Id): (ps: set<Participation>)
    ensures forall p :: p in ps <==> p in db.participations && p.eventId == e
  {
    set p | p in db.participations && p.eventId == e
  }

  /** The user ids registered for event `e`. */
  function ParticipantsOf(db: Db, e: Id): (us: set<Id>)
    ensures forall u :: u in us <==> Participation(e, u) in db.participations
  {
    set p | p in ParticipationsOf(db, e) :: p.userId
  }

  /** `create_participation`: inserts without looking first; the unique
      constraint on (event, user) rejects a second row at flush. */
  function ParticipationCreate(db: Db, e: Id, u: Id): (r: Result<Db, DbError>)
    ensures Participation(e, u) in db.participations <==> r.Failure?
    ensures r.Success? ==>
      r.value == db.(participations := db.participations + {Participation(e, u)})
  {
    if Participation(e, u) in db.participations then Failure(UniqueViolation)
    else Success(db.(participations := db.participations + {Participation(e, u)}))
  }

  /** `remove_participation`: true iff the pair was registered, in which case it
      is deleted; false leaves the store as it was. */
  function ParticipationRemove(db: Db, e: Id, u: Id): (r: (Db, bool))
    ensures r.1 <==> Participation(e, u) in db.participations
    ensures r.0.participations == db.participations - {Participation(e, u)}
    ensures r.0.users == db.users && r.0.events == db.events
    ensures r.0.nextUserPk == db.nextUserPk && r.0.nextEventPk == db.nextEventPk
    ensures !r.1 ==> r.0 == db
  {
    var p := Participation(e, u);
    if p in db.participations then (db.(participations := db.participations - {p}), true)
    else (db, false)
  }

  /** Removing a registered pair and creating it again restores the store, and
      creating an absent pair then removing it does too. */
  lemma CreateRemoveInverse(db: Db, e: Id, u: Id)
    ensures Participation(e, u) in db.participations ==>
      ParticipationCreate(ParticipationRemove(db, e, u).0, e, u) == Success(db)
    ensures Participation(e, u) !in db.participations ==>
      ParticipationRemove(ParticipationCreate(db, e, u).value, e, u) == (db, true)
  {
    var p := Participation(e, u);
    if p in db.participations {
      assert db.participations - {p} + {p} == db.participations;
    } else {
      assert db.participations + {p} - {p} == db.participations;
    }
  }

  /** What `get_by_event` sees after the two writes: inserting a pair adds it
      to its own event's participations only, and removing a pair takes it
      out of its event's participations and touches no other event. */
  lemma ParticipationsOfAfterWrites(db: Db, e: Id, u: Id, x: Id)
    ensures ParticipationCreate(db, e, u).Success? ==>
      ParticipationsOf(ParticipationCreate(db, e, u).value, x)
        == ParticipationsOf(db, x) + (if x == e then {Participation(e, u)} else {})
    ensures ParticipationsOf(ParticipationRemove(db, e, u).0, x) == ParticipationsOf(db, x) - {Participation(e, u)}
    ensures x != e ==> ParticipationsOf(ParticipationRemove(db, e, u).0, x) == ParticipationsOf(db, x)
  {
    var p := Participation(e, u);
    if p !in db.participations {
      var c := ParticipationCreate(db, e, u).value;
      assert ParticipationsOf(c, x) == ParticipationsOf(db, x) + (if x == e then {p} else {});
    }
    var r := ParticipationRemove(db, e, u).0;
    assert ParticipationsOf(r, x) == ParticipationsOf(db, x) - {p};
  }

  // ---------------------------------------------------------------------------
  // Statistics

  datatype Stats = Stats(users: nat, activeEvents: nat, participations: nat, games: nat)

  /** `get_stats`: row counts per table; the games table is not part of this
      model and is counted as empty. */
  function GetStats(db: Db): (s: Stats)
    ensures s.users == |db.users| && s.participations == |db.participations|
    ensures s.activeEvents == |ActiveEvents(db)|
    ensures s.games == 0
  {
    Stats(|db.users|, |ActiveEvents(db)|, |db.participations|, 0)
  }

  /** A successful participation insert raises the participation count by one
      and leaves the other counts alone. */
  lemma StatsAfterCreate(db: Db, e: Id, u: Id)
    requires ParticipationCreate(db, e, u).Success?
    ensures var after := GetStats(ParticipationCreate(db, e, u).value);
      after == GetStats(db).(participations := GetStats(db).participations + 1)
  {
  }
}
