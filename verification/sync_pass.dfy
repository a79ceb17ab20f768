/** `SynchronizationService.sync_guild`: the full reconciliation pass.

    The guild's scheduled events are given as `order`, the listing order of
    their ids (each listed once, as they come from a dictionary), and `remote`,
    each event's name and the participants its roster fetch returned. The
    member lists, the cooldown window, the current time, whether the final
    commit raises, whether a notification channel was found and the header text
    are inputs too. */
module SyncPass {
  import opened Wrappers
  import opened Store
  import opened Cooldown
  import opened Notify
  import opened Differ
  import opened UnitOfWork
  import opened SyncSteps
  import opened MemberSync

  datatype RemoteEvent = RemoteEvent(name: string, roster: map<Id, Snapshot>)

  predicate Distinct(order: seq<Id>) {
    forall i, j :: 0 <= i < j < |order| ==> order[i] != order[j]
  }

  /** The guild's event listing: ids listed once each, each with its data, and
      nothing else in `remote`. */
  predicate Listing(order: seq<Id>, remote: map<Id, RemoteEvent>) {
    && Distinct(order)
    && (forall i :: 0 <= i < |order| ==> order[i] in remote)
    && (forall e :: e in remote ==> e in order)
  }

  /** The ids of the first `i` listed events. */
  function ListedBefore(order: seq<Id>, i: nat): set<Id>
    requires i <= |order|
  {
    set k | 0 <= k < i :: order[k]
  }

  // ---------------------------------------------------------------------------
  // Step 1: events the store does not know yet

  /** One iteration: create the event unless its id was among the stored ones. */
  function CreateIfMissing(db: Db, known: set<Id>, e: Id, name: string): (r: Db)
    requires Valid(db) && known <= db.events.Keys && (e !in known ==> e !in db.events)
    ensures Valid(r)
    ensures r.events.Keys == db.events.Keys + {e}
    ensures forall x :: x in db.events ==> r.events[x] == db.events[x]
    ensures e !in db.events ==> r.events[e].name == name && !r.events[e].isPassed
    ensures r.users == db.users && r.participations == db.participations && r.nextUserPk == db.nextUserPk
  {
    if e in known then db else EventCreate(db, e, name).value.0
  }

  /** The store once the first `i` listed events have been looked at: each of
      them is stored, the new ones with the remote name and not passed. */
  predicate CreatedUpTo(db: Db, order: seq<Id>, remote: map<Id, RemoteEvent>, i: nat, db': Db)
    requires i <= |order| && forall k :: 0 <= k < |order| ==> order[k] in remote
  {
    && Valid(db')
    && db'.events.Keys == db.events.Keys + ListedBefore(order, i)
    && (forall e :: e in db.events ==> db'.events[e] == db.events[e])
    && (forall k :: 0 <= k < i && order[k] !in db.events ==>
          db'.events[order[k]].name == remote[order[k]].name && !db'.events[order[k]].isPassed)
    && db'.users == db.users && db'.participations == db.participations && db'.nextUserPk == db.nextUserPk
  }

  lemma ListedOneMore(order: seq<Id>, i: nat)
    requires Distinct(order) && i < |order|
    ensures ListedBefore(order, i + 1) == ListedBefore(order, i) + {order[i]}
    ensures order[i] !in ListedBefore(order, i)
  {
  }

  lemma CreatedNamesStep(db: Db, order: seq<Id>, remote: map<Id, RemoteEvent>, i: nat, db': Db, r: Db)
    requires Distinct(order) && i < |order| && forall k :: 0 <= k < |order| ==> order[k] in remote
    requires db'.events.Keys == db.events.Keys + ListedBefore(order, i)
    requires forall k :: 0 <= k < i && order[k] !in db.events ==>
      db'.events[order[k]].name == remote[order[k]].name && !db'.events[order[k]].isPassed
    requires r.events.Keys == db'.events.Keys + {order[i]}
    requires forall x :: x in db'.events ==> r.events[x] == db'.events[x]
    requires order[i] !in db'.events ==> r.events[order[i]].name == remote[order[i]].name && !r.events[order[i]].isPassed
    ensures forall k :: 0 <= k < i + 1 && order[k] !in db.events ==>
      r.events[order[k]].name == remote[order[k]].name && !r.events[order[k]].isPassed
  {
    ListedOneMore(order, i);
    forall k | 0 <= k < i + 1 && order[k] !in db.events
      ensures r.events[order[k]].name == remote[order[k]].name && !r.events[order[k]].isPassed
    {
      if k < i {
        assert order[k] != order[i] && order[k] in ListedBefore(order, i);
      }
    }
  }

  lemma CreatedStep(db: Db, order: seq<Id>, remote: map<Id, RemoteEvent>, i: nat, db': Db)
    requires Distinct(order) && i < |order| && forall k :: 0 <= k < |order| ==> order[k] in remote
    requires CreatedUpTo(db, order, remote, i, db')
    ensures order[i] !in db.events ==> order[i] !in db'.events
    ensures CreatedUpTo(db, order, remote, i + 1,
                        CreateIfMissing(db', db.events.Keys, order[i], remote[order[i]].name))
  {
    ListedOneMore(order, i);
    var r := CreateIfMissing(db', db.events.Keys, order[i], remote[order[i]].name);
    CreatedNamesStep(db, order, remote, i, db', r);
  }

  /** Step 1 of `sync_guild`: every listed event the store did not hold
      (judged on the ids read before the loop) is created with its remote name. */
  method CreateMissingEvents(db: Db, order: seq<Id>, remote: map<Id, RemoteEvent>) returns (db': Db)
    requires Valid(db) && Listing(order, remote)
    ensures CreatedUpTo(db, order, remote, |order|, db')
  {
    var known := db.events.Keys;
    db' := db;
    assert ListedBefore(order, 0) == {};
    for i := 0 to |order|
      invariant CreatedUpTo(db, order, remote, i, db')
    {
      CreatedStep(db, order, remote, i, db');
      db' := CreateIfMissing(db', known, order[i], remote[order[i]].name);
    }
  }

  // ---------------------------------------------------------------------------
  // Step 2: participations, event by event

  /** What a pass queues, as an (action, event, user) triple. */
  datatype Tag = Tag(action: Action, eventId: Id, userId: Id)

  function TagOf(n: Note): Tag {
    Tag(n.action, n.eventId, n.userId)
  }

  function Tags(notes: seq<Note>): set<Tag> {
    set i | 0 <= i < |notes| :: TagOf(notes[i])
  }

  /** The (user, event) pair an entry is about. */
  function PairOf(n: Note): Key {
    Key(n.userId, n.eventId)
  }

  function PairsOf(notes: seq<Note>): set<Key> {
    set i | 0 <= i < |notes| :: PairOf(notes[i])
  }

  /** No (event, user) pair is queued twice. */
  predicate OncePerPair(notes: seq<Note>) {
    forall i, j :: 0 <= i < j < |notes| ==> PairOf(notes[i]) != PairOf(notes[j])
  }

  /** Entries about users stored before the pass carry the stored username. */
  predicate NamedAsStored(users: map<Id, User>, notes: seq<Note>) {
    forall j :: 0 <= j < |notes| && notes[j].userId in users ==> notes[j].username == users[notes[j].userId].username
  }

  /** Independent statement of which entries the pass owes: a join for every
      remote participant of a listed event who was not stored as one, a leave
      for every stored participant who is no longer remote, each only when its
      pair was not in cooldown when the pass began. */
  predicate Owed(db: Db, t: Table, window: int, now: int, remote: map<Id, RemoteEvent>, g: Tag) {
    && g.eventId in remote
    && !InCooldown(t, window, now, g.userId, g.eventId)
    && match g.action
       case Join =>
         g.userId in remote[g.eventId].roster && Participation(g.eventId, g.userId) !in db.participations
       case Leave =>
         g.userId !in remote[g.eventId].roster && Participation(g.eventId, g.userId) in db.participations
  }

  /** The users that events `done` bring in. */
  ghost function Arrivals(db: Db, remote: map<Id, RemoteEvent>, done: set<Id>): set<Id> {
    set e, u | e in done && e in remote && u in Arrived(db, e, remote[e].roster) :: u
  }

  /** The cooldown pairs that events `done` stamp. */
  ghost function Changes(db: Db, remote: map<Id, RemoteEvent>, done: set<Id>): set<Key> {
    set e, u | e in done && e in remote
                && u in Arrived(db, e, remote[e].roster) + Departed(db, e, remote[e].roster) :: Key(u, e)
  }

  lemma ArrivalsOneMore(db: Db, remote: map<Id, RemoteEvent>, done: set<Id>, e: Id)
    requires e in remote
    ensures Arrivals(db, remote, done + {e}) == Arrivals(db, remote, done) + Arrived(db, e, remote[e].roster)
  {
    var a := Arrivals(db, remote, done + {e});
    var b := Arrivals(db, remote, done) + Arrived(db, e, remote[e].roster);
    forall u | u in a ensures u in b {
      var e', u' :| e' in done + {e} && e' in remote && u' in Arrived(db, e', remote[e'].roster) && u' == u;
    }
    forall u | u in b ensures u in a {
      if u in Arrived(db, e, remote[e].roster) {
        assert e in done + {e};
      } else {
        var e', u' :| e' in done && e' in remote && u' in Arrived(db, e', remote[e'].roster) && u' == u;
        assert e' in done + {e};
      }
    }
  }

  lemma ChangesOneMore(db: Db, remote: map<Id, RemoteEvent>, done: set<Id>, e: Id)
    requires e in remote
    ensures Changes(db, remote, done + {e})
         == Changes(db, remote, done) + KeysOf(e, Arrived(db, e, remote[e].roster) + Departed(db, e, remote[e].roster))
  {
    var a := Changes(db, remote, done + {e});
    var b := Changes(db, remote, done) + KeysOf(e, Arrived(db, e, remote[e].roster) + Departed(db, e, remote[e].roster));
    forall k | k in a ensures k in b {
      var e', u :| e' in done + {e} && e' in remote
        && u in Arrived(db, e', remote[e'].roster) + Departed(db, e', remote[e'].roster) && Key(u, e') == k;
    }
    forall k | k in b ensures k in a {
      if k.eventId == e && k.userId in Arrived(db, e, remote[e].roster) + Departed(db, e, remote[e].roster) {
        assert e in done + {e};
        assert Key(k.userId, e) == k;
      } else {
        var e', u :| e' in done && e' in remote
          && u in Arrived(db, e', remote[e'].roster) + Departed(db, e', remote[e'].roster) && Key(u, e') == k;
        assert e' in done + {e};
      }
    }
  }

  /** Every stamped pair belongs to an event of `done`. */
  lemma ChangesBelongToDone(db: Db, remote: map<Id, RemoteEvent>, done: set<Id>, k: Key)
    requires k in Changes(db, remote, done)
    ensures k.eventId in done
  {
  }

  // The three parts of the step-2 loop's invariant, after the first `i` listed events.

  /** The participations: listed events handled so far mirror their rosters,
      and the others are as they were. */
  ghost predicate PartsAfter(db0: Db, order: seq<Id>, remote: map<Id, RemoteEvent>, i: nat, db: Db)
    requires i <= |order|
  {
    && (forall p: Participation :: p.eventId !in ListedBefore(order, i) ==>
          (p in db.participations <==> p in db0.participations))
    && (forall k :: 0 <= k < i && order[k] in remote ==>
          ParticipantsOf(db, order[k]) == remote[order[k]].roster.Keys)
  }

  /** The users and events: the newcomers of the events handled so far are
      users, stored users and events are untouched. */
  ghost predicate UsersAfter(db0: Db, order: seq<Id>, remote: map<Id, RemoteEvent>, i: nat, db: Db)
    requires i <= |order|
  {
    && db.events == db0.events && db.nextEventPk == db0.nextEventPk
    && db.users.Keys == db0.users.Keys + Arrivals(db0, remote, ListedBefore(order, i))
    && (forall u :: u in db0.users ==> db.users[u] == db0.users[u])
  }

  /** A queue holding one entry per pair, exactly the entries owed for the
      events of `done`, with stored users named as stored. */
  ghost predicate QueueOwed(db0: Db, t0: Table, window: int, now: int, remote: map<Id, RemoteEvent>,
                            done: set<Id>, notes: seq<Note>) {
    && OncePerPair(notes)
    && (forall g :: g in Tags(notes) <==> g.eventId in done && Owed(db0, t0, window, now, remote, g))
    && NamedAsStored(db0.users, notes)
  }

  /** Handling event `e` moves only `e`'s participations. */
  lemma OtherEventsKept(order: seq<Id>, remote: map<Id, RemoteEvent>, i: nat, db: Db, db': Db)
    requires Distinct(order) && i < |order|
    requires forall k :: 0 <= k < i && order[k] in remote ==>
      ParticipantsOf(db, order[k]) == remote[order[k]].roster.Keys
    requires order[i] in remote && ParticipantsOf(db', order[i]) == remote[order[i]].roster.Keys
    requires forall p: Participation :: p.eventId != order[i] ==>
      (p in db'.participations <==> p in db.participations)
    ensures forall k :: 0 <= k < i + 1 && order[k] in remote ==>
      ParticipantsOf(db', order[k]) == remote[order[k]].roster.Keys
  {
    forall k | 0 <= k < i && order[k] in remote
      ensures ParticipantsOf(db', order[k]) == remote[order[k]].roster.Keys
    {
      assert order[k] != order[i];
      assert ParticipantsOf(db', order[k]) == ParticipantsOf(db, order[k]);
    }
  }

  /** An event not yet handled still has its participants from before the pass. */
  lemma NotYetHandled(db0: Db, order: seq<Id>, remote: map<Id, RemoteEvent>, i: nat, db: Db)
    requires Distinct(order) && i < |order|
    requires PartsAfter(db0, order, remote, i, db)
    ensures ParticipantsOf(db, order[i]) == ParticipantsOf(db0, order[i])
  {
    ListedOneMore(order, i);
  }

  lemma PartsStep(db0: Db, order: seq<Id>, remote: map<Id, RemoteEvent>, i: nat, db: Db, db': Db)
    requires Listing(order, remote) && i < |order|
    requires PartsAfter(db0, order, remote, i, db)
    requires EventSynced(db, order[i], remote[order[i]].roster, db')
    ensures PartsAfter(db0, order, remote, i + 1, db')
  {
    ListedOneMore(order, i);
    OtherEventsKept(order, remote, i, db, db');
  }

  lemma UsersStep(db0: Db, order: seq<Id>, remote: map<Id, RemoteEvent>, i: nat, db: Db, db': Db)
    requires Distinct(order) && i < |order| && order[i] in remote
    requires UsersAfter(db0, order, remote, i, db)
    requires ParticipantsOf(db, order[i]) == ParticipantsOf(db0, order[i])
    requires db'.events == db.events && db'.nextEventPk == db.nextEventPk
    requires db'.users.Keys == db.users.Keys + Arrived(db, order[i], remote[order[i]].roster)
    requires forall u :: u in db.users ==> db'.users[u] == db.users[u]
    ensures UsersAfter(db0, order, remote, i + 1, db')
  {
    var e := order[i];
    ListedOneMore(order, i);
    ArrivalsOneMore(db0, remote, ListedBefore(order, i), e);
    assert Arrived(db, e, remote[e].roster) == Arrived(db0, e, remote[e].roster);
  }

  /** The cooldown table after the first `i` listed events: every pair they
      changed is stamped with the pass's time. */
  lemma StampsStep(db0: Db, t0: Table, window: int, now: int, order: seq<Id>, remote: map<Id, RemoteEvent>,
                   i: nat, db: Db, t: Table, t': Table)
    requires Distinct(order) && i < |order| && order[i] in remote
    requires t == StampAll(t0, window, now, Changes(db0, remote, ListedBefore(order, i)))
    requires ParticipantsOf(db, order[i]) == ParticipantsOf(db0, order[i])
    requires t' == StampAll(t, window, now, KeysOf(order[i], Arrived(db, order[i], remote[order[i]].roster)
                                                          + Departed(db, order[i], remote[order[i]].roster)))
    ensures t' == StampAll(t0, window, now, Changes(db0, remote, ListedBefore(order, i + 1)))
  {
    var e := order[i];
    ListedOneMore(order, i);
    ChangesOneMore(db0, remote, ListedBefore(order, i), e);
    StampAllUnion(t0, window, now, Changes(db0, remote, ListedBefore(order, i)),
                  KeysOf(e, Arrived(db0, e, remote[e].roster) + Departed(db0, e, remote[e].roster)));
  }

  /** Stamps of the events handled before `order[i]` do not touch its pairs. */
  lemma CooldownOfNext(db0: Db, t0: Table, window: int, now: int, order: seq<Id>, remote: map<Id, RemoteEvent>,
                       i: nat, u: Id)
    requires Distinct(order) && i < |order|
    ensures InCooldown(StampAll(t0, window, now, Changes(db0, remote, ListedBefore(order, i))), window, now, u, order[i])
         == InCooldown(t0, window, now, u, order[i])
  {
    ListedOneMore(order, i);
    var keys := Changes(db0, remote, ListedBefore(order, i));
    if Key(u, order[i]) in keys {
      ChangesBelongToDone(db0, remote, ListedBefore(order, i), Key(u, order[i]));
    }
    StampedElsewhere(t0, window, now, keys, u, order[i]);
  }

  lemma TagsAppend(a: seq<Note>, b: seq<Note>)
    ensures Tags(a + b) == Tags(a) + Tags(b)
    ensures PairsOf(a + b) == PairsOf(a) + PairsOf(b)
  {
    var s := a + b;
    assert forall i :: 0 <= i < |a| ==> s[i] == a[i];
    assert forall j :: 0 <= j < |b| ==> s[|a| + j] == b[j];
    forall g | g in Tags(s) ensures g in Tags(a) + Tags(b) {
      var i :| 0 <= i < |s| && TagOf(s[i]) == g;
      if i >= |a| {
        assert s[i] == b[i - |a|];
      }
    }
    forall k | k in PairsOf(s) ensures k in PairsOf(a) + PairsOf(b) {
      var i :| 0 <= i < |s| && PairOf(s[i]) == k;
      if i >= |a| {
        assert s[i] == b[i - |a|];
      }
    }
  }

  /** Two queues about different pairs, each once per pair, concatenate to
      one that is once per pair. */
  lemma OncePerPairAppend(a: seq<Note>, b: seq<Note>)
    requires OncePerPair(a) && OncePerPair(b) && PairsOf(a) !! PairsOf(b)
    ensures OncePerPair(a + b)
  {
    var s := a + b;
    forall i, j | 0 <= i < j < |s| ensures PairOf(s[i]) != PairOf(s[j]) {
      if j < |a| {
        assert s[i] == a[i] && s[j] == a[j];
      } else if i >= |a| {
        assert s[i] == b[i - |a|] && s[j] == b[j - |a|];
      } else {
        assert s[i] == a[i] && PairOf(a[i]) in PairsOf(a);
        assert s[j] == b[j - |a|] && PairOf(b[j - |a|]) in PairsOf(b);
      }
    }
  }

  lemma NamedAppend(users: map<Id, User>, a: seq<Note>, b: seq<Note>)
    requires NamedAsStored(users, a) && NamedAsStored(users, b)
    ensures NamedAsStored(users, a + b)
  {
    var s := a + b;
    assert forall i :: 0 <= i < |a| ==> s[i] == a[i];
    assert forall j :: 0 <= j < |b| ==> s[|a| + j] == b[j];
  }

  /** The queue for one event's pass queued by one loop: its tags, pairs and names. */
  lemma NotesForShape(notes: seq<Note>, action: Action, e: Id, who: set<Id>, names: map<Id, string>,
                      users: map<Id, User>)
    requires NotesFor(notes, action, e, who, names)
    requires forall u :: u in names && u in users ==> names[u] == users[u].username
    ensures forall g :: g in Tags(notes) <==> g.action == action && g.eventId == e && g.userId in who
    ensures PairsOf(notes) == KeysOf(e, who)
    ensures OncePerPair(notes)
    ensures NamedAsStored(users, notes)
  {
    forall g ensures g in Tags(notes) <==> g.action == action && g.eventId == e && g.userId in who {
      if g.action == action && g.eventId == e && g.userId in who {
        assert g.userId in UsersOf(notes);
        var i :| 0 <= i < |notes| && notes[i].userId == g.userId;
        assert TagOf(notes[i]) == g;
      }
      if g in Tags(notes) {
        var i :| 0 <= i < |notes| && TagOf(notes[i]) == g;
        assert notes[i].userId in UsersOf(notes);
      }
    }
    forall k ensures k in PairsOf(notes) <==> k in KeysOf(e, who) {
      if k in KeysOf(e, who) {
        assert k.userId in UsersOf(notes);
        var i :| 0 <= i < |notes| && notes[i].userId == k.userId;
        assert PairOf(notes[i]) == k;
      }
      if k in PairsOf(notes) {
        var i :| 0 <= i < |notes| && PairOf(notes[i]) == k;
        assert notes[i].userId in UsersOf(notes);
      }
    }
  }

  /** Two queues, for disjoint sets of events, combine into the queue for the union. */
  lemma QueueOwedAppend(db0: Db, t0: Table, window: int, now: int, remote: map<Id, RemoteEvent>,
                        done1: set<Id>, a: seq<Note>, done2: set<Id>, b: seq<Note>)
    requires done1 !! done2
    requires QueueOwed(db0, t0, window, now, remote, done1, a)
    requires QueueOwed(db0, t0, window, now, remote, done2, b)
    ensures QueueOwed(db0, t0, window, now, remote, done1 + done2, a + b)
  {
    TagsAppend(a, b);
    forall k | k in PairsOf(a) ensures k.eventId in done1 {
      var i :| 0 <= i < |a| && PairOf(a[i]) == k;
      assert TagOf(a[i]) in Tags(a);
    }
    forall k | k in PairsOf(b) ensures k.eventId in done2 {
      var i :| 0 <= i < |b| && PairOf(b[i]) == k;
      assert TagOf(b[i]) in Tags(b);
    }
    OncePerPairAppend(a, b);
    NamedAppend(db0.users, a, b);
  }

  /** What one event's two loops queue is exactly what the pass owes for that
      event, judged on the store and the cooldown table as they were before the
      pass, since neither changed for this event's pairs in the meantime. */
  lemma EventQueue(db0: Db, t0: Table, window: int, now: int, remote: map<Id, RemoteEvent>, e: Id,
                   db: Db, t: Table, joins: seq<Note>, leaves: seq<Note>)
    requires e in remote
    requires ParticipantsOf(db, e) == ParticipantsOf(db0, e)
    requires forall u :: InCooldown(t, window, now, u, e) == InCooldown(t0, window, now, u, e)
    requires forall u :: u in db0.users ==> u in db.users && db.users[u] == db0.users[u]
    requires NotesFor(joins, Join, e, Unsuppressed(t, window, now, e, Arrived(db, e, remote[e].roster)),
                      JoinNames(db.users, remote[e].roster, Arrived(db, e, remote[e].roster)))
    requires NotesFor(leaves, Leave, e, Unsuppressed(t, window, now, e, Departed(db, e, remote[e].roster)),
                      LeaveNames(db.users, Departed(db, e, remote[e].roster)))
    ensures QueueOwed(db0, t0, window, now, remote, {e}, joins + leaves)
  {
    var roster := remote[e].roster;
    var a := Unsuppressed(t, window, now, e, Arrived(db, e, roster));
    var d := Unsuppressed(t, window, now, e, Departed(db, e, roster));
    NotesForShape(joins, Join, e, a, JoinNames(db.users, roster, Arrived(db, e, roster)), db0.users);
    NotesForShape(leaves, Leave, e, d, LeaveNames(db.users, Departed(db, e, roster)), db0.users);
    assert KeysOf(e, a) !! KeysOf(e, d);
    OncePerPairAppend(joins, leaves);
    NamedAppend(db0.users, joins, leaves);
    TagsAppend(joins, leaves);
    forall g ensures g in Tags(joins + leaves) <==> g.eventId in {e} && Owed(db0, t0, window, now, remote, g) {
      if g.eventId == e {
        assert Participation(e, g.userId) in db0.participations <==> g.userId in ParticipantsOf(db, e);
      }
    }
  }

  /** The listing's ids are exactly the remote events. */
  lemma ListedAll(order: seq<Id>, remote: map<Id, RemoteEvent>)
    requires Listing(order, remote)
    ensures ListedBefore(order, |order|) == remote.Keys
  {
    forall e | e in remote ensures e in ListedBefore(order, |order|) {
      var k :| 0 <= k < |order| && order[k] == e;
    }
  }

  /** The state before any event is handled. */
  lemma ParticipationsStart(db0: Db, t0: Table, window: int, now: int, order: seq<Id>, remote: map<Id, RemoteEvent>)
    ensures PartsAfter(db0, order, remote, 0, db0)
    ensures UsersAfter(db0, order, remote, 0, db0)
    ensures t0 == StampAll(t0, window, now, Changes(db0, remote, ListedBefore(order, 0)))
    ensures QueueOwed(db0, t0, window, now, remote, ListedBefore(order, 0), [])
  {
    assert ListedBefore(order, 0) == {};
    assert Arrivals(db0, remote, {}) == {};
    assert Changes(db0, remote, {}) == {};
    StampNone(t0, window, now);
  }

  /** The whole step-2 state after the first `i` listed events. */
  ghost predicate PassAfter(db0: Db, t0: Table, window: int, now: int, order: seq<Id>, remote: map<Id, RemoteEvent>,
                            i: nat, db: Db, t: Table, notes: seq<Note>)
    requires i <= |order|
  {
    && Valid(db)
    && PartsAfter(db0, order, remote, i, db)
    && UsersAfter(db0, order, remote, i, db)
    && t == StampAll(t0, window, now, Changes(db0, remote, ListedBefore(order, i)))
    && QueueOwed(db0, t0, window, now, remote, ListedBefore(order, i), notes)
  }

  /** The cooldown of the next event's pairs is as it was before the pass. */
  lemma NextCooldownKept(db0: Db, t0: Table, window: int, now: int, order: seq<Id>, remote: map<Id, RemoteEvent>,
                         i: nat, t: Table)
    requires Distinct(order) && i < |order|
    requires t == StampAll(t0, window, now, Changes(db0, remote, ListedBefore(order, i)))
    ensures forall u :: InCooldown(t, window, now, u, order[i]) == InCooldown(t0, window, now, u, order[i])
  {
    forall u ensures InCooldown(t, window, now, u, order[i]) == InCooldown(t0, window, now, u, order[i]) {
      CooldownOfNext(db0, t0, window, now, order, remote, i, u);
    }
  }

  /** One iteration of step 2 keeps the whole invariant. */
  lemma PassStep(db0: Db, t0: Table, window: int, now: int, order: seq<Id>, remote: map<Id, RemoteEvent>, i: nat,
                 db: Db, t: Table, notes: seq<Note>, db': Db, t': Table, joins: seq<Note>, leaves: seq<Note>)
    requires Listing(order, remote) && i < |order|
    requires PassAfter(db0, t0, window, now, order, remote, i, db, t, notes)
    requires EventSynced(db, order[i], remote[order[i]].roster, db')
    requires t' == StampAll(t, window, now, KeysOf(order[i], Arrived(db, order[i], remote[order[i]].roster)
                                                          + Departed(db, order[i], remote[order[i]].roster)))
    requires NotesFor(joins, Join, order[i], Unsuppressed(t, window, now, order[i], Arrived(db, order[i], remote[order[i]].roster)),
                      JoinNames(db.users, remote[order[i]].roster, Arrived(db, order[i], remote[order[i]].roster)))
    requires NotesFor(leaves, Leave, order[i], Unsuppressed(t, window, now, order[i], Departed(db, order[i], remote[order[i]].roster)),
                      LeaveNames(db.users, Departed(db, order[i], remote[order[i]].roster)))
    ensures PassAfter(db0, t0, window, now, order, remote, i + 1, db', t', notes + (joins + leaves))
  {
    var e := order[i];
    NotYetHandled(db0, order, remote, i, db);
    NextCooldownKept(db0, t0, window, now, order, remote, i, t);
    PartsStep(db0, order, remote, i, db, db');
    UsersStep(db0, order, remote, i, db, db');
    StampsStep(db0, t0, window, now, order, remote, i, db, t, t');
    EventQueue(db0, t0, window, now, remote, e, db, t, joins, leaves);
    ListedOneMore(order, i);
    QueueOwedAppend(db0, t0, window, now, remote, ListedBefore(order, i), notes, {e}, joins + leaves);
  }

  /** Step 2 of `sync_guild`: every listed event in listing order, each
      through `SyncEvent`, the queue growing by its joins, then its leaves. */
  method SyncParticipations(db0: Db, t0: Table, window: int, now: int, order: seq<Id>, remote: map<Id, RemoteEvent>)
    returns (db: Db, t: Table, notes: seq<Note>)
    requires Valid(db0) && Listing(order, remote)
    ensures PassAfter(db0, t0, window, now, order, remote, |order|, db, t, notes)
  {
    db, t, notes := db0, t0, [];
    ParticipationsStart(db0, t0, window, now, order, remote);
    for i := 0 to |order|
      invariant PassAfter(db0, t0, window, now, order, remote, i, db, t, notes)
    {
      var e := order[i];
      var db', t', joins, leaves := SyncEvent(db, t, window, now, e, remote[e].roster);
      PassStep(db0, t0, window, now, order, remote, i, db, t, notes, db', t', joins, leaves);
      db, t, notes := db', t', notes + (joins + leaves);
    }
  }

  // ---------------------------------------------------------------------------
  // The whole pass

  /** What a committed pass leaves for a participation: for a listed event,
      whether the user is on its roster; for any other event, whether it was
      stored. */
  predicate Mirrored(durable: Db, remote: map<Id, RemoteEvent>, p: Participation) {
    if p.eventId in remote then p.userId in remote[p.eventId].roster else p in durable.participations
  }

  /** The store a committed pass leaves behind, stated against the store it
      started from, the listing and the member list. */
  ghost predicate PassCommitted(durable: Db, remote: map<Id, RemoteEvent>, members: map<Id, string>, db: Db) {
    && Valid(db)
    && db.events.Keys == durable.events.Keys + remote.Keys
    && (forall e :: e in durable.events ==> db.events[e] == durable.events[e])
    && (forall e :: e in remote && e !in durable.events ==>
          db.events[e].name == remote[e].name && !db.events[e].isPassed)
    && db.users.Keys == members.Keys
    && (forall u :: u in members && u in durable.users ==> db.users[u] == durable.users[u])
    && (forall u :: u in members && u !in durable.users && u !in Arrivals(durable, remote, remote.Keys) ==>
          db.users[u].username == members[u])
    && (forall p: Participation :: p in db.participations <==>
          Mirrored(durable, remote, p)
          && (p.userId in members || (p.userId !in durable.users && p.userId !in Arrivals(durable, remote, remote.Keys))))
  }

  /** Creating events does not touch participations, so nothing step 2
      computes from the store changes. */
  lemma SameParticipations(db: Db, db': Db, remote: map<Id, RemoteEvent>, done: set<Id>)
    requires db.participations == db'.participations
    ensures Arrivals(db', remote, done) == Arrivals(db, remote, done)
    ensures Changes(db', remote, done) == Changes(db, remote, done)
    ensures forall e :: e in remote ==> Arrived(db', e, remote[e].roster) == Arrived(db, e, remote[e].roster)
  {
    forall e | e in remote
      ensures Arrived(db', e, remote[e].roster) == Arrived(db, e, remote[e].roster)
      ensures Departed(db', e, remote[e].roster) == Departed(db, e, remote[e].roster)
    {
      assert ParticipantsOf(db', e) == ParticipantsOf(db, e);
    }
  }

  lemma OwedSameParticipations(db: Db, db': Db, t: Table, window: int, now: int, remote: map<Id, RemoteEvent>,
                               notes: seq<Note>)
    requires db.participations == db'.participations && db.users == db'.users
    requires QueueOwed(db', t, window, now, remote, remote.Keys, notes)
    ensures QueueOwed(db, t, window, now, remote, remote.Keys, notes)
  {
  }

  /** After step 2 every listed event mirrors its roster and the others are untouched. */
  lemma MirroredAfterStep2(durable: Db, order: seq<Id>, remote: map<Id, RemoteEvent>, db1: Db, db2: Db)
    requires Listing(order, remote)
    requires db1.participations == durable.participations
    requires PartsAfter(db1, order, remote, |order|, db2)
    ensures forall p: Participation :: p in db2.participations <==> Mirrored(durable, remote, p)
  {
    ListedAll(order, remote);
    forall p: Participation ensures p in db2.participations <==> Mirrored(durable, remote, p) {
      if p.eventId in remote {
        var k :| 0 <= k < |order| && order[k] == p.eventId;
        assert p.userId in ParticipantsOf(db2, order[k]) <==> p in db2.participations;
      }
    }
  }

  /** The pieces of the pass compose into `PassCommitted`. */
  lemma PassComposes(durable: Db, order: seq<Id>, remote: map<Id, RemoteEvent>, members: map<Id, string>,
                     db1: Db, db2: Db, db3: Db)
    requires Listing(order, remote)
    requires CreatedUpTo(durable, order, remote, |order|, db1)
    requires PartsAfter(db1, order, remote, |order|, db2)
    requires UsersAfter(db1, order, remote, |order|, db2)
    requires MembersSynced(db2, members, db3)
    ensures PassCommitted(durable, remote, members, db3)
  {
    ListedAll(order, remote);
    SameParticipations(durable, db1, remote, remote.Keys);
    MirroredAfterStep2(durable, order, remote, db1, db2);
  }

  /** The event names `_publish_notifications` looks entries up in. */
  function EventNames(remote: map<Id, RemoteEvent>): (names: map<Id, string>)
    ensures names.Keys == remote.Keys
  {
    map e | e in remote :: remote[e].name
  }

  /** What a pass leaves: the durable store, the cooldown table, the queued
      entries and the texts sent to the notification channel. */
  datatype PassOutcome = PassOutcome(durable: Db, cooldown: Table, queued: seq<Note>, sent: seq<string>)

  /** `sync_guild`. `fetched` is what `guild.fetch_members` returned (empty
      when it failed) and `cached` the guild's cached members, each mapped to
      its display name; `commitFails` says whether the commit on leaving the
      unit of work raises; `channelOk` whether a notification channel was
      found. Leaving the unit of work goes through `ExitClosing`, the
      corrected `__exit__`; by `ExitClosingAgrees` the code as written, `Exit`,
      gives the same durable store and raises alike, which is all the pass
      reads of it. */
  method SyncGuild(durable: Db, t: Table, window: int, now: int, order: seq<Id>, remote: map<Id, RemoteEvent>,
                   fetched: map<Id, string>, cached: map<Id, string>, commitFails: bool, channelOk: bool,
                   header: string)
    returns (out: PassOutcome)
    requires Valid(durable) && Listing(order, remote)
    ensures commitFails ==> out.durable == durable && out.sent == []
    ensures !commitFails ==> PassCommitted(durable, remote, EffectiveMembers(fetched, cached), out.durable)
    ensures out.cooldown == StampAll(t, window, now, Changes(durable, remote, remote.Keys))
    ensures QueueOwed(durable, t, window, now, remote, remote.Keys, out.queued)
    ensures !commitFails && channelOk && |out.queued| > 0 ==> out.sent == Publish(header, out.queued, EventNames(remote))
    ensures commitFails || !channelOk || |out.queued| == 0 ==> out.sent == []
  {
    var u := Enter(Fresh(durable));
    var db1 := CreateMissingEvents(u.session.value, order, remote);
    var db2, t', notes := SyncParticipations(db1, t, window, now, order, remote);
    var db3, added, removed := SyncMembersTable(db2, fetched, cached);
    var r := ExitClosing(Apply(u, db3), false, commitFails, false, false);
    PassComposes(durable, order, remote, EffectiveMembers(fetched, cached), db1, db2, db3);
    ListedAll(order, remote);
    SameParticipations(durable, db1, remote, remote.Keys);
    OwedSameParticipations(durable, db1, t, window, now, remote, notes);
    var sent := if !r.raised && |notes| > 0 && channelOk then Publish(header, notes, EventNames(remote)) else [];
    out := PassOutcome(r.uow.durable, t', notes, sent);
  }

  /** Every queued entry is about a listed event, so publishing sends the
      header and then exactly one message per entry, in queue order. */
  lemma QueuedAllPublished(durable: Db, t: Table, window: int, now: int, remote: map<Id, RemoteEvent>,
                           notes: seq<Note>, header: string)
    requires QueueOwed(durable, t, window, now, remote, remote.Keys, notes)
    ensures forall i :: 0 <= i < |notes| ==> notes[i].eventId in remote
    ensures var ms := Publish(header, notes, EventNames(remote));
      |ms| == |notes| + 1 && forall i :: 0 <= i < |notes| ==> ms[i + 1] == Message(notes[i], remote[notes[i].eventId].name)
  {
    forall i | 0 <= i < |notes| ensures notes[i].eventId in remote {
      assert TagOf(notes[i]) in Tags(notes);
    }
    MessagesAllKnown(notes, EventNames(remote));
  }

  /** A second pass over the same listing finds nothing to announce: once a
      pass has committed, and every roster participant is a guild member, no
      join or leave is owed any more, whatever the cooldown table says. */
  lemma SecondPassQuiet(durable: Db, remote: map<Id, RemoteEvent>, members: map<Id, string>, db: Db,
                        t: Table, window: int, now: int, g: Tag)
    requires PassCommitted(durable, remote, members, db)
    requires forall e, u :: e in remote && u in remote[e].roster ==> u in members
    ensures !Owed(db, t, window, now, remote, g)
  {
    if g.eventId in remote {
      var p := Participation(g.eventId, g.userId);
      assert p in db.participations <==>
        (Mirrored(durable, remote, p)
         && (g.userId in members || (g.userId !in durable.users && g.userId !in Arrivals(durable, remote, remote.Keys))));
    }
  }
}
