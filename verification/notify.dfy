/** Display names and the notification messages of `SynchronizationService`:
    `_extract_display_name`, the queued notification entries and
    `_publish_notifications`. */
module Notify {
  import opened Wrappers
  import opened Store

  /** A Discord account object as `isinstance` sees it: a guild member (with a
      display name) or a plain user (with a name). */
  datatype Principal = Member(displayName: string) | PlainUser(name: string)

  /** What `_extract_display_name` can observe of an object handed to it: its
      `member` and `user` attributes, whether it is itself a member or a user,
      and its `display_name` and `name` attributes. */
  datatype Snapshot = Snapshot(
    memberAttr: Option<Principal>,
    userAttr: Option<Principal>,
    itself: Option<Principal>,
    displayNameAttr: Option<string>,
    nameAttr: Option<string>)

  /** The placeholder name `Utilisateur <id>`. */
  function Placeholder(u: Id): string {
    "Utilisateur " + u
  }

  function NameOf(p: Principal): string {
    match p
    case Member(d) => d
    case PlainUser(n) => n
  }

  /** `_extract_display_name(obj, fallback_id)`. */
  function DisplayName(obj: Option<Snapshot>, fallback: Id): (r: string)
    ensures obj.None? ==> r == Placeholder(fallback)
    ensures obj.Some? && obj.value.memberAttr.Some? && obj.value.memberAttr.value.Member? ==>
      r == obj.value.memberAttr.value.displayName
    ensures (obj.Some? && obj.value.itself.Some? && obj.value.userAttr.None?
             && !(obj.value.memberAttr.Some? && obj.value.memberAttr.value.Member?)) ==>
      r == NameOf(obj.value.itself.value)
  {
    match obj
    case None => Placeholder(fallback)
    case Some(s) =>
      if s.memberAttr.Some? && s.memberAttr.value.Member? then s.memberAttr.value.displayName
      else if s.userAttr.Some? then NameOf(s.userAttr.value)
      else if s.itself.Some? then NameOf(s.itself.value)
      else if s.displayNameAttr.Some? then s.displayNameAttr.value
      else if s.nameAttr.Some? then s.nameAttr.value
      else Placeholder(fallback)
  }

  /** The first present value of a list of optional values. */
  function FirstPresent(xs: seq<Option<string>>): (r: Option<string>)
    ensures r.None? <==> forall i :: 0 <= i < |xs| ==> xs[i].None?
    ensures r.Some? ==>
      exists i :: 0 <= i < |xs| && xs[i] == r && (forall j :: 0 <= j < i ==> xs[j].None?)
    decreases |xs|
  {
    if |xs| == 0 then None
    else if xs[0].Some? then xs[0]
    else
      var r := FirstPresent(xs[1..]);
      assert forall i :: 1 <= i < |xs| ==> xs[i] == xs[1..][i - 1];
      r
  }

  /** The candidate names of an object, most preferred first. */
  function Candidates(s: Snapshot): seq<Option<string>> {
    [ if s.memberAttr.Some? && s.memberAttr.value.Member? then Some(s.memberAttr.value.displayName) else None,
      if s.userAttr.Some? then Some(NameOf(s.userAttr.value)) else None,
      if s.itself.Some? then Some(NameOf(s.itself.value)) else None,
      s.displayNameAttr,
      s.nameAttr ]
  }

  /** The display name is the most preferred candidate that is present, and
      the placeholder only when there is none. */
  lemma DisplayNameIsFirstCandidate(s: Snapshot, fallback: Id)
    ensures DisplayName(Some(s), fallback) == FirstPresent(Candidates(s)).GetOr(Placeholder(fallback))
  {
    var c := Candidates(s);
    assert FirstPresent(c) == if c[0].Some? then c[0] else FirstPresent(c[1..]);
    assert FirstPresent(c[1..]) == if c[1].Some? then c[1] else FirstPresent(c[2..]);
    assert FirstPresent(c[2..]) == if c[2].Some? then c[2] else FirstPresent(c[3..]);
    assert FirstPresent(c[3..]) == if c[3].Some? then c[3] else FirstPresent(c[4..]);
    assert FirstPresent(c[4..]) == if c[4].Some? then c[4] else FirstPresent(c[5..]);
    assert c[5..] == [];
  }

  // ---------------------------------------------------------------------------
  // Notification entries and messages

  datatype Action = Join | Leave

  /** A queued entry `(action, event_id, user_id, username)`. */
  datatype Note = Note(action: Action, eventId: Id, userId: Id, username: string)

  /** The message text for one entry, given its event's name. */
  function Message(n: Note, eventName: string): (m: string)
    ensures |m| > 0 && (n.action == Join <==> m[0] == '➕')
  {
    match n.action
    case Join => "➕ " + n.username + " s'est inscrit à l'événement **" + eventName + "**."
    case Leave => "\U{1F6D1} " + n.username + " s'est désinscrit de l'événement **" + eventName + "**."
  }

  /** One message per entry, in queue order, skipping entries whose event is
      not among the events handed to the publisher. */
  function Messages(notes: seq<Note>, names: map<Id, string>): (ms: seq<string>)
    ensures |ms| <= |notes|
    decreases |notes|
  {
    if |notes| == 0 then []
    else
      var rest := Messages(notes[1..], names);
      if notes[0].eventId in names then [Message(notes[0], names[notes[0].eventId])] + rest else rest
  }

  /** `_publish_notifications`: the header, then the messages. A failed send is
      logged and the next one is still attempted, so these are the texts sent
      or attempted, in order. The header carries the current time, an input. */
  function Publish(header: string, notes: seq<Note>, names: map<Id, string>): (ms: seq<string>)
    ensures |ms| >= 1 && ms[0] == header
    ensures ms[1..] == Messages(notes, names)
    ensures |ms| <= 1 + |notes|
    ensures (forall i :: 0 <= i < |notes| ==> notes[i].eventId in names) ==>
      && |ms| == 1 + |notes|
      && forall i :: 0 <= i < |notes| ==> ms[i + 1] == Message(notes[i], names[notes[i].eventId])
  {
    var ms := [header] + Messages(notes, names);
    if forall i :: 0 <= i < |notes| ==> notes[i].eventId in names then
      MessagesAllKnown(notes, names);
      ms
    else ms
  }

  /** Messages of a concatenation are the concatenation of the messages:
      publishing preserves queue order. */
  lemma {:induction false} MessagesAppend(a: seq<Note>, b: seq<Note>, names: map<Id, string>)
    ensures Messages(a + b, names) == Messages(a, names) + Messages(b, names)
    decreases |a|
  {
    if |a| > 0 {
      assert (a + b)[1..] == a[1..] + b;
      MessagesAppend(a[1..], b, names);
    } else {
      assert a + b == b;
    }
  }

  /** When every entry's event is known, each entry gives exactly one message,
      the one for that entry. */
  lemma {:induction false} MessagesAllKnown(notes: seq<Note>, names: map<Id, string>)
    requires forall i :: 0 <= i < |notes| ==> notes[i].eventId in names
    ensures var ms := Messages(notes, names);
      |ms| == |notes| && forall i :: 0 <= i < |notes| ==> ms[i] == Message(notes[i], names[notes[i].eventId])
    decreases |notes|
  {
    if |notes| > 0 {
      MessagesAllKnown(notes[1..], names);
    }
  }
}
