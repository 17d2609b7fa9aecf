/** The Admins screen's live user list: a seed event replaces the list with
    the non-lecturer users, each later update event replaces the record with
    the same id in place or appends an unseen one, and a transport error
    closes the stream (src/Screens/dashboard/admins/Admins.tsx). */
module AdminsStream {
  import opened Wrappers
  import Seqs

  /** A user record as the stream sends it (the fields the admin screens read). */
  datatype User = User(
    id: string,
    role: string,
    firstname: Option<string>,
    lastname: Option<string>,
    email: Option<string>)

  /** The role whose records the screen never shows. */
  const LecturerRole: string := "LECTURER"

  /** The message shown when the stream's transport fails. */
  const ConnectionLost: string := "Connection lost. Retrying\U{2026}"

  /** The seed filter's predicate: the role is not exactly "LECTURER". */
  predicate Admitted(u: User)
  {
    u.role != LecturerRole
  }

  /** The `initUsers` filter: the incoming users that are not lecturers, in server order. */
  function SeedFilter(users: seq<User>): (r: seq<User>)
    ensures forall u :: u in r <==> u in users && u.role != LecturerRole
    ensures Seqs.IsSubseq(r, users)
    ensures (forall i :: 0 <= i < |users| ==> users[i].role != LecturerRole) ==> r == users
    ensures |r| == Seqs.Count(users, Admitted)
    ensures forall u :: multiset(r)[u] == if u.role != LecturerRole then multiset(users)[u] else 0
  {
    Seqs.FilterIsSubseq(users, Admitted);
    Seqs.FilterLength(users, Admitted);
    Seqs.FilterMultiplicity(users, Admitted);
    if forall i :: 0 <= i < |users| ==> Admitted(users[i]) then
      Seqs.FilterAll(users, Admitted);
      Seqs.Filter(users, Admitted)
    else
      Seqs.Filter(users, Admitted)
  }

  /** `prev.find(u => u.id === id)`: the first record with that id, if any. */
  function Find(users: seq<User>, id: string): (r: Option<User>)
    ensures r.Some? <==> exists i :: 0 <= i < |users| && users[i].id == id
    ensures r.Some? ==> r.value.id == id && r.value in users
  {
    if users == [] then None
    else if users[0].id == id then Some(users[0])
    else Find(users[1..], id)
  }

  /** `prev.map(u => u.id === user.id ? user : u)`. */
  function ReplaceById(prev: seq<User>, user: User): seq<User>
  {
    seq(|prev|, i requires 0 <= i < |prev| => if prev[i].id == user.id then user else prev[i])
  }

  /** The `userUpdate` handler's state updater: update a known id in place, append an unseen one. */
  function Upsert(prev: seq<User>, user: User): seq<User>
  {
    if Find(prev, user.id).Some? then ReplaceById(prev, user) else prev + [user]
  }

  /** The whole `userUpdate` effect on the list: lecturer updates are skipped before the updater runs. */
  function ApplyUpdate(prev: seq<User>, user: User): seq<User>
  {
    if user.role == LecturerRole then prev else Upsert(prev, user)
  }

  /** No two records share an id. */
  predicate UniqueIds(users: seq<User>)
  {
    forall i, j :: 0 <= i < j < |users| ==> users[i].id != users[j].id
  }

  /** No record has role "LECTURER". */
  predicate NoLecturer(users: seq<User>)
  {
    forall i :: 0 <= i < |users| ==> users[i].role != LecturerRole
  }

  /** An update whose role is "LECTURER" leaves the list as it is, even when its id is present. */
  lemma LecturerUpdateIgnored(prev: seq<User>, user: User)
    requires user.role == LecturerRole
    ensures ApplyUpdate(prev, user) == prev
  {
  }

  /** An update for an id already present changes only the records with that id, in place;
      with unique ids that is exactly the one record at position `k`. */
  lemma UpdateKnownIdInPlace(prev: seq<User>, user: User, k: nat)
    requires user.role != LecturerRole
    requires k < |prev| && prev[k].id == user.id
    ensures |ApplyUpdate(prev, user)| == |prev|
    ensures ApplyUpdate(prev, user)[k] == user
    ensures forall i :: 0 <= i < |prev| && prev[i].id != user.id ==> ApplyUpdate(prev, user)[i] == prev[i]
    ensures UniqueIds(prev) ==> ApplyUpdate(prev, user) == prev[k := user]
  {
    assert Find(prev, user.id).Some?;
  }

  /** An update for an unseen id appends it: the old list is a prefix and the length grows by one. */
  lemma UpdateUnseenIdAppends(prev: seq<User>, user: User)
    requires user.role != LecturerRole
    requires forall i :: 0 <= i < |prev| ==> prev[i].id != user.id
    ensures ApplyUpdate(prev, user) == prev + [user]
    ensures |ApplyUpdate(prev, user)| == |prev| + 1 && prev <= ApplyUpdate(prev, user)
  {
  }

  /** Updates preserve id uniqueness. */
  lemma UpdatePreservesUniqueIds(prev: seq<User>, user: User)
    requires UniqueIds(prev)
    ensures UniqueIds(ApplyUpdate(prev, user))
  {
  }

  /** Updates never admit a lecturer. */
  lemma UpdatePreservesNoLecturer(prev: seq<User>, user: User)
    requires NoLecturer(prev)
    ensures NoLecturer(ApplyUpdate(prev, user))
  {
  }

  /** Seeding does not deduplicate: a repeated record keeps both copies, even with a
      lecturer between them. */
  lemma SeedKeepsDuplicateIds()
    ensures var u := User("1", "ADMIN", None, None, None);
      var l := User("2", "LECTURER", None, None, None);
      SeedFilter([u, l, u]) == [u, u] && !UniqueIds(SeedFilter([u, l, u]))
  {
    var u := User("1", "ADMIN", None, None, None);
    var l := User("2", "LECTURER", None, None, None);
    assert Seqs.Filter([u, l, u], Admitted) == [u] + Seqs.Filter([l, u], Admitted);
    assert Seqs.Filter([l, u], Admitted) == [] + Seqs.Filter([u], Admitted);
    assert Seqs.Filter([u], Admitted) == [u] + Seqs.Filter([], Admitted);
  }

  /** The events the stream delivers; a payload that fails `JSON.parse` is `Malformed`. */
  datatype StreamEvent =
    | InitUsers(users: Parsed<seq<User>>)
    | UserUpdate(user: Parsed<User>)
    | TransportError

  /** The list after one event: a parse failure or a transport error leaves it unchanged. */
  function Step(data: seq<User>, e: StreamEvent): seq<User>
  {
    match e
    case InitUsers(Parsed(users)) => SeedFilter(users)
    case UserUpdate(Parsed(user)) => ApplyUpdate(data, user)
    case _ => data
  }

  /** The list after a sequence of events, in delivery order. */
  function Replay(data: seq<User>, events: seq<StreamEvent>): seq<User>
    decreases |events|
  {
    if events == [] then data else Replay(Step(data, events[0]), events[1..])
  }

  /** A payload that fails to parse leaves the list unchanged. */
  lemma MalformedIgnored(data: seq<User>)
    ensures Step(data, InitUsers(Malformed)) == data
    ensures Step(data, UserUpdate(Malformed)) == data
  {
  }

  /** One event never admits a lecturer. */
  lemma StepKeepsNoLecturer(data: seq<User>, e: StreamEvent)
    requires NoLecturer(data)
    ensures NoLecturer(Step(data, e))
  {
    match e
    case InitUsers(Parsed(users)) =>
      var r := SeedFilter(users);
      assert forall i :: 0 <= i < |r| ==> r[i] in r;
    case UserUpdate(Parsed(user)) =>
      UpdatePreservesNoLecturer(data, user);
    case _ =>
  }

  /** No sequence of events ever puts a lecturer into a list that has none. */
  lemma {:induction false} ReplayKeepsNoLecturer(data: seq<User>, events: seq<StreamEvent>)
    requires NoLecturer(data)
    ensures NoLecturer(Replay(data, events))
    decreases |events|
  {
    if events != [] {
      StepKeepsNoLecturer(data, events[0]);
      ReplayKeepsNoLecturer(Step(data, events[0]), events[1..]);
    }
  }

  /** Every seed the events carry has unique ids. */
  predicate SeedsHaveUniqueIds(events: seq<StreamEvent>)
  {
    forall i :: 0 <= i < |events| && events[i].InitUsers? && events[i].users.Parsed? ==>
      UniqueIds(events[i].users.value)
  }

  /** Seeding keeps a unique-id payload unique. */
  lemma SeedPreservesUniqueIds(users: seq<User>)
    requires UniqueIds(users)
    ensures UniqueIds(SeedFilter(users))
  {
    var r := SeedFilter(users);
    Seqs.FilterIsSubseq(users, Admitted);
    SubseqKeepsUniqueIds(r, users);
  }

  /** Deleting records cannot create a repeated id. */
  lemma {:induction false} SubseqKeepsUniqueIds(r: seq<User>, s: seq<User>)
    requires Seqs.IsSubseq(r, s) && UniqueIds(s)
    ensures UniqueIds(r)
    ensures forall i :: 0 <= i < |r| ==> r[i] in s
  {
    if r != [] && s != [] {
      assert UniqueIds(s[1..]) by {
        assert forall i :: 0 <= i < |s[1..]| ==> s[1..][i] == s[i + 1];
      }
      if r[0] == s[0] && Seqs.IsSubseq(r[1..], s[1..]) {
        SubseqKeepsUniqueIds(r[1..], s[1..]);
        forall i | 0 < i < |r| ensures r[i].id != r[0].id {
          assert r[1..][i - 1] in s[1..];
        }
        assert forall i :: 0 < i < |r| ==> r[i] == r[1..][i - 1];
      } else {
        SubseqKeepsUniqueIds(r, s[1..]);
      }
    }
  }

  /** Ids stay unique through any events as long as every seed's ids are unique:
      uniqueness is preserved, never established. */
  lemma {:induction false} ReplayKeepsUniqueIds(data: seq<User>, events: seq<StreamEvent>)
    requires UniqueIds(data) && SeedsHaveUniqueIds(events)
    ensures UniqueIds(Replay(data, events))
    decreases |events|
  {
    if events != [] {
      match events[0] {
        case InitUsers(Parsed(users)) =>
          SeedPreservesUniqueIds(users);
        case UserUpdate(Parsed(user)) =>
          UpdatePreservesUniqueIds(data, user);
        case _ =>
      }
      assert SeedsHaveUniqueIds(events[1..]) by {
        forall i | 0 <= i < |events[1..]| ensures events[1..][i] == events[i + 1] { }
      }
      ReplayKeepsUniqueIds(Step(data, events[0]), events[1..]);
    }
  }

  /** A worked example: a mixed seed, an in-place update and an append. */
  lemma SeedThenUpdates()
    ensures var admin := User("1", "ADMIN", None, None, None);
      var lecturer := User("2", "LECTURER", None, None, None);
      var renamed := User("1", "ADMIN", Some("X"), None, None);
      var newcomer := User("3", "ADMIN", None, None, None);
      && Step([], InitUsers(Parsed([admin, lecturer]))) == [admin]
      && Step([admin], UserUpdate(Parsed(renamed))) == [renamed]
      && Step([renamed], UserUpdate(Parsed(newcomer))) == [renamed, newcomer]
  {
    var admin := User("1", "ADMIN", None, None, None);
    var lecturer := User("2", "LECTURER", None, None, None);
    assert Seqs.Filter([admin, lecturer], Admitted) == [admin] + Seqs.Filter([lecturer], Admitted);
    assert Seqs.Filter([lecturer], Admitted) == [] + Seqs.Filter([], Admitted);
    var renamed := User("1", "ADMIN", Some("X"), None, None);
    UpdateKnownIdInPlace([admin], renamed, 0);
  }

  /** What the screen renders: a spinner, the error text, or the table over the list. */
  datatype ScreenView = Spinner | ErrorText(message: string) | Table(rows: seq<User>)

  /** The component's state slots `data`, `loading` and `error`, and whether its
      `EventSource` is still open. */
  class AdminsScreen {
    var data: seq<User>
    var loading: bool
    var error: Option<string>
    var streamOpen: bool

    /** Mount: empty list, loading, no error, stream opened with the session token. */
    constructor ()
      ensures data == [] && loading && error == None && streamOpen
    {
      data := [];
      loading := true;
      error := None;
      streamOpen := true;
    }

    /** The `initUsers` listener. */
    method OnInitUsers(payload: Parsed<seq<User>>)
      modifies this`data
      ensures payload.Parsed? ==> data == SeedFilter(payload.value)
      ensures payload.Malformed? ==> data == old(data)
    {
      if payload.Parsed? {
        data := SeedFilter(payload.value);
      }
    }

    /** The `userUpdate` listener. */
    method OnUserUpdate(payload: Parsed<User>)
      modifies this`data
      ensures payload.Parsed? ==> data == ApplyUpdate(old(data), payload.value)
      ensures payload.Malformed? ==> data == old(data)
    {
      if payload.Parsed? {
        var user := payload.value;
        if user.role != LecturerRole {
          data := Upsert(data, user);
        }
      }
    }

    /** The `onerror` handler: report the lost connection and close the stream. */
    method OnError()
      modifies this`error, this`streamOpen
      ensures error == Some(ConnectionLost) && !streamOpen
    {
      error := Some(ConnectionLost);
      streamOpen := false;
    }

    /** The 1500 ms timer that ends the loading state. */
    method OnLoadingTimeout()
      modifies this`loading
      ensures !loading
    {
      loading := false;
    }

    /** The effect's cleanup on unmount: the stream is closed. */
    method Unmount()
      modifies this`streamOpen
      ensures !streamOpen
    {
      streamOpen := false;
    }

    /** A token change re-runs the effect: the old stream is closed and a new one opened,
        loading starts again, and neither the list nor a previous error is cleared. */
    method OnTokenChange()
      modifies this`loading, this`streamOpen
      ensures loading && streamOpen
    {
      loading := true;
      streamOpen := true;
    }

    /** The `EventSource` delivers an event to its listeners only while open. */
    method Deliver(e: StreamEvent)
      modifies this
      ensures !old(streamOpen) ==> unchanged(this)
      ensures old(streamOpen) ==> data == Step(old(data), e) && loading == old(loading)
      ensures old(streamOpen) && e.TransportError? ==> error == Some(ConnectionLost) && !streamOpen
      ensures old(streamOpen) && !e.TransportError? ==> error == old(error) && streamOpen
    {
      if streamOpen {
        match e
        case InitUsers(payload) => OnInitUsers(payload);
        case UserUpdate(payload) => OnUserUpdate(payload);
        case TransportError => OnError();
      }
    }

    /** The render: spinner while loading, then the error text if one was set, else the table. */
    function View(): (v: ScreenView)
      reads this
      ensures v.Table? <==> !loading && (error.None? || error.value == "")
      ensures v.Table? ==> v.rows == data
    {
      if loading then Spinner
      else if error.Some? && error.value != "" then ErrorText(error.value)
      else Table(data)
    }
  }
}
