/** The session hook of the web client: the list of chat sessions, the
 *  active one, and the copy of the list kept in browser storage under
 *  "kai-sessions". Fresh ids and the clock are parameters; the storage is
 *  the field `saved`, and reading it back goes through `parse`. */
module SessionHook {
  import opened Wrappers

  const StorageKey := "kai-sessions"
  const NewTitle := "New Chat"

  datatype Session = Session(id: string, title: string, createdAt: int, lastMessageAt: int)

  /** `loadSessions`: the stored list, or none when nothing (or "") is
   *  stored or the text does not parse. */
  function Load(stored: Option<string>, parse: string -> Result<seq<Session>, string>): (r: seq<Session>)
    ensures stored.None? || stored == Some([]) ==> r == []
    ensures stored.Some? && stored.value != [] && parse(stored.value).Err? ==> r == []
    ensures stored.Some? && stored.value != [] && parse(stored.value).Ok? ==> r == parse(stored.value).value
  {
    if stored.None? || stored.value == [] then []
    else match parse(stored.value)
      case Ok(sessions) => sessions
      case Err(_) => []
  }

  /** `updateSessionTitle`'s list: the sessions with the id get the title
   *  and the time; the others stay as they are. */
  function Retitled(sessions: seq<Session>, id: string, title: string, now: int): (r: seq<Session>)
    ensures |r| == |sessions|
    ensures forall i :: 0 <= i < |sessions| ==> r[i].id == sessions[i].id && r[i].createdAt == sessions[i].createdAt
    ensures forall i :: 0 <= i < |sessions| && sessions[i].id == id ==> r[i].title == title && r[i].lastMessageAt == now
    ensures forall i :: 0 <= i < |sessions| && sessions[i].id != id ==> r[i] == sessions[i]
  {
    seq(|sessions|, i requires 0 <= i < |sessions| =>
      if sessions[i].id == id then sessions[i].(title := title, lastMessageAt := now) else sessions[i])
  }

  /** Renaming twice to the same title at the same time is renaming once. */
  lemma RetitleIdempotent(sessions: seq<Session>, id: string, title: string, now: int)
    ensures Retitled(Retitled(sessions, id, title, now), id, title, now) == Retitled(sessions, id, title, now)
  {
  }

  /** `deleteSession`'s list: exactly the sessions with another id, in
   *  order. */
  function Without(sessions: seq<Session>, id: string): (r: seq<Session>)
    ensures |r| <= |sessions|
    ensures forall s :: s in r <==> s in sessions && s.id != id
  {
    if sessions == [] then []
    else (if sessions[0].id == id then [] else [sessions[0]]) + Without(sessions[1..], id)
  }

  /** The filter keeps order and duplicates: deleting from two lists one
   *  after the other is deleting from each. With the membership and length
   *  clauses of `Without`, this fixes the result for every list. */
  lemma {:induction false} WithoutConcat(a: seq<Session>, b: seq<Session>, id: string)
    ensures Without(a + b, id) == Without(a, id) + Without(b, id)
  {
    if a != [] {
      assert (a + b)[0] == a[0];
      assert (a + b)[1..] == a[1..] + b;
      WithoutConcat(a[1..], b, id);
    } else {
      assert a + b == b;
    }
  }

  /** The session made active after deleting the active one is the first
   *  session, in list order, whose id differs. */
  lemma {:induction false} WithoutHead(sessions: seq<Session>, id: string, k: nat)
    requires k < |sessions| && sessions[k].id != id
    requires forall j :: 0 <= j < k ==> sessions[j].id == id
    ensures Without(sessions, id) != [] && Without(sessions, id)[0] == sessions[k]
  {
    if k > 0 {
      WithoutHead(sessions[1..], id, k - 1);
    }
  }

  /** Removing an id that no session has changes nothing. */
  lemma {:induction false} WithoutAbsent(sessions: seq<Session>, id: string)
    requires forall i :: 0 <= i < |sessions| ==> sessions[i].id != id
    ensures Without(sessions, id) == sessions
  {
    if sessions != [] {
      WithoutAbsent(sessions[1..], id);
      assert [sessions[0]] + sessions[1..] == sessions;
    }
  }

  /** Deleting a session just created with a fresh id gives back the list
   *  as it was. */
  lemma CreateThenDelete(sessions: seq<Session>, s: Session)
    requires forall i :: 0 <= i < |sessions| ==> sessions[i].id != s.id
    ensures Without([s] + sessions, s.id) == sessions
  {
    assert ([s] + sessions)[1..] == sessions;
    WithoutAbsent(sessions, s.id);
  }

  /** The state of the hook. */
  class SessionStore {
    var sessions: seq<Session>
    var activeSessionId: string
    var saved: seq<Session>

    /** Storage mirrors the list. */
    predicate Mirrored()
      reads this
    {
      saved == sessions
    }

    /** Opening the hook: the stored sessions, the first of them active.
     *  Without any, a new session is made active and written to storage,
     *  but the list itself starts empty, so storage and list differ until
     *  the next change. The clock is read twice for the new session: once
     *  for `createdAt`, once for `lastMessageAt`. */
    constructor(stored: Option<string>, parse: string -> Result<seq<Session>, string>, freshId: string, createdAt: int, lastMessageAt: int)
      ensures sessions == Load(stored, parse)
      ensures sessions != [] ==> activeSessionId == sessions[0].id && Mirrored()
      ensures sessions == [] ==>
        && activeSessionId == freshId
        && saved == [Session(freshId, NewTitle, createdAt, lastMessageAt)]
        && !Mirrored()
    {
      var loaded := Load(stored, parse);
      sessions := loaded;
      var existing := Load(stored, parse);
      if |existing| > 0 {
        activeSessionId := existing[0].id;
        saved := loaded;
      } else {
        activeSessionId := freshId;
        saved := [Session(freshId, NewTitle, createdAt, lastMessageAt)];
      }
    }

    /** `createSession`: a new session in front, saved and made active;
     *  `createdAt` and `lastMessageAt` are two readings of the clock. */
    method CreateSession(id: string, createdAt: int, lastMessageAt: int) returns (r: string)
      modifies this
      ensures sessions == [Session(id, NewTitle, createdAt, lastMessageAt)] + old(sessions)
      ensures Mirrored() && activeSessionId == id && r == id
    {
      var session := Session(id, NewTitle, createdAt, lastMessageAt);
      var next := [session] + sessions;
      saved := next;
      sessions := next;
      activeSessionId := id;
      r := id;
    }

    /** `updateSessionTitle` */
    method UpdateSessionTitle(id: string, title: string, now: int)
      modifies this
      ensures sessions == Retitled(old(sessions), id, title, now)
      ensures Mirrored() && activeSessionId == old(activeSessionId)
    {
      var next := Retitled(sessions, id, title, now);
      saved := next;
      sessions := next;
    }

    /** `deleteSession`: the sessions with the id go; when the active one
     *  went and some remain, the first remaining becomes active. */
    method DeleteSession(id: string)
      modifies this
      ensures sessions == Without(old(sessions), id) && Mirrored()
      ensures id == old(activeSessionId) && sessions != [] ==> activeSessionId == sessions[0].id
      ensures !(id == old(activeSessionId) && sessions != []) ==> activeSessionId == old(activeSessionId)
    {
      var next := Without(sessions, id);
      saved := next;
      if id == activeSessionId && |next| > 0 {
        activeSessionId := next[0].id;
      }
      sessions := next;
    }
  }

  /** Once a change is made, the active session is listed unless the list
   *  is empty, and deleting keeps it so. */
  lemma DeleteKeepsActiveListed(sessions: seq<Session>, active: string, id: string)
    requires exists i :: 0 <= i < |sessions| && sessions[i].id == active
    ensures var next := Without(sessions, id);
      var nextActive := if id == active && next != [] then next[0].id else active;
      next == [] || exists i :: 0 <= i < |next| && next[i].id == nextActive
  {
    var next := Without(sessions, id);
    if id != active {
      var i :| 0 <= i < |sessions| && sessions[i].id == active;
      assert sessions[i] in next;
      var j :| 0 <= j < |next| && next[j] == sessions[i];
    }
  }
}
