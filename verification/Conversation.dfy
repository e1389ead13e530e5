/**
 The conversation logging hook: requests are buffered until their response arrives, each
 response starts a goroutine, and the goroutines decide one at a time which user and assistant
 messages are written. Times are in nanoseconds.
 */
module Conversation {
  import opened Basics

  const DEDUP_WINDOW := 30 * 1_000_000_000

  datatype Pending = Pending(sessionID: string, requestID: string, userContent: string, auxiliary: bool)

  datatype Recent = Recent(content: string, at: int, assistant: string)

  /** A turn whose goroutine has not taken the lock yet. */
  datatype Turn = Turn(sessionID: string, user: string, assistant: string)

  datatype Role = User | Assistant

  datatype Message = Message(sessionID: string, role: Role, content: string)

  /** `log` lists the messages chosen for writing, in the order the goroutines took the lock. */
  datatype State = State(pending: map<string, Pending>, recent: map<string, Recent>, turns: seq<Turn>, log: seq<Message>)

  const EMPTY := State(map[], map[], [], [])

  datatype Op =
    | Request(sessionID: string, requestID: string, userContent: string, auxiliary: bool)
    | Response(sessionID: string, requestID: string, assistant: string)
    | Process(i: nat, now: int)  // goroutine i takes the lock; it read the clock before that

  // ---- keys ----

  function PendingKey(sessionID: string, requestID: string): string {
    if requestID != "" then sessionID + "|" + requestID else sessionID
  }

  /** Requests of sessions whose ids contain no '|' are buffered under different keys. */
  lemma PendingKeyIsInjective(s1: string, r1: string, s2: string, r2: string)
    requires Free(s1, '|') && Free(s2, '|') && PendingKey(s1, r1) == PendingKey(s2, r2)
    ensures s1 == s2 && r1 == r2
  {
    KeyHasBar(s1, r1);
    KeyHasBar(s2, r2);
    if r1 != "" {
      SplitAtFirst(s1, r1, s2, r2, '|');
    }
  }

  lemma KeyHasBar(s: string, r: string)
    requires Free(s, '|')
    ensures Free(PendingKey(s, r), '|') <==> r == ""
  {
    if r != "" { assert PendingKey(s, r)[|s|] == '|'; }
  }

  /** With a '|' in a session id two requests can share a key, and the later one replaces the earlier. */
  lemma PendingKeysCollide(s: string, r: string)
    requires r != ""
    ensures PendingKey(s, r) == PendingKey(s + "|" + r, "")
  {
  }

  /** No request id, and no bar in the session id but possibly at its end. */
  predicate Unshared(s: string, r: string) {
    r == "" && (s == "" || Free(s[..|s| - 1], '|'))
  }

  lemma BarInside(s: string, r: string)
    requires r != ""
    ensures var key := PendingKey(s, r); key != "" && !Free(key[..|key| - 1], '|')
  {
    var key := PendingKey(s, r);
    assert key[..|key| - 1][|s|] == '|';
  }

  /** A request shares its buffer place with no other session and request exactly then. */
  lemma KeyUnsharedIff(s: string, r: string)
    ensures (forall s2, r2 :: PendingKey(s2, r2) == PendingKey(s, r) ==> s2 == s && r2 == r) <==> Unshared(s, r)
  {
    if Unshared(s, r) {
      forall s2, r2 | PendingKey(s2, r2) == PendingKey(s, r) ensures s2 == s && r2 == r {
        if r2 != "" { BarInside(s2, r2); }
      }
    } else if r != "" {
      PendingKeysCollide(s, r);
      assert PendingKey(s + "|" + r, "") == PendingKey(s, r);
    } else {
      var i :| 0 <= i < |s| - 1 && s[i] == '|';
      assert s == s[..i] + "|" + s[i + 1..];
      assert PendingKey(s[..i], s[i + 1..]) == PendingKey(s, r);
    }
  }

  /** A bar at the very end of a session id is harmless: an empty request id adds no bar. */
  lemma BarAtTheEndIsUnshared(s: string, s2: string, r2: string)
    requires Free(s, '|') && PendingKey(s2, r2) == PendingKey(s + "|", "")
    ensures s2 == s + "|" && r2 == ""
  {
    assert (s + "|")[..|s|] == s;
    KeyUnsharedIff(s + "|", "");
  }

  // ---- steps ----

  function OpKey(op: Op): string
    requires !op.Process?
  {
    PendingKey(op.sessionID, op.requestID)
  }

  /** What the response takes from the buffer, or makes up when nothing is buffered. */
  function Taken(s: State, op: Op): Pending
    requires op.Response?
  {
    if OpKey(op) in s.pending then s.pending[OpKey(op)] else Pending(op.sessionID, op.requestID, "", false)
  }

  /** The turn a response hands to a goroutine, if any. */
  function Spawned(s: State, op: Op): seq<Turn>
    requires op.Response?
  {
    var p := Taken(s, op);
    if (OpKey(op) !in s.pending && op.sessionID == "") || p.auxiliary then []
    else [Turn(p.sessionID, p.userContent, op.assistant)]
  }

  predicate SameUser(r: Option<Recent>, t: Turn) {
    r.Some? && t.user == r.value.content
  }

  /** A short-term retry: same content, same non-empty reply, inside the window. */
  predicate Drops(r: Option<Recent>, t: Turn, now: int) {
    t.user != "" && SameUser(r, t) && now - r.value.at < DEDUP_WINDOW && t.assistant != "" && t.assistant == r.value.assistant
  }

  function NewRecent(r: Option<Recent>, t: Turn, now: int): Option<Recent> {
    if t.user == "" || Drops(r, t, now) then r else Some(Recent(t.user, now, t.assistant))
  }

  function Written(r: Option<Recent>, t: Turn, now: int): seq<Message> {
    if Drops(r, t, now) then []
    else (if t.user != "" && !SameUser(r, t) then [Message(t.sessionID, User, t.user)] else [])
         + (if t.assistant != "" then [Message(t.sessionID, Assistant, t.assistant)] else [])
  }

  function RecentAt(s: State, sessionID: string): Option<Recent> {
    if sessionID in s.recent then Some(s.recent[sessionID]) else None
  }

  predicate Enabled(s: State, op: Op) {
    op.Process? ==> op.i < |s.turns|
  }

  function Step(s: State, op: Op): State
    requires Enabled(s, op)
  {
    match op
    case Request(sid, rid, content, aux) => s.(pending := s.pending[OpKey(op) := Pending(sid, rid, content, aux)])
    case Response(_, _, _) => s.(pending := s.pending - {OpKey(op)}, turns := s.turns + Spawned(s, op))
    case Process(i, now) =>
      var t := s.turns[i];
      var r := RecentAt(s, t.sessionID);
      var r' := NewRecent(r, t, now);
      s.(turns := s.turns[..i] + s.turns[i + 1..],
         recent := if r'.Some? then s.recent[t.sessionID := r'.value] else s.recent,
         log := s.log + Written(r, t, now))
  }

  predicate Runs(run: seq<Op>)
    decreases |run|, 0
  {
    run == [] || (Runs(run[..|run| - 1]) && Enabled(After(run[..|run| - 1]), run[|run| - 1]))
  }

  function After(run: seq<Op>): State
    requires Runs(run)
    decreases |run|, 1
  {
    if run == [] then EMPTY else Step(After(run[..|run| - 1]), run[|run| - 1])
  }

  // ---- each buffered request is consumed once ----

  predicate IsRequest(op: Op, key: string) {
    op.Request? && OpKey(op) == key
  }

  predicate IsResponse(op: Op, key: string) {
    op.Response? && OpKey(op) == key
  }

  /** The last request for `key` that no response for it followed. */
  function Open(run: seq<Op>, key: string): Option<nat> {
    if run == [] then None
    else
      var op := run[|run| - 1];
      if IsRequest(op, key) then Some(|run| - 1)
      else if IsResponse(op, key) then None
      else Open(run[..|run| - 1], key)
  }

  lemma {:induction false} OpenIff(run: seq<Op>, key: string, k: nat)
    ensures Open(run, key) == Some(k) <==>
      k < |run| && IsRequest(run[k], key)
      && forall j :: k < j < |run| ==> !IsRequest(run[j], key) && !IsResponse(run[j], key)
  {
    if run != [] {
      OpenIff(run[..|run| - 1], key, k);
    }
  }

  /** A key is buffered exactly while its last request is unanswered, with that request's content. */
  lemma {:induction false} PendingIsOpenRequest(run: seq<Op>, key: string)
    requires Runs(run)
    ensures key in After(run).pending <==> Open(run, key).Some?
    ensures Open(run, key).Some? ==>
      var k := Open(run, key).value;
      && k < |run| && run[k].Request?
      && After(run).pending[key] == Pending(run[k].sessionID, run[k].requestID, run[k].userContent, run[k].auxiliary)
  {
    if run != [] {
      PendingIsOpenRequest(run[..|run| - 1], key);
    }
  }

  /** A turn is buffered for the next response under a key only if a request for the key came after
      the previous response: no request is consumed twice. */
  lemma {:induction false} ConsumedOnce(run: seq<Op>, i: nat, key: string)
    requires Runs(run) && i < |run| && IsResponse(run[i], key) && key in After(run).pending
    ensures exists k :: i < k < |run| && IsRequest(run[k], key)
  {
    PendingIsOpenRequest(run, key);
    OpenIff(run, key, Open(run, key).value);
  }

  lemma {:induction false} NothingLeft(run: seq<Op>, i: nat, key: string)
    requires Runs(run) && i < |run| && IsResponse(run[i], key)
    requires forall k :: i < k < |run| ==> !IsRequest(run[k], key)
    ensures key !in After(run).pending
  {
    if key in After(run).pending {
      ConsumedOnce(run, i, key);
    }
  }

  /** A replayed response, with no request for its key since the last response, hands over no user content. */
  lemma {:induction false} ReplayAddsNoUser(run: seq<Op>, i: nat, op: Op)
    requires Runs(run) && op.Response? && i < |run| && IsResponse(run[i], OpKey(op))
    requires forall k :: i < k < |run| ==> !IsRequest(run[k], OpKey(op))
    ensures forall t :: t in Spawned(After(run), op) ==> t.user == ""
  {
    NothingLeft(run, i, OpKey(op));
  }

  // ---- the turns that were processed ----

  datatype Done = Done(turn: Turn, now: int)

  function Processed(run: seq<Op>): seq<Done>
    requires Runs(run)
  {
    if run == [] then []
    else
      var init, op := run[..|run| - 1], run[|run| - 1];
      if op.Process? then Processed(init) + [Done(After(init).turns[op.i], op.now)] else Processed(init)
  }

  /** The hook's memory of one session, from the processed turns alone. */
  function RecentOf(done: seq<Done>, sid: string): Option<Recent> {
    if done == [] then None
    else
      var r, d := RecentOf(done[..|done| - 1], sid), done[|done| - 1];
      if d.turn.sessionID == sid then NewRecent(r, d.turn, d.now) else r
  }

  function LogOf(done: seq<Done>): seq<Message> {
    if done == [] then []
    else
      var init, d := done[..|done| - 1], done[|done| - 1];
      LogOf(init) + Written(RecentOf(init, d.turn.sessionID), d.turn, d.now)
  }

  lemma ProcessFollows(s: State, done: seq<Done>, i: nat, now: int, sid: string)
    requires i < |s.turns| && s.log == LogOf(done) && RecentAt(s, sid) == RecentOf(done, sid)
    requires RecentAt(s, s.turns[i].sessionID) == RecentOf(done, s.turns[i].sessionID)
    ensures var d := Done(s.turns[i], now);
      && RecentAt(Step(s, Process(i, now)), sid) == RecentOf(done + [d], sid)
      && Step(s, Process(i, now)).log == LogOf(done + [d])
  {
    var d := Done(s.turns[i], now);
    assert (done + [d])[..|done|] == done;
  }

  /** In every interleaving the hook's memory and the written messages depend only on the processed turns. */
  lemma {:induction false} StateFollowsProcessed(run: seq<Op>, sid: string)
    requires Runs(run)
    ensures RecentAt(After(run), sid) == RecentOf(Processed(run), sid)
    ensures After(run).log == LogOf(Processed(run))
  {
    if run != [] {
      var init, op := run[..|run| - 1], run[|run| - 1];
      var s := After(init);
      StateFollowsProcessed(init, sid);
      if op.Process? {
        StateFollowsProcessed(init, s.turns[op.i].sessionID);
        ProcessFollows(s, Processed(init), op.i, op.now, sid);
      }
    }
  }

  // ---- user messages: consecutive repeats collapsed ----

  /** The non-empty user contents of a session, in processing order. */
  function Contents(done: seq<Done>, sid: string): seq<string> {
    if done == [] then []
    else
      var d := done[|done| - 1];
      Contents(done[..|done| - 1], sid) + (if d.turn.sessionID == sid && d.turn.user != "" then [d.turn.user] else [])
  }

  /** Equal neighbours become one. */
  function Collapse(xs: seq<string>): seq<string> {
    if |xs| <= 1 then xs
    else if xs[|xs| - 1] == xs[|xs| - 2] then Collapse(xs[..|xs| - 1])
    else Collapse(xs[..|xs| - 1]) + [xs[|xs| - 1]]
  }

  function UserOf(m: Message, sid: string): seq<string> {
    if m.sessionID == sid && m.role == User then [m.content] else []
  }

  function UserMessages(log: seq<Message>, sid: string): seq<string> {
    if log == [] then [] else UserMessages(log[..|log| - 1], sid) + UserOf(log[|log| - 1], sid)
  }

  lemma UserMessagesLast(log: seq<Message>, m: Message, sid: string)
    ensures UserMessages(log + [m], sid) == UserMessages(log, sid) + UserOf(m, sid)
  {
    assert (log + [m])[..|log|] == log;
  }

  lemma {:induction false} UserMessagesAppend(a: seq<Message>, b: seq<Message>, sid: string)
    ensures UserMessages(a + b, sid) == UserMessages(a, sid) + UserMessages(b, sid)
  {
    if b == [] {
      assert a + b == a;
    } else {
      var init, last := b[..|b| - 1], b[|b| - 1];
      assert a + b == (a + init) + [last] && b == init + [last];
      UserMessagesAppend(a, init, sid);
      UserMessagesLast(a + init, last, sid);
      UserMessagesLast(init, last, sid);
    }
  }

  lemma UserMessagesOfWritten(r: Option<Recent>, t: Turn, now: int, sid: string)
    ensures UserMessages(Written(r, t, now), sid) ==
      if t.sessionID == sid && t.user != "" && !SameUser(r, t) then [t.user] else []
  {
    if !Drops(r, t, now) {
      var u := if t.user != "" && !SameUser(r, t) then [Message(t.sessionID, User, t.user)] else [];
      var a := if t.assistant != "" then [Message(t.sessionID, Assistant, t.assistant)] else [];
      UserMessagesAppend(u, a, sid);
      if u != [] { assert u[..0] == []; }
      if a != [] { assert a[..0] == []; }
    }
  }

  /** The remembered content is the last non-empty one, whether or not its turn was dropped. */
  lemma {:induction false} RecentIsLastContent(done: seq<Done>, sid: string)
    ensures RecentOf(done, sid).Some? <==> Contents(done, sid) != []
    ensures RecentOf(done, sid).Some? ==> RecentOf(done, sid).value.content == Contents(done, sid)[|Contents(done, sid)| - 1]
  {
    if done != [] {
      RecentIsLastContent(done[..|done| - 1], sid);
    }
  }

  lemma {:induction false} UsersAreCollapsed(done: seq<Done>, sid: string)
    ensures UserMessages(LogOf(done), sid) == Collapse(Contents(done, sid))
  {
    if done != [] {
      var init, d := done[..|done| - 1], done[|done| - 1];
      UsersAreCollapsed(init, sid);
      RecentIsLastContent(init, sid);
      UsersAfterOne(LogOf(init), Contents(init, sid), RecentOf(init, d.turn.sessionID), d, sid);
    }
  }

  lemma {:induction false} UsersAfterOne(log: seq<Message>, contents: seq<string>, r: Option<Recent>, d: Done, sid: string)
    requires UserMessages(log, sid) == Collapse(contents)
    requires d.turn.sessionID == sid ==> (r.Some? <==> contents != [])
    requires d.turn.sessionID == sid && r.Some? ==> r.value.content == contents[|contents| - 1]
    ensures UserMessages(log + Written(r, d.turn, d.now), sid)
         == Collapse(contents + if d.turn.sessionID == sid && d.turn.user != "" then [d.turn.user] else [])
  {
    UserMessagesAppend(log, Written(r, d.turn, d.now), sid);
    UserMessagesOfWritten(r, d.turn, d.now, sid);
    if d.turn.sessionID == sid && d.turn.user != "" {
      CollapseAppend(contents, d.turn.user);
    } else {
      assert contents + [] == contents;
    }
  }

  lemma CollapseAppend(xs: seq<string>, x: string)
    ensures Collapse(xs + [x]) == if xs != [] && xs[|xs| - 1] == x then Collapse(xs) else Collapse(xs) + [x]
  {
    assert (xs + [x])[..|xs|] == xs;
  }

  /** In every interleaving the user messages chosen for a session are its non-empty contents with
      consecutive repeats collapsed, dropped retries and differing replies included. */
  lemma UserOncePerRepeat(run: seq<Op>, sid: string)
    requires Runs(run)
    ensures UserMessages(After(run).log, sid) == Collapse(Contents(Processed(run), sid))
  {
    StateFollowsProcessed(run, sid);
    UsersAreCollapsed(Processed(run), sid);
  }

  // ---- which turns are dropped ----

  predicate IsDropped(done: seq<Done>, n: nat)
    requires n < |done|
  {
    Drops(RecentOf(done[..n], done[n].turn.sessionID), done[n].turn, done[n].now)
  }

  /** Turn i set the hook's memory of its session. */
  predicate IsRecorded(done: seq<Done>, i: nat)
    requires i < |done|
  {
    done[i].turn.user != "" && !IsDropped(done, i)
  }

  /** Turn i is the last recorded turn of session `sid` before position n. */
  predicate LastRecorded(done: seq<Done>, sid: string, n: nat, i: nat)
    requires n <= |done|
  {
    && i < n && done[i].turn.sessionID == sid && IsRecorded(done, i)
    && forall j :: i < j < n && done[j].turn.sessionID == sid ==> !IsRecorded(done, j)
  }

  lemma {:induction false} RecentIsLastRecorded(done: seq<Done>, sid: string, n: nat)
    requires n <= |done|
    ensures var r := RecentOf(done[..n], sid);
      if r.Some? then exists i: nat :: LastRecorded(done, sid, n, i) && r.value == Recent(done[i].turn.user, done[i].now, done[i].turn.assistant)
      else forall i :: 0 <= i < n && done[i].turn.sessionID == sid ==> !IsRecorded(done, i)
  {
    if n > 0 {
      RecentIsLastRecorded(done, sid, n - 1);
      assert done[..n][..n - 1] == done[..n - 1] && done[..n][n - 1] == done[n - 1];
      var r := RecentOf(done[..n - 1], sid);
      if done[n - 1].turn.sessionID == sid && IsRecorded(done, n - 1) {
        assert LastRecorded(done, sid, n, n - 1);
      } else if r.Some? {
        var i: nat :| LastRecorded(done, sid, n - 1, i) && r.value == Recent(done[i].turn.user, done[i].now, done[i].turn.assistant);
        assert LastRecorded(done, sid, n, i);
      }
    }
  }

  lemma LastRecordedIsUnique(done: seq<Done>, sid: string, n: nat, i: nat, j: nat)
    requires n <= |done| && LastRecorded(done, sid, n, i) && LastRecorded(done, sid, n, j)
    ensures i == j
  {
  }

  /** A turn is dropped exactly when the last recorded turn of its session has the same content and
      the same non-empty reply and was stamped less than 30 s before it. Dropped turns never move
      that stamp, so a retry 30 s after it is recorded again. */
  lemma DroppedIff(done: seq<Done>, n: nat)
    requires n < |done|
    ensures IsDropped(done, n) <==>
      exists i: nat ::
        && LastRecorded(done, done[n].turn.sessionID, n, i)
        && done[i].turn == done[n].turn && done[n].turn.assistant != ""
        && done[n].now - done[i].now < DEDUP_WINDOW
  {
    var sid := done[n].turn.sessionID;
    RecentIsLastRecorded(done, sid, n);
    var r := RecentOf(done[..n], sid);
    if r.Some? {
      var i: nat :| LastRecorded(done, sid, n, i) && r.value == Recent(done[i].turn.user, done[i].now, done[i].turn.assistant);
      forall j: nat | LastRecorded(done, sid, n, j) ensures j == i {
        LastRecordedIsUnique(done, sid, n, i, j);
      }
    }
  }

  // ---- assistant messages and the transcript ----

  /** Turn n repeats the last recorded turn of its session within 30 s, with the same non-empty reply. */
  ghost predicate IsRetry(done: seq<Done>, n: nat)
    requires n < |done|
  {
    exists i: nat ::
      && LastRecorded(done, done[n].turn.sessionID, n, i)
      && done[i].turn == done[n].turn && done[n].turn.assistant != ""
      && done[n].now - done[i].now < DEDUP_WINDOW
  }

  /** The last non-empty user content of the session before turn n. */
  function LastContent(done: seq<Done>, n: nat): Option<string>
    requires n < |done|
  {
    var xs := Contents(done[..n], done[n].turn.sessionID);
    if xs == [] then None else Some(xs[|xs| - 1])
  }

  /** What turn n adds to the log: nothing if it is a retry; else its user content, if there is one and
      it is not the last one again, and then its reply, if there is one. */
  ghost function Added(done: seq<Done>, n: nat): seq<Message>
    requires n < |done|
  {
    var t := done[n].turn;
    if IsRetry(done, n) then []
    else if t.user != "" && LastContent(done, n) != Some(t.user) then
      if t.assistant != "" then [Message(t.sessionID, User, t.user), Message(t.sessionID, Assistant, t.assistant)]
      else [Message(t.sessionID, User, t.user)]
    else if t.assistant != "" then [Message(t.sessionID, Assistant, t.assistant)]
    else []
  }

  lemma WrittenIsAdded(done: seq<Done>, n: nat)
    requires n < |done|
    ensures Written(RecentOf(done[..n], done[n].turn.sessionID), done[n].turn, done[n].now) == Added(done, n)
  {
    var sid := done[n].turn.sessionID;
    DroppedIff(done, n);
    assert IsDropped(done, n) <==> IsRetry(done, n);
    RecentIsLastContent(done[..n], sid);
  }

  ghost function Transcript(done: seq<Done>, n: nat): seq<Message>
    requires n <= |done|
  {
    if n == 0 then [] else Transcript(done, n - 1) + Added(done, n - 1)
  }

  lemma {:induction false} LogOfIsTranscript(done: seq<Done>, n: nat)
    requires n <= |done|
    ensures LogOf(done[..n]) == Transcript(done, n)
  {
    if n > 0 {
      LogOfIsTranscript(done, n - 1);
      WrittenIsAdded(done, n - 1);
      assert done[..n][..n - 1] == done[..n - 1] && done[..n][n - 1] == done[n - 1];
    }
  }

  /** In every interleaving the messages chosen for writing are, in the order the turns were processed,
      what each turn adds. */
  lemma {:induction false} LogIsTranscript(run: seq<Op>)
    requires Runs(run)
    ensures After(run).log == Transcript(Processed(run), |Processed(run)|)
  {
    var done := Processed(run);
    StateFollowsProcessed(run, "");
    LogOfIsTranscript(done, |done|);
    assert done[..|done|] == done;
  }

  function AssistantOf(m: Message, sid: string): seq<string> {
    if m.sessionID == sid && m.role == Assistant then [m.content] else []
  }

  function AssistantMessages(log: seq<Message>, sid: string): seq<string> {
    if log == [] then [] else AssistantMessages(log[..|log| - 1], sid) + AssistantOf(log[|log| - 1], sid)
  }

  lemma AssistantMessagesLast(log: seq<Message>, m: Message, sid: string)
    ensures AssistantMessages(log + [m], sid) == AssistantMessages(log, sid) + AssistantOf(m, sid)
  {
    assert (log + [m])[..|log|] == log;
  }

  lemma {:induction false} AssistantMessagesAppend(a: seq<Message>, b: seq<Message>, sid: string)
    ensures AssistantMessages(a + b, sid) == AssistantMessages(a, sid) + AssistantMessages(b, sid)
  {
    if b == [] {
      assert a + b == a;
    } else {
      var init, last := b[..|b| - 1], b[|b| - 1];
      assert a + b == (a + init) + [last] && b == init + [last];
      AssistantMessagesAppend(a, init, sid);
      AssistantMessagesLast(a + init, last, sid);
      AssistantMessagesLast(init, last, sid);
    }
  }

  /** The reply of turn n, if it is one of the session's, not empty, and the turn no retry. */
  ghost function Reply(done: seq<Done>, sid: string, n: nat): seq<string>
    requires n < |done|
  {
    var t := done[n].turn;
    if t.sessionID == sid && t.assistant != "" && !IsRetry(done, n) then [t.assistant] else []
  }

  /** The non-empty replies of the first n processed turns of a session that are no retries. */
  ghost function Replies(done: seq<Done>, sid: string, n: nat): seq<string>
    requires n <= |done|
  {
    if n == 0 then [] else Replies(done, sid, n - 1) + Reply(done, sid, n - 1)
  }

  lemma AssistantOfAdded(done: seq<Done>, n: nat, sid: string)
    requires n < |done|
    ensures AssistantMessages(Added(done, n), sid) == Reply(done, sid, n)
  {
    var t := done[n].turn;
    var u, a := Message(t.sessionID, User, t.user), Message(t.sessionID, Assistant, t.assistant);
    assert [u, a][..1] == [u] && [u][..0] == [] && [a][..0] == [];
    assert AssistantMessages([u], sid) == [];
  }

  function Concat<T>(chunks: seq<seq<T>>): seq<T> {
    if chunks == [] then [] else Concat(chunks[..|chunks| - 1]) + chunks[|chunks| - 1]
  }

  lemma {:induction false} AssistantOfConcat(chunks: seq<seq<Message>>, parts: seq<seq<string>>, sid: string)
    requires |chunks| == |parts| && forall i :: 0 <= i < |chunks| ==> AssistantMessages(chunks[i], sid) == parts[i]
    ensures AssistantMessages(Concat(chunks), sid) == Concat(parts)
  {
    if chunks != [] {
      var n := |chunks| - 1;
      AssistantOfConcat(chunks[..n], parts[..n], sid);
      AssistantMessagesAppend(Concat(chunks[..n]), chunks[n], sid);
    }
  }

  lemma {:induction false} TranscriptIsConcat(done: seq<Done>, chunks: seq<seq<Message>>)
    requires |chunks| <= |done| && forall i :: 0 <= i < |chunks| ==> chunks[i] == Added(done, i)
    ensures Transcript(done, |chunks|) == Concat(chunks)
  {
    if chunks != [] {
      TranscriptIsConcat(done, chunks[..|chunks| - 1]);
    }
  }

  lemma {:induction false} RepliesAreConcat(done: seq<Done>, sid: string, parts: seq<seq<string>>)
    requires |parts| <= |done| && forall i :: 0 <= i < |parts| ==> parts[i] == Reply(done, sid, i)
    ensures Replies(done, sid, |parts|) == Concat(parts)
  {
    if parts != [] {
      RepliesAreConcat(done, sid, parts[..|parts| - 1]);
    }
  }

  lemma {:induction false} AssistantOfTranscript(done: seq<Done>, sid: string)
    ensures AssistantMessages(Transcript(done, |done|), sid) == Replies(done, sid, |done|)
  {
    ghost var chunks := seq(|done|, i requires 0 <= i < |done| => Added(done, i));
    ghost var parts := seq(|done|, i requires 0 <= i < |done| => Reply(done, sid, i));
    forall i | 0 <= i < |done| ensures AssistantMessages(chunks[i], sid) == parts[i] {
      AssistantOfAdded(done, i, sid);
    }
    AssistantOfConcat(chunks, parts, sid);
    TranscriptIsConcat(done, chunks);
    RepliesAreConcat(done, sid, parts);
  }

  /** In every interleaving the assistant messages of a session are the non-empty replies of exactly
      its turns that are no retries, in order. */
  lemma {:induction false} RepliesAreKept(run: seq<Op>, sid: string)
    requires Runs(run)
    ensures AssistantMessages(After(run).log, sid) == Replies(Processed(run), sid, |Processed(run)|)
  {
    LogIsTranscript(run);
    AssistantOfTranscript(Processed(run), sid);
  }

  // ---- no turn is lost ----

  /** The turn of a response, by the request it answers: the last unanswered one for its key, unless
      that is auxiliary; or the reply alone when there is none and the session is known. */
  lemma {:induction false} ResponseHandsOver(run: seq<Op>, op: Op)
    requires Runs(run) && op.Response?
    ensures var k := Open(run, OpKey(op));
      Spawned(After(run), op) ==
        if k.Some? && k.value < |run| && run[k.value].Request? then
          if run[k.value].auxiliary then [] else [Turn(run[k.value].sessionID, run[k.value].userContent, op.assistant)]
        else if op.sessionID == "" then [] else [Turn(op.sessionID, "", op.assistant)]
  {
    PendingIsOpenRequest(run, OpKey(op));
  }

  function HandedOver(run: seq<Op>): seq<Turn>
    requires Runs(run)
  {
    if run == [] then []
    else
      var init, op := run[..|run| - 1], run[|run| - 1];
      HandedOver(init) + if op.Response? then Spawned(After(init), op) else []
  }

  function CountTurn(turns: seq<Turn>, t: Turn): nat {
    if turns == [] then 0 else CountTurn(turns[..|turns| - 1], t) + if turns[|turns| - 1] == t then 1 else 0
  }

  function CountDone(done: seq<Done>, t: Turn): nat {
    if done == [] then 0 else CountDone(done[..|done| - 1], t) + if done[|done| - 1].turn == t then 1 else 0
  }

  lemma {:induction false} CountAppend(a: seq<Turn>, b: seq<Turn>, t: Turn)
    ensures CountTurn(a + b, t) == CountTurn(a, t) + CountTurn(b, t)
  {
    if b == [] {
      assert a + b == a;
    } else {
      CountAppend(a, b[..|b| - 1], t);
      assert (a + b)[..|a + b| - 1] == a + b[..|b| - 1];
    }
  }

  lemma CountWithout(turns: seq<Turn>, i: nat, t: Turn)
    requires i < |turns|
    ensures CountTurn(turns, t) == CountTurn(turns[..i] + turns[i + 1..], t) + if turns[i] == t then 1 else 0
  {
    assert turns == turns[..i] + [turns[i]] + turns[i + 1..];
    CountAppend(turns[..i], [turns[i]], t);
    CountAppend(turns[..i] + [turns[i]], turns[i + 1..], t);
    CountAppend(turns[..i], turns[i + 1..], t);
    assert [turns[i]][..0] == [];
  }

  lemma CountOneDone(done: seq<Done>, d: Done, t: Turn)
    ensures CountDone(done + [d], t) == CountDone(done, t) + if d.turn == t then 1 else 0
  {
    assert (done + [d])[..|done|] == done;
  }

  lemma HandedOverLast(init: seq<Op>, op: Op)
    requires Runs(init) && Enabled(After(init), op)
    ensures Runs(init + [op]) && After(init + [op]) == Step(After(init), op)
    ensures HandedOver(init + [op]) == if op.Response? then HandedOver(init) + Spawned(After(init), op) else HandedOver(init)
    ensures Processed(init + [op]) == if op.Process? then Processed(init) + [Done(After(init).turns[op.i], op.now)] else Processed(init)
  {
    assert (init + [op])[..|init|] == init;
    assert HandedOver(init) + [] == HandedOver(init);
  }

  lemma ConservedStep(s: State, handed: seq<Turn>, done: seq<Done>, op: Op, t: Turn)
    requires Enabled(s, op) && CountTurn(handed, t) == CountDone(done, t) + CountTurn(s.turns, t)
    ensures op.Response? ==>
      CountTurn(handed + Spawned(s, op), t) == CountDone(done, t) + CountTurn(Step(s, op).turns, t)
    ensures op.Process? ==>
      CountTurn(handed, t) == CountDone(done + [Done(s.turns[op.i], op.now)], t) + CountTurn(Step(s, op).turns, t)
  {
    if op.Response? {
      CountAppend(handed, Spawned(s, op), t);
      CountAppend(s.turns, Spawned(s, op), t);
    } else if op.Process? {
      CountWithout(s.turns, op.i, t);
      CountOneDone(done, Done(s.turns[op.i], op.now), t);
    }
  }

  /** Every turn handed over is processed once or still waits for its goroutine. */
  lemma {:induction false} TurnsAreConserved(run: seq<Op>, t: Turn)
    requires Runs(run)
    ensures CountTurn(HandedOver(run), t) == CountDone(Processed(run), t) + CountTurn(After(run).turns, t)
  {
    if run != [] {
      var init, op := run[..|run| - 1], run[|run| - 1];
      assert run == init + [op];
      TurnsAreConserved(init, t);
      HandedOverLast(init, op);
      ConservedStep(After(init), HandedOver(init), Processed(init), op, t);
    }
  }

  // ---- the code ----

  class LoggingHook {
    var pending: map<string, Pending>
    var recent: map<string, Recent>
    var turns: seq<Turn>
    var log: seq<Message>

    function View(): State
      reads this
    {
      State(pending, recent, turns, log)
    }

    constructor ()
      ensures View() == After([])
    {
      pending, recent, turns, log := map[], map[], [], [];
    }

    method OnRequest(sessionID: string, requestID: string, userContent: string, auxiliary: bool)
      modifies this
      ensures View() == Step(old(View()), Request(sessionID, requestID, userContent, auxiliary))
    {
      var turn := Pending(sessionID, requestID, userContent, auxiliary);
      pending := pending[PendingKey(sessionID, requestID) := turn];
    }

    method OnResponse(sessionID: string, requestID: string, assistant: string)
      modifies this
      ensures View() == Step(old(View()), Response(sessionID, requestID, assistant))
    {
      var key := PendingKey(sessionID, requestID);
      var p := Pending(sessionID, requestID, "", false);
      if key in pending {
        p := pending[key];
        pending := pending - {key};
      } else {
        assert pending - {key} == pending;
        if sessionID == "" {
          return;
        }
      }
      if p.auxiliary {
        return;
      }
      turns := turns + [Turn(p.sessionID, p.userContent, assistant)];
    }

    /** The goroutine of turn i, which read the clock at `now`. */
    method RunTurn(i: nat, now: int)
      requires i < |turns|
      modifies this
      ensures View() == Step(old(View()), Process(i, now))
    {
      var t := turns[i];
      turns := turns[..i] + turns[i + 1..];
      if t.user != "" {
        var writeUser := true;
        if t.sessionID in recent {
          var r := recent[t.sessionID];
          if t.user == r.content {
            writeUser := false;
            if now - r.at < DEDUP_WINDOW && t.assistant != "" && t.assistant == r.assistant {
              assert recent[t.sessionID := r] == recent;
              return;
            }
          }
        }
        recent := recent[t.sessionID := Recent(t.user, now, t.assistant)];
        if writeUser {
          log := log + [Message(t.sessionID, User, t.user)];
        }
      }
      if t.assistant != "" {
        log := log + [Message(t.sessionID, Assistant, t.assistant)];
      }
    }
  }
}
