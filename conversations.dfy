/** The conversation store: rows of the remote `conversations` table, the
    derived session list, and the `ConversationService` that reads and writes
    the table on behalf of one current session. */
module Conversations {
  import opened Wrappers
  import opened Sequences
  import opened Messages

  /** One row of the `conversations` table. The surrogate `id` and the
      nullable `user_id` are never read by the client and are omitted. */
  datatype Row = Row(sessionId: string, messageId: string, prompt: string, response: string, timestamp: nat)

  /** `ConversationMessage`: the columns `getRecentConversations` selects. */
  datatype Exchange = Exchange(prompt: string, response: string, timestamp: nat)

  /** `ChatSession`: the summary of one session shown in the sidebar. */
  datatype ChatSession = ChatSession(sessionId: string, lastMessage: string, timestamp: nat, messageCount: nat)

  /** The remote store rejected a read, write or delete. */
  datatype StoreError = Rejected

  // ---------------------------------------------------------------------
  // Orderings and filters over rows

  /** Ascending by timestamp: the table's order, and `order('timestamp')`. */
  ghost predicate OldestFirst(rows: seq<Row>)
  {
    forall i, j :: 0 <= i < j < |rows| ==> rows[i].timestamp <= rows[j].timestamp
  }

  /** Descending by timestamp: `order('timestamp', { ascending: false })`. */
  ghost predicate NewestFirst(rows: seq<Row>)
  {
    forall i, j :: 0 <= i < j < |rows| ==> rows[i].timestamp >= rows[j].timestamp
  }

  /** `message_id` is unique per row. */
  ghost predicate UniqueMessageIds(rows: seq<Row>)
  {
    forall i, j :: 0 <= i < j < |rows| ==> rows[i].messageId != rows[j].messageId
  }

  /** The rows of one session, in table order: `.eq('session_id', sid)`. */
  function OfSession(rows: seq<Row>, sid: string): (r: seq<Row>)
    ensures |r| <= |rows|
    ensures forall x :: x in r ==> x in rows && x.sessionId == sid
  {
    if rows == [] then []
    else if rows[0].sessionId == sid then [rows[0]] + OfSession(rows[1..], sid)
    else OfSession(rows[1..], sid)
  }

  /** The rows of every other session: what `.delete().eq('session_id', sid)` leaves. */
  function WithoutSession(rows: seq<Row>, sid: string): (r: seq<Row>)
    ensures |r| <= |rows|
    ensures forall x :: x in r ==> x in rows && x.sessionId != sid
  {
    if rows == [] then []
    else if rows[0].sessionId == sid then WithoutSession(rows[1..], sid)
    else [rows[0]] + WithoutSession(rows[1..], sid)
  }

  /** The session id of every row, in row order. */
  function Ids(rows: seq<Row>): (ids: seq<string>)
    ensures |ids| == |rows|
    ensures forall i :: 0 <= i < |rows| ==> ids[i] == rows[i].sessionId
  {
    seq(|rows|, i requires 0 <= i < |rows| => rows[i].sessionId)
  }

  /** The distinct session ids, in the order they are first met. */
  function SessionIds(rows: seq<Row>): seq<string>
  {
    Distinct(Ids(rows))
  }

  // ---------------------------------------------------------------------
  // Session summaries (getChatSessions)

  /** The summary of session `sid`: preview and timestamp from its first row
      in `rows`, and the number of rows it has. */
  function Summary(rows: seq<Row>, sid: string): ChatSession
    requires OfSession(rows, sid) != []
  {
    var first := OfSession(rows, sid)[0];
    ChatSession(sid, first.prompt, first.timestamp, |OfSession(rows, sid)|)
  }

  /** Reference definition of `getChatSessions` over the rows it receives:
      one summary per distinct session, in first-seen order, at most `limit`. */
  function ChatSessions(rows: seq<Row>, limit: nat): seq<ChatSession>
  {
    var ids := SessionIds(rows);
    SessionIdsHaveRows(rows);
    Take(seq(|ids|, k requires 0 <= k < |ids| => Summary(rows, ids[k])), limit)
  }

  lemma {:induction false} OfSessionNonEmpty(rows: seq<Row>, sid: string)
    ensures OfSession(rows, sid) != [] <==> sid in Ids(rows)
  {
    if rows != [] {
      OfSessionNonEmpty(rows[1..], sid);
      assert Ids(rows) == [rows[0].sessionId] + Ids(rows[1..]);
    }
  }

  lemma SessionIdsHaveRows(rows: seq<Row>)
    ensures forall sid :: sid in SessionIds(rows) ==> OfSession(rows, sid) != []
  {
    DistinctSameElements(Ids(rows));
    forall sid | sid in SessionIds(rows) ensures OfSession(rows, sid) != [] {
      OfSessionNonEmpty(rows, sid);
    }
  }

  lemma {:induction false} OfSessionAppend(rows: seq<Row>, r: Row, sid: string)
    ensures OfSession(rows + [r], sid) == OfSession(rows, sid) + (if r.sessionId == sid then [r] else [])
  {
    if rows != [] {
      assert (rows + [r])[1..] == rows[1..] + [r];
      OfSessionAppend(rows[1..], r, sid);
    }
  }

  lemma {:induction false} WithoutSessionAppend(rows: seq<Row>, r: Row, sid: string)
    ensures WithoutSession(rows + [r], sid) == WithoutSession(rows, sid) + (if r.sessionId == sid then [] else [r])
  {
    if rows != [] {
      assert (rows + [r])[1..] == rows[1..] + [r];
      WithoutSessionAppend(rows[1..], r, sid);
    }
  }

  /** `Array.from(sessionMap.values()).slice(0, limit)` after the `forEach`
      over `rows` that records the first row of each new session and only
      counts the later ones. The preview and timestamp stay pinned to the
      first row seen, which is the newest one only because the rows arrive
      newest first. */
  method GroupSessions(rows: seq<Row>, limit: nat) returns (sessions: seq<ChatSession>)
    requires NewestFirst(rows)
    ensures sessions == ChatSessions(rows, limit)
    ensures forall k :: 0 <= k < |sessions| ==> IsLatestOf(rows, sessions[k])
    ensures forall k, l :: 0 <= k < l < |sessions| ==> sessions[k].timestamp >= sessions[l].timestamp
  {
    var order: seq<string> := [];
    var byId: map<string, ChatSession> := map[];
    for i := 0 to |rows|
      invariant Grouped(rows[..i], order, byId)
    {
      var r := rows[i];
      assert rows[..i + 1] == rows[..i] + [r];
      if r.sessionId !in byId {
        GroupNewSession(rows[..i], r, order, byId);
        byId := byId[r.sessionId := ChatSession(r.sessionId, r.prompt, r.timestamp, 1)];
        order := order + [r.sessionId];
      } else {
        GroupSeenSession(rows[..i], r, order, byId);
        var s := byId[r.sessionId];
        byId := byId[r.sessionId := s.(messageCount := s.messageCount + 1)];
      }
    }
    assert rows[..|rows|] == rows;
    sessions := Take(seq(|order|, k requires 0 <= k < |order| => byId[order[k]]), limit);
    GroupedSessions(rows, order, byId, limit);
    ChatSessionsNewest(rows, limit);
  }

  /** The loop state of `GroupSessions` after the rows `seen`: the sessions
      in first-seen order, each mapped to its summary over `seen`. */
  ghost predicate Grouped(seen: seq<Row>, order: seq<string>, byId: map<string, ChatSession>)
  {
    order == SessionIds(seen) &&
    (forall sid :: sid in byId <==> sid in order) &&
    (forall sid :: sid in byId ==> OfSession(seen, sid) != [] && byId[sid] == Summary(seen, sid))
  }

  /** A row of a session not seen before opens it with a count of one. */
  lemma GroupNewSession(seen: seq<Row>, r: Row, order: seq<string>, byId: map<string, ChatSession>)
    requires Grouped(seen, order, byId) && r.sessionId !in byId
    ensures Grouped(seen + [r], order + [r.sessionId], byId[r.sessionId := ChatSession(r.sessionId, r.prompt, r.timestamp, 1)])
  {
    GroupedIds(seen, r, order);
    OfSessionNonEmpty(seen, r.sessionId);
    var byId' := byId[r.sessionId := ChatSession(r.sessionId, r.prompt, r.timestamp, 1)];
    forall sid | sid in byId'
      ensures OfSession(seen + [r], sid) != [] && byId'[sid] == Summary(seen + [r], sid)
    {
      OfSessionAppend(seen, r, sid);
    }
  }

  /** A further row of a known session only raises its count. */
  lemma GroupSeenSession(seen: seq<Row>, r: Row, order: seq<string>, byId: map<string, ChatSession>)
    requires Grouped(seen, order, byId) && r.sessionId in byId
    ensures Grouped(seen + [r], order, byId[r.sessionId := byId[r.sessionId].(messageCount := byId[r.sessionId].messageCount + 1)])
  {
    var s := byId[r.sessionId];
    var byId' := byId[r.sessionId := s.(messageCount := s.messageCount + 1)];
    assert order == SessionIds(seen + [r]) by {
      GroupedIds(seen, r, order);
    }
    assert byId'.Keys == byId.Keys;
    forall sid | sid in byId'
      ensures OfSession(seen + [r], sid) != [] && byId'[sid] == Summary(seen + [r], sid)
    {
      SummaryAppend(seen, r, sid);
    }
  }

  /** One more row leaves the summary of a session already seen unchanged
      except for its count, which it raises when the row belongs to it. */
  lemma SummaryAppend(seen: seq<Row>, r: Row, sid: string)
    requires OfSession(seen, sid) != []
    ensures OfSession(seen + [r], sid) != []
    ensures Summary(seen + [r], sid) ==
      var before := Summary(seen, sid);
      if r.sessionId == sid then before.(messageCount := before.messageCount + 1) else before
  {
    OfSessionAppend(seen, r, sid);
    var before := OfSession(seen, sid);
    assert (before + [r])[0] == before[0];
  }

  lemma GroupedIds(seen: seq<Row>, r: Row, order: seq<string>)
    requires order == SessionIds(seen)
    ensures r.sessionId in order <==> r.sessionId in Ids(seen)
    ensures SessionIds(seen + [r]) == if r.sessionId in order then order else order + [r.sessionId]
  {
    assert Ids(seen + [r]) == Ids(seen) + [r.sessionId];
    DistinctSameElements(Ids(seen));
    DistinctSnoc(Ids(seen), r.sessionId);
  }

  /** Once every row is seen, the map read in first-seen order is the
      reference list of summaries. */
  lemma GroupedSessions(rows: seq<Row>, order: seq<string>, byId: map<string, ChatSession>, limit: nat)
    requires Grouped(rows, order, byId)
    ensures forall k :: 0 <= k < |order| ==> order[k] in byId
    ensures Take(seq(|order|, k requires 0 <= k < |order| => byId[order[k]]), limit) == ChatSessions(rows, limit)
  {
    var ids := SessionIds(rows);
    SessionIdsHaveRows(rows);
    var mine := seq(|order|, k requires 0 <= k < |order| => byId[order[k]]);
    var reference := seq(|ids|, k requires 0 <= k < |ids| => Summary(rows, ids[k]));
    assert mine == reference;
  }

  /** `session` carries the preview and timestamp of a newest row of its session. */
  ghost predicate IsLatestOf(rows: seq<Row>, session: ChatSession)
  {
    exists i :: 0 <= i < |rows| && rows[i].sessionId == session.sessionId &&
      rows[i].prompt == session.lastMessage && rows[i].timestamp == session.timestamp &&
      forall j :: 0 <= j < |rows| && rows[j].sessionId == session.sessionId ==> rows[j].timestamp <= session.timestamp
  }

  /** The first row of a session is the row where its id first occurs. */
  lemma {:induction false} FirstRowOfSession(rows: seq<Row>, sid: string)
    requires sid in Ids(rows)
    ensures OfSession(rows, sid) != []
    ensures OfSession(rows, sid)[0] == rows[FirstIndex(Ids(rows), sid)]
  {
    var ids := Ids(rows);
    assert ids[0] == rows[0].sessionId;
    if rows[0].sessionId != sid {
      assert ids[1..] == Ids(rows[1..]);
      assert sid in ids[1..];
      FirstRowOfSession(rows[1..], sid);
      assert FirstIndex(ids, sid) == 1 + FirstIndex(ids[1..], sid);
      assert rows[1..][FirstIndex(ids[1..], sid)] == rows[FirstIndex(ids, sid)];
    }
  }

  /** On newest-first rows the summaries report each session's newest row,
      and the sessions come most recently active first. */
  lemma ChatSessionsNewest(rows: seq<Row>, limit: nat)
    requires NewestFirst(rows)
    ensures forall k :: 0 <= k < |ChatSessions(rows, limit)| ==> IsLatestOf(rows, ChatSessions(rows, limit)[k])
    ensures forall k, l :: 0 <= k < l < |ChatSessions(rows, limit)| ==>
      ChatSessions(rows, limit)[k].timestamp >= ChatSessions(rows, limit)[l].timestamp
  {
    var ids := SessionIds(rows);
    var sessions := ChatSessions(rows, limit);
    DistinctSameElements(Ids(rows));
    forall k | 0 <= k < |sessions|
      ensures ids[k] in Ids(rows) && sessions[k].timestamp == rows[FirstIndex(Ids(rows), ids[k])].timestamp
      ensures IsLatestOf(rows, sessions[k])
    {
      assert ids[k] in ids;
      SummaryIsLatest(rows, ids[k]);
      assert sessions[k] == Summary(rows, ids[k]);
    }
    forall k, l | 0 <= k < l < |sessions|
      ensures sessions[k].timestamp >= sessions[l].timestamp
    {
      DistinctFirstAppearanceOrder(Ids(rows));
      assert InFirstAppearanceOrder(ids, Ids(rows));
    }
  }

  /** On newest-first rows a session's summary is taken from its newest row,
      the first row carrying its id. */
  lemma SummaryIsLatest(rows: seq<Row>, sid: string)
    requires NewestFirst(rows) && sid in Ids(rows)
    ensures OfSession(rows, sid) != []
    ensures Summary(rows, sid).timestamp == rows[FirstIndex(Ids(rows), sid)].timestamp
    ensures IsLatestOf(rows, Summary(rows, sid))
  {
    FirstRowOfSession(rows, sid);
    var i := FirstIndex(Ids(rows), sid);
    var session := Summary(rows, sid);
    forall j | 0 <= j < |rows| && rows[j].sessionId == sid
      ensures rows[j].timestamp <= session.timestamp
    {
      assert Ids(rows)[j] == sid;
    }
    assert rows[i].sessionId == sid;
  }

  /** The session list never repeats a session, holds at most `limit`
      entries (fewer only when there are fewer sessions), and counts every
      row of each session it lists. */
  lemma ChatSessionsFacts(rows: seq<Row>, limit: nat)
    ensures NoDuplicates(SessionsOf(ChatSessions(rows, limit)))
    ensures |ChatSessions(rows, limit)| == if limit < |SessionIds(rows)| then limit else |SessionIds(rows)|
    ensures forall k :: 0 <= k < |ChatSessions(rows, limit)| ==>
      ChatSessions(rows, limit)[k].sessionId == Distinct(Ids(rows))[k]
    ensures forall k :: 0 <= k < |ChatSessions(rows, limit)| ==>
      ChatSessions(rows, limit)[k].sessionId in Ids(rows) &&
      ChatSessions(rows, limit)[k].messageCount == |OfSession(rows, ChatSessions(rows, limit)[k].sessionId)| >= 1
    ensures |SessionIds(rows)| <= limit ==>
      forall i :: 0 <= i < |rows| ==> rows[i].sessionId in SessionsOf(ChatSessions(rows, limit))
  {
    var ids := SessionIds(rows);
    var sessions := ChatSessions(rows, limit);
    DistinctHasNoDuplicates(Ids(rows));
    DistinctSameElements(Ids(rows));
    SessionIdsHaveRows(rows);
    forall k | 0 <= k < |sessions|
      ensures sessions[k].sessionId == ids[k] && ids[k] in Ids(rows)
      ensures sessions[k].messageCount == |OfSession(rows, ids[k])| >= 1
    {
      assert ids[k] in ids;
      assert sessions[k] == Summary(rows, ids[k]);
    }
    if |ids| <= limit {
      forall i | 0 <= i < |rows| ensures rows[i].sessionId in SessionsOf(sessions) {
        assert Ids(rows)[i] == rows[i].sessionId && rows[i].sessionId in Ids(rows);
        assert rows[i].sessionId in ids;
        var k :| 0 <= k < |ids| && ids[k] == rows[i].sessionId;
        assert SessionsOf(sessions)[k] == rows[i].sessionId;
      }
    }
  }

  /** The session ids of a session list. */
  function SessionsOf(sessions: seq<ChatSession>): (ids: seq<string>)
    ensures |ids| == |sessions|
    ensures forall k :: 0 <= k < |sessions| ==> ids[k] == sessions[k].sessionId
  {
    seq(|sessions|, k requires 0 <= k < |sessions| => sessions[k].sessionId)
  }

  /** Two messages of session s1 and one of s2, newest first, give s1 with
      the newest preview and a count of two, then s2 with a count of one. */
  lemma ChatSessionsExample()
    ensures ChatSessions([Row("s1", "m3", "p3", "r3", 3), Row("s1", "m2", "p2", "r2", 2), Row("s2", "m1", "p1", "r1", 1)], 3)
      == [ChatSession("s1", "p3", 3, 2), ChatSession("s2", "p1", 1, 1)]
  {
    var rows := [Row("s1", "m3", "p3", "r3", 3), Row("s1", "m2", "p2", "r2", 2), Row("s2", "m1", "p1", "r1", 1)];
    assert Ids(rows) == ["s1", "s1", "s2"];
    assert Distinct(["s1"]) == ["s1"] by {
      assert ["s1"][..0] == [];
    }
    assert Distinct(["s1", "s1"]) == ["s1"] by {
      assert ["s1", "s1"][..1] == ["s1"];
    }
    assert Distinct(["s1", "s1", "s2"]) == ["s1", "s2"] by {
      assert ["s1", "s1", "s2"][..2] == ["s1", "s1"];
    }
    assert OfSession(rows, "s1") == rows[..2];
    assert OfSession(rows, "s2") == rows[2..];
  }

  /** Without the newest-first order the pinned preview misreports: here s1
      is reported at time 1 with the older prompt although it has a row at 5. */
  lemma UnsortedInputMisreports()
    ensures var rows := [Row("s1", "m1", "p1", "r1", 1), Row("s1", "m2", "p2", "r2", 5)];
      ChatSessions(rows, 3) == [ChatSession("s1", "p1", 1, 2)] &&
      rows[1].sessionId == "s1" && rows[1].timestamp > ChatSessions(rows, 3)[0].timestamp
  {
    var rows := [Row("s1", "m1", "p1", "r1", 1), Row("s1", "m2", "p2", "r2", 5)];
    assert Ids(rows) == ["s1", "s1"];
    assert Distinct(["s1"]) == ["s1"] by {
      assert ["s1"][..0] == [];
    }
    assert Distinct(["s1", "s1"]) == ["s1"] by {
      assert ["s1", "s1"][..1] == ["s1"];
    }
    assert OfSession(rows, "s1") == rows;
  }

  // ---------------------------------------------------------------------
  // Recent history (getRecentConversations) and transcripts (loadChatSession)

  function ToExchange(r: Row): Exchange
  {
    Exchange(r.prompt, r.response, r.timestamp)
  }

  /** Reference definition of `getRecentConversations(limit)`: the session's
      rows newest first, cut to `limit`, projected to three columns. */
  function RecentExchanges(rows: seq<Row>, sid: string, limit: nat): seq<Exchange>
  {
    NewestExchanges(Reverse(OfSession(rows, sid)), limit)
  }

  /** The first `limit` rows of `newest`, projected to three columns. */
  function NewestExchanges(newest: seq<Row>, limit: nat): seq<Exchange>
  {
    var m := if limit < |newest| then limit else |newest|;
    seq(m, k requires 0 <= k < m => ToExchange(newest[k]))
  }

  lemma {:induction false} OfSessionOldestFirst(rows: seq<Row>, sid: string)
    requires OldestFirst(rows)
    ensures OldestFirst(OfSession(rows, sid))
  {
    if rows != [] {
      OfSessionOldestFirst(rows[1..], sid);
      forall x | x in OfSession(rows[1..], sid) ensures rows[0].timestamp <= x.timestamp {
        var j :| 0 <= j < |rows[1..]| && rows[1..][j] == x;
        assert rows[j + 1] == x;
      }
    }
  }

  /** The recent history holds min(limit, n) exchanges for a session of n
      rows, the k-th newest row at position k. */
  lemma RecentExchangesShape(rows: seq<Row>, sid: string, limit: nat)
    ensures var n := |OfSession(rows, sid)|;
      |RecentExchanges(rows, sid, limit)| == (if limit < n then limit else n) &&
      forall k :: 0 <= k < |RecentExchanges(rows, sid, limit)| ==>
        RecentExchanges(rows, sid, limit)[k] == ToExchange(OfSession(rows, sid)[n - 1 - k])
  {
    ReversedExchanges(OfSession(rows, sid), limit);
  }

  /** The first `limit` exchanges of a reversed list are its last rows,
      newest first. */
  lemma ReversedExchanges(own: seq<Row>, limit: nat)
    ensures var n := |own|;
      |NewestExchanges(Reverse(own), limit)| == (if limit < n then limit else n) &&
      forall k :: 0 <= k < |NewestExchanges(Reverse(own), limit)| ==>
        NewestExchanges(Reverse(own), limit)[k] == ToExchange(own[n - 1 - k])
  {
    var newest := Reverse(own);
    var recent := NewestExchanges(newest, limit);
    forall k | 0 <= k < |recent| ensures recent[k] == ToExchange(own[|own| - 1 - k]) {
      assert recent[k] == ToExchange(newest[k]);
    }
  }

  /** On a table kept oldest first, the recent history holds exactly
      min(limit, n) entries for a session of n rows: the k-th newest row at
      position k, all of them from the session and newest first. */
  lemma RecentExchangesFacts(rows: seq<Row>, sid: string, limit: nat)
    requires OldestFirst(rows)
    ensures var n := |OfSession(rows, sid)|;
      |RecentExchanges(rows, sid, limit)| == (if limit < n then limit else n) &&
      forall k :: 0 <= k < |RecentExchanges(rows, sid, limit)| ==>
        RecentExchanges(rows, sid, limit)[k] == ToExchange(OfSession(rows, sid)[n - 1 - k])
    ensures forall k, l :: 0 <= k < l < |RecentExchanges(rows, sid, limit)| ==>
      RecentExchanges(rows, sid, limit)[k].timestamp >= RecentExchanges(rows, sid, limit)[l].timestamp
    ensures forall e :: e in RecentExchanges(rows, sid, limit) ==>
      exists r :: r in rows && r.sessionId == sid && ToExchange(r) == e
  {
    var own := OfSession(rows, sid);
    var n := |own|;
    var recent := RecentExchanges(rows, sid, limit);
    RecentExchangesShape(rows, sid, limit);
    var newest := Reverse(own);
    assert NewestFirst(newest) by {
      OfSessionOldestFirst(rows, sid);
      ReverseIsNewestFirst(own);
    }
    forall k, l | 0 <= k < l < |recent| ensures recent[k].timestamp >= recent[l].timestamp {
      assert recent[k].timestamp == newest[k].timestamp;
      assert recent[l].timestamp == newest[l].timestamp;
    }
    forall e | e in recent ensures exists r :: r in rows && r.sessionId == sid && ToExchange(r) == e {
      var k :| 0 <= k < |recent| && recent[k] == e;
      assert own[n - 1 - k] in own;
    }
  }

  /** `loadChatSession`'s `flatMap`: each row becomes the user's prompt
      followed by the assistant's response. */
  function Transcript(rows: seq<Row>): seq<Message>
  {
    if rows == [] then []
    else
      [Message(User, rows[0].prompt, rows[0].timestamp), Message(Assistant, rows[0].response, rows[0].timestamp)]
      + Transcript(rows[1..])
  }

  /** A transcript of n rows has 2n messages: the prompt of row i at 2i and
      its response at 2i + 1. */
  lemma {:induction false} TranscriptShape(rows: seq<Row>)
    ensures |Transcript(rows)| == 2 * |rows|
    ensures forall i :: 0 <= i < |rows| ==>
      Transcript(rows)[2 * i] == Message(User, rows[i].prompt, rows[i].timestamp) &&
      Transcript(rows)[2 * i + 1] == Message(Assistant, rows[i].response, rows[i].timestamp)
  {
    if rows != [] {
      var rest := rows[1..];
      TranscriptShape(rest);
      var t, tail := Transcript(rows), Transcript(rest);
      var head := [Message(User, rows[0].prompt, rows[0].timestamp), Message(Assistant, rows[0].response, rows[0].timestamp)];
      assert t == head + tail;
      forall i | 1 <= i < |rows|
        ensures t[2 * i] == Message(User, rows[i].prompt, rows[i].timestamp)
        ensures t[2 * i + 1] == Message(Assistant, rows[i].response, rows[i].timestamp)
      {
        assert rest[i - 1] == rows[i];
        assert t[2 * i] == tail[2 * (i - 1)];
        assert t[2 * i + 1] == tail[2 * (i - 1) + 1];
      }
    }
  }

  /** The rows of deleted session `sid` are gone, every other row stays in
      its order, deleting again changes nothing, and deleting a session with
      no rows leaves the table as it was. */
  lemma {:induction false} WithoutSessionFacts(rows: seq<Row>, sid: string)
    ensures OfSession(WithoutSession(rows, sid), sid) == []
    ensures forall other :: other != sid ==> OfSession(WithoutSession(rows, sid), other) == OfSession(rows, other)
    ensures WithoutSession(WithoutSession(rows, sid), sid) == WithoutSession(rows, sid)
    ensures OfSession(rows, sid) == [] ==> WithoutSession(rows, sid) == rows
  {
    if rows != [] {
      WithoutSessionFacts(rows[1..], sid);
    }
  }

  /** The first row of an ordered table comes no later than, and has a
      different message id from, every later row. */
  lemma HeadBeforeRest(rows: seq<Row>)
    requires rows != [] && OldestFirst(rows) && UniqueMessageIds(rows)
    ensures OldestFirst(rows[1..]) && UniqueMessageIds(rows[1..])
    ensures forall x :: x in rows[1..] ==> rows[0].timestamp <= x.timestamp && rows[0].messageId != x.messageId
  {
    forall x | x in rows[1..] ensures rows[0].timestamp <= x.timestamp && rows[0].messageId != x.messageId {
      var j :| 0 <= j < |rows[1..]| && rows[1..][j] == x;
      assert rows[j + 1] == x;
    }
  }

  /** A row that comes no later than, and differs in message id from, every
      row of an ordered table can be put in front of it. */
  lemma ConsKeepsOrder(r: Row, rows: seq<Row>)
    requires OldestFirst(rows) && UniqueMessageIds(rows)
    requires forall x :: x in rows ==> r.timestamp <= x.timestamp && r.messageId != x.messageId
    ensures OldestFirst([r] + rows) && UniqueMessageIds([r] + rows)
  {
    var t := [r] + rows;
    forall i, j | 0 <= i < j < |t| ensures t[i].timestamp <= t[j].timestamp && t[i].messageId != t[j].messageId {
      assert t[j] == rows[j - 1];
      if i > 0 {
        assert t[i] == rows[i - 1];
      } else {
        assert rows[j - 1] in rows;
      }
    }
  }

  lemma {:induction false} WithoutSessionKeepsOrder(rows: seq<Row>, sid: string)
    requires OldestFirst(rows) && UniqueMessageIds(rows)
    ensures OldestFirst(WithoutSession(rows, sid)) && UniqueMessageIds(WithoutSession(rows, sid))
  {
    if rows != [] {
      HeadBeforeRest(rows);
      WithoutSessionKeepsOrder(rows[1..], sid);
      if rows[0].sessionId != sid {
        ConsKeepsOrder(rows[0], WithoutSession(rows[1..], sid));
      }
    }
  }

  lemma ReverseIsNewestFirst(rows: seq<Row>)
    requires OldestFirst(rows)
    ensures NewestFirst(Reverse(rows))
  {
  }

  /** `id` can serve as a newly generated session id: non-empty and used by
      no stored row (what `uuidv4` gives with overwhelming probability). */
  ghost predicate FreshFor(id: string, rows: seq<Row>)
  {
    id != "" && forall r :: r in rows ==> r.sessionId != id
  }

  /** The remote `conversations` table, shared by every service instance.
      Rows are kept in insertion order, which is ascending timestamp order
      because each insert is stamped with the current time; the store's
      `order('timestamp')` therefore reads them as they are, or reversed. */
  class Table {
    var rows: seq<Row>

    ghost predicate Valid()
      reads this
    {
      OldestFirst(rows) && UniqueMessageIds(rows)
    }

    constructor (initial: seq<Row>)
      requires OldestFirst(initial) && UniqueMessageIds(initial)
      ensures Valid() && rows == initial
    {
      rows := initial;
    }
  }

  /** `ConversationService`: the current session id and the operations on
      the table. Each remote call may be rejected by the store; `rejected`
      stands for that answer, and a rejected call throws `StoreError`. */
  class ConversationService {
    var sessionId: string
    const table: Table

    /** An empty or missing id is falsy, so it too gets a fresh id. */
    constructor (table: Table, existingSessionId: Option<string>, freshId: string)
      requires FreshFor(freshId, table.rows)
      ensures this.table == table
      ensures sessionId == if existingSessionId.Some? && existingSessionId.value != "" then existingSessionId.value else freshId
      ensures sessionId != ""
    {
      this.table := table;
      if existingSessionId.Some? && existingSessionId.value != "" {
        sessionId := existingSessionId.value;
      } else {
        sessionId := freshId;
      }
    }

    method SetSessionId(sid: string)
      modifies this
      ensures sessionId == sid
    {
      sessionId := sid;
    }

    method GetSessionId() returns (sid: string)
      ensures sid == sessionId
    {
      sid := sessionId;
    }

    /** Inserts one row for the current session, stamped `now` with the new
      message id `messageId`; nothing else in the table changes. */
    method SaveConversation(prompt: string, response: string, messageId: string, now: nat, rejected: bool)
        returns (outcome: Result<(), StoreError>)
      requires table.Valid()
      requires forall r :: r in table.rows ==> r.messageId != messageId
      requires forall r :: r in table.rows ==> r.timestamp <= now
      modifies table
      ensures table.Valid()
      ensures outcome.Failure? <==> rejected
      ensures table.rows == if rejected then old(table.rows)
                            else old(table.rows) + [Row(sessionId, messageId, prompt, response, now)]
    {
      if rejected {
        return Failure(Rejected);
      }
      table.rows := table.rows + [Row(sessionId, messageId, prompt, response, now)];
      outcome := Success(());
    }

    /** The current session's `limit` newest exchanges, newest first. */
    method GetRecentConversations(limit: nat, rejected: bool) returns (r: Result<seq<Exchange>, StoreError>)
      requires table.Valid()
      ensures r.Failure? <==> rejected
      ensures r.Success? ==> r.value == RecentExchanges(table.rows, sessionId, limit)
      ensures r.Success? ==> |r.value| <= limit && |r.value| <= |OfSession(table.rows, sessionId)|
    {
      if rejected {
        return Failure(Rejected);
      }
      r := Success(RecentExchanges(table.rows, sessionId, limit));
      RecentExchangesFacts(table.rows, sessionId, limit);
    }

    /** Deletes every row of the current session; other sessions keep theirs. */
    method ClearConversationHistory(rejected: bool) returns (outcome: Result<(), StoreError>)
      requires table.Valid()
      modifies table
      ensures table.Valid()
      ensures outcome.Failure? <==> rejected
      ensures table.rows == if rejected then old(table.rows) else WithoutSession(old(table.rows), sessionId)
    {
      if rejected {
        return Failure(Rejected);
      }
      WithoutSessionKeepsOrder(table.rows, sessionId);
      table.rows := WithoutSession(table.rows, sessionId);
      outcome := Success(());
    }

    /** The session list, read newest first from the whole table. */
    method GetChatSessions(limit: nat, rejected: bool) returns (r: Result<seq<ChatSession>, StoreError>)
      requires table.Valid()
      ensures r.Failure? <==> rejected
      ensures r.Success? ==> r.value == ChatSessions(Reverse(table.rows), limit)
      ensures r.Success? ==> forall k :: 0 <= k < |r.value| ==> IsLatestOf(Reverse(table.rows), r.value[k])
    {
      if rejected {
        return Failure(Rejected);
      }
      ReverseIsNewestFirst(table.rows);
      var sessions := GroupSessions(Reverse(table.rows), limit);
      r := Success(sessions);
    }

    /** Makes `sid` the current session, even when the read then fails, and
      returns its transcript in ascending time order. */
    method LoadChatSession(sid: string, rejected: bool) returns (r: Result<seq<Message>, StoreError>)
      modifies this
      ensures sessionId == sid
      ensures r.Failure? <==> rejected
      ensures r.Success? ==> r.value == Transcript(OfSession(table.rows, sid))
    {
      SetSessionId(sid);
      if rejected {
        return Failure(Rejected);
      }
      var data := OfSession(table.rows, sid);
      if |data| == 0 {
        return Success([]);
      }
      r := Success(Transcript(data));
    }

    /** Deletes every row of `sid`; when `sid` is the current session, the
      service moves on to the fresh id `freshId`. */
    method DeleteChatSession(sid: string, freshId: string, rejected: bool) returns (outcome: Result<(), StoreError>)
      requires table.Valid()
      requires FreshFor(freshId, table.rows) && freshId != sessionId
      modifies this, table
      ensures table.Valid()
      ensures outcome.Failure? <==> rejected
      ensures rejected ==> table.rows == old(table.rows) && sessionId == old(sessionId)
      ensures !rejected ==> table.rows == WithoutSession(old(table.rows), sid)
      ensures !rejected ==> sessionId == if sid == old(sessionId) then freshId else old(sessionId)
      ensures !rejected ==> (sessionId != old(sessionId) <==> sid == old(sessionId))
    {
      if rejected {
        return Failure(Rejected);
      }
      WithoutSessionKeepsOrder(table.rows, sid);
      table.rows := WithoutSession(table.rows, sid);
      if sid == sessionId {
        sessionId := freshId;
      }
      outcome := Success(());
    }
  }
}
