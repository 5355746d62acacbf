/** The chat screen: the prompt it sends with recent history as context, the
    message search, the plain-text message formatter, and the screen state
    that submitting a prompt or loading a session changes. */
module ChatUI {
  import opened Wrappers
  import opened Sequences
  import opened Text
  import opened Messages
  import opened Conversations

  // ---------------------------------------------------------------------
  // Contextual prompt (buildContextualPrompt)

  /** How many recent exchanges go into the context. */
  const ContextSize: nat := 5

  /** One past exchange as two lines of the context. */
  function ContextBlock(e: Exchange): string
  {
    "User: " + e.prompt + "\nAssistant: " + e.response
  }

  /** The context built from the fetched exchanges (newest first): put back
      into chronological order, rendered, separated by a blank line. */
  function ConversationContext(recent: seq<Exchange>): string
  {
    var chronological := Reverse(recent);
    Join("\n\n", seq(|chronological|, k requires 0 <= k < |chronological| => ContextBlock(chronological[k])))
  }

  /** The prompt sent to the model. A failed history fetch falls back to the
      bare prompt, as does an empty context. */
  function ContextualPrompt(newPrompt: string, fetched: Result<seq<Exchange>, StoreError>): string
  {
    match fetched
    case Failure(_) => newPrompt
    case Success(recent) =>
      var context := ConversationContext(recent);
      if context != "" then "Previous conversation:\n" + context + "\n\nUser: " + newPrompt
      else newPrompt
  }

  /** The context is empty exactly when there is no past exchange. */
  lemma ContextEmptyIffNoHistory(recent: seq<Exchange>)
    ensures ConversationContext(recent) == "" <==> recent == []
  {
    if recent != [] {
      var chronological := Reverse(recent);
      var blocks := seq(|chronological|, k requires 0 <= k < |chronological| => ContextBlock(chronological[k]));
      assert |ContextBlock(chronological[0])| >= 6;
      JoinStartsWithFirst("\n\n", blocks);
    }
  }

  lemma JoinStartsWithFirst(sep: string, pieces: seq<string>)
    requires |pieces| >= 1
    ensures |Join(sep, pieces)| >= |pieces[0]|
  {
  }

  /** With history, the prompt is the header, the oldest-to-newest blocks
      joined by blank lines, and the new prompt as the last user turn; the
      k-th block is the k-th oldest exchange. Without history, or when the
      fetch fails, the prompt goes out unchanged. */
  lemma ContextualPromptFacts(newPrompt: string, fetched: Result<seq<Exchange>, StoreError>)
    ensures fetched.Failure? ==> ContextualPrompt(newPrompt, fetched) == newPrompt
    ensures fetched == Success([]) ==> ContextualPrompt(newPrompt, fetched) == newPrompt
    ensures fetched.Success? && fetched.value != [] ==>
      exists blocks: seq<string> ::
        |blocks| == |fetched.value| &&
        (forall k :: 0 <= k < |blocks| ==> blocks[k] == ContextBlock(fetched.value[|blocks| - 1 - k])) &&
        ContextualPrompt(newPrompt, fetched) == "Previous conversation:\n" + Join("\n\n", blocks) + "\n\nUser: " + newPrompt
  {
    if fetched.Success? {
      var recent := fetched.value;
      ContextEmptyIffNoHistory(recent);
      if recent != [] {
        var blocks := ChronologicalBlocks(recent);
        assert ContextualPrompt(newPrompt, fetched) == "Previous conversation:\n" + Join("\n\n", blocks) + "\n\nUser: " + newPrompt;
      }
    }
  }

  /** The rendered blocks of the context, oldest exchange first. */
  lemma ChronologicalBlocks(recent: seq<Exchange>) returns (blocks: seq<string>)
    ensures |blocks| == |recent|
    ensures forall k :: 0 <= k < |blocks| ==> blocks[k] == ContextBlock(recent[|blocks| - 1 - k])
    ensures ConversationContext(recent) == Join("\n\n", blocks)
  {
    var chronological := Reverse(recent);
    blocks := seq(|chronological|, k requires 0 <= k < |chronological| => ContextBlock(chronological[k]));
  }

  /** A prompt with history carries the literal header text. */
  lemma ContextualPromptHasHeader(newPrompt: string, recent: seq<Exchange>)
    requires recent != []
    ensures Contains(ContextualPrompt(newPrompt, Success(recent)), "Previous conversation:")
  {
    ContextEmptyIffNoHistory(recent);
    var r := ContextualPrompt(newPrompt, Success(recent));
    assert r[..|"Previous conversation:"|] == "Previous conversation:";
  }

  // ---------------------------------------------------------------------
  // Message search (filteredMessages)

  /** The lower-cased content includes the lower-cased query. */
  predicate Matches(m: Message, query: string)
  {
    Contains(ToLower(m.content), ToLower(query))
  }

  /** `messages.filter(...)` with the case-insensitive substring test. */
  function FilterMessages(messages: seq<Message>, query: string): (r: seq<Message>)
    ensures |r| <= |messages|
    ensures forall m :: m in r ==> m in messages && Matches(m, query)
  {
    if messages == [] then []
    else if Matches(messages[0], query) then [messages[0]] + FilterMessages(messages[1..], query)
    else FilterMessages(messages[1..], query)
  }

  /** The filter keeps exactly the matching messages, each as often as it
      occurs, and preserves their order (it distributes over `+`). */
  lemma {:induction false} FilterMessagesExact(messages: seq<Message>, query: string)
    ensures forall m ::
      multiset(FilterMessages(messages, query))[m] == (if Matches(m, query) then multiset(messages)[m] else 0)
  {
    if messages != [] {
      FilterMessagesExact(messages[1..], query);
      assert messages == [messages[0]] + messages[1..];
    }
  }

  lemma {:induction false} FilterMessagesAppend(a: seq<Message>, b: seq<Message>, query: string)
    ensures FilterMessages(a + b, query) == FilterMessages(a, query) + FilterMessages(b, query)
  {
    if a == [] {
      assert a + b == b;
    } else {
      assert (a + b)[0] == a[0] && (a + b)[1..] == a[1..] + b;
      FilterMessagesAppend(a[1..], b, query);
    }
  }

  /** An empty query keeps every message. */
  lemma {:induction false} FilterEmptyQueryKeepsAll(messages: seq<Message>)
    ensures FilterMessages(messages, "") == messages
  {
    if messages != [] {
      ContainsEmpty(ToLower(messages[0].content));
      FilterEmptyQueryKeepsAll(messages[1..]);
    }
  }

  // ---------------------------------------------------------------------
  // Plain-text formatting (formatMessage, non-HTML branch)

  datatype Block = Heading1(text: string) | Heading2(text: string) | ListItem(text: string) | Rule | Paragraph(text: string)

  /** Markup is shown as HTML; anything else as blocks, one per line. */
  datatype Rendered = Html(markup: string) | Blocks(blocks: seq<Block>)

  /** The block one non-blank line becomes, checked in the order `formatMessage` checks them. */
  function ClassifyLine(line: string): Block
  {
    if StartsWith(line, "# ") then Heading1(line[2..])
    else if StartsWith(line, "## ") then Heading2(line[3..])
    else if StartsWith(line, "- ") then ListItem(line[2..])
    else if Trim(line) == "---" then Rule
    else Paragraph(line)
  }

  /** The lines of `content` that are not blank, in order. */
  function NonBlankLines(content: string): (lines: seq<string>)
    ensures forall k :: 0 <= k < |lines| ==> !IsBlank(lines[k]) && '\n' !in lines[k]
  {
    var pieces := Split(content, '\n');
    NonBlankOfLines(pieces);
    NonBlank(pieces)
  }

  lemma NonBlankOfLines(pieces: seq<string>)
    requires forall k :: 0 <= k < |pieces| ==> '\n' !in pieces[k]
    ensures forall k :: 0 <= k < |NonBlank(pieces)| ==> !IsBlank(NonBlank(pieces)[k]) && '\n' !in NonBlank(pieces)[k]
  {
    var lines := NonBlank(pieces);
    forall k | 0 <= k < |lines| ensures !IsBlank(lines[k]) && '\n' !in lines[k] {
      assert lines[k] in lines;
      var i :| 0 <= i < |pieces| && pieces[i] == lines[k];
    }
  }

  /** `formatMessage(content)`. The class names the HTML branch splices into
      the markup are not part of this model. */
  function FormatMessage(content: string): Rendered
  {
    if '<' in content then Html(content)
    else Blocks(seq(|NonBlankLines(content)|, k requires 0 <= k < |NonBlankLines(content)| => ClassifyLine(NonBlankLines(content)[k])))
  }

  /** A line that trims to `---` starts with white space or with `--`. */
  lemma RuleLineStart(line: string)
    requires Trim(line) == "---"
    ensures |line| >= 2 && (IsWhitespace(line[0]) || (line[0] == '-' && line[1] == '-'))
  {
    var t := TrimStart(line);
    var gap := |line| - |t|;
    assert |TrimEnd(t)| == 3 && TrimEnd(t) == t[..3];
    assert t[0] == '-' && t[1] == '-';
    assert line[gap] == t[0] && line[gap + 1] == t[1];
    if gap > 0 {
      assert line[..gap][0] == line[0];
    }
  }

  /** No line carries two of the four markers. */
  lemma MarkersExclusive(line: string)
    ensures StartsWith(line, "# ") ==> !StartsWith(line, "## ") && !StartsWith(line, "- ") && Trim(line) != "---"
    ensures StartsWith(line, "## ") ==> !StartsWith(line, "- ") && Trim(line) != "---"
    ensures StartsWith(line, "- ") ==> Trim(line) != "---"
  {
    if StartsWith(line, "# ") {
      assert line[0] == "# "[0] && line[1] == "# "[1];
    }
    if StartsWith(line, "## ") {
      assert line[0] == "## "[0] && line[1] == "## "[1];
    }
    if StartsWith(line, "- ") {
      assert line[0] == "- "[0] && line[1] == "- "[1];
    }
    if Trim(line) == "---" {
      RuleLineStart(line);
    }
  }

  /** Each marker selects its block and the marker is stripped; the four
      markers exclude each other, so the order of the tests is immaterial. */
  lemma ClassifyLineCases(line: string)
    ensures StartsWith(line, "# ") ==> ClassifyLine(line) == Heading1(line[2..])
    ensures StartsWith(line, "## ") ==> ClassifyLine(line) == Heading2(line[3..])
    ensures StartsWith(line, "- ") ==> ClassifyLine(line) == ListItem(line[2..])
    ensures Trim(line) == "---" ==> ClassifyLine(line) == Rule
    ensures ClassifyLine(line).Paragraph? <==>
      !StartsWith(line, "# ") && !StartsWith(line, "## ") && !StartsWith(line, "- ") && Trim(line) != "---"
  {
    MarkersExclusive(line);
  }

  /** The HTML branch is taken exactly when the content has a `<`; otherwise
      every non-blank line gives one block, in order, and blank lines none. */
  lemma FormatMessageFacts(content: string)
    ensures FormatMessage(content).Html? <==> '<' in content
    ensures '<' !in content ==>
      var kept := NonBlank(Split(content, '\n'));
      |FormatMessage(content).blocks| == |kept| &&
      forall k :: 0 <= k < |kept| ==> FormatMessage(content).blocks[k] == ClassifyLine(kept[k])
  {
  }

  /** Text written as lines without markup gets one block per non-blank
      line, in the order of the lines. */
  lemma FormatMessageOfLines(lines: seq<string>)
    requires lines != []
    requires forall k :: 0 <= k < |lines| ==> '\n' !in lines[k] && '<' !in lines[k]
    ensures FormatMessage(Join("\n", lines)).Blocks?
    ensures |FormatMessage(Join("\n", lines)).blocks| == |NonBlank(lines)|
    ensures forall k :: 0 <= k < |NonBlank(lines)| ==>
      FormatMessage(Join("\n", lines)).blocks[k] == ClassifyLine(NonBlank(lines)[k])
  {
    var content := Join("\n", lines);
    JoinAvoids("\n", lines, '<');
    SplitJoin(lines, '\n');
    assert Split(content, '\n') == lines;
  }

  // ---------------------------------------------------------------------
  // Screen state

  /** The greeting the screen starts with when no default message is given. */
  const Greeting: string := "# Hello, Bohurupi Explorer! \U{1F44B}\n\nWelcome to a world where conversations come alive! I\U{2019}m here to assist you with any questions or tasks you may have. How can I help you today?"

  /** The greeting a new chat is reset to; it differs from `Greeting` only in
      using an ASCII apostrophe. */
  const ResetGreeting: string := "# Hello, Bohurupi Explorer! \U{1F44B}\n\nWelcome to a world where conversations come alive! I'm here to assist you with any questions or tasks you may have. How can I help you today?"

  /** `defaultMessage || greeting`: an empty default counts as missing. */
  function OpeningText(defaultMessage: Option<string>, greeting: string): string
  {
    if defaultMessage.Some? && defaultMessage.value != "" then defaultMessage.value else greeting
  }

  /** What the outside world answers during one submission: the clock, the
      id the store gives the new row, whether the history read and the save
      are rejected, and what `generateContent` returns (`None` for null). */
  datatype SubmitEnv = SubmitEnv(now: nat, messageId: string, historyRejected: bool, reply: Option<string>, saveRejected: bool)

  /** A reply counts only when it is a non-empty string (`if (response)`). */
  predicate Answered(reply: Option<string>)
  {
    reply.Some? && reply.value != ""
  }

  /** The history read `buildContextualPrompt` sees for the current session. */
  function HistoryFetch(rows: seq<Row>, sid: string, rejected: bool): Result<seq<Exchange>, StoreError>
  {
    if rejected then Failure(Rejected) else Success(RecentExchanges(rows, sid, ContextSize))
  }

  /** The state of one `ChatInterface` screen. */
  class ChatInterface {
    var messages: seq<Message>
    var prompt: string
    var isLoading: bool
    var isTyping: bool
    var isSearching: bool
    var searchQuery: string
    const service: ConversationService

    ghost predicate Valid()
      reads this, service, service.table
    {
      service.table.Valid()
    }

    constructor (service: ConversationService, defaultMessage: Option<string>, now: nat)
      ensures this.service == service
      ensures messages == [Message(Assistant, OpeningText(defaultMessage, Greeting), now)]
      ensures prompt == "" && !isLoading && !isTyping && !isSearching && searchQuery == ""
    {
      this.service := service;
      messages := [Message(Assistant, OpeningText(defaultMessage, Greeting), now)];
      prompt := "";
      isLoading := false;
      isTyping := false;
      isSearching := false;
      searchQuery := "";
    }

    method SetPrompt(text: string)
      modifies this
      ensures prompt == text
      ensures messages == old(messages) && isLoading == old(isLoading) && isTyping == old(isTyping)
      ensures searchQuery == old(searchQuery) && isSearching == old(isSearching)
    {
      prompt := text;
    }

    method SetSearchQuery(query: string)
      modifies this
      ensures searchQuery == query
      ensures messages == old(messages) && prompt == old(prompt)
      ensures isLoading == old(isLoading) && isTyping == old(isTyping) && isSearching == old(isSearching)
    {
      searchQuery := query;
    }

    /** Opens or closes the search bar; either way the query is cleared, so
      the list shows every message again. */
    method ToggleSearch()
      modifies this
      ensures isSearching == !old(isSearching) && searchQuery == ""
      ensures messages == old(messages) && prompt == old(prompt)
      ensures isLoading == old(isLoading) && isTyping == old(isTyping)
      ensures Displayed() == messages
    {
      isSearching := !isSearching;
      searchQuery := "";
    }

    /** The messages the search keeps. */
    function FilteredMessages(): seq<Message>
      reads this
    {
      FilterMessages(messages, searchQuery)
    }

    /** What the list shows: the filtered messages while a query is typed,
      otherwise all of them, which is the same as filtering with "". */
    function Displayed(): (shown: seq<Message>)
      reads this
      ensures shown == FilterMessages(messages, searchQuery)
    {
      if searchQuery != "" then FilteredMessages()
      else
        FilterEmptyQueryKeepsAll(messages);
        messages
    }

    /** `buildContextualPrompt`: the five newest exchanges of the current
      session as context, or the bare prompt if the read fails. */
    method BuildContextualPrompt(newPrompt: string, historyRejected: bool) returns (contextual: string)
      requires Valid()
      ensures contextual == ContextualPrompt(newPrompt, HistoryFetch(service.table.rows, service.sessionId, historyRejected))
    {
      var fetched := service.GetRecentConversations(ContextSize, historyRejected);
      contextual := ContextualPrompt(newPrompt, fetched);
    }

    /** `loadChatSession`: a non-empty transcript replaces the messages; an
      empty one, or a failed read, leaves them as they are. */
    method LoadChatSession(sid: string, rejected: bool)
      requires Valid()
      modifies this, service
      ensures Valid()
      ensures service.sessionId == sid
      ensures messages == if !rejected && OfSession(service.table.rows, sid) != []
                          then Transcript(OfSession(service.table.rows, sid)) else old(messages)
      ensures prompt == old(prompt) && isLoading == old(isLoading) && isTyping == old(isTyping)
      ensures searchQuery == old(searchQuery) && isSearching == old(isSearching)
    {
      var loaded := service.LoadChatSession(sid, rejected);
      TranscriptShape(OfSession(service.table.rows, sid));
      if loaded.Success? && |loaded.value| > 0 {
        messages := loaded.value;
      }
    }

    /** The effect run when the `sessionId` prop changes: load that session,
      or start a new chat showing only the greeting. */
    method OnSessionChange(sid: Option<string>, defaultMessage: Option<string>, now: nat, rejected: bool)
      requires Valid()
      modifies this, service
      ensures Valid()
      ensures sid.Some? && sid.value != "" ==>
                service.sessionId == sid.value &&
                messages == if !rejected && OfSession(service.table.rows, sid.value) != []
                            then Transcript(OfSession(service.table.rows, sid.value)) else old(messages)
      ensures !(sid.Some? && sid.value != "") ==>
                service.sessionId == old(service.sessionId) &&
                messages == [Message(Assistant, OpeningText(defaultMessage, ResetGreeting), now)]
      ensures prompt == old(prompt) && isLoading == old(isLoading) && isTyping == old(isTyping)
      ensures searchQuery == old(searchQuery) && isSearching == old(isSearching)
    {
      if sid.Some? && sid.value != "" {
        LoadChatSession(sid.value, rejected);
      } else {
        messages := [Message(Assistant, OpeningText(defaultMessage, ResetGreeting), now)];
      }
    }

    /** `handleSubmit`. A blank prompt or a request in flight makes it a no-op.
      Otherwise the user's message is shown, the input cleared, and the
      contextual prompt sent; a non-empty reply is saved and, once saved,
      shown. As written, `isTyping` is reset only on that success path. */
    method HandleSubmit(env: SubmitEnv) returns (sent: Option<string>)
      requires Valid()
      requires forall r :: r in service.table.rows ==> r.messageId != env.messageId
      requires forall r :: r in service.table.rows ==> r.timestamp <= env.now
      modifies this, service.table
      ensures Valid()
      ensures IsBlank(old(prompt)) || old(isLoading) ==>
        sent == None && messages == old(messages) && prompt == old(prompt) &&
        isLoading == old(isLoading) && isTyping == old(isTyping) && service.table.rows == old(service.table.rows)
      ensures !(IsBlank(old(prompt)) || old(isLoading)) ==>
        var saved := Answered(env.reply) && !env.saveRejected;
        sent == Some(ContextualPrompt(old(prompt), HistoryFetch(old(service.table.rows), service.sessionId, env.historyRejected))) &&
        messages == old(messages) + [Message(User, old(prompt), env.now)] +
                    (if saved then [Message(Assistant, env.reply.value, env.now)] else []) &&
        prompt == "" && !isLoading && isTyping == !saved &&
        service.table.rows == old(service.table.rows) +
          (if saved then [Row(service.sessionId, env.messageId, old(prompt), env.reply.value, env.now)] else [])
      ensures searchQuery == old(searchQuery) && isSearching == old(isSearching)
    {
      if IsBlank(prompt) || isLoading {
        return None;
      }
      var contextual := SubmitPrompt(env);
      sent := Some(contextual);
    }

    /** The part of `handleSubmit` past its guard: show the prompt, clear the
      input, send the contextual prompt, then save and show a non-empty reply. */
    method SubmitPrompt(env: SubmitEnv) returns (contextual: string)
      requires Valid()
      requires forall r :: r in service.table.rows ==> r.messageId != env.messageId
      requires forall r :: r in service.table.rows ==> r.timestamp <= env.now
      modifies this, service.table
      ensures Valid()
      ensures contextual == ContextualPrompt(old(prompt), HistoryFetch(old(service.table.rows), service.sessionId, env.historyRejected))
      ensures var saved := Answered(env.reply) && !env.saveRejected;
        messages == old(messages) + [Message(User, old(prompt), env.now)] +
                    (if saved then [Message(Assistant, env.reply.value, env.now)] else []) &&
        prompt == "" && !isLoading && isTyping == !saved &&
        service.table.rows == old(service.table.rows) +
          (if saved then [Row(service.sessionId, env.messageId, old(prompt), env.reply.value, env.now)] else [])
      ensures searchQuery == old(searchQuery) && isSearching == old(isSearching)
    {
      var userPrompt := prompt;
      messages := messages + [Message(User, userPrompt, env.now)];
      prompt := "";
      isLoading := true;
      isTyping := true;
      contextual := BuildContextualPrompt(userPrompt, env.historyRejected);
      ReceiveReply(userPrompt, env);
      isLoading := false;
    }

    /** The reply handling inside `handleSubmit`'s `try`: a non-empty reply is
      saved with the original prompt, and only once the save succeeds is it
      shown and the typing indicator turned off. */
    method ReceiveReply(userPrompt: string, env: SubmitEnv)
      requires Valid()
      requires forall r :: r in service.table.rows ==> r.messageId != env.messageId
      requires forall r :: r in service.table.rows ==> r.timestamp <= env.now
      modifies this, service.table
      ensures Valid()
      ensures var saved := Answered(env.reply) && !env.saveRejected;
        messages == old(messages) + (if saved then [Message(Assistant, env.reply.value, env.now)] else []) &&
        isTyping == (old(isTyping) && !saved) &&
        service.table.rows == old(service.table.rows) +
          (if saved then [Row(service.sessionId, env.messageId, userPrompt, env.reply.value, env.now)] else [])
      ensures prompt == old(prompt) && isLoading == old(isLoading)
      ensures searchQuery == old(searchQuery) && isSearching == old(isSearching)
    {
      if Answered(env.reply) {
        var response := env.reply.value;
        var outcome := service.SaveConversation(userPrompt, response, env.messageId, env.now, env.saveRejected);
        if outcome.Success? {
          messages := messages + [Message(Assistant, response, env.now)];
          isTyping := false;
        }
      }
    }

    /** `handleStorySubmit`: the story prompt goes out as it is, with no
      guard and no context; a non-empty reply is shown and then saved (a
      failed save is only reported), and both flags are reset at the end. */
    method HandleStorySubmit(storyPrompt: string, env: SubmitEnv) returns (sent: string)
      requires Valid()
      requires forall r :: r in service.table.rows ==> r.messageId != env.messageId
      requires forall r :: r in service.table.rows ==> r.timestamp <= env.now
      modifies this, service.table
      ensures Valid()
      ensures sent == storyPrompt
      ensures messages == old(messages) + [Message(User, storyPrompt, env.now)] +
                          (if Answered(env.reply) then [Message(Assistant, env.reply.value, env.now)] else [])
      ensures !isLoading && !isTyping
      ensures prompt == old(prompt) && searchQuery == old(searchQuery) && isSearching == old(isSearching)
      ensures service.table.rows == old(service.table.rows) +
        (if Answered(env.reply) && !env.saveRejected
         then [Row(service.sessionId, env.messageId, storyPrompt, env.reply.value, env.now)] else [])
    {
      messages := messages + [Message(User, storyPrompt, env.now)];
      isLoading := true;
      isTyping := true;
      sent := storyPrompt;
      if Answered(env.reply) {
        var response := env.reply.value;
        messages := messages + [Message(Assistant, response, env.now)];
        var _ := service.SaveConversation(storyPrompt, response, env.messageId, env.now, env.saveRejected);
      }
      isLoading := false;
      isTyping := false;
    }
  }
}
