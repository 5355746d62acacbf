# Bohurupi chat client — verified model of its in-memory core

Bohurupi is a browser chat client. Its `conversations` table lives in a
hosted database, sign-in goes through an auth service, and the answers come
from LLM vendor SDKs. This project models the client's own logic, with all
of those services replaced by state and parameters:

- **Conversation store** (`Conversations`). The `conversations` table is a
  `Table` object holding a sequence of rows, kept in insertion order. The
  `ConversationService` class holds the current session id and works on the
  table: save a row, read a session's recent exchanges, clear or delete a
  session, rebuild a session as a transcript, and group rows into session
  summaries.
- **Chat screen** (`ChatUI`):
  - the contextual prompt built from the five newest exchanges;
  - the case-insensitive message search;
  - the plain-text line classifier of the message formatter;
  - the `ChatInterface` screen state that submitting, story submitting,
    loading a session and toggling search change.
- **Generation hook** (`AIGeneration`):
  - the routing decision from a model selector to OpenRouter, Google Gemini
    or a vendor SDK;
  - the rule that empty output is an error;
  - the heading and paragraph steps of the response formatter;
  - the hook's `selectedModel`/`generatedContent` state.
- **Model picker** (`ModelSelection`): the constant model table, the
  distinct-provider list, the per-provider filter, and the two change
  handlers.
- **Route guard** (`RouteGuard`): what a protected page renders for
  "checking", "signed in" and "signed out" on each path.
- **Chat context** (`ChatContext`): the shared message list and typing flag.

`Wrappers`, `Sequences`, `Text` and `Messages` hold shared definitions:
`Option`/`Result`, `Distinct`/`Take`/`Reverse`, string trimming, splitting
and joining, and the `Message` record.

Remote calls that can fail take a `rejected: bool` parameter. A rejected
call returns `Failure(Rejected)` and changes no stored data. The clock, the
generated ids and the backend's reply are parameters as well.

The store's `order('timestamp')` is modelled by an invariant rather than a
sort. The table is kept oldest first because every insert carries the
current time, and the clock never runs backwards (`SaveConversation`
requires `now` to be at least every stored timestamp). So "ascending" reads
the rows as stored, and "descending" reads them reversed.

What the proofs bring out about the code:

- The paragraph step is idempotent on every text
  (`ParagraphsIdempotent`). The modelled formatter, the heading step
  followed by the paragraph step, is idempotent on every reply in which no
  line starts with `#` (`FormatAIResponseIdempotent`). The model proves
  nothing either way about replies that have such a line.
- A reply made only of white space passes `generateContent`'s emptiness
  test, yet it formats to the empty string (`BlankReplyFormatsEmpty`).
- `handleSubmit` resets `isTyping` only on its success path. When the reply
  is empty or missing, or the save fails, the typing indicator stays on
  (`ChatInterface.HandleSubmit`, `isTyping == !saved`).
- `getChatSessions` pins each summary to the first row it sees. That row is
  the newest one only because the query orders rows newest first.
  `GroupSessions` requires that order, and `UnsortedInputMisreports` shows
  what happens without it.
- The two greetings differ in one character. The initial greeting uses a
  typographic apostrophe; the reset greeting uses an ASCII one.
- Every `Anthropic` entry of the model table has a `/` in its value, so it
  goes to OpenRouter. No entry reaches the `claude-sonnet`/`claude-haiku`
  cases of the vendor switch (`ClaudeSwitchCasesUnreachable`).
- The Gemini call is made without a token limit. The other two paths ask
  for 4096 tokens.

## Model

| member | source | states |
|---|---|---|
| Conversations.OfSession | src/services/conversationService.ts:57-60 | The rows selected for a session all belong to it, come from the table, and are no more than the table holds. |
| Conversations.WithoutSession | src/services/conversationService.ts:84-87 | What a delete by session leaves holds only rows of other sessions, all from the table. |
| Conversations.WithoutSessionFacts | src/services/conversationService.ts:183-186 | After a delete, the session has no rows left and every other session keeps exactly its rows in order. Deleting again changes nothing, and deleting a session that has no rows leaves the table unchanged. |
| Conversations.WithoutSessionKeepsOrder | src/services/conversationService.ts:84-87 | Deleting rows keeps the table oldest first and its message ids unique. |
| Conversations.GroupSessions | src/services/conversationService.ts:111-127 | On newest-first rows, the loop's map yields exactly the reference session list, cut to `limit`. Each summary carries a newest row of its session, and sessions come most recently active first. |
| Conversations.ChatSessionsFacts | src/services/conversationService.ts:111-127 | The session list repeats no session and has min(limit, number of sessions) entries. Entry k is the k-th distinct session id in row order, so the list keeps the order in which sessions first appear. Each entry's count is the number of rows of that session. When the limit allows, every session of the input is listed. |
| Conversations.SummaryAppend | src/services/conversationService.ts:113-124 | A further row leaves a known session's preview and timestamp pinned to its first row, and raises the count only for the row's own session. |
| Conversations.ChatSessionsNewest | src/services/conversationService.ts:113-124 | On newest-first rows, each summary's preview and timestamp come from a newest row of its session, and summaries are ordered by recency. |
| Conversations.ChatSessionsExample | src/services/conversationService.ts:113-124 | Two rows of s1 and one of s2 (newest first) give s1 with the newest prompt and count 2, then s2 with count 1. |
| Conversations.UnsortedInputMisreports | src/services/conversationService.ts:114-120 | Given rows oldest first, the pinned preview reports an older prompt and time although the session has a newer row. |
| Conversations.RecentExchangesFacts | src/services/conversationService.ts:57-75 | The recent history has exactly min(limit, n) exchanges for a session of n rows. The k-th is the k-th newest row, all from the session, newest first. |
| Conversations.TranscriptShape | src/services/conversationService.ts:153-170 | A transcript of n rows has 2n messages: row i's prompt as a user message at 2i and its response as an assistant message at 2i+1. |
| Conversations.ReverseIsNewestFirst | src/services/conversationService.ts:61 | Reading an oldest-first table in reverse gives newest-first rows. |
| Conversations.Table.constructor | src/integrations/supabase/types.ts:13-21 | The table starts from rows that are oldest first with unique message ids. |
| Conversations.ConversationService.constructor | src/services/conversationService.ts:20-22 | A given non-empty id is kept; a missing or empty one is replaced by a fresh id. The result is never empty. |
| Conversations.ConversationService.SetSessionId | src/services/conversationService.ts:32-34 | The current session becomes the given id. |
| Conversations.ConversationService.GetSessionId | src/services/conversationService.ts:96-98 | Returns the current session id. |
| Conversations.ConversationService.SaveConversation | src/services/conversationService.ts:36-53 | On success, exactly one row is appended, carrying the current session, the new message id, the prompt, the response and the time; all earlier rows are unchanged. On rejection the table is unchanged and the call fails. The table invariant is kept. |
| Conversations.ConversationService.GetRecentConversations | src/services/conversationService.ts:55-80 | Fails exactly when rejected. Otherwise returns the session's newest exchanges, newest first: at most `limit` of them, and no more than the session has. |
| Conversations.ConversationService.ClearConversationHistory | src/services/conversationService.ts:82-94 | On success, removes every row of the current session and keeps all others. On rejection, changes nothing. |
| Conversations.ConversationService.GetChatSessions | src/services/conversationService.ts:100-132 | On success, returns the session summaries of the table read newest first, each pinned to a newest row of its session. |
| Conversations.ConversationService.LoadChatSession | src/services/conversationService.ts:134-178 | Makes the session current even when the read fails. On success, returns its transcript in ascending time order; an empty session gives an empty list. |
| Conversations.ConversationService.DeleteChatSession | src/services/conversationService.ts:180-204 | On success, the session's rows are gone and the rest stay. The current id changes, to a fresh id, exactly when it was the deleted session. On rejection, nothing changes. |
| ChatUI.ContextEmptyIffNoHistory | src/components/ChatInterface.tsx:146-154 | The context text is empty exactly when no exchange was fetched. |
| ChatUI.ContextualPromptFacts | src/components/ChatInterface.tsx:140-161 | With no history, or when the fetch fails, the prompt goes out unchanged. Otherwise it is the header, then the exchanges oldest first as "User: p\nAssistant: r" blocks joined by blank lines, then "\n\nUser: " and the new prompt. |
| ChatUI.ContextualPromptHasHeader | src/components/ChatInterface.tsx:152-153 | A prompt built with history contains "Previous conversation:". |
| ChatUI.FilterMessages | src/components/ChatInterface.tsx:226-228 | The search result holds only messages of the list whose lower-cased content contains the lower-cased query, and is no longer than the list. |
| ChatUI.FilterMessagesExact | src/components/ChatInterface.tsx:226-228 | Every matching message is kept as often as it occurs, and no other message is kept. |
| ChatUI.FilterMessagesAppend | src/components/ChatInterface.tsx:226-228 | The filter distributes over concatenation, so it keeps the list's order. |
| ChatUI.FilterEmptyQueryKeepsAll | src/components/ChatInterface.tsx:226-228 | An empty query keeps every message. |
| ChatUI.NonBlankLines | src/components/ChatInterface.tsx:289 | The lines the formatter keeps are non-blank and hold no newline. |
| Text.NonBlankKeeps | src/components/ChatInterface.tsx:289 | Every non-blank line of the content is kept. |
| Text.NonBlankExact | src/components/ChatInterface.tsx:289 | Each non-blank line is kept exactly as often as it occurs; blank lines are dropped. |
| Text.NonBlankAppend | src/components/ChatInterface.tsx:289 | Filtering a concatenation is the concatenation of the filtered parts, so kept lines stay in their order. |
| ChatUI.MarkersExclusive | src/components/ChatInterface.tsx:291-297 | No line carries two of the "# ", "## ", "- " and "---" markers. |
| ChatUI.ClassifyLineCases | src/components/ChatInterface.tsx:290-306 | "# " gives a level-1 heading without its 2 marker characters; "## " a level-2 heading without 3; "- " a list item without 2; a line trimming to "---" a rule. A line is a paragraph exactly when it has none of these. |
| ChatUI.FormatMessageFacts | src/components/ChatInterface.tsx:230-306 | The HTML branch is taken exactly when the content contains '<'. Otherwise the k-th block classifies the k-th non-blank piece of the content split at newlines. |
| ChatUI.FormatMessageOfLines | src/components/ChatInterface.tsx:288-306 | Text written as newline-joined lines without '<' gets one block per non-blank line, classified and in the order of the lines. |
| ChatUI.ChatInterface.constructor | src/components/ChatInterface.tsx:30-46 | The screen starts with the default message, or the greeting when it is missing or empty, as its one assistant message. The prompt and query are empty and all flags are off. |
| ChatUI.ChatInterface.SetPrompt | src/components/ChatInterface.tsx:30 | Only the prompt changes. |
| ChatUI.ChatInterface.SetSearchQuery | src/components/ChatInterface.tsx:42 | Only the query changes. |
| ChatUI.ChatInterface.ToggleSearch | src/components/ChatInterface.tsx:221-224 | Flips the search bar and clears the query, so every message is shown again. |
| ChatUI.ChatInterface.Displayed | src/components/ChatInterface.tsx:456 | The list shows the filtered messages whether or not a query is set: with no query the filter keeps everything. |
| ChatUI.ChatInterface.BuildContextualPrompt | src/components/ChatInterface.tsx:140-161 | The prompt sent is the contextual prompt over the current session's five newest exchanges, or the bare prompt when the read fails. |
| ChatUI.ChatInterface.LoadChatSession | src/components/ChatInterface.tsx:121-138 | The session becomes current. Its transcript replaces the messages only when the read succeeds and the session has rows; otherwise the messages stay. The input, flags and search state are untouched. |
| ChatUI.ChatInterface.OnSessionChange | src/components/ChatInterface.tsx:108-119 | A non-empty session id loads that session. Otherwise the messages reset to the default message or the reset greeting, and the current session is kept. The input, flags and search state are untouched. |
| ChatUI.ChatInterface.HandleSubmit | src/components/ChatInterface.tsx:163-212 | A blank prompt or a request in flight changes nothing and sends nothing. Otherwise: the user message is appended, the input is cleared and the contextual prompt is sent. A non-empty reply is saved as one new row, and once saved it is shown. Loading ends off; typing stays on unless the reply was saved. |
| ChatUI.ChatInterface.SubmitPrompt | src/components/ChatInterface.tsx:167-211 | Past the guard, the prompt sent is the contextual prompt built from the history read before anything was saved. The user message goes in first, the input is cleared and loading ends off. The search state is untouched. |
| ChatUI.ChatInterface.ReceiveReply | src/components/ChatInterface.tsx:185-199 | An empty or missing reply changes nothing. A non-empty reply that the store accepts adds exactly one row with the original prompt, then one assistant message, and turns typing off. A rejected save shows nothing. |
| ChatUI.ChatInterface.HandleStorySubmit | src/components/ChatInterface.tsx:66-102 | The story prompt goes out unchanged and is appended as a user message. A non-empty reply is shown, and saved unless the store rejects it. Both flags end off; the input and search state are untouched. |
| AIGeneration.SwitchRoute | src/components/logic-ai-generation.ts:167-210 | The vendor switch always picks a vendor SDK, and any selector it does not name falls back to OpenAI "gpt-3.5-turbo". |
| AIGeneration.GeminiModel | src/components/logic-ai-generation.ts:136-146 | "gemini-1.5-flash" maps to "gemini-1.5-flash-001"; every other selector maps to "gemini-1.5-pro-001". |
| AIGeneration.RouteFor | src/components/logic-ai-generation.ts:109-210 | A selector goes to OpenRouter exactly when it contains '/', with the selector as the model name. It goes to Gemini exactly when it has no '/' and starts with "gemini". Otherwise it goes through the vendor switch. |
| AIGeneration.SlashBeforeGemini | src/components/logic-ai-generation.ts:109-135 | "google/gemini-1.5-flash-001" goes to OpenRouter: the '/' test comes first. |
| AIGeneration.GeminiExamples | src/components/logic-ai-generation.ts:135-146 | The two Gemini selectors of the table reach their "-001" models. |
| AIGeneration.VendorFallback | src/components/logic-ai-generation.ts:167-210 | Unknown selectors reach OpenAI "gpt-3.5-turbo". The Anthropic SDK is reached exactly from "claude-sonnet" and "claude-haiku". |
| AIGeneration.TokenLimit | src/components/logic-ai-generation.ts:113-151 | Every route but Gemini asks for 4096 tokens; the Gemini call sets no limit. |
| AIGeneration.HeadingLineCases | src/components/logic-ai-generation.ts:47-49 | "# ", "## " and "### " lines become h1, h2 and h3 without the marker. A "### " line matches neither the h1 nor the h2 rule, and other lines are kept. |
| AIGeneration.ThreePassesOnLine | src/components/logic-ai-generation.ts:47-49 | A line made into a heading by one pass is left alone by the later passes. |
| AIGeneration.HeadingsPerLine | src/components/logic-ai-generation.ts:46-49 | The three multi-line replaces act line by line and keep the line structure. |
| AIGeneration.HeadingsWithoutMarkers | src/components/logic-ai-generation.ts:46-49 | A text with no line starting with '#' passes the heading step unchanged. |
| AIGeneration.ParagraphPieces | src/components/logic-ai-generation.ts:75-76 | Splitting on runs of two or more newlines gives at least one piece, starting with a prefix of the text. No piece holds a blank-line break, and only the outer pieces may carry a newline at their outer edge. |
| AIGeneration.ParagraphPiecesJoin | src/components/logic-ai-generation.ts:75-76 | Splitting on blank lines undoes joining with a blank line, for non-empty, break-free pieces with no newline at either edge. |
| AIGeneration.NoBreakIsOnePiece | src/components/logic-ai-generation.ts:75-76 | A text without a blank-line break is a single piece. |
| AIGeneration.WrapFacts | src/components/logic-ai-generation.ts:78-82 | Each kept piece becomes non-blank, starts with '<' once trimmed, has no blank-line break, and gains no edge newline. |
| AIGeneration.ParagraphsIdempotent | src/components/logic-ai-generation.ts:74-83 | Running the paragraph step on its own output changes nothing. |
| AIGeneration.ParagraphsUnmarked | src/components/logic-ai-generation.ts:74-83 | When no line of the input starts with '#', no line of the paragraph step's output does either. |
| AIGeneration.FormatAIResponseIdempotent | src/components/logic-ai-generation.ts:46-83 | For a reply in which no line starts with '#', the heading step changes nothing, formatting equals the paragraph step alone, and formatting the result again returns it unchanged. |
| AIGeneration.BlankReplyFormatsEmpty | src/components/logic-ai-generation.ts:46-83 | A reply of white space only formats to the empty string. |
| AIGeneration.AIGenerator.constructor | src/components/logic-ai-generation.ts:100-101 | The hook starts with model "gpt35" and no content. |
| AIGeneration.AIGenerator.SetSelectedModel | src/components/logic-ai-generation.ts:100 | Only the selected model changes. |
| AIGeneration.AIGenerator.GenerateContent | src/components/logic-ai-generation.ts:104-241 | The request goes where the selected model routes, with that route's token limit. The result is null exactly when the backend text is missing or empty, and then the stored content is unchanged. Otherwise the formatted text is returned and stored. |
| ModelSelection.ModelsOf | src/components/ModelSelector.tsx:219 | The filtered list holds only table entries of the provider. |
| ModelSelection.ModelsOfExact | src/components/ModelSelector.tsx:219 | Every entry of the provider is kept as often as it occurs, and no other entry is kept. |
| ModelSelection.ModelsOfAppend | src/components/ModelSelector.tsx:219 | Filtering a concatenation is the concatenation of the filtered parts, so kept entries stay in table order. |
| ModelSelection.FirstModelOf | src/components/ModelSelector.tsx:206 | `find` gives nothing exactly when no entry has the provider; otherwise it gives an entry of that provider. |
| ModelSelection.FirstModelOfIsFirst | src/components/ModelSelector.tsx:206 | The entry `find` gives sits at an index before which no entry has the provider. |
| ModelSelection.FirstModelIsFirstOfFilter | src/components/ModelSelector.tsx:206-219 | `find` returns the head of the provider's filtered list. |
| ModelSelection.ProvidersFacts | src/components/ModelSelector.tsx:258 | The provider list has no duplicates and lists every provider of the table and no other, in order of first appearance. |
| ModelSelection.ProvidersOfTable | src/components/ModelSelector.tsx:55-189 | The picker offers OpenAI, Google, Anthropic, Mistral, X.AI, Groq and OpenRouter, in that order. |
| ModelSelection.ValuesUnique | src/components/ModelSelector.tsx:323 | Model values are unique across the table, so they can serve as item keys. |
| ModelSelection.InitialSelectionConsistent | src/components/ModelSelector.tsx:57-62 | The first OpenAI entry of the table is "gpt35". |
| ModelSelection.AnthropicEntriesUseOpenRouter | src/components/ModelSelector.tsx:84-96 | Every Anthropic entry contains '/', so it routes to OpenRouter with its value unchanged. |
| ModelSelection.ClaudeSwitchCasesUnreachable | src/components/logic-ai-generation.ts:178-187 | No table entry routes to the Anthropic SDK. |
| ModelSelection.ModelSelector.constructor | src/components/ModelSelector.tsx:200-201 | The picker starts at OpenAI/"gpt35" with nothing reported, and the selection is consistent. |
| ModelSelection.ModelSelector.HandleProviderChange | src/components/ModelSelector.tsx:203-211 | The provider is always set. When the provider has entries, the model becomes its first entry and that value is reported. Otherwise the model and the reports are unchanged. Choosing a listed provider leaves a consistent selection. |
| ModelSelection.ModelSelector.HandleModelChange | src/components/ModelSelector.tsx:213-216 | The model is set and reported exactly as given, and the provider is unchanged. |
| RouteGuard.AuthAfterCheck | src/components/ProtectedRoute.tsx:17-20 | After the check, the flag is known and is true exactly when a session exists. |
| RouteGuard.Guard | src/components/ProtectedRoute.tsx:22-37 | Nothing renders exactly while the check is pending. Signed out off /login redirects to /login. Signed in on /login redirects to /dashboard. Children render in exactly the remaining cases. |
| RouteGuard.RedirectSettles | src/components/ProtectedRoute.tsx:28-35 | A redirect never targets the current path, and the target renders the page: there is no redirect loop. |
| RouteGuard.GuardAfterCheck | src/components/ProtectedRoute.tsx:17-37 | Once checked, something always renders: a signed-in user sees every page but /login, and a signed-out user sees only /login. |
| ChatContext.ChatStore.constructor | src/contexts/ChatContext.tsx:20-21 | The store starts with no messages and typing off. |
| ChatContext.ChatStore.AddMessage | src/contexts/ChatContext.tsx:23-25 | The message is appended at the end; earlier messages and the flag are unchanged. |
| ChatContext.ChatStore.SetTypingStatus | src/contexts/ChatContext.tsx:27-29 | The flag is set and the messages are unchanged. |
| ChatContext.ChatStore.ClearMessages | src/contexts/ChatContext.tsx:31-33 | The list is emptied and the flag is untouched. |
| ChatContext.UseChat | src/contexts/ChatContext.tsx:48-54 | Outside a provider the hook fails with "useChat must be used within a ChatProvider"; inside one it returns that provider's store. |

## Left out

- JSON unwrapping of a reply (src/components/logic-ai-generation.ts:38-44). It relies on `JSON.parse`, which is not modelled.
- The inline style, list, code-block and quote rewrites, and the final newline cleanup (src/components/logic-ai-generation.ts:52-71, 86-88). Their non-greedy and dot-all regex semantics are not modelled. `FormatAIResponse` is the heading step followed by the paragraph step.
- AIGeneration.FormatAIResponseIdempotent: covers only the heading and paragraph steps, and only replies with no line starting with '#'. Formatting twice is not shown to differ on the other replies; the proof simply does not reach them, because it uses the heading step being the identity on both passes. The inline rewrites and the newline cleanup are outside the model.
- AIGeneration.FormatAIResponse: the catch that returns the input on an internal failure is not modelled, because every modelled step is total.
- The class injection in `formatMessage`'s HTML branch (src/components/ChatInterface.tsx:236-282): the model keeps the markup as it is.
- The vendor SDK calls, `generateText`, the OpenRouter and Google clients, and src/services/chatService.ts. The model keeps the routing decision and the backend's text as a parameter.
- The floating-point `temperature` and `top_p` settings.
- Line terminators other than '\n' (such as '\r' and U+2028). The heading regex treats them specially, but the model does not.
- White space beyond the characters `Text.IsWhitespace` lists.
- Lower-casing beyond ASCII letters. `ToLower` folds only A-Z.
- `uuidv4`, `Date.now` and `Math.random`. They are parameters: `freshId`, `messageId`, `now`.
- Time display. A message's time is a natural number; `toLocaleTimeString` formatting is not modelled.
- The `chat-updated` events, toasts, scrolling, clipboard, animation and navigation.
- The Supabase session lookup of the route guard. Its result is the `session` parameter.
- The row columns `id` and `user_id`: no modelled operation reads them.
- Concurrent saves and reloads. Each operation is atomic in the model.
- The store's order among rows with equal timestamps. The model reads such rows in insertion order (or reversed).
- `onModelChange` is not called. Its calls are recorded in `ModelSelector.reported`.
- The `ModelSelector` class takes its table as a constructor argument. The screen passes `Models`, which `InitialSelectionConsistent` shows meets the constructor's requirement.
- ChatUI.ChatInterface.HandleSubmit: a rejected history read is modelled, but a `generateContent` that throws is not, because the hook catches its own errors and returns null.
- Conversations.ConversationService.SaveConversation: requires `now` to be at least every stored timestamp, a clock that never runs backwards. The store sorts on read and needs no such clock; the model relies on it so that the table stays oldest first without a sort.
- ChatUI.ChatInterface.HandleSubmit: carries the same clock requirement as `SaveConversation`, for the row it may save.
- ChatUI.ChatInterface.SubmitPrompt: carries the same clock requirement as `SaveConversation`.
- ChatUI.ChatInterface.ReceiveReply: carries the same clock requirement as `SaveConversation`.
- ChatUI.ChatInterface.HandleStorySubmit: carries the same clock requirement as `SaveConversation`.
- The UI-only pages and components: Login, Header, Dashboard, CodeGeneration, AiChat, Social, Coder, Imagine, ContentTypeSelector and App. Sidebar and Profile only call the service operations modelled here, and the model leaves them out too.
