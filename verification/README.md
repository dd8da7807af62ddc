# A verified model of the law-firm chat assistant

The repository has a web chat widget, written in browser JavaScript (`script.js`), and a
two-step answering bot in Python (`bot.py`). This project models, in Dafny, the
deterministic logic at their centre and proves what that logic promises:

- **The formatter** (`formatter.dfy`, module `Formatter`). This is `formatMessage`, the
  markdown-lite converter for bot replies. It has three passes:
  - **Bold.** `**x**` becomes `<strong>x</strong>`. The match is lazy and stays on one
    line.
  - **List.** This pass runs only when the text, after the bold pass, holds `"\n- "`. The
    bold pass never creates that marker, so text without it goes through the bold and
    line-feed passes only. Every line whose trimmed form starts with `- ` becomes an
    `<li>` item. Every run of item lines is then wrapped in one `<ul>`.
  - **Line feeds.** Every remaining line feed becomes `<br>`.

  Each pass is a function. The lemmas describe each pass and the whole chain. The `<ul>`
  wrapping is defined run by run (`WrapRuns`). It is proved equal to an independent
  line-by-line reading (`Pieces`), which says where each `<ul>` and `</ul>` goes.
- **The chat session** (`chat_widget.dfy`, class `ChatWidget.ChatSession`). This is the
  widget's state machine. Each event handler is a method:
  - opening and closing the chat;
  - the lead-capture form's timer, submit, success and failure;
  - `addMessage` and `sendMessage`;
  - the chat form and the suggestion chips.

  The state has these parts:
  - the counters and flags `messageCount`, `leadFormShown` and `leadCaptured`;
  - the `conversationContext` window of six turns;
  - the lock on the input and the send button;
  - the entries of the message pane.

  The class invariant ties these together:
  - The context is always the last six turns shown in the pane.
  - The input is locked and empty exactly until a lead is captured.
  - A form button is disabled exactly while it reads "Sending...".

  The 500 ms timer that shows the form is a count of scheduled forms. The guard is checked
  when the chat is opened, but the flag is set only when the timer fires. So two quick
  opens schedule, and show, two forms (`TwoQuickOpens`).
- **The bot's decisions** (`bot.dfy`, module `Bot`). Every language-model reply, the JSON
  parser and the file system are parameters. The module covers:
  - the history window sent with a question (`_build_history`);
  - the `NEED_MORE_INFO` sentinel of the quick-overview step;
  - the cleaning of the file router's reply, with its `["NONE"]` fallback;
  - the general-chat test;
  - the assembly of the file context;
  - the console loop's handling of blank lines and quit words.

Two modules support them:
- `strings.dfy` (module `Strings`) has trimming with a whitespace predicate, splitting
  and joining on line feeds, substring search and suffix windows. `Formatter` uses
  JavaScript's whitespace set, and `Bot` uses Python's.
- `wrappers.dfy` (module `Wrappers`) has the `Option` type.

## Model

| member | source | states |
|---|---|---|
| Formatter.Bold | script.js:173 | Defines the bold pass. The scan runs left to right. A `**` whose closing `**` (`FindClose`) lies on the same line becomes `<strong>`, the text between the two, `</strong>`, and the scan resumes after the close. Any other character is copied and the scan moves on by one. The rows below state its properties. |
| Formatter.FindClose | script.js:173 | The closing `**` of a lazy same-line match is the first `**` at or after the content's start. No line terminator (`\n`, `\r`, U+2028, U+2029) may come before it. The result is None exactly when no `**` follows on the same line. |
| Formatter.BoldIdentity | script.js:173 | Text that holds no `**` passes the bold pass unchanged. |
| Formatter.BoldPair | script.js:173 | A same-line pair `**x**` becomes `<strong>x</strong>`. Here x holds no `**` and does not end in `*`. The scan resumes right after the closing delimiter. |
| Formatter.BoldUnmatched | script.js:173 | A `**` followed by text that holds no `**` at all stays literal, and so does the rest of the text. |
| Formatter.BoldUnclosed | script.js:173 | A `**` that no `**` closes on its own line stays literal, and the scan resumes right after it. |
| Formatter.BoldPairOnNextLine | script.js:173 | A `**` left open at the end of one line stays literal. A same-line pair `**y**` on the next line still becomes `<strong>y</strong>`. |
| Formatter.BoldThirdStaysLiteral | script.js:173 | The match is lazy: after a closed pair, a third `**` that nothing closes stays literal. |
| Formatter.BoldLazyExample | script.js:173 | `**a**b**` becomes `<strong>a</strong>b**`. |
| Formatter.BoldEmptyExample | script.js:173 | `****` becomes `<strong></strong>`. |
| Formatter.ListItem | script.js:177-181 | Defines the per-line map. A line whose trimmed form (JavaScript whitespace) starts with `- ` becomes `<li>`, the trimmed text after the `- `, `</li>`. Any other line is kept as it is. |
| Formatter.MarkItems | script.js:176-182 | Defines list mode's marking: `ListItem` applied to every line, in order. |
| Formatter.ListItemIsItem | script.js:177-181 | The per-line map produces an item line exactly in two cases. Either the trimmed line starts with `- ` and its text stays on one line, or the line did not start with `- ` and already was an item line, which is kept as it is. |
| Formatter.WrappedIsItem | script.js:179 | `<li>` + text + `</li>` is an item line exactly when the text has no line terminator. |
| Formatter.ListItemOneLine | script.js:177-181 | The per-line map never introduces a line feed. |
| Formatter.MarkItemsKeepsLines | script.js:176-182 | List mode keeps the line count: the marked lines, joined with `\n`, split back into exactly those lines, one per input line. |
| Formatter.WrapRuns | script.js:184 | Defines the `<ul>` pass run by run. A maximal run of item lines (`RunLength`) becomes `<ul>`, its lines joined by line feeds, the line feed after its last line when another line follows, and `</ul>`. Every other line is copied with its line feed. |
| Formatter.RunLength | script.js:184 | The run at the front is the longest prefix of item lines: all its lines are items, and the line after it is not. |
| Formatter.WrapRunsByLine | script.js:184 | Wrapping run by run equals the line-by-line reading. Each maximal run of item lines gets one `<ul>` before its first line and one `</ul>` after its last line's line feed. Nothing else is added, and every other line is copied with its line feed. |
| Formatter.WrapSingleRun | script.js:184 | Lines that are all items become one `<ul>` around all of them, joined by their line feeds. |
| Formatter.Br | script.js:187 | The output of the line-feed pass holds no line feed. Text without one is unchanged. |
| Formatter.BrAppend | script.js:187 | The line-feed pass works character by character: it distributes over concatenation. |
| Formatter.FormatMessage | script.js:171-188 | No output of the formatter contains a line feed. |
| Formatter.BoldMakesNoListMark | script.js:173-175 | The bold pass never creates the list marker `"\n- "`: its output holds the marker only if its input does. |
| Formatter.FormatWithoutList | script.js:173-187 | Text without `"\n- "` goes through the bold and `<br>` passes only. |
| Formatter.FormatEmpty | script.js:171-188 | The empty reply formats to the empty string. |
| Formatter.FormatPlainText | script.js:173-187 | Text with no `**` and no line feed is returned unchanged. |
| Formatter.FormatListMode | script.js:175-187 | In list mode the output has two steps. First, the bold text's lines are marked and wrapped as the line-by-line reading says. Then every line feed is written as `<br>`. |
| ChatWidget.Render | script.js:196 | Defines a bubble's content. A bot message is `FormatMessage` of its text. A user message is the text between `<p>` and `</p>`. |
| ChatWidget.RenderByRole | script.js:196 | A bot bubble is the formatted text, on one line. A user bubble is the raw text between `<p>` and `</p>`, with no formatting. |
| ChatWidget.Remember | script.js:210-211 | Defines the context update: push the turn, then drop the first entry when there are more than six. |
| ChatWidget.RememberNewestLast | script.js:210-211 | After a push the newest turn is last. Below six entries nothing is evicted. With six or more, exactly the oldest turn is evicted and the rest keep their order. A window of at most six entries stays that way. |
| ChatWidget.RememberKeepsWindow | script.js:210-211 | Push-then-shift keeps exactly the last six turns of everything ever added. |
| ChatWidget.ChatSession.ContextBounded | script.js:210-211 | In every reachable state the context holds at most six turns. They are the newest turns in the pane, oldest first. |
| ChatWidget.CardsDoNotCount | script.js:273-274 | Removing a form card, or changing its button, leaves the conversation's turns as they were. |
| ChatWidget.ChatSession.constructor | script.js:142-150 | The chat starts locked: input and send disabled, the locked placeholder, nothing said, no form scheduled or shown. |
| ChatWidget.ChatSession.ToggleChat | script.js:153-164 | The click flips the window. When the window is now open, it schedules a form exactly if neither flag is set, and it hides the badge. Once a lead is captured, opening schedules no form. |
| ChatWidget.ChatSession.CloseChat | script.js:166-168 | The window is hidden, and nothing else changes. |
| ChatWidget.ChatSession.ShowLeadForm | script.js:248-256 | The timer firing sets `leadFormShown` and appends one form card with its button as the template has it. |
| ChatWidget.ChatSession.SubmitLead | script.js:259-266 | Submitting a card disables its button and labels it "Sending...". Nothing else changes. |
| ChatWidget.ChatSession.LeadSubmitSucceeded | script.js:272-277 | The lead is captured, and that card is removed. Input and send are enabled with the open placeholder. The thank-you message is added and remembered. |
| ChatWidget.ChatSession.LeadSubmitFailed | script.js:278-281 | Only that card's button changes: enabled again and labelled "Send Details". Every flag stays as it was. |
| ChatWidget.ChatSession.AddMessage | script.js:191-212 | One bubble is appended, and the turn is remembered in the six-turn window, newest last. |
| ChatWidget.ChatSession.BeginSend | script.js:286-298 | Before the request: the chips are hidden and the user's bubble is added. The count rises by one, the input is cleared and send is disabled. |
| ChatWidget.ChatSession.AwaitReply | script.js:296-298 | The count rises by exactly one, the input is cleared and send is disabled. The lock on the input is unaffected. |
| ChatWidget.ChatSession.FinishSend | script.js:310-324 | After the request: one bot bubble is added and send ends enabled. |
| ChatWidget.ChatSession.SendMessage | script.js:286-325 | An empty message changes nothing. Otherwise the count rises by exactly one, and the user's bubble comes before exactly one bot bubble, which holds the reply or the matching fallback text. Send ends enabled whether or not a lead was captured. |
| ChatWidget.ChatSession.TypeInput | script.js:148 | Models the user typing. Only an enabled input takes text. That is how a browser treats a `disabled` input; the script itself only sets the flag. |
| ChatWidget.ChatSession.SubmitChatForm | script.js:328-331 | The trimmed input is sent. A blank input changes nothing; while the chat is locked the input is always blank. The method requires send to be enabled. That stands for the browser, which does not submit a form through a disabled submit button; the script itself only sets the flag, and the page markup is not part of this model. Otherwise the whole new state is as for `SendMessage` with the trimmed text: the count rises by one, the user's bubble comes before one bot bubble, both turns are remembered, the input is cleared, send ends enabled and the chips are hidden. |
| ChatWidget.ChatSession.ClickChip | script.js:231-236 | The chip's text is sent with no check of the lock, and the chips end hidden. For a non-empty text, the count rises by one, the two bubbles are added and remembered, the input is cleared and send ends enabled. For an empty text, nothing but the chips changes. |
| ChatWidget.TwoQuickOpens | script.js:157-158 | Opening, closing and opening again before the timer fires schedules two forms, and both are shown. |
| ChatWidget.ChipBeforeCapture | script.js:231-234 | A chip clicked before any lead is captured is sent and counted. Send ends enabled while the input stays locked. |
| ChatWidget.FailThenRetry | script.js:259-283 | A failed submit leaves the chat locked and the card ready to send again. A retry can then capture the lead. |
| Bot.ApiMessageOf | bot.py:67-68 | Defines one message of the history. The role "bot" becomes "assistant", and anything else (another string, `null`, a missing role) becomes "user". The content is copied, and missing content becomes `""`. |
| Bot.ApiMessageMapping | bot.py:67-68 | The role "bot" becomes the assistant, and any other or missing role becomes the user. Content is copied as it is, and missing content becomes `""`. |
| Bot.BuildHistory | bot.py:59-69 | Returns min(len(history), 10) messages: the last records of the history, in their original order, each mapped as above. |
| Bot.QuickAnswer | bot.py:79-116 | No answer without an overview. Otherwise there is no answer exactly when the stripped reply starts with `NEED_MORE_INFO`. When there is an answer, it is the stripped reply. |
| Bot.SentinelAnywhereAfterBlanks | bot.py:110-114 | The sentinel is recognised after leading whitespace and whatever follows it. |
| Bot.OtherRepliesAnswer | bot.py:110-116 | A reply whose first non-blank character is not `N` is the answer, stripped. |
| Bot.RemoveAll | bot.py:155 | Defines Python's `str.replace(pat, "")`. Matches are found left to right and do not overlap; the scan resumes after each removed match. |
| Bot.CleanReply | bot.py:152-155 | Defines the cleaning of the router's reply: strip it, remove every ```` ```json ````, then every ```` ``` ````, then strip again. |
| Bot.RemoveFenceLeavesNone | bot.py:155 | After every ```` ``` ```` is removed, none is left, even where a removal brought backticks together. |
| Bot.CleanReplyHasNoFence | bot.py:152-155 | The cleaned router reply never holds a fence. |
| Bot.CleanPlainReply | bot.py:152-155 | A reply without a fence is only stripped. |
| Bot.CleanFencedReply | bot.py:152-155 | A ```` ```json ```` code block is unwrapped to its body, stripped. |
| Bot.PickFiles | bot.py:157-164 | A JSON list parsed from the cleaned reply is returned as it is. Any other JSON value, or a decoding error, gives exactly `["NONE"]`. |
| Bot.IsGeneralChat | bot.py:175 | Defines the general-chat test: the selected paths are empty or exactly `["NONE"]`. |
| Bot.PickedGeneralChat | bot.py:175 | The router's pick leads to general chat exactly in three cases: the cleaned reply is not a JSON list, it is the empty list, or it is `["NONE"]`. A list that names a file beside "NONE" leads to the files. |
| Bot.FilePart | bot.py:204-206 | Defines one file's part of the context. An existing file gives `--- FILE: <path> ---`, a line feed, its content and a line feed. A missing one gives the header, ` (not found)` and a line feed. |
| Bot.AssembleContext | bot.py:198-208 | The context is one part per selected path, in order, joined with line feeds. A part is the file's header and content, or its header marked "(not found)". |
| Bot.ContextHasEveryFile | bot.py:198-208 | Every selected path's header is in the context, and so is the content of every file that exists. |
| Bot.AnswerContext | bot.py:175-208 | There is no file context exactly when the paths are empty or `["NONE"]`. Otherwise the context is assembled from the paths, which are then non-empty. |
| Bot.IsQuitWord | bot.py:250 | Defines the quit test: the line, lowercased, is `quit`, `exit`, `bye` or `q`. |
| Bot.IsQuitLine | bot.py:247-250 | Defines the loop's stop test on a raw line: the line, stripped, is a quit word. |
| Bot.QuitWordCases | bot.py:250 | A line ends the session exactly when it is `quit`, `exit`, `bye` or `q` with its letters in any mix of cases, and nothing else. |
| Bot.LowerIsCaseMix | bot.py:250 | Lowering a line gives a lower-case word exactly when the line is that word with any of its letters in upper case. |
| Bot.QuitWordsAnyCase | bot.py:250 | `quit`, `exit`, `bye` and `q` end the session in any mix of cases. Longer text and the empty line do not. |
| Bot.Questions | bot.py:247-249 | Defines the questions the loop passes on: every line stripped, the blank ones skipped, the others kept in order. |
| Bot.QuestionsAreStripped | bot.py:247-249 | Every question passed on is non-blank and has no surrounding whitespace. |
| Bot.ChatLoop | bot.py:246-252 | The loop ends on a quit word exactly when a line is one. It reads up to the first such line and no further. It answers exactly the non-blank lines before that line, stripped and in order. |
| Bot.LoopEndsOnQuit | bot.py:250-252 | The first quit line lies inside the input exactly when some line is a quit word. |
| Bot.LoopAnswersQuestions | bot.py:247-252 | No question answered is blank, unstripped or a quit word. |
| Bot.RouteQuestion | bot.py:256-269 | A question is answered from the overview exactly when the quick step gives an answer, which is the stripped reply. Otherwise the router's pick decides. A file route never has an empty path list or `["NONE"]`, and the general-chat route is taken exactly when the pick passes the general-chat test. |
| Bot.UnparsedRouterReplyIsGeneralChat | bot.py:157-175 | A router reply that does not parse as a list sends a question the overview could not answer to general chat. |

## Left out

- Formatter.WrapRuns recognises an item line only as a whole line that opens with `<li>` and closes with `</li>`. The regular expression `(<li>.*<\/li>\n?)+` is unanchored, so in the source it can also match `<li>…</li>` text inside another line. Only a reply that itself contains `<li>` tags can tell the two apart.
- Formatter: JavaScript strings are UTF-16, and a Dafny `char` is a Unicode scalar value. The formatter never splits a character, so its output is the same.
- ChatWidget: these are not modelled:
  - building DOM nodes, `innerHTML` parsing, `scrollTop` and focus;
  - the typing indicator and the wall-clock timestamp of each bubble;
  - the `alert` on a failed lead submit;
  - the chat badge's styling and the chips' opacity.

  These parts produce output only; no state the model keeps depends on them.
- ChatWidget: the `fetch` call to `/api/chat` becomes a parameter of type `ReplyOutcome`. Its values are a JSON `reply` string, a response that is not ok, or an exception. A `reply` that is not a string throws inside `formatMessage`, so it counts as an exception.
- ChatWidget.ChatSession.SendMessage takes the request and its reply as one step. `BeginSend` and `FinishSend` model the two halves. Events may be called in between them, but no lemma reasons about such interleavings.
- ChatWidget.ChatSession.LeadSubmitFailed models a failure before `leadCaptured` is set. In the code the mock request never fails. The `catch` runs only if a step after script.js:272 throws, with the lead already recorded. That path is not modelled.
- ChatWidget: the e-mail and phone values of the lead form are read but never used, so they are not modelled.
- ChatWidget: the lock invariant does not constrain the send button. A chip clicked before the lead is captured re-enables send while the input stays locked (`ChipBeforeCapture`).
- The menu toggle, FAQ accordion, smooth scrolling, scroll-spy and the mock contact form (script.js:3-129) are page wiring with no state shared with the chat, so they are not modelled.
- Bot: every OpenAI call and every prompt string are left out. The replies they produce are parameters. The same holds for the `.env` set-up and for loading `index.json` and the overview document. The model's reply content is a string: a `None` content, which would make `.strip()` raise, is not modelled.
- Bot: `json.loads` is a function parameter `loads`. Its result is a list of strings, another JSON value, or a decoding error. Bot.PickFiles: a JSON list whose items are not strings is returned as it is by `pick_files`, but the model types the items as strings.
- Bot.BuildHistory: every history record is modelled as a dictionary whose fields are missing, `null` or a string. A record that is not a dictionary makes `msg.get` raise, and such records are not modelled.
- Bot.AssembleContext: `read` stands for `os.path.join`, `os.path.exists` and reading the file together. Joining with an absolute path and UTF-8 decoding errors are not modelled.
- Bot.ChatLoop: the end of the input is the outcome `InputExhausted`, where Python's `input()` raises `EOFError` and the program stops with a traceback. The console output is left out.
- Bot.IsQuitWord lowercases only ASCII letters, but the test has the same outcome as Python's `str.lower()`. The only characters outside ASCII that lowercase to ASCII letters are U+212A, which becomes `k`, and U+0130, which becomes `i` plus a combining dot. No quit word contains `k`, and the combining dot keeps the result from matching.
- server.py is not part of this model. It is a Flask wrapper over bot.py whose only check of its own is the 400 response to an empty question.
