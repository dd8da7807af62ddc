/** The deterministic decisions of the two-step answering bot (bot.py), with
    every language-model reply, the JSON parser and the file system taken as
    parameters: the history sent along with a question, the sentinel that
    sends a question on from the quick overview, the cleaning of the file
    router's reply, the general-chat test, the assembly of the file context
    and the console loop's handling of blank lines and quit words. */
module Bot {
  import opened Wrappers
  import opened Strings

  /** The characters Python's `str.strip()` removes: those `str.isspace()` accepts. */
  predicate IsPySpace(c: char) {
    || ('\t' <= c <= '\r') || ('\U{1C}' <= c <= '\U{1F}') || c == ' ' || c == '\U{85}'
    || c == '\U{A0}' || c == '\U{1680}' || ('\U{2000}' <= c <= '\U{200A}') || c == '\U{2028}'
    || c == '\U{2029}' || c == '\U{202F}' || c == '\U{205F}' || c == '\U{3000}'
  }

  /** Python `s.strip()`. */
  function Strip(s: string): string {
    Trim(s, IsPySpace)
  }

  // ---------------------------------------------------------------------------
  // `_build_history`: the chat history in the form the completion API takes
  // ---------------------------------------------------------------------------

  /** A key of a history record as it arrives: missing, JSON `null`, or a string. */
  datatype Field = Absent | Null | Str(text: string)

  /** One `{role, content}` record of the history the caller passes in. */
  datatype HistoryItem = HistoryItem(role: Field, content: Field)

  datatype ApiRole = UserRole | AssistantRole

  /** One message of the completion request. Its content is never `Absent`. */
  datatype ApiMessage = ApiMessage(role: ApiRole, content: Field)

  /** How many of the most recent history records are sent along. */
  const HistoryWindow: nat := 10

  /** The role of the bot's own turns in the history. */
  const BotRole := "bot"

  /** One record as a message (`_build_history`'s loop body). */
  function ApiMessageOf(item: HistoryItem): ApiMessage {
    ApiMessage(if item.role == Str(BotRole) then AssistantRole else UserRole,
               if item.content == Absent then Str("") else item.content)
  }

  /** The role "bot" becomes the assistant, any other role, or none, the user;
      the content is copied as it is, and a missing one becomes the empty
      string (`msg.get("content", "")` leaves a `null` as it is). */
  lemma ApiMessageMapping(item: HistoryItem)
    ensures ApiMessageOf(item).role == AssistantRole <==> item.role == Str(BotRole)
    ensures ApiMessageOf(item).content != Absent
    ensures item.content != Absent ==> ApiMessageOf(item).content == item.content
    ensures item.content == Absent ==> ApiMessageOf(item).content == Str("")
  {
  }

  /** `_build_history(history)`: the last ten records, or all of them when
      there are fewer, each turned into a message, in their original order. */
  method BuildHistory(history: seq<HistoryItem>) returns (messages: seq<ApiMessage>)
    ensures |messages| == if |history| < HistoryWindow then |history| else HistoryWindow
    ensures forall i :: 0 <= i < |messages| ==>
      messages[i] == ApiMessageOf(history[|history| - |messages| + i])
  {
    var start := if |history| < HistoryWindow then 0 else |history| - HistoryWindow;
    var recent := history[start..];
    messages := [];
    for i := 0 to |recent|
      invariant |messages| == i
      invariant forall j :: 0 <= j < i ==> messages[j] == ApiMessageOf(history[start + j])
    {
      messages := messages + [ApiMessageOf(recent[i])];
    }
  }

  // ---------------------------------------------------------------------------
  // `try_mini_context`: the quick-overview answer and its sentinel
  // ---------------------------------------------------------------------------

  /** The reply by which the model asks for the detailed files. */
  const Sentinel := "NEED_MORE_INFO"

  /** The outcome of `try_mini_context` given the overview document and the
      model's reply: no answer without an overview; otherwise no answer when
      the stripped reply starts with the sentinel, and the stripped reply as
      the answer when it does not. */
  function QuickAnswer(miniContext: string, reply: string): (r: Option<string>)
    ensures miniContext == "" ==> r == None
    ensures miniContext != "" ==> (r == None <==> StartsWith(Strip(reply), Sentinel))
    ensures r.Some? ==> r.value == Strip(reply) && !StartsWith(r.value, Sentinel)
  {
    if miniContext == "" then None
    else
      var answer := Strip(reply);
      if answer == Sentinel || StartsWith(answer, Sentinel) then None else Some(answer)
  }

  /** The sentinel is recognised behind leading whitespace and whatever
      follows it ("NEED_MORE_INFO.", "NEED_MORE_INFO\n"). */
  lemma SentinelAnywhereAfterBlanks(miniContext: string, pad: string, rest: string)
    requires forall k :: 0 <= k < |pad| ==> IsPySpace(pad[k])
    ensures QuickAnswer(miniContext, pad + Sentinel + rest) == None
  {
    assert Sentinel[0] == 'N' && Sentinel[|Sentinel| - 1] == 'O';
    TrimKeepsLead(pad, Sentinel, rest, IsPySpace);
  }

  /** A reply whose first non-blank character is not the sentinel's first
      letter is the answer, stripped. */
  lemma OtherRepliesAnswer(miniContext: string, pad: string, x: string)
    requires miniContext != ""
    requires forall k :: 0 <= k < |pad| ==> IsPySpace(pad[k])
    requires x != [] && !IsPySpace(x[0]) && x[0] != Sentinel[0]
    ensures QuickAnswer(miniContext, pad + x) == Some(Strip(x))
  {
    TrimStartSkips(pad, x, IsPySpace);
    TrimStartSkips([], x, IsPySpace);
    assert [] + x == x;
    TrimEndKeeps(x, 1, IsPySpace);
  }

  // ---------------------------------------------------------------------------
  // `pick_files`: cleaning the router's reply and falling back to ["NONE"]
  // ---------------------------------------------------------------------------

  const Fence := "```"
  const JsonFence := "```json"

  /** Python `s.replace(pat, "")`: occurrences are found left to right and
      do not overlap. */
  function RemoveAll(s: string, pat: string): string
    requires pat != []
    decreases |s|
  {
    if s == [] then []
    else if StartsWith(s, pat) then RemoveAll(s[|pat|..], pat)
    else [s[0]] + RemoveAll(s[1..], pat)
  }

  /** Text without the pattern is left as it is. */
  lemma {:induction false} RemoveAllAbsent(s: string, pat: string)
    requires pat != [] && !Contains(s, pat)
    ensures RemoveAll(s, pat) == s
    decreases |s|
  {
    if s != [] {
      ContainsCons(s, pat);
      RemoveAllAbsent(s[1..], pat);
    }
  }

  /** Removal runs past a prefix that cannot start the pattern. */
  lemma {:induction false} RemoveAllPrefix(a: string, b: string, pat: string)
    requires pat != [] && pat[0] !in a
    ensures RemoveAll(a + b, pat) == a + RemoveAll(b, pat)
    decreases |a|
  {
    if a == [] {
      assert a + b == b;
    } else {
      assert a[0] in a;
      assert (a + b)[0] == a[0] && (a + b)[1..] == a[1..] + b;
      RemoveAllPrefix(a[1..], b, pat);
      ConcatAssoc([a[0]], a[1..], RemoveAll(b, pat));
      assert [a[0]] + a[1..] == a;
    }
  }

  /** An occurrence of the pattern at the front is removed. */
  lemma RemoveAllFront(pat: string, b: string)
    requires pat != []
    ensures RemoveAll(pat + b, pat) == RemoveAll(b, pat)
  {
    assert (pat + b)[..|pat|] == pat && (pat + b)[|pat|..] == b;
  }

  /** The number of backticks at the front of `s`. */
  function LeadTicks(s: string): (n: nat)
    ensures n <= |s|
    decreases |s|
  {
    if s != [] && s[0] == '`' then 1 + LeadTicks(s[1..]) else 0
  }

  /** A fence opens `s` exactly when `s` starts with three backticks. */
  lemma FenceAtFront(s: string)
    ensures StartsWith(s, Fence) <==> LeadTicks(s) >= 3
    ensures LeadTicks(s) >= 3 ==> LeadTicks(s) == 3 + LeadTicks(s[3..])
  {
    assert Fence == ['`', '`', '`'];
    if |s| >= 3 {
      assert s[..3] == [s[0], s[1], s[2]];
      assert s[1..][0] == s[1] && s[1..][1..] == s[2..];
      assert s[2..][0] == s[2] && s[2..][1..] == s[3..];
      if s[0] == '`' && s[1] == '`' && s[2] == '`' {
        assert LeadTicks(s) == 1 + LeadTicks(s[1..]);
        assert LeadTicks(s[1..]) == 1 + LeadTicks(s[2..]);
        assert LeadTicks(s[2..]) == 1 + LeadTicks(s[3..]);
      } else if s[0] == '`' && s[1] == '`' {
        assert LeadTicks(s[2..]) == 0;
      } else if s[0] == '`' {
        assert LeadTicks(s[1..]) == 0;
      }
    }
  }

  /** Removing fences leaves as many backticks at the front as are left over
      once the leading ones are taken in threes. */
  lemma {:induction false} RemoveFenceTicks(s: string)
    ensures LeadTicks(RemoveAll(s, Fence)) == LeadTicks(s) % 3
    decreases |s|
  {
    FenceAtFront(s);
    if s == [] {
    } else if StartsWith(s, Fence) {
      RemoveFenceTicks(s[3..]);
      assert RemoveAll(s, Fence) == RemoveAll(s[3..], Fence);
      var k := LeadTicks(s[3..]);
      assert LeadTicks(s) == 3 + k;
      assert (3 + k) % 3 == k % 3;
    } else {
      var rest := RemoveAll(s[1..], Fence);
      assert RemoveAll(s, Fence) == [s[0]] + rest;
      assert ([s[0]] + rest)[1..] == rest;
      assert LeadTicks(s) < 3;
      if s[0] == '`' {
        RemoveFenceTicks(s[1..]);
        assert LeadTicks(s[1..]) < 2;
        assert LeadTicks(rest) == LeadTicks(s[1..]);
      }
    }
  }

  /** After all fences are removed no fence is left, even where a removal
      brought backticks together. */
  lemma {:induction false} RemoveFenceLeavesNone(s: string)
    ensures !Contains(RemoveAll(s, Fence), Fence)
    decreases |s|
  {
    var r := RemoveAll(s, Fence);
    if s == [] {
      assert r == [];
    } else if StartsWith(s, Fence) {
      RemoveFenceLeavesNone(s[3..]);
    } else {
      var rest := RemoveAll(s[1..], Fence);
      RemoveFenceLeavesNone(s[1..]);
      assert r == [s[0]] + rest && r[1..] == rest;
      ContainsCons(r, Fence);
      FenceAtFront(s);
      FenceAtFront(r);
      RemoveFenceTicks(s[1..]);
    }
  }

  /** `text.replace("```json", "").replace("```", "").strip()` applied to the
      stripped reply. */
  function CleanReply(reply: string): string {
    Strip(RemoveAll(RemoveAll(Strip(reply), JsonFence), Fence))
  }

  /** The cleaned reply holds no fence. */
  lemma CleanReplyHasNoFence(reply: string)
    ensures !Contains(CleanReply(reply), Fence)
  {
    var removed := RemoveAll(RemoveAll(Strip(reply), JsonFence), Fence);
    RemoveFenceLeavesNone(RemoveAll(Strip(reply), JsonFence));
    TrimKeepsAbsent(removed, IsPySpace, Fence);
  }

  /** A JSON fence starts with a fence. */
  lemma JsonFenceHasFence(s: string)
    requires Contains(s, JsonFence)
    ensures Contains(s, Fence)
  {
    var i :| 0 <= i <= |s| && StartsWith(s[i..], JsonFence);
    assert s[i..][..|Fence|] == JsonFence[..|Fence|] == Fence;
  }

  /** A reply without a fence is only stripped. */
  lemma CleanPlainReply(reply: string)
    requires !Contains(Strip(reply), Fence)
    ensures CleanReply(reply) == Strip(reply)
  {
    var s := Strip(reply);
    if Contains(s, JsonFence) {
      JsonFenceHasFence(s);
    }
    RemoveAllAbsent(s, JsonFence);
    RemoveAllAbsent(s, Fence);
    TrimTwice(reply, IsPySpace);
  }

  /** A JSON code block is unwrapped to its body, stripped. */
  lemma CleanFencedReply(body: string)
    requires '`' !in body
    ensures CleanReply(JsonFence + body + Fence) == Strip(body)
  {
    var wrapped := JsonFence + body + Fence;
    assert wrapped[0] == '`' && wrapped[|wrapped| - 1] == '`';
    TrimUnchanged(wrapped, IsPySpace);
    assert wrapped == JsonFence + (body + Fence);
    RemoveAllFront(JsonFence, body + Fence);
    RemoveAllPrefix(body, Fence, JsonFence);
    RemoveAllAbsent(Fence, JsonFence);
    RemoveAllPrefix(body, Fence, Fence);
    RemoveAllFront(Fence, []);
    assert Fence + [] == Fence && body + [] == body;
  }

  /** What `json.loads` makes of the cleaned text: a list (of file paths),
      some other JSON value, or a decoding error. */
  datatype Parsed = ParsedList(items: seq<string>) | ParsedOther | DecodeError

  /** The marker for a question that needs no file. */
  const NoFile := "NONE"

  /** `pick_files` given the router's reply and the parser: the parsed list
      when the cleaned reply is a JSON list, and `["NONE"]` otherwise. */
  function PickFiles(reply: string, loads: string -> Parsed): (files: seq<string>)
    ensures loads(CleanReply(reply)).ParsedList? ==> files == loads(CleanReply(reply)).items
    ensures !loads(CleanReply(reply)).ParsedList? ==> files == [NoFile]
  {
    match loads(CleanReply(reply))
    case ParsedList(items) => items
    case _ => [NoFile]
  }

  // ---------------------------------------------------------------------------
  // `answer_question`: general chat or an answer from files
  // ---------------------------------------------------------------------------

  /** `not file_paths or file_paths == ["NONE"]`. */
  predicate IsGeneralChat(paths: seq<string>) {
    paths == [] || paths == [NoFile]
  }

  /** The router's reply leads to general chat exactly when it is not a JSON
      list, or is the empty list or `["NONE"]`; any other list, even one that
      names "NONE" beside a file, leads to the files. */
  lemma PickedGeneralChat(reply: string, loads: string -> Parsed)
    ensures var parsed := loads(CleanReply(reply));
      IsGeneralChat(PickFiles(reply, loads)) <==>
        !parsed.ParsedList? || parsed.items == [] || parsed.items == [NoFile]
  {
  }

  /** The header that introduces a file in the context. */
  function FileHeader(path: string): string {
    "--- FILE: " + path + " ---"
  }

  /** One file's part of the context: its header and its content between line
      feeds, or its header marked "(not found)". */
  function FilePart(path: string, content: Option<string>): string {
    match content
    case Some(c) => FileHeader(path) + "\n" + c + "\n"
    case None => FileHeader(path) + " (not found)\n"
  }

  function FileParts(paths: seq<string>, read: string -> Option<string>): seq<string> {
    seq(|paths|, i requires 0 <= i < |paths| => FilePart(paths[i], read(paths[i])))
  }

  /** The context built from the selected files, `read` giving a file's
      content or nothing when it does not exist: one part per path, in the
      order given, joined with line feeds. */
  method AssembleContext(paths: seq<string>, read: string -> Option<string>) returns (context: string)
    ensures context == JoinLines(FileParts(paths, read))
  {
    var parts: seq<string> := [];
    for i := 0 to |paths|
      invariant |parts| == i
      invariant forall j :: 0 <= j < i ==> parts[j] == FilePart(paths[j], read(paths[j]))
    {
      parts := parts + [FilePart(paths[i], read(paths[i]))];
    }
    assert parts == FileParts(paths, read);
    context := JoinLines(parts);
  }

  /** Every selected path is named in the context, and the content of every
      file that exists is in it. */
  lemma ContextHasEveryFile(paths: seq<string>, read: string -> Option<string>, i: nat)
    requires i < |paths|
    ensures Contains(JoinLines(FileParts(paths, read)), FileHeader(paths[i]))
    ensures read(paths[i]).Some? ==> Contains(JoinLines(FileParts(paths, read)), read(paths[i]).value)
  {
    var parts := FileParts(paths, read);
    var part := parts[i];
    JoinContains(parts, i);
    var header := FileHeader(paths[i]);
    assert part[..|header|] == header;
    ContainsPrefix(part, header);
    ContainsWithin(JoinLines(parts), part, header);
    if read(paths[i]).Some? {
      var c := read(paths[i]).value;
      assert part == (header + "\n") + c + "\n";
      assert part[|header| + 1..|header| + 1 + |c|] == c;
      ContainsPrefix(c, c);
      ContainsSlice(part, |header| + 1, |header| + 1 + |c|, c);
      ContainsWithin(JoinLines(parts), part, c);
    }
  }

  /** `answer_question`'s choice: no file context for general chat, and
      otherwise the context assembled from the selected files. */
  method AnswerContext(paths: seq<string>, read: string -> Option<string>) returns (context: Option<string>)
    ensures context == None <==> IsGeneralChat(paths)
    ensures context.Some? ==> paths != [] && context.value == JoinLines(FileParts(paths, read))
  {
    if IsGeneralChat(paths) {
      context := None;
    } else {
      var text := AssembleContext(paths, read);
      context := Some(text);
    }
  }

  // ---------------------------------------------------------------------------
  // `main`: blank lines and quit words
  // ---------------------------------------------------------------------------

  /** Python `s.lower()` on ASCII letters; other characters are kept. */
  function AsciiLower(s: string): string {
    seq(|s|, i requires 0 <= i < |s| => if 'A' <= s[i] <= 'Z' then (s[i] as int + 32) as char else s[i])
  }

  /** `question.lower() in ("quit", "exit", "bye", "q")`. */
  predicate IsQuitWord(s: string) {
    var w := AsciiLower(s);
    w == "quit" || w == "exit" || w == "bye" || w == "q"
  }

  /** The quit words are recognised in any mix of cases. */
  lemma QuitWordsAnyCase()
    ensures IsQuitWord("QUIT") && IsQuitWord("Exit") && IsQuitWord("bYe") && IsQuitWord("Q")
    ensures !IsQuitWord("quit now") && !IsQuitWord("")
  {
    assert AsciiLower("QUIT") == "quit";
    assert AsciiLower("Exit") == "exit";
    assert AsciiLower("bYe") == "bye";
    assert AsciiLower("Q") == "q";
    assert |AsciiLower("quit now")| == 8;
  }

  /** `s` is the lower-case word `w` with any of its letters in upper case. */
  predicate CaseMix(s: string, w: string) {
    && |s| == |w|
    && forall i :: 0 <= i < |s| ==> s[i] == w[i] || ('a' <= w[i] <= 'z' && s[i] as int == w[i] as int - 32)
  }

  /** Lowering gives a lower-case word exactly from its case mixes. */
  lemma LowerIsCaseMix(s: string, w: string)
    requires forall i :: 0 <= i < |w| ==> 'a' <= w[i] <= 'z'
    ensures AsciiLower(s) == w <==> CaseMix(s, w)
  {
    if |s| == |w| {
      var low := AsciiLower(s);
      forall i | 0 <= i < |s|
        ensures low[i] == w[i] <==> s[i] == w[i] || s[i] as int == w[i] as int - 32
      {
      }
      if CaseMix(s, w) {
        assert low == w;
      }
    }
  }

  /** The quit test accepts exactly the four words with their letters in
      any mix of cases, and nothing else. */
  lemma QuitWordCases(s: string)
    ensures IsQuitWord(s) <==> CaseMix(s, "quit") || CaseMix(s, "exit") || CaseMix(s, "bye") || CaseMix(s, "q")
  {
    LowerIsCaseMix(s, "quit");
    LowerIsCaseMix(s, "exit");
    LowerIsCaseMix(s, "bye");
    LowerIsCaseMix(s, "q");
  }

  /** The questions the loop passes on, read from `lines`: each line
      stripped, the blank ones skipped. */
  function Questions(lines: seq<string>): seq<string>
    decreases |lines|
  {
    if lines == [] then []
    else
      var q := Strip(lines[|lines| - 1]);
      Questions(lines[..|lines| - 1]) + (if |q| == 0 then [] else [q])
  }

  /** Every question passed on is a non-blank line with no surrounding
      whitespace. */
  lemma {:induction false} QuestionsAreStripped(lines: seq<string>)
    ensures forall k :: 0 <= k < |Questions(lines)| ==>
      |Questions(lines)[k]| > 0 && Strip(Questions(lines)[k]) == Questions(lines)[k]
    decreases |lines|
  {
    if lines != [] {
      QuestionsAreStripped(lines[..|lines| - 1]);
      TrimTwice(lines[|lines| - 1], IsPySpace);
    }
  }

  /** No question passed on is a quit word when no line is one. */
  lemma {:induction false} QuestionsAreNoQuitWords(lines: seq<string>)
    requires forall i :: 0 <= i < |lines| ==> !IsQuitLine(lines[i])
    ensures forall k :: 0 <= k < |Questions(lines)| ==> !IsQuitWord(Questions(lines)[k])
    decreases |lines|
  {
    if lines != [] {
      var front := lines[..|lines| - 1];
      assert forall i :: 0 <= i < |front| ==> front[i] == lines[i];
      QuestionsAreNoQuitWords(front);
      var q := Strip(lines[|lines| - 1]);
      assert !IsQuitLine(lines[|lines| - 1]);
      assert Questions(lines) == Questions(front) + (if |q| == 0 then [] else [q]);
    }
  }

  /** A blank line is not a quit word. */
  lemma BlankIsNoQuitWord(s: string)
    requires |s| == 0
    ensures !IsQuitWord(s)
  {
    assert |AsciiLower(s)| == 0;
  }

  /** Reading one more line adds its stripped form, unless it is blank. */
  lemma QuestionsStep(lines: seq<string>, n: nat)
    requires n < |lines|
    ensures var q := Strip(lines[n]);
      Questions(lines[..n + 1]) == Questions(lines[..n]) + (if |q| == 0 then [] else [q])
  {
    assert lines[..n + 1][..n] == lines[..n] && lines[..n + 1][n] == lines[n];
  }

  /** A line that ends the session once stripped. */
  predicate IsQuitLine(line: string) {
    IsQuitWord(Strip(line))
  }

  /** How the console loop ended: a quit word, or the end of the input, where
      Python's `input()` would raise `EOFError`. */
  datatype LoopEnd = SaidQuit | InputExhausted

  /** `main`'s loop over the input lines: each line is stripped; a blank one
      is skipped; a quit word ends the loop; any other is a question to
      answer. It reads up to the first quit word and no further, and answers
      the non-blank lines before it. */
  method ChatLoop(lines: seq<string>) returns (asked: seq<string>, read: nat, end: LoopEnd)
    ensures end == SaidQuit <==> FirstWhere(lines, IsQuitLine) < |lines|
    ensures read == if end == SaidQuit then FirstWhere(lines, IsQuitLine) + 1 else |lines|
    ensures asked == Questions(lines[..FirstWhere(lines, IsQuitLine)])
  {
    asked, read, end := [], 0, InputExhausted;
    while read < |lines|
      invariant read <= FirstWhere(lines, IsQuitLine)
      invariant asked == Questions(lines[..read])
    {
      var question := Strip(lines[read]);
      FirstWhereAt(lines, IsQuitLine, read);
      assert IsQuitLine(lines[read]) == IsQuitWord(question);
      QuestionsStep(lines, read);
      if |question| == 0 {
        BlankIsNoQuitWord(question);
      } else if IsQuitWord(question) {
        end := SaidQuit;
        read := read + 1;
        return;
      } else {
        asked := asked + [question];
      }
      read := read + 1;
    }
    assert lines[..read] == lines;
  }

  /** The session ends on a quit word exactly when one is typed. */
  lemma LoopEndsOnQuit(lines: seq<string>)
    ensures FirstWhere(lines, IsQuitLine) < |lines| <==> exists i :: 0 <= i < |lines| && IsQuitLine(lines[i])
  {
    FirstWhereIsFirst(lines, IsQuitLine);
  }

  /** Every question answered is a stripped, non-blank line that is not a
      quit word. */
  lemma LoopAnswersQuestions(lines: seq<string>)
    ensures var qs := Questions(lines[..FirstWhere(lines, IsQuitLine)]);
      forall k :: 0 <= k < |qs| ==> |qs[k]| > 0 && Strip(qs[k]) == qs[k] && !IsQuitWord(qs[k])
  {
    var before := lines[..FirstWhere(lines, IsQuitLine)];
    FirstWhereIsFirst(lines, IsQuitLine);
    QuestionsAreStripped(before);
    forall i | 0 <= i < |before| ensures !IsQuitLine(before[i]) {
      assert before[i] == lines[i];
    }
    QuestionsAreNoQuitWords(before);
  }

  // ---------------------------------------------------------------------------
  // The route a question takes through `main`
  // ---------------------------------------------------------------------------

  /** How `main` answers a question: from the overview, as general chat, or
      from the files the router picked. */
  datatype Route = FromOverview(answer: string) | GeneralChat | FromFiles(paths: seq<string>)

  /** The route given the overview document, the overview model's reply, the
      router's reply and the parser: the overview answer when there is one;
      otherwise the router's pick, which is general chat when `IsGeneralChat`
      holds of it. */
  function RouteQuestion(miniContext: string, quickReply: string, routerReply: string,
                         loads: string -> Parsed): (r: Route)
    ensures r.FromOverview? <==> QuickAnswer(miniContext, quickReply).Some?
    ensures r.FromOverview? ==> r.answer == Strip(quickReply)
    ensures r.FromFiles? ==> r.paths == PickFiles(routerReply, loads) && r.paths != [] && r.paths != [NoFile]
    ensures r.GeneralChat? ==> IsGeneralChat(PickFiles(routerReply, loads))
  {
    match QuickAnswer(miniContext, quickReply)
    case Some(answer) => FromOverview(answer)
    case None =>
      var paths := PickFiles(routerReply, loads);
      if IsGeneralChat(paths) then GeneralChat else FromFiles(paths)
  }

  /** A router reply that does not parse as a list sends a question the
      overview could not answer to general chat. */
  lemma UnparsedRouterReplyIsGeneralChat(miniContext: string, quickReply: string, routerReply: string,
                                         loads: string -> Parsed)
    requires QuickAnswer(miniContext, quickReply) == None
    requires !loads(CleanReply(routerReply)).ParsedList?
    ensures RouteQuestion(miniContext, quickReply, routerReply, loads) == GeneralChat
  {
  }
}
