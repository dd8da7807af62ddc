/** The chat widget's markdown-lite formatter for bot replies (`formatMessage`
    in script.js): a bold pass, a list pass that runs only when the text holds
    a line starting with "- ", and a pass that turns every line feed into
    `<br>`. Each pass is a function; the lemmas state what each pass and the
    whole chain do. */
module Formatter {
  import opened Wrappers
  import opened Strings

  /** The characters JavaScript's regular-expression `.` does not match. */
  predicate IsLineTerminator(c: char) {
    c == '\n' || c == '\r' || c == '\U{2028}' || c == '\U{2029}'
  }

  /** JavaScript's WhiteSpace and LineTerminator characters, which `trim` removes. */
  predicate IsJsSpace(c: char) {
    || c == '\t' || c == '\U{B}' || c == '\U{C}' || c == ' ' || c == '\U{A0}' || c == '\U{FEFF}'
    || c == '\U{1680}' || ('\U{2000}' <= c <= '\U{200A}') || c == '\U{202F}' || c == '\U{205F}'
    || c == '\U{3000}' || IsLineTerminator(c)
  }

  // ---------------------------------------------------------------------------
  // Pass 1: `**x**` becomes `<strong>x</strong>`
  // ---------------------------------------------------------------------------

  /** No line terminator in `s[lo..hi]`. */
  predicate SameLine(s: string, lo: nat, hi: nat)
    requires lo <= hi <= |s|
  {
    forall m :: lo <= m < hi ==> !IsLineTerminator(s[m])
  }

  /** A "**" starts at position `k` of `s`. */
  predicate StarsAt(s: string, k: int) {
    0 <= k && k + 1 < |s| && s[k] == '*' && s[k + 1] == '*'
  }

  /** The closing delimiter of `\*\*(.*?)\*\*` for content starting at `j`:
      the first "**" at or after `j`, provided no line terminator comes first. */
  function FindClose(s: string, j: nat): (r: Option<nat>)
    requires j <= |s|
    ensures r.Some? ==> j <= r.value && StarsAt(s, r.value) && SameLine(s, j, r.value)
    ensures r.Some? ==> forall k :: j <= k < r.value ==> !StarsAt(s, k)
    ensures r.None? ==> forall k :: j <= k && StarsAt(s, k) ==> !SameLine(s, j, k)
    decreases |s| - j
  {
    if j + 2 > |s| then None
    else if StarsAt(s, j) then Some(j)
    else if IsLineTerminator(s[j]) then None
    else FindClose(s, j + 1)
  }

  /** `s.replace(BOLD, '<strong>$1</strong>')` with BOLD the global regular
      expression `\*\*(.*?)\*\*`: scanning from the
      left, a "**" whose lazy same-line match closes becomes a `<strong>`
      element around the text between the delimiters; otherwise one character
      is copied and the scan moves on. */
  function Bold(s: string): string
    decreases |s|
  {
    if |s| < 2 then s
    else if StarsAt(s, 0) then
      match FindClose(s, 2)
      case Some(j) => "<strong>" + s[2..j] + "</strong>" + Bold(s[j + 2..])
      case None => [s[0]] + Bold(s[1..])
    else [s[0]] + Bold(s[1..])
  }

  /** No "**" anywhere in `s`. */
  predicate NoDoubleStar(s: string) {
    forall k :: 0 <= k < |s| ==> !StarsAt(s, k)
  }

  /** Text without "**" passes the bold pass unchanged. */
  lemma {:induction false} BoldIdentity(s: string)
    requires NoDoubleStar(s)
    ensures Bold(s) == s
  {
    if |s| >= 2 {
      assert !StarsAt(s, 0);
      assert forall k :: StarsAt(s[1..], k) ==> StarsAt(s, k + 1);
      BoldIdentity(s[1..]);
    }
  }

  /** A prefix without any '*' is copied as it is. */
  lemma {:induction false} BoldPrefix(p: string, s: string)
    requires '*' !in p
    ensures Bold(p + s) == p + Bold(s)
  {
    if p != [] {
      assert p[0] in p;
      assert (p + s)[0] == p[0] && (p + s)[1..] == p[1..] + s;
      if |p + s| >= 2 {
        assert !StarsAt(p + s, 0);
        assert forall c :: c in p[1..] ==> c in p;
        BoldPrefix(p[1..], s);
        ConcatAssoc([p[0]], p[1..], Bold(s));
        assert [p[0]] + p[1..] == p;
      } else {
        assert s == [] && p + s == p;
        assert Bold(s) == [];
      }
    } else {
      assert p + s == s;
    }
  }

  /** A same-line pair: "**", then text without "**" that does not end in
      '*', then "**" becomes a `<strong>` element around that text, and the
      scan resumes after the closing delimiter. */
  lemma BoldPair(x: string, rest: string)
    requires forall k :: 0 <= k < |x| ==> !IsLineTerminator(x[k])
    requires NoDoubleStar(x) && (x == [] || x[|x| - 1] != '*')
    ensures Bold("**" + x + "**" + rest) == "<strong>" + x + "</strong>" + Bold(rest)
  {
    var s := "**" + x + "**" + rest;
    var c := 2 + |x|;
    assert StarsAt(s, 0) && StarsAt(s, c);
    assert SameLine(s, 2, c) by {
      forall m | 2 <= m < c ensures !IsLineTerminator(s[m]) {
        assert s[m] == x[m - 2];
      }
    }
    forall k | 2 <= k < c ensures !StarsAt(s, k) {
      assert s[k] == x[k - 2];
      if k + 1 < c {
        assert s[k + 1] == x[k - 1];
        assert !StarsAt(x, k - 2);
      }
    }
    assert FindClose(s, 2) == Some(c);
    assert s[2..c] == x;
    assert s[c + 2..] == rest;
  }

  /** A "**" that no same-line "**" follows stays literal. */
  lemma BoldUnmatched(t: string)
    requires NoDoubleStar(t)
    ensures Bold("**" + t) == "**" + t
  {
    var s := "**" + t;
    forall k | 2 <= k ensures !StarsAt(s, k) {
      if StarsAt(s, k) {
        assert StarsAt(t, k - 2);
      }
    }
    assert FindClose(s, 2).None?;
    BoldUnclosed(s);
    assert s[2..] == t;
    BoldIdentity(t);
  }

  /** A "**" that no "**" closes on its own line stays literal, and the scan
      resumes after it, where a later line may still hold a pair. */
  lemma BoldUnclosed(s: string)
    requires StarsAt(s, 0) && FindClose(s, 2).None?
    ensures Bold(s) == "**" + Bold(s[2..])
  {
    var t := s[1..];
    assert t[1..] == s[2..];
    if |t| >= 2 && StarsAt(t, 0) {
      // a third star: the scan from it finds no same-line close either
      assert !StarsAt(s, 2) && !IsLineTerminator(s[2]);
      assert FindClose(s, 3).None?;
      FindCloseTail(s, 2);
    }
    assert Bold(t) == [t[0]] + Bold(s[2..]);
    ConcatAssoc([s[0]], [t[0]], Bold(s[2..]));
    assert [s[0]] + [t[0]] == "**";
  }

  /** Dropping the first character moves every scan start one place left:
      a close not found from `j + 1` in `s` is not found from `j` in `s[1..]`. */
  lemma {:induction false} FindCloseTail(s: string, j: nat)
    requires j + 1 <= |s| && FindClose(s, j + 1).None?
    ensures FindClose(s[1..], j).None?
    decreases |s| - j
  {
    var t := s[1..];
    if j + 2 <= |t| {
      assert t[j] == s[j + 1] && t[j + 1] == s[j + 2];
      if !IsLineTerminator(t[j]) {
        FindCloseTail(s, j + 1);
      }
    }
  }

  /** No closing "**" is found past a line terminator that comes before any '*'. */
  lemma FindCloseStopsAtLineEnd(s: string, j: nat, e: nat)
    requires j <= e < |s| && IsLineTerminator(s[e])
    requires forall m :: j <= m < e ==> s[m] != '*'
    ensures FindClose(s, j).None?
  {
  }

  /** A "**" left open on its line: it stays literal, the rest of its line
      (which holds no '*') is copied, and the scan goes on after the line feed. */
  lemma BoldOpenLine(x: string, rest: string)
    requires '*' !in x
    ensures Bold("**" + (x + "\n") + rest) == "**" + ((x + "\n") + Bold(rest))
  {
    var line := x + "\n";
    var s := "**" + line + rest;
    var e := 2 + |x|;
    forall m | 2 <= m < e ensures s[m] != '*' {
      assert s[m] == x[m - 2] && x[m - 2] in x;
    }
    assert s[e] == '\n';
    FindCloseStopsAtLineEnd(s, 2, e);
    if x != [] {
      assert s[2] == x[0] && x[0] in x;
    }
    BoldUnclosed(s);
    assert s[2..] == line + rest;
    assert '*' !in line by {
      assert forall c :: c in line ==> c in x || c == '\n';
    }
    BoldPrefix(line, rest);
  }

  /** A "**" left open on its line stays literal, and a same-line pair on
      the next line still becomes bold: `**x` then `**y**` on the next line. */
  lemma BoldPairOnNextLine(x: string, y: string)
    requires '*' !in x
    requires forall k :: 0 <= k < |y| ==> !IsLineTerminator(y[k])
    requires NoDoubleStar(y) && (y == [] || y[|y| - 1] != '*')
    ensures Bold("**" + (x + "\n") + ("**" + y + "**")) == "**" + (x + "\n") + ("<strong>" + y + "</strong>")
  {
    var line, pair := x + "\n", "**" + y + "**";
    var strong := "<strong>" + y + "</strong>";
    BoldOpenLine(x, pair);
    BoldPair(y, "");
    assert pair + "" == pair && strong + "" == strong && Bold("") == "";
    ConcatAssoc("**", line, strong);
  }

  /** The lazy match closes at the first "**": after a closed pair, text
      without '*' and a third "**" that nothing closes, the third stays literal. */
  lemma BoldThirdStaysLiteral(x: string, y: string)
    requires forall k :: 0 <= k < |x| ==> !IsLineTerminator(x[k])
    requires NoDoubleStar(x) && (x == [] || x[|x| - 1] != '*')
    requires '*' !in y
    ensures Bold("**" + x + "**" + y + "**") == "<strong>" + x + "</strong>" + y + "**"
  {
    BoldUnmatched("");
    assert "**" + "" == "**";
    BoldPrefix(y, "**");
    BoldPair(x, y + "**");
    ConcatAssoc("**" + x + "**", y, "**");
    ConcatAssoc("<strong>" + x + "</strong>", y, "**");
  }

  /** `**a**b**` becomes `<strong>a</strong>b**`. */
  lemma BoldLazyExample()
    ensures Bold("**a**b**") == "<strong>a</strong>b**"
  {
    BoldThirdStaysLiteral("a", "b");
    assert "**" + "a" + "**" + "b" + "**" == "**a**b**";
    assert "<strong>" + "a" == "<strong>a";
    assert "<strong>a" + "</strong>" == "<strong>a</strong>";
    assert "<strong>a</strong>" + "b" == "<strong>a</strong>b";
    assert "<strong>a</strong>b" + "**" == "<strong>a</strong>b**";
  }

  /** "****" is an empty `<strong>` element. */
  lemma BoldEmptyExample()
    ensures Bold("****") == "<strong></strong>"
  {
    BoldPair("", "");
    assert "**" + "" + "**" + "" == "****";
  }

  /** The bold pass output starts with the input's first character or with
      the `<` of a `<strong>` tag. */
  lemma BoldHead(v: string)
    ensures Bold(v) != [] ==> v != [] && (Bold(v)[0] == v[0] || Bold(v)[0] == '<')
  {
  }

  /** A bold output starting with "- " comes from an input starting with "- ". */
  lemma BoldKeepsDashSpace(u: string)
    requires StartsWith(Bold(u), "- ")
    ensures StartsWith(u, "- ")
  {
    BoldHead(u);
    assert u[0] == '-';
    if |u| >= 2 {
      assert !StarsAt(u, 0);
      var rest := Bold(u[1..]);
      assert Bold(u) == [u[0]] + rest;
      assert Bold(u)[1] == "- "[1] == ' ';
      assert rest != [] && rest[0] == ' ';
      BoldHead(u[1..]);
      assert u[1..][0] == u[1];
      assert u[..2] == [u[0], u[1]];
    }
  }

  /** The `<strong>` element adds no line feed to its content. */
  lemma StrongHasNoLineFeed(x: string)
    requires forall m :: 0 <= m < |x| ==> x[m] != '\n'
    ensures '\n' !in "<strong>" + x + "</strong>"
  {
    var head := "<strong>" + x + "</strong>";
    assert forall c :: c in head ==> c in "<strong>" || c in x || c in "</strong>";
  }

  /** A marker in the output of a closed pair lies after the `</strong>`. */
  lemma BoldMarkAfterPair(s: string, mark: string)
    requires |s| >= 2 && StarsAt(s, 0) && FindClose(s, 2).Some?
    requires mark != [] && mark[0] == '\n' && Contains(Bold(s), mark)
    ensures Contains(Bold(s[FindClose(s, 2).value + 2..]), mark)
  {
    var j := FindClose(s, 2).value;
    var x := s[2..j];
    forall m | 0 <= m < |x| ensures x[m] != '\n' {
      assert x[m] == s[m + 2];
    }
    StrongHasNoLineFeed(x);
    BoldAtPair(s);
    ContainsAfter("<strong>" + x + "</strong>", Bold(s[j + 2..]), mark);
  }

  /** The bold pass at a closed pair. */
  lemma BoldAtPair(s: string)
    requires |s| >= 2 && StarsAt(s, 0) && FindClose(s, 2).Some?
    ensures var j := FindClose(s, 2).value;
      Bold(s) == "<strong>" + s[2..j] + "</strong>" + Bold(s[j + 2..])
  {
  }

  /** A marker at the front of a copied character's output: the character is
      a line feed and the input goes on with "- ". */
  lemma MarkAtCopy(s: string)
    requires s != [] && StartsWith([s[0]] + Bold(s[1..]), "\n- ")
    ensures StartsWith(s, "\n- ")
  {
    assert "\n- " == ['\n'] + "- ";
    StartsWithCons([s[0]] + Bold(s[1..]), '\n', "- ");
    TailOfConcat([s[0]], Bold(s[1..]));
    BoldKeepsDashSpace(s[1..]);
    StartsWithCons(s, '\n', "- ");
  }

  /** A marker in the output of a copied character starts at that character,
      which is then a line feed before "- ", or lies further on. */
  lemma BoldMarkAfterCopy(s: string)
    requires |s| >= 2 && !(StarsAt(s, 0) && FindClose(s, 2).Some?)
    requires Contains(Bold(s), "\n- ")
    ensures StartsWith(s, "\n- ") || Contains(Bold(s[1..]), "\n- ")
  {
    var rest := Bold(s[1..]);
    assert Bold(s) == [s[0]] + rest;
    ContainsCons([s[0]] + rest, "\n- ");
    TailOfConcat([s[0]], rest);
    if StartsWith([s[0]] + rest, "\n- ") {
      MarkAtCopy(s);
    }
  }

  /** The bold pass never creates the list marker "\n- ": bold content stays
      on one line, and the tags and delimiters hold no line feed. */
  lemma {:induction false} BoldMakesNoListMark(s: string)
    requires Contains(Bold(s), "\n- ")
    ensures Contains(s, "\n- ")
    decreases |s|
  {
    var mark := "\n- ";
    if |s| >= 2 {
      if StarsAt(s, 0) && FindClose(s, 2).Some? {
        var j := FindClose(s, 2).value;
        BoldMarkAfterPair(s, mark);
        BoldMakesNoListMark(s[j + 2..]);
        assert s[j + 2..|s|] == s[j + 2..];
        ContainsSlice(s, j + 2, |s|, mark);
      } else {
        BoldMarkAfterCopy(s);
        ContainsCons(s, mark);
        if !StartsWith(s, mark) {
          BoldMakesNoListMark(s[1..]);
        }
      }
    }
  }

  // ---------------------------------------------------------------------------
  // Pass 2 (only when the text holds "\n- "): list items and their `<ul>`
  // ---------------------------------------------------------------------------

  /** The list pass's per-line map: a line whose JavaScript-trimmed form starts
      with "- " becomes `<li>` + the trimmed text after the marker + `</li>`;
      any other line is kept as it is. */
  function ListItem(line: string): string {
    var t := Trim(line, IsJsSpace);
    if StartsWith(t, "- ") then "<li>" + t[2..] + "</li>" else line
  }

  function MarkItems(lines: seq<string>): seq<string> {
    seq(|lines|, i requires 0 <= i < |lines| => ListItem(lines[i]))
  }

  /** A line that `(<li>.*<\/li>\n?)+` consumes whole: it opens with `<li>`,
      closes with `</li>` and holds no line terminator, which `.` would not
      cross. */
  predicate IsItemLine(line: string) {
    && |line| >= 9 && line[..4] == "<li>" && line[|line| - 5..] == "</li>"
    && forall k :: 0 <= k < |line| ==> !IsLineTerminator(line[k])
  }

  /** The per-line map makes an item line exactly from a line whose trimmed
      form starts with "- " (and whose item text stays on one line), and
      otherwise keeps the line, item or not. */
  lemma ListItemIsItem(line: string)
    ensures var t := Trim(line, IsJsSpace);
      IsItemLine(ListItem(line)) <==>
        if StartsWith(t, "- ") then forall k :: 2 <= k < |t| ==> !IsLineTerminator(t[k])
        else IsItemLine(line)
  {
    var t := Trim(line, IsJsSpace);
    if StartsWith(t, "- ") {
      var body := t[2..];
      WrappedIsItem(body);
      assert forall k :: 2 <= k < |t| ==> t[k] == body[k - 2];
    }
  }

  /** Text wrapped in `<li>` and `</li>` is an item line exactly when the text
      stays on one line. */
  lemma WrappedIsItem(body: string)
    ensures IsItemLine("<li>" + body + "</li>") <==> forall k :: 0 <= k < |body| ==> !IsLineTerminator(body[k])
  {
    var li := "<li>" + body + "</li>";
    assert li[..4] == "<li>" && li[|li| - 5..] == "</li>";
    assert forall k :: 0 <= k < |body| ==> li[k + 4] == body[k];
    if forall k :: 0 <= k < |body| ==> !IsLineTerminator(body[k]) {
      forall k | 0 <= k < |li| ensures !IsLineTerminator(li[k]) {
        if k < 4 {
          assert li[k] == "<li>"[k];
        } else if k >= |body| + 4 {
          assert li[k] == "</li>"[k - |body| - 4];
        }
      }
    }
  }

  /** The per-line map never introduces a line feed. */
  lemma ListItemOneLine(line: string)
    requires '\n' !in line
    ensures '\n' !in ListItem(line)
  {
    var t := Trim(line, IsJsSpace);
    if '\n' in t {
      TrimKeeps(line, IsJsSpace, '\n');
    }
    if StartsWith(t, "- ") {
      var body := t[2..];
      assert forall c :: c in body ==> c in t;
      assert '\n' !in "<li>" && '\n' !in "</li>";
      assert ListItem(line) == "<li>" + body + "</li>";
    }
  }

  /** In list mode the line count is kept: the marked lines, joined with line
      feeds as the source does, split back into exactly those lines, one per
      input line. */
  lemma MarkItemsKeepsLines(text: string)
    ensures |MarkItems(SplitLines(text))| == |SplitLines(text)|
    ensures SplitLines(JoinLines(MarkItems(SplitLines(text)))) == MarkItems(SplitLines(text))
  {
    var lines := SplitLines(text);
    var marked := MarkItems(lines);
    forall i | 0 <= i < |marked| ensures '\n' !in marked[i] {
      ListItemOneLine(lines[i]);
    }
    SplitJoin(marked);
  }

  /** Length of the run of item lines at the front of `lines`: the longest one. */
  function RunLength(lines: seq<string>): (k: nat)
    ensures k <= |lines|
    ensures forall i :: 0 <= i < k ==> IsItemLine(lines[i])
    ensures k < |lines| ==> !IsItemLine(lines[k])
    decreases |lines|
  {
    if lines != [] && IsItemLine(lines[0]) then 1 + RunLength(lines[1..]) else 0
  }

  /** `joined.replace(/(<li>.*<\/li>\n?)+/g, m => `<ul>${m}</ul>`)` where
      `joined` is `lines` joined with line feeds: each maximal run of item
      lines, with the line feed after each of them, becomes one `<ul>`
      element; any other line and its line feed is copied. */
  function WrapRuns(lines: seq<string>): string
    decreases |lines|
  {
    if lines == [] then ""
    else
      var k := RunLength(lines);
      if k == 0 then lines[0] + (if |lines| > 1 then "\n" else "") + WrapRuns(lines[1..])
      else "<ul>" + JoinLines(lines[..k]) + (if k < |lines| then "\n" else "") + "</ul>" + WrapRuns(lines[k..])
  }

  /** What line `i` contributes to the wrapped text, read off its neighbours:
      `<ul>` before an item line that starts a run, the line, its line feed
      unless it is the last line, and `</ul>` after an item line that ends a
      run. */
  function Piece(lines: seq<string>, i: nat): string
    requires i < |lines|
  {
    var item := IsItemLine(lines[i]);
    var opens := item && (i == 0 || !IsItemLine(lines[i - 1]));
    var closes := item && (i == |lines| - 1 || !IsItemLine(lines[i + 1]));
    (if opens then "<ul>" else "") + lines[i] + (if i < |lines| - 1 then "\n" else "")
      + (if closes then "</ul>" else "")
  }

  /** The pieces of lines `from` onwards, in order. */
  function Pieces(lines: seq<string>, from: nat): string
    requires from <= |lines|
    decreases |lines| - from
  {
    if from == |lines| then "" else Piece(lines, from) + Pieces(lines, from + 1)
  }

  lemma PiecesUnfold(lines: seq<string>, i: nat)
    requires i < |lines|
    ensures Pieces(lines, i) == Piece(lines, i) + Pieces(lines, i + 1)
  {
  }

  /** A line's piece is the same in a suffix of the lines, as long as the
      line before the cut does not carry a run across it. */
  lemma PieceShift(lines: seq<string>, k: nat, i: nat)
    requires k <= i < |lines|
    requires k == 0 || !IsItemLine(lines[k - 1]) || !IsItemLine(lines[k])
    ensures Piece(lines, i) == Piece(lines[k..], i - k)
  {
    var suffix := lines[k..];
    assert suffix[i - k] == lines[i];
    if i > k {
      assert suffix[i - k - 1] == lines[i - 1];
    }
    if i + 1 < |lines| {
      assert suffix[i - k + 1] == lines[i + 1];
    }
  }

  /** Pieces of a suffix are those of the whole, as long as the line before the
      cut does not carry a run across it. */
  lemma {:induction false} PiecesShift(lines: seq<string>, k: nat, i: nat)
    requires k <= i <= |lines|
    requires k == 0 || k == |lines| || !IsItemLine(lines[k - 1]) || !IsItemLine(lines[k])
    ensures Pieces(lines, i) == Pieces(lines[k..], i - k)
    decreases |lines| - i
  {
    if i < |lines| {
      PiecesShift(lines, k, i + 1);
      PiecesShiftStep(lines, k, i);
    }
  }

  /** One step of `PiecesShift`, given the pieces after line `i`. */
  lemma PiecesShiftStep(lines: seq<string>, k: nat, i: nat)
    requires k <= i < |lines|
    requires k == 0 || !IsItemLine(lines[k - 1]) || !IsItemLine(lines[k])
    requires Pieces(lines, i + 1) == Pieces(lines[k..], i + 1 - k)
    ensures Pieces(lines, i) == Pieces(lines[k..], i - k)
  {
    PieceShift(lines, k, i);
    PiecesUnfold(lines, i);
    PiecesUnfold(lines[k..], i - k);
  }

  /** Inside a run, before its last line, a line contributes itself and its
      line feed, preceded by `<ul>` at the head of `lines`. */
  lemma PieceInsideRun(lines: seq<string>, j: nat)
    requires j + 1 < |lines|
    requires IsItemLine(lines[j]) && IsItemLine(lines[j + 1])
    requires j > 0 ==> IsItemLine(lines[j - 1])
    ensures Piece(lines, j) == (if j == 0 then "<ul>" else "") + lines[j] + "\n"
  {
  }

  /** The last line of a run contributes itself, its line feed if one follows,
      and `</ul>`. */
  lemma PieceEndsRun(lines: seq<string>, j: nat)
    requires j < |lines|
    requires IsItemLine(lines[j])
    requires j + 1 < |lines| ==> !IsItemLine(lines[j + 1])
    requires j > 0 ==> IsItemLine(lines[j - 1])
    ensures Piece(lines, j) ==
      (if j == 0 then "<ul>" else "") + lines[j] + (if j + 1 < |lines| then "\n" else "") + "</ul>"
  {
  }

  /** Pieces from inside a run of item lines `[0, k)` up to its end. */
  lemma {:induction false} RunPieces(lines: seq<string>, j: nat, k: nat)
    requires j < k <= |lines|
    requires forall i :: 0 <= i < k ==> IsItemLine(lines[i])
    requires k < |lines| ==> !IsItemLine(lines[k])
    ensures Pieces(lines, j) == RunText(lines, j, k) + Pieces(lines, k)
    decreases k - j
  {
    if j + 1 < k {
      RunPieces(lines, j + 1, k);
      RunPiecesStep(lines, j, k);
    } else {
      RunPiecesLast(lines, j);
    }
  }

  /** One more line of the run in front of the pieces already accounted for. */
  lemma RunPiecesStep(lines: seq<string>, j: nat, k: nat)
    requires j + 1 < k <= |lines|
    requires IsItemLine(lines[j]) && IsItemLine(lines[j + 1]) && (j > 0 ==> IsItemLine(lines[j - 1]))
    requires Pieces(lines, j + 1) == RunText(lines, j + 1, k) + Pieces(lines, k)
    ensures Pieces(lines, j) == RunText(lines, j, k) + Pieces(lines, k)
  {
    PieceInsideRun(lines, j);
    RunTextStep(lines, j, k);
    var opening := if j == 0 then "<ul>" else "";
    var a, b, c := opening + lines[j] + "\n", RunText(lines, j + 1, k), Pieces(lines, k);
    assert Pieces(lines, j) == a + (b + c);
    assert RunText(lines, j, k) == a + b;
    ConcatAssoc(a, b, c);
  }

  /** The last line of the run. */
  lemma RunPiecesLast(lines: seq<string>, j: nat)
    requires j < |lines| && IsItemLine(lines[j])
    requires j + 1 < |lines| ==> !IsItemLine(lines[j + 1])
    requires j > 0 ==> IsItemLine(lines[j - 1])
    ensures Pieces(lines, j) == RunText(lines, j, j + 1) + Pieces(lines, j + 1)
  {
    PieceEndsRun(lines, j);
    assert lines[j..j + 1] == [lines[j]];
    assert JoinLines(lines[j..j + 1]) == lines[j];
    assert Pieces(lines, j) == Piece(lines, j) + Pieces(lines, j + 1);
  }

  /** What the lines `[j, k)` of a run contribute: `<ul>` if the run starts at
      the head, the lines joined with line feeds, the line feed after the last
      one if a line follows, and `</ul>`. */
  function RunText(lines: seq<string>, j: nat, k: nat): string
    requires j < k <= |lines|
  {
    (if j == 0 then "<ul>" else "") + JoinLines(lines[j..k]) + (if k < |lines| then "\n" else "") + "</ul>"
  }

  lemma RunTextStep(lines: seq<string>, j: nat, k: nat)
    requires j + 1 < k <= |lines|
    ensures RunText(lines, j, k) == (if j == 0 then "<ul>" else "") + lines[j] + "\n" + RunText(lines, j + 1, k)
  {
    JoinRunStep(lines, j, k);
  }

  lemma JoinRunStep(lines: seq<string>, j: nat, k: nat)
    requires j + 1 < k <= |lines|
    ensures JoinLines(lines[j..k]) == lines[j] + "\n" + JoinLines(lines[j + 1..k])
  {
    assert lines[j..k][1..] == lines[j + 1..k];
  }

  /** The run-by-run wrapping equals the line-by-line reading: every maximal
      run of item lines gets exactly one `<ul>` before its first line and one
      `</ul>` after its last line's line feed, and nothing else is added. */
  lemma {:induction false} WrapRunsByLine(lines: seq<string>)
    ensures WrapRuns(lines) == Pieces(lines, 0)
    decreases |lines|
  {
    if lines != [] {
      var k := RunLength(lines);
      if k == 0 {
        WrapRunsByLine(lines[1..]);
        PiecesShift(lines, 1, 1);
      } else {
        WrapRunsByLine(lines[k..]);
        PiecesShift(lines, k, k);
        RunPieces(lines, 0, k);
        assert lines[0..k] == lines[..k];
        assert RunText(lines, 0, k) == "<ul>" + JoinLines(lines[..k]) + (if k < |lines| then "\n" else "") + "</ul>";
      }
    }
  }

  // ---------------------------------------------------------------------------
  // Pass 3: every remaining line feed becomes `<br>`
  // ---------------------------------------------------------------------------

  /** `s.replace(/\n/g, '<br>')`. */
  function Br(s: string): (r: string)
    ensures '\n' !in r
    ensures '\n' !in s ==> r == s
    decreases |s|
  {
    if s == [] then ""
    else (if s[0] == '\n' then "<br>" else [s[0]]) + Br(s[1..])
  }

  /** The `<br>` pass works character by character. */
  lemma {:induction false} BrAppend(a: string, b: string)
    ensures Br(a + b) == Br(a) + Br(b)
  {
    if a != [] {
      var head := if a[0] == '\n' then "<br>" else [a[0]];
      assert (a + b)[0] == a[0] && (a + b)[1..] == a[1..] + b;
      assert Br(a + b) == head + Br(a[1..] + b);
      BrAppend(a[1..], b);
      ConcatAssoc(head, Br(a[1..]), Br(b));
    } else {
      assert a + b == b;
    }
  }

  // ---------------------------------------------------------------------------
  // The chain
  // ---------------------------------------------------------------------------

  /** `formatMessage(text)`: bold, then the list pass if the text holds "\n- ",
      then `<br>`. No line feed survives. */
  function FormatMessage(text: string): (html: string)
    ensures '\n' !in html
  {
    var bold := Bold(text);
    var listed := if Contains(bold, "\n- ") then WrapRuns(MarkItems(SplitLines(bold))) else bold;
    Br(listed)
  }

  /** The empty reply formats to the empty string. */
  lemma FormatEmpty()
    ensures FormatMessage("") == ""
  {
    assert !Contains("", "\n- ");
  }

  /** Text with no "**" and no line feed is returned unchanged. */
  lemma FormatPlainText(text: string)
    requires NoDoubleStar(text) && '\n' !in text
    ensures FormatMessage(text) == text
  {
    BoldIdentity(text);
    forall i | 0 <= i <= |text| ensures !StartsWith(text[i..], "\n- ") {
      if i + 3 <= |text| {
        assert text[i..][..3][0] == text[i];
        assert text[i] in text;
      }
    }
  }

  /** Text without the list marker "\n- " only goes through the bold and
      `<br>` passes. */
  lemma FormatWithoutList(text: string)
    requires !Contains(text, "\n- ")
    ensures FormatMessage(text) == Br(Bold(text))
  {
    if Contains(Bold(text), "\n- ") {
      BoldMakesNoListMark(text);
    }
  }

  /** In list mode the output is the bold text's lines, marked, wrapped line by
      line as `Piece` says, with each line feed written as `<br>`. */
  lemma FormatListMode(text: string)
    requires Contains(Bold(text), "\n- ")
    ensures FormatMessage(text) == Br(Pieces(MarkItems(SplitLines(Bold(text))), 0))
  {
    WrapRunsByLine(MarkItems(SplitLines(Bold(text))));
  }

  /** Unfolding `WrapRuns` at a run of item lines. */
  lemma WrapRunsAtRun(lines: seq<string>)
    requires lines != [] && RunLength(lines) > 0
    ensures WrapRuns(lines) == "<ul>" + JoinLines(lines[..RunLength(lines)])
      + (if RunLength(lines) < |lines| then "\n" else "") + "</ul>" + WrapRuns(lines[RunLength(lines)..])
  {
  }

  lemma WrapWholeRun(lines: seq<string>)
    requires lines != []
    requires RunLength(lines) == |lines|
    ensures WrapRuns(lines) == "<ul>" + JoinLines(lines) + "</ul>"
  {
    var k := RunLength(lines);
    WrapRunsAtRun(lines);
    assert lines[k..] == [] && lines[..k] == lines;
    var head := "<ul>" + JoinLines(lines);
    assert head + "" == head;
    var closed := head + "</ul>";
    assert closed + "" == closed;
  }

  /** Lines that are all items form a single run: one `<ul>` around all of
      them, joined by their line feeds. */
  lemma WrapSingleRun(lines: seq<string>)
    requires lines != []
    requires forall i :: 0 <= i < |lines| ==> IsItemLine(lines[i])
    ensures WrapRuns(lines) == "<ul>" + JoinLines(lines) + "</ul>"
  {
    WrapWholeRun(lines);
  }
}
