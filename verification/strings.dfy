/** Text helpers shared by the chat widget and the bot: prefixes and substrings,
    trimming with a caller-supplied class of blank characters, splitting and
    joining on line feeds, and the tail window of a sequence. */
module Strings {

  predicate StartsWith(s: string, prefix: string) {
    |prefix| <= |s| && s[..|prefix|] == prefix
  }

  /** A prefix made of a first character and a rest. */
  lemma StartsWithCons(s: string, c: char, p: string)
    ensures StartsWith(s, [c] + p) <==> s != [] && s[0] == c && StartsWith(s[1..], p)
  {
    if s != [] && |p| + 1 <= |s| {
      assert s[..|p| + 1] == [s[0]] + s[1..][..|p|];
    }
  }

  /** Regrouping a concatenation; a separate step keeps larger proofs cheap. */
  lemma ConcatAssoc<T>(a: seq<T>, b: seq<T>, c: seq<T>)
    ensures a + (b + c) == (a + b) + c
  {
  }

  /** The tail of a concatenation with a non-empty front. */
  lemma TailOfConcat<T>(a: seq<T>, b: seq<T>)
    requires a != []
    ensures (a + b)[0] == a[0] && (a + b)[1..] == a[1..] + b
  {
  }

  /** `pat` occurs somewhere in `s` (JavaScript `includes`, Python `in`). */
  predicate Contains(s: string, pat: string) {
    exists i :: 0 <= i <= |s| && StartsWith(s[i..], pat)
  }

  /** An occurrence is either at the front or in the tail. */
  lemma ContainsCons(s: string, pat: string)
    requires s != []
    ensures Contains(s, pat) <==> StartsWith(s, pat) || Contains(s[1..], pat)
  {
    if StartsWith(s, pat) {
      assert s[0..] == s;
    }
    if Contains(s, pat) && !StartsWith(s, pat) {
      var i :| 0 <= i <= |s| && StartsWith(s[i..], pat);
      assert i != 0;
      assert s[1..][i - 1..] == s[i..];
    }
    if Contains(s[1..], pat) {
      var i :| 0 <= i <= |s[1..]| && StartsWith(s[1..][i..], pat);
      assert s[1..][i..] == s[i + 1..];
      assert StartsWith(s[i + 1..], pat);
    }
  }

  /** An occurrence inside a slice is an occurrence in the whole string. */
  lemma {:induction false} ContainsSlice(s: string, lo: nat, hi: nat, pat: string)
    requires lo <= hi <= |s|
    requires Contains(s[lo..hi], pat)
    ensures Contains(s, pat)
  {
    var i :| 0 <= i <= |s[lo..hi]| && StartsWith(s[lo..hi][i..], pat);
    assert s[lo..hi][i..] == s[lo + i..hi];
    assert s[lo + i..][..|pat|] == s[lo + i..hi][..|pat|];
    assert StartsWith(s[lo + i..], pat);
  }

  /** `s` without the leading characters that `blank` accepts. */
  function TrimStart(s: string, blank: char -> bool): (r: string)
    ensures |r| <= |s| && r == s[|s| - |r|..]
    ensures forall k :: 0 <= k < |s| - |r| ==> blank(s[k])
    ensures r != [] ==> !blank(r[0])
    decreases |s|
  {
    if s != [] && blank(s[0]) then TrimStart(s[1..], blank) else s
  }

  /** `s` without the trailing characters that `blank` accepts. */
  function TrimEnd(s: string, blank: char -> bool): (r: string)
    ensures |r| <= |s| && r == s[..|r|]
    ensures forall k :: |r| <= k < |s| ==> blank(s[k])
    ensures r != [] ==> !blank(r[|r| - 1])
    decreases |s|
  {
    if s != [] && blank(s[|s| - 1]) then TrimEnd(s[..|s| - 1], blank) else s
  }

  /** `s` without blank characters at either end (JavaScript `trim`,
      Python `strip`, depending on `blank`). */
  function Trim(s: string, blank: char -> bool): (r: string)
    ensures |r| <= |s|
    ensures r != [] ==> !blank(r[0]) && !blank(r[|r| - 1])
  {
    TrimEnd(TrimStart(s, blank), blank)
  }

  /** The trimmed text is a slice of the text, starting at `lo`. */
  lemma TrimIsSlice(s: string, blank: char -> bool) returns (lo: nat)
    ensures lo + |Trim(s, blank)| <= |s| && Trim(s, blank) == s[lo..lo + |Trim(s, blank)|]
  {
    var t := TrimStart(s, blank);
    var r := TrimEnd(t, blank);
    assert Trim(s, blank) == r;
    lo := |s| - |t|;
    PrefixOfSuffix(s, t, r);
  }

  /** A prefix of a suffix is a slice. */
  lemma PrefixOfSuffix<T>(s: seq<T>, t: seq<T>, r: seq<T>)
    requires |t| <= |s| && t == s[|s| - |t|..]
    requires |r| <= |t| && r == t[..|r|]
    ensures r == s[|s| - |t|..|s| - |t| + |r|]
  {
  }

  /** Text with no blank character at either end is its own trim. */
  lemma TrimUnchanged(s: string, blank: char -> bool)
    requires s != [] && !blank(s[0]) && !blank(s[|s| - 1])
    ensures Trim(s, blank) == s
  {
  }

  /** A character of the trimmed text is a character of the text. */
  lemma TrimKeeps(s: string, blank: char -> bool, c: char)
    requires c in Trim(s, blank)
    ensures c in s
  {
    var r := Trim(s, blank);
    var lo := TrimIsSlice(s, blank);
    var i :| 0 <= i < |r| && r[i] == c;
    assert s[lo + i] == c;
  }

  /** Blank characters in front of a text that starts with a non-blank one
      are all that `TrimStart` removes. */
  lemma {:induction false} TrimStartSkips(pad: string, x: string, blank: char -> bool)
    requires forall k :: 0 <= k < |pad| ==> blank(pad[k])
    requires x != [] && !blank(x[0])
    ensures TrimStart(pad + x, blank) == x
    decreases |pad|
  {
    if pad == [] {
      assert pad + x == x;
    } else {
      assert (pad + x)[0] == pad[0] && (pad + x)[1..] == pad[1..] + x;
      TrimStartSkips(pad[1..], x, blank);
    }
  }

  /** `TrimEnd` stops at the last non-blank character, so it keeps every
      character up to one that is not blank. */
  lemma TrimEndKeeps(x: string, n: nat, blank: char -> bool)
    requires 0 < n <= |x| && !blank(x[n - 1])
    ensures n <= |TrimEnd(x, blank)|
  {
  }

  /** `TrimEnd` keeps a prefix that ends with a non-blank character. */
  lemma TrimEndKeepsPrefix(x: string, p: string, blank: char -> bool)
    requires StartsWith(x, p) && p != [] && !blank(p[|p| - 1])
    ensures StartsWith(TrimEnd(x, blank), p)
  {
    assert x[|p| - 1] == p[|p| - 1];
    TrimEndKeeps(x, |p|, blank);
    var r := TrimEnd(x, blank);
    forall k | 0 <= k < |p| ensures r[k] == p[k] {
      assert r[k] == x[k] && x[k] == x[..|p|][k];
    }
    assert r[..|p|] == p;
  }

  /** A piece that starts and ends with non-blank characters, behind blank
      characters only, still opens the trimmed text. */
  lemma TrimKeepsLead(pad: string, p: string, rest: string, blank: char -> bool)
    requires forall k :: 0 <= k < |pad| ==> blank(pad[k])
    requires p != [] && !blank(p[0]) && !blank(p[|p| - 1])
    ensures StartsWith(Trim(pad + p + rest, blank), p)
  {
    var x := p + rest;
    assert x[0] == p[0] && x[..|p|] == p;
    ConcatAssoc(pad, p, rest);
    TrimStartSkips(pad, x, blank);
    TrimEndKeepsPrefix(x, p, blank);
    assert Trim(pad + x, blank) == TrimEnd(TrimStart(pad + x, blank), blank);
  }

  /** Trimming twice is trimming once. */
  lemma TrimTwice(s: string, blank: char -> bool)
    ensures Trim(Trim(s, blank), blank) == Trim(s, blank)
  {
    if Trim(s, blank) != [] {
      TrimUnchanged(Trim(s, blank), blank);
    }
  }

  /** An occurrence inside an occurrence is an occurrence. */
  lemma ContainsWithin(a: string, b: string, c: string)
    requires Contains(a, b) && Contains(b, c)
    ensures Contains(a, c)
  {
    var i :| 0 <= i <= |a| && StartsWith(a[i..], b);
    assert b == a[i..i + |b|];
    ContainsSlice(a, i, i + |b|, c);
  }

  /** Trimming cannot make a pattern appear. */
  lemma TrimKeepsAbsent(s: string, blank: char -> bool, pat: string)
    requires !Contains(s, pat)
    ensures !Contains(Trim(s, blank), pat)
  {
    var lo := TrimIsSlice(s, blank);
    var hi := lo + |Trim(s, blank)|;
    if Contains(s[lo..hi], pat) {
      ContainsSlice(s, lo, hi, pat);
    }
  }

  /** An occurrence cannot start inside a prefix that lacks the pattern's
      first character. */
  lemma {:induction false} ContainsAfter(a: string, b: string, pat: string)
    requires pat != [] && pat[0] !in a
    requires Contains(a + b, pat)
    ensures Contains(b, pat)
    decreases |a|
  {
    if a != [] {
      assert a[0] in a;
      TailOfConcat(a, b);
      ContainsCons(a + b, pat);
      assert forall c :: c in a[1..] ==> c in a;
      ContainsAfter(a[1..], b, pat);
    } else {
      assert a + b == b;
    }
  }

  /** A text contains each of its prefixes. */
  lemma ContainsPrefix(s: string, p: string)
    requires StartsWith(s, p)
    ensures Contains(s, p)
  {
    assert s[0..] == s;
  }

  /** Each line is somewhere in the join. */
  lemma {:induction false} JoinContains(lines: seq<string>, i: nat)
    requires i < |lines|
    ensures Contains(JoinLines(lines), lines[i])
    decreases i
  {
    var whole := JoinLines(lines);
    if |lines| == 1 {
      ContainsPrefix(whole, lines[0]);
    } else if i == 0 {
      assert whole == lines[0] + ("\n" + JoinLines(lines[1..]));
      assert whole[..|lines[0]|] == lines[0];
      ContainsPrefix(whole, lines[0]);
    } else {
      var rest := JoinLines(lines[1..]);
      JoinContains(lines[1..], i - 1);
      assert whole == lines[0] + "\n" + rest;
      assert whole[|lines[0]| + 1..|whole|] == rest;
      ContainsSlice(whole, |lines[0]| + 1, |whole|, lines[i]);
    }
  }

  /** JavaScript `s.split('\n')`: the pieces between line feeds, never empty. */
  function SplitLines(s: string): (lines: seq<string>)
    ensures |lines| >= 1
    ensures forall i :: 0 <= i < |lines| ==> '\n' !in lines[i]
    decreases |s|
  {
    if s == [] then [""]
    else
      var rest := SplitLines(s[1..]);
      if s[0] == '\n' then [""] + rest
      else [[s[0]] + rest[0]] + rest[1..]
  }

  /** JavaScript `lines.join('\n')`. */
  function JoinLines(lines: seq<string>): string
    decreases |lines|
  {
    if lines == [] then ""
    else if |lines| == 1 then lines[0]
    else lines[0] + "\n" + JoinLines(lines[1..])
  }

  /** Joining the pieces of a split gives the text back. */
  lemma {:induction false} JoinSplit(s: string)
    ensures JoinLines(SplitLines(s)) == s
  {
    if s != [] {
      var rest := SplitLines(s[1..]);
      JoinSplit(s[1..]);
      if s[0] == '\n' {
        assert ([""] + rest)[1..] == rest;
      } else {
        var lines := [[s[0]] + rest[0]] + rest[1..];
        assert lines[1..] == rest[1..];
        if |rest| > 1 {
          assert JoinLines(rest) == rest[0] + "\n" + JoinLines(rest[1..]);
        }
      }
    }
  }

  /** A piece without a line feed in front of a text stays one line. */
  lemma {:induction false} SplitPrefix(a: string, t: string)
    requires '\n' !in a
    ensures SplitLines(a + t) == [a + SplitLines(t)[0]] + SplitLines(t)[1..]
    decreases |a|
  {
    if a != [] {
      assert a[0] in a;
      SplitPrefix(a[1..], t);
      SplitPrefixStep(a, t);
    } else {
      var lines := SplitLines(t);
      assert a + t == t && a + lines[0] == lines[0];
      assert lines == [lines[0]] + lines[1..];
    }
  }

  /** One character more in front of the first line, given the rest. */
  lemma SplitPrefixStep(a: string, t: string)
    requires a != [] && a[0] != '\n'
    requires SplitLines(a[1..] + t) == [a[1..] + SplitLines(t)[0]] + SplitLines(t)[1..]
    ensures SplitLines(a + t) == [a + SplitLines(t)[0]] + SplitLines(t)[1..]
  {
    var first, others := SplitLines(t)[0], SplitLines(t)[1..];
    var rest := SplitLines(a[1..] + t);
    TailOfConcat(a, t);
    SplitUnfold(a + t);
    assert rest[0] == a[1..] + first && rest[1..] == others;
    ConcatAssoc([a[0]], a[1..], first);
    assert [a[0]] + a[1..] == a;
  }

  /** A character other than a line feed joins the first line of the rest. */
  lemma SplitUnfold(s: string)
    requires s != [] && s[0] != '\n'
    ensures SplitLines(s) == [[s[0]] + SplitLines(s[1..])[0]] + SplitLines(s[1..])[1..]
  {
  }

  /** Splitting a join of lines without line feeds gives the same lines back. */
  lemma {:induction false} SplitJoin(lines: seq<string>)
    requires |lines| >= 1
    requires forall i :: 0 <= i < |lines| ==> '\n' !in lines[i]
    ensures SplitLines(JoinLines(lines)) == lines
  {
    if |lines| == 1 {
      SplitPrefix(lines[0], "");
      assert lines[0] + "" == lines[0];
    } else {
      var j := JoinLines(lines[1..]);
      SplitJoin(lines[1..]);
      assert ("\n" + j)[1..] == j;
      assert SplitLines("\n" + j) == [""] + lines[1..];
      SplitPrefix(lines[0], "\n" + j);
      assert lines[0] + "\n" + j == lines[0] + ("\n" + j);
      assert lines[0] + "" == lines[0];
    }
  }

  /** The position of the first element that `p` accepts, or `|s|` when
      there is none. */
  function FirstWhere<T>(s: seq<T>, p: T -> bool): (k: nat)
    ensures k <= |s|
    decreases |s|
  {
    if s == [] then 0
    else if p(s[0]) then 0
    else 1 + FirstWhere(s[1..], p)
  }

  /** An element at or before `FirstWhere` is accepted exactly when it is the
      one there. */
  lemma {:induction false} FirstWhereAt<T>(s: seq<T>, p: T -> bool, n: nat)
    requires n < |s| && n <= FirstWhere(s, p)
    ensures p(s[n]) <==> FirstWhere(s, p) == n
    decreases n
  {
    if n > 0 {
      var tail := s[1..];
      assert FirstWhere(s, p) == 1 + FirstWhere(tail, p);
      assert tail[n - 1] == s[n];
      FirstWhereAt(tail, p, n - 1);
    }
  }

  /** No element before `FirstWhere` is accepted, and the one there, if any, is. */
  lemma FirstWhereIsFirst<T>(s: seq<T>, p: T -> bool)
    ensures FirstWhere(s, p) < |s| ==> p(s[FirstWhere(s, p)])
    ensures forall i :: 0 <= i < FirstWhere(s, p) ==> !p(s[i])
  {
    if FirstWhere(s, p) < |s| {
      FirstWhereAt(s, p, FirstWhere(s, p));
    }
    forall i | 0 <= i < FirstWhere(s, p) ensures !p(s[i]) {
      FirstWhereAt(s, p, i);
    }
  }

  /** The last `n` elements of `s`, or all of it when it is shorter
      (Python `s[-n:]` for n > 0). */
  function LastN<T>(s: seq<T>, n: nat): seq<T> {
    if |s| <= n then s else s[|s| - n..]
  }

  /** The window holds `min(|s|, n)` elements, and they are the end of `s`
      in their original order. */
  lemma LastNIsSuffix<T>(s: seq<T>, n: nat)
    ensures |LastN(s, n)| == if |s| < n then |s| else n
    ensures LastN(s, n) == s[|s| - |LastN(s, n)|..]
  {
  }
}
