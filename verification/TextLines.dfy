/**
 Strings as the line-based rewriters see them: JavaScript's white space, `indexOf`, splitting on
 `/\r?\n/` and joining back.
 */
module TextLines {
  import opened Common

  // ----- white space --------------------------------------------------------------------------

  /** What `\s` and `trim` take as white space. */
  predicate IsSpace(c: char) {
    || c == ' ' || c == '\t' || c == '\n' || c == '\r' || c == '\U{000B}' || c == '\U{000C}'
    || c == '\U{00A0}' || c == '\U{1680}' || '\U{2000}' <= c <= '\U{200A}' || c == '\U{2028}' || c == '\U{2029}'
    || c == '\U{202F}' || c == '\U{205F}' || c == '\U{3000}' || c == '\U{FEFF}'
  }

  /** What `.` does not match. */
  predicate EndsLine(c: char) {
    c == '\n' || c == '\r' || c == '\U{2028}' || c == '\U{2029}'
  }

  /** The length of the leading white space. */
  function SpaceRun(s: string): (n: nat)
    ensures n <= |s|
    ensures forall i :: 0 <= i < n ==> IsSpace(s[i])
    ensures n < |s| ==> !IsSpace(s[n])
  {
    if s == "" || !IsSpace(s[0]) then 0 else 1 + SpaceRun(s[1..])
  }

  /** The length without the trailing white space. */
  function CoreLen(s: string): (n: nat)
    ensures n <= |s|
    ensures forall i :: n <= i < |s| ==> IsSpace(s[i])
    ensures n > 0 ==> !IsSpace(s[n - 1])
  {
    if s == "" || !IsSpace(s[|s| - 1]) then |s| else CoreLen(s[..|s| - 1])
  }

  function TrimStart(s: string): string { s[SpaceRun(s)..] }

  function TrimEnd(s: string): string { s[..CoreLen(s)] }

  function Trim(s: string): string { TrimEnd(TrimStart(s)) }

  /** The run is the only prefix of white space that ends at something else. */
  lemma {:induction false} SpaceRunIs(s: string, n: nat)
    requires n <= |s| && (forall i :: 0 <= i < n ==> IsSpace(s[i])) && (n < |s| ==> !IsSpace(s[n]))
    ensures SpaceRun(s) == n
  {
    hide IsSpace;
    if n > 0 {
      assert IsSpace(s[0]);
      SpaceRunIs(s[1..], n - 1);
    }
  }

  lemma {:induction false} CoreLenIs(s: string, n: nat)
    requires n <= |s| && (forall i :: n <= i < |s| ==> IsSpace(s[i])) && (n > 0 ==> !IsSpace(s[n - 1]))
    ensures CoreLen(s) == n
  {
    hide IsSpace;
    if n < |s| {
      assert IsSpace(s[|s| - 1]);
      CoreLenIs(s[..|s| - 1], n);
    }
  }

  /** White space around does not change what is inside. */
  lemma TrimIs(before: string, core: string, after: string)
    requires core != "" && !IsSpace(core[0]) && !IsSpace(core[|core| - 1])
    requires (forall c :: c in before ==> IsSpace(c)) && (forall c :: c in after ==> IsSpace(c))
    ensures Trim(before + core + after) == core
  {
    var s := before + core + after;
    assert s[|before|] == core[0];
    SpaceRunIs(s, |before|);
    assert TrimStart(s) == core + after;
    CoreLenIs(core + after, |core|);
  }

  // ----- indexOf ------------------------------------------------------------------------------

  predicate At(s: string, pat: string, i: int) {
    0 <= i && i + |pat| <= |s| && s[i..i + |pat|] == pat
  }

  /** `s.indexOf(pat, from)`: the least occurrence at or after `from`, or -1. */
  function IndexOf(s: string, pat: string, from: nat): (r: int)
    ensures -1 <= r <= |s| && (r >= 0 ==> from <= r && r + |pat| <= |s|)
    ensures r >= 0 ==> At(s, pat, r)
    ensures forall i :: from <= i && (r < 0 || i < r) ==> !At(s, pat, i)
    decreases |s| - from
  {
    if from > |s| then -1
    else if At(s, pat, from) then from
    else IndexOf(s, pat, from + 1)
  }

  /** `pat` does not occur. */
  ghost predicate Free(s: string, pat: string) {
    forall i :: !At(s, pat, i)
  }

  lemma IndexIs(s: string, pat: string, from: nat, k: nat)
    requires from <= k && At(s, pat, k) && forall i :: from <= i < k ==> !At(s, pat, i)
    ensures IndexOf(s, pat, from) == k
  {
    var r := IndexOf(s, pat, from);
    assert r >= 0 && r < k ==> !At(s, pat, r);
  }

  /** An occurrence in the second part of a concatenation, seen from either side. */
  lemma AtRight(a: string, b: string, pat: string, i: int)
    requires i >= 0
    ensures At(a + b, pat, |a| + i) <==> At(b, pat, i)
  {
    if |a| + i + |pat| <= |a + b| {
      assert (a + b)[|a| + i..|a| + i + |pat|] == b[i..i + |pat|];
    }
  }

  lemma AtLeft(a: string, b: string, pat: string, i: int)
    requires i + |pat| <= |a|
    ensures At(a + b, pat, i) <==> At(a, pat, i)
  {
    if i >= 0 {
      assert (a + b)[i..i + |pat|] == a[i..i + |pat|];
    }
  }

  /** An occurrence covers the characters of the pattern. */
  lemma AtChar(s: string, pat: string, i: int, k: nat)
    requires At(s, pat, i) && k < |pat|
    ensures s[i + k] == pat[k] && s[i + k] in pat
  {
    assert s[i + k] == s[i..i + |pat|][k];
  }

  /** Nothing that avoids `pat` gains an occurrence when cut. */
  lemma FreeParts(a: string, b: string, pat: string)
    requires Free(a + b, pat)
    ensures Free(a, pat) && Free(b, pat)
  {
    forall i ensures !At(a, pat, i) && !At(b, pat, i) {
      if At(a, pat, i) {
        AtLeft(a, b, pat, i);
      }
      if At(b, pat, i) {
        AtRight(a, b, pat, i);
      }
    }
  }

  /** A character that `pat` does not have keeps occurrences on its two sides apart. */
  lemma FreeAcross(a: string, c: char, b: string, pat: string)
    requires pat != "" && c !in pat && Free(a, pat) && Free(b, pat)
    ensures Free(a + [c] + b, pat)
  {
    forall i ensures !At(a + [c] + b, pat, i) {
      if At(a + [c] + b, pat, i) {
        AcrossIs(a, c, b, pat, i);
      }
    }
  }

  /** An occurrence lies wholly on one side of a character that `pat` does not have. */
  lemma AcrossIs(a: string, c: char, b: string, pat: string, i: int)
    requires pat != "" && c !in pat && At(a + [c] + b, pat, i)
    ensures At(a, pat, i) || At(b, pat, i - |a| - 1)
  {
    var s := a + [c] + b;
    if i <= |a| < i + |pat| {
      AtChar(s, pat, i, |a| - i);
    } else if i > |a| {
      AtRight(a + [c], b, pat, i - |a| - 1);
    } else {
      assert s == a + ([c] + b);
      AtLeft(a, [c] + b, pat, i);
    }
  }

  // ----- lines --------------------------------------------------------------------------------

  /** `s.split(/\r?\n/)`. */
  function Lines(s: string): (ls: seq<string>)
    ensures ls != []
  {
    if s == "" then [""]
    else if s[0] == '\n' then [""] + Lines(s[1..])
    else if s[0] == '\r' && |s| > 1 && s[1] == '\n' then [""] + Lines(s[2..])
    else var ls := Lines(s[1..]); [[s[0]] + ls[0]] + ls[1..]
  }

  /** Each line followed by the line break. */
  function Ended(ls: seq<string>, nl: string): string {
    if ls == [] then "" else ls[0] + nl + Ended(ls[1..], nl)
  }

  predicate IsBreak(nl: string) {
    nl == "\n" || nl == "\r\n"
  }

  predicate EndsWithCr(line: string) {
    line != "" && line[|line| - 1] == '\r'
  }

  /** A line that survives being ended with `nl` and split again. */
  predicate Splits(line: string, nl: string) {
    '\n' !in line && (nl == "\n" ==> !EndsWithCr(line))
  }

  ghost predicate AllSplit(ls: seq<string>, nl: string) {
    forall l :: l in ls ==> Splits(l, nl)
  }

  lemma {:induction false} LinesOfOne(line: string)
    requires '\n' !in line
    ensures Lines(line) == [line]
  {
    if line != "" {
      assert forall c :: c in line[1..] ==> c in line;
      assert line[0] in line && (|line| > 1 ==> line[1] in line);
      LinesOfOne(line[1..]);
      assert [line[0]] + line[1..] == line;
    }
  }

  /** Splitting gives a line back, and then the lines of the rest. */
  lemma {:induction false} LinesOfEnded(line: string, nl: string, rest: string)
    requires IsBreak(nl) && Splits(line, nl)
    ensures Lines(line + nl + rest) == [line] + Lines(rest)
  {
    var s := line + nl + rest;
    if line == "" {
      assert s == nl + rest;
      assert s[|nl|..] == rest;
    } else {
      assert s[0] == line[0] && line[0] in line;
      assert forall c :: c in line[1..] ==> c in line;
      assert s[1..] == line[1..] + nl + rest;
      assert |line| > 1 ==> s[1] == line[1] && line[1] in line;
      assert |line| == 1 ==> s[1] == nl[0];
      LinesOfEnded(line[1..], nl, rest);
      assert [line[0]] + line[1..] == line;
    }
  }

  lemma Regroup<T>(a: seq<T>, b: seq<T>, c: seq<T>)
    ensures a + b + c == a + (b + c)
  {
  }

  lemma {:induction false} LinesOfAllEnded(ls: seq<string>, nl: string, rest: string)
    requires IsBreak(nl) && AllSplit(ls, nl)
    ensures Lines(Ended(ls, nl) + rest) == ls + Lines(rest)
  {
    hide Lines, Splits;
    if ls == [] {
      assert Ended(ls, nl) + rest == rest;
    } else {
      assert ls[0] in ls;
      assert forall l :: l in ls[1..] ==> l in ls;
      LinesOfAllEnded(ls[1..], nl, rest);
      Regroup(ls[0] + nl, Ended(ls[1..], nl), rest);
      LinesOfEnded(ls[0], nl, Ended(ls[1..], nl) + rest);
      assert ls == [ls[0]] + ls[1..];
      Regroup([ls[0]], ls[1..], Lines(rest));
    }
  }

  /** Joining is ending every line but the last. */
  lemma {:induction false} JoinEnded(ls: seq<string>, more: seq<string>, nl: string)
    requires more != []
    ensures Join(ls + more, nl) == Ended(ls, nl) + Join(more, nl)
  {
    if ls == [] {
      assert ls + more == more;
    } else {
      assert (ls + more)[1..] == ls[1..] + more;
      JoinEnded(ls[1..], more, nl);
      assert ls[0] + nl + (Ended(ls[1..], nl) + Join(more, nl)) == Ended(ls, nl) + Join(more, nl);
    }
  }

  /** Splitting undoes joining. */
  lemma LinesOfJoin(ls: seq<string>, last: string, nl: string)
    requires IsBreak(nl) && AllSplit(ls, nl) && '\n' !in last
    ensures Lines(Join(ls + [last], nl)) == ls + [last]
  {
    JoinEnded(ls, [last], nl);
    LinesOfAllEnded(ls, nl, last);
    LinesOfOne(last);
  }

  /** Lines hold no line break. */
  lemma {:induction false} LinesHaveNoBreak(s: string)
    ensures forall l :: l in Lines(s) ==> '\n' !in l
  {
    if s == "" {
    } else if s[0] == '\n' {
      LinesHaveNoBreak(s[1..]);
    } else if s[0] == '\r' && |s| > 1 && s[1] == '\n' {
      LinesHaveNoBreak(s[2..]);
    } else {
      LinesHaveNoBreak(s[1..]);
    }
  }

  /** The characters of a line come from the text. */
  lemma {:induction false} LinesChars(s: string)
    ensures forall l, c :: l in Lines(s) && c in l ==> c in s
  {
    if s == "" {
    } else if s[0] == '\n' {
      LinesChars(s[1..]);
    } else if s[0] == '\r' && |s| > 1 && s[1] == '\n' {
      LinesChars(s[2..]);
    } else {
      LinesChars(s[1..]);
    }
  }

  lemma {:induction false} FirstLineIsPrefix(s: string)
    ensures |Lines(s)[0]| <= |s| && s[..|Lines(s)[0]|] == Lines(s)[0]
  {
    if s != "" && s[0] != '\n' && !(s[0] == '\r' && |s| > 1 && s[1] == '\n') {
      FirstLineIsPrefix(s[1..]);
      var l := Lines(s[1..])[0];
      assert s[..1 + |l|] == [s[0]] + s[1..][..|l|];
    }
  }

  lemma FreeTail(s: string, pat: string, n: nat)
    requires Free(s, pat) && n <= |s|
    ensures Free(s[n..], pat) && Free(s[..n], pat)
  {
    assert s == s[..n] + s[n..];
    FreeParts(s[..n], s[n..], pat);
  }

  /** Where the text avoids a pattern, so does every line. */
  lemma {:induction false} LinesFree(s: string, pat: string)
    requires Free(s, pat)
    ensures forall l :: l in Lines(s) ==> Free(l, pat)
  {
    hide Free;
    if s == "" {
    } else if s[0] == '\n' {
      FreeTail(s, pat, 1);
      FreeTail(s, pat, 0);
      LinesFree(s[1..], pat);
      assert s[..0] == "";
    } else if s[0] == '\r' && |s| > 1 && s[1] == '\n' {
      FreeTail(s, pat, 2);
      FreeTail(s, pat, 0);
      LinesFree(s[2..], pat);
      assert s[..0] == "";
    } else {
      FreeTail(s, pat, 1);
      LinesFree(s[1..], pat);
      FirstLineIsPrefix(s);
      FreeTail(s, pat, |Lines(s)[0]|);
    }
  }

  /** A text without CRLF has no line that ends in CR, except perhaps its last. */
  lemma {:induction false} LinesWithoutCrlf(s: string)
    requires Free(s, "\r\n")
    ensures forall i :: 0 <= i < |Lines(s)| - 1 ==> !EndsWithCr(Lines(s)[i])
  {
    CrlfAt(s, 0);
    CrlfAt(s, 1);
    if s != "" {
      FreeTail(s, "\r\n", 1);
      LinesWithoutCrlf(s[1..]);
      if s[0] == '\n' {
        assert Lines(s)[1..] == Lines(s[1..]);
      } else {
        var ls := Lines(s[1..]);
        if |ls| > 1 && ls[0] == "" && s[0] == '\r' {
          EmptyFirstLine(s[1..]);
        }
        assert Lines(s)[1..] == ls[1..];
      }
    }
  }

  lemma CrlfAt(s: string, i: nat)
    ensures i + 1 < |s| && s[i] == '\r' && s[i + 1] == '\n' ==> At(s, "\r\n", i)
  {
    if i + 1 < |s| {
      assert s[i..i + 2] == [s[i], s[i + 1]];
    }
  }

  lemma EmptyFirstLine(s: string)
    requires |Lines(s)| > 1 && Lines(s)[0] == ""
    ensures s[0] == '\n' || (|s| > 1 && s[0] == '\r' && s[1] == '\n')
  {
  }

  /** Ended lines that avoid a pattern without line-break characters avoid it as a text. */
  lemma {:induction false} EndedFree(ls: seq<string>, nl: string, pat: string)
    requires IsBreak(nl) && pat != "" && '\n' !in pat && '\r' !in pat
    requires forall l :: l in ls ==> Free(l, pat)
    ensures Free(Ended(ls, nl), pat)
  {
    if ls != [] {
      assert ls[0] in ls;
      assert forall l :: l in ls[1..] ==> l in ls;
      var rest := Ended(ls[1..], nl);
      EndedFree(ls[1..], nl, pat);
      if nl == "\n" {
        FreeAcross(ls[0], '\n', rest, pat);
      } else {
        FreeAcross("", '\n', rest, pat);
        assert [] + ['\n'] + rest == ['\n'] + rest;
        FreeAcross(ls[0], '\r', ['\n'] + rest, pat);
        assert ls[0] + nl + rest == ls[0] + ['\r'] + (['\n'] + rest);
      }
    }
  }

  /** Where a prefix of ended lines avoids the pattern and the pattern follows, it is found there. */
  lemma IndexAfterEnded(ls: seq<string>, nl: string, pat: string, rest: string)
    requires IsBreak(nl) && pat != "" && '\n' !in pat && '\r' !in pat
    requires forall l :: l in ls ==> Free(l, pat)
    requires At(rest, pat, 0)
    ensures IndexOf(Ended(ls, nl) + rest, pat, 0) == |Ended(ls, nl)|
  {
    var a := Ended(ls, nl);
    AtRight(a, rest, pat, 0);
    EndedFree(ls, nl, pat);
    forall i | 0 <= i < |a| ensures !At(a + rest, pat, i) {
      if At(a + rest, pat, i) {
        EndedLastChar(ls, nl);
        if i + |pat| <= |a| {
          AtLeft(a, rest, pat, i);
        } else {
          AtChar(a + rest, pat, i, |a| - 1 - i);
        }
      }
    }
    IndexIs(a + rest, pat, 0, |a|);
  }

  lemma {:induction false} EndedLastChar(ls: seq<string>, nl: string)
    requires IsBreak(nl)
    ensures ls == [] <==> Ended(ls, nl) == ""
    ensures ls != [] ==> Ended(ls, nl)[|Ended(ls, nl)| - 1] == '\n'
  {
    if ls != [] {
      EndedLastChar(ls[1..], nl);
    }
  }

  lemma {:induction false} EndedAppend(a: seq<string>, b: seq<string>, nl: string)
    ensures Ended(a + b, nl) == Ended(a, nl) + Ended(b, nl)
  {
    if a == [] {
      assert a + b == b;
    } else {
      assert (a + b)[1..] == a[1..] + b;
      EndedAppend(a[1..], b, nl);
      assert a[0] + nl + (Ended(a[1..], nl) + Ended(b, nl)) == Ended(a, nl) + Ended(b, nl);
    }
  }

  /** Ended with LF, lines that do not end in CR make no CRLF. */
  lemma {:induction false} EndedWithoutCrlf(ls: seq<string>, last: string)
    requires AllSplit(ls, "\n") && '\n' !in last
    ensures Free(Ended(ls, "\n") + last, "\r\n")
  {
    if ls == [] {
      assert Ended(ls, "\n") + last == last;
      NoLfNoCrlf(last);
    } else {
      assert ls[0] in ls;
      assert forall l :: l in ls[1..] ==> l in ls;
      EndedWithoutCrlf(ls[1..], last);
      var rest := Ended(ls[1..], "\n") + last;
      var s := ls[0] + "\n" + rest;
      assert Ended(ls, "\n") + last == s;
      forall i ensures !At(s, "\r\n", i) {
        if At(s, "\r\n", i) {
          AtChar(s, "\r\n", i, 0);
          AtChar(s, "\r\n", i, 1);
          if i > |ls[0]| {
            AtRight(ls[0] + "\n", rest, "\r\n", i - |ls[0]| - 1);
          }
        }
      }
    }
  }

  lemma NoLfNoCrlf(s: string)
    requires '\n' !in s
    ensures Free(s, "\r\n")
  {
    forall i ensures !At(s, "\r\n", i) {
      if At(s, "\r\n", i) {
        AtChar(s, "\r\n", i, 1);
      }
    }
  }

  // ----- splitting on one character -----------------------------------------------------------

  /** `s.split(c)`. */
  function SplitOn(s: string, c: char): (parts: seq<string>)
    ensures parts != [] && forall i :: 0 <= i < |parts| ==> |parts[i]| <= |s|
  {
    if s == "" then [""]
    else
      var rest := SplitOn(s[1..], c);
      if s[0] == c then [""] + rest else [[s[0]] + rest[0]] + rest[1..]
  }

  lemma {:induction false} SplitOne(s: string, c: char)
    requires c !in s
    ensures SplitOn(s, c) == [s]
  {
    if s != "" {
      SplitOne(s[1..], c);
      assert [s[0]] + s[1..] == s;
    }
  }

  lemma {:induction false} SplitFirst(s: string, rest: string, c: char)
    requires c !in s
    ensures SplitOn(s + [c] + rest, c) == [s] + SplitOn(rest, c)
  {
    var t := s + [c] + rest;
    if s == "" {
      assert t[1..] == rest && t[0] == c;
    } else {
      SplitFirst(s[1..], rest, c);
      assert t[1..] == s[1..] + [c] + rest && t[0] == s[0];
      assert [s[0]] + s[1..] == s;
    }
  }

  /** Splitting undoes joining. */
  lemma {:induction false} SplitJoined(parts: seq<string>, c: char)
    requires parts != [] && forall k :: 0 <= k < |parts| ==> c !in parts[k]
    ensures SplitOn(Join(parts, [c]), c) == parts
  {
    hide SplitOn;
    if |parts| == 1 {
      SplitOne(parts[0], c);
    } else {
      SplitJoined(parts[1..], c);
      SplitFirst(parts[0], Join(parts[1..], [c]), c);
    }
  }
}
