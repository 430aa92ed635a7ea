/**
 Text normalized for phrase matching (`normalizeForMatching` of packages/shared/src/content-risk.ts):
 one line entry per output unit, with CRLF, LF and CR one break each. Which characters are hidden and
 how the others fold are parameters.
 */
module RiskText {
  import opened TextLines

  type Hidden = char -> bool
  type Fold = char -> string

  // ----- line breaks --------------------------------------------------------------------------

  /** `text.split(/\r\n|\n|\r/)` */
  function SplitLines(s: string): (ls: seq<string>)
    ensures ls != []
  {
    if s == "" then [""]
    else if s[0] == '\r' && |s| > 1 && s[1] == '\n' then [""] + SplitLines(s[2..])
    else if s[0] == '\r' || s[0] == '\n' then [""] + SplitLines(s[1..])
    else var ls := SplitLines(s[1..]); [[s[0]] + ls[0]] + ls[1..]
  }

  /** One more character is one more line, when it is a break that does not complete a CRLF. */
  lemma {:induction false} OneMoreChar(s: string, c: char)
    ensures |SplitLines(s + [c])| == |SplitLines(s)| +
      if c == '\r' || (c == '\n' && !EndsWithCr(s)) then 1 else 0
  {
    var t := s + [c];
    if s == "" {
      assert t[1..] == "";
    } else if s == "\r" {
      assert t == ['\r', c] && t[1..] == [c] && [c][1..] == "" && s[1..] == "";
      assert t[2..] == "";
    } else if s[0] == '\r' && |s| > 1 && s[1] == '\n' {
      assert t[2..] == s[2..] + [c];
      OneMoreChar(s[2..], c);
    } else {
      assert t[1..] == s[1..] + [c];
      OneMoreChar(s[1..], c);
    }
  }

  // ----- the scan -----------------------------------------------------------------------------

  /** An output unit with the source index of the character it comes from. */
  datatype Unit = Unit(c: char, at: nat)

  predicate IsAsciiSpace(c: char) { c == ' ' || '\t' <= c <= '\r' }

  function Lower(c: char): char { if 'A' <= c <= 'Z' then (c as int + 32) as char else c }

  function Units(s: string, at: nat): (us: seq<Unit>)
    ensures |us| == |s| && forall k :: 0 <= k < |us| ==> us[k] == Unit(s[k], at)
  {
    seq(|s|, k requires 0 <= k < |s| => Unit(s[k], at))
  }

  /** What one character puts out, after white space or not, and whether white space was last then. */
  function Put(c: char, at: nat, lastSpace: bool, hidden: Hidden, fold: Fold): (seq<Unit>, bool) {
    if c < '\U{0080}' then
      if IsAsciiSpace(c) then (if lastSpace then [] else [Unit(' ', at)], true)
      else ([Unit(Lower(c), at)], false)
    else if hidden(c) then ([], lastSpace)
    else if IsSpace(c) then (if lastSpace then [] else [Unit(' ', at)], true)
    else (Units(fold(c), at), false)
  }

  /** What the characters before i put out. */
  function Output(text: string, i: nat, hidden: Hidden, fold: Fold): (seq<Unit>, bool)
    requires i <= |text|
  {
    if i == 0 then ([], true)
    else
      var before := Output(text, i - 1, hidden, fold);
      var now := Put(text[i - 1], i - 1, before.1, hidden, fold);
      (before.0 + now.0, now.1)
  }

  /** The 1-based line a character ends on: a break is counted by the character that makes it. */
  function LineAt(text: string, at: nat): nat
    requires at < |text|
  {
    |SplitLines(text[..at + 1])|
  }

  /** Normalize in one scan: every output unit has the line of its source character. */
  method NormalizeForMatching(text: string, hidden: Hidden, fold: Fold) returns (norm: string, lineOf: seq<nat>)
    ensures var us := Output(text, |text|, hidden, fold).0;
      && |norm| == |lineOf| == |us|
      && forall k :: 0 <= k < |us| ==> us[k].at < |text| && norm[k] == us[k].c && lineOf[k] == LineAt(text, us[k].at)
  {
    hide SplitLines, Put, IsSpace;
    norm, lineOf := "", [];
    var line, lastSpace, prevCR := 1, true, false;
    assert text[..0] == "" && |SplitLines("")| == 1 by { OneLine(); }
    for i := 0 to |text|
      invariant line == |SplitLines(text[..i])| && prevCR == EndsWithCr(text[..i])
      invariant lastSpace == Output(text, i, hidden, fold).1
      invariant var us := Output(text, i, hidden, fold).0;
        && |norm| == |lineOf| == |us|
        && forall k :: 0 <= k < |us| ==> us[k].at < i && norm[k] == us[k].c && lineOf[k] == LineAt(text, us[k].at)
    {
      var c := text[i];
      assert text[..i + 1] == text[..i] + [c];
      OneMoreChar(text[..i], c);
      if c == '\n' {
        if !prevCR { line := line + 1; }
        prevCR := false;
      } else if c == '\r' {
        line := line + 1;
        prevCR := true;
      } else {
        prevCR := false;
      }
      var units, space := PutOut(c, i, lastSpace, hidden, fold);
      norm := norm + CharsOf(units);
      lineOf := lineOf + seq(|units|, k => line);
      lastSpace := space;
    }
  }

  lemma OneLine()
    ensures |SplitLines("")| == 1
  {
  }

  function CharsOf(us: seq<Unit>): (s: string)
    ensures |s| == |us| && forall k :: 0 <= k < |us| ==> s[k] == us[k].c
  {
    seq(|us|, k requires 0 <= k < |us| => us[k].c)
  }

  /** The branches for one character. */
  method PutOut(c: char, at: nat, lastSpace: bool, hidden: Hidden, fold: Fold) returns (units: seq<Unit>, space: bool)
    ensures (units, space) == Put(c, at, lastSpace, hidden, fold)
    ensures forall k :: 0 <= k < |units| ==> units[k].at == at
  {
    hide IsSpace;
    units, space := [], lastSpace;
    if c < '\U{0080}' {
      if IsAsciiSpace(c) {
        if !lastSpace { units, space := [Unit(' ', at)], true; }
        return;
      }
      return [Unit(Lower(c), at)], false;
    }
    if hidden(c) {
      return;
    }
    if IsSpace(c) {
      if !lastSpace { units, space := [Unit(' ', at)], true; }
      return;
    }
    units, space := Units(fold(c), at), false;
  }

  // ----- what follows -------------------------------------------------------------------------

  lemma {:induction false} LinesGrow(text: string, i: nat, j: nat)
    requires i <= j <= |text|
    ensures |SplitLines(text[..i])| <= |SplitLines(text[..j])|
  {
    hide SplitLines;
    if i < j {
      LinesGrow(text, i, j - 1);
      assert text[..j] == text[..j - 1] + [text[j - 1]];
      OneMoreChar(text[..j - 1], text[j - 1]);
    }
  }

  lemma PutIsAt(c: char, at: nat, lastSpace: bool, hidden: Hidden, fold: Fold)
    ensures var us := Put(c, at, lastSpace, hidden, fold).0; forall k :: 0 <= k < |us| ==> us[k].at == at
  {
    hide IsSpace;
  }

  ghost predicate Ordered(us: seq<Unit>, n: nat) {
    && (forall k :: 0 <= k < |us| ==> us[k].at < n)
    && forall j, k :: 0 <= j < k < |us| ==> us[j].at <= us[k].at
  }

  lemma OrderedAppend(a: seq<Unit>, b: seq<Unit>, n: nat)
    requires Ordered(a, n) && forall k :: 0 <= k < |b| ==> b[k].at == n
    ensures Ordered(a + b, n + 1)
  {
    var c := a + b;
    forall k | 0 <= k < |c| ensures c[k].at < n + 1 && (k < |a| ==> c[k] == a[k]) && (k >= |a| ==> c[k].at == n) {
    }
  }

  lemma {:induction false} UnitsInOrder(text: string, i: nat, hidden: Hidden, fold: Fold)
    requires i <= |text|
    ensures Ordered(Output(text, i, hidden, fold).0, i)
  {
    hide Ordered, Put;
    if i > 0 {
      UnitsInOrder(text, i - 1, hidden, fold);
      var before := Output(text, i - 1, hidden, fold);
      PutIsAt(text[i - 1], i - 1, before.1, hidden, fold);
      OrderedAppend(before.0, Put(text[i - 1], i - 1, before.1, hidden, fold).0, i - 1);
    } else {
      NothingOrdered();
    }
  }

  lemma NothingOrdered()
    ensures Ordered([], 0)
  {
  }

  /** The line map never decreases, and ends within the text's lines. */
  lemma LineMapOrdered(text: string, hidden: Hidden, fold: Fold)
    ensures var us := Output(text, |text|, hidden, fold).0;
      && (forall k :: 0 <= k < |us| ==> us[k].at < |text| && 1 <= LineAt(text, us[k].at) <= |SplitLines(text)|)
      && forall j, k :: 0 <= j < k < |us| ==> LineAt(text, us[j].at) <= LineAt(text, us[k].at)
  {
    UnitsInOrder(text, |text|, hidden, fold);
    LinesOrdered(text, Output(text, |text|, hidden, fold).0);
  }

  lemma LinesOrdered(text: string, us: seq<Unit>)
    requires Ordered(us, |text|)
    ensures forall k :: 0 <= k < |us| ==> us[k].at < |text| && 1 <= LineAt(text, us[k].at) <= |SplitLines(text)|
    ensures forall j, k :: 0 <= j < k < |us| ==> LineAt(text, us[j].at) <= LineAt(text, us[k].at)
  {
    hide LineAt, SplitLines;
    forall k | 0 <= k < |us| ensures us[k].at < |text| && 1 <= LineAt(text, us[k].at) <= |SplitLines(text)| {
      LineAtGrows(text, us[k].at, us[k].at);
    }
    forall j, k | 0 <= j < k < |us| ensures LineAt(text, us[j].at) <= LineAt(text, us[k].at) {
      LineAtGrows(text, us[j].at, us[k].at);
    }
  }

  lemma LineAtGrows(text: string, i: nat, j: nat)
    requires i <= j < |text|
    ensures 1 <= LineAt(text, i) <= LineAt(text, j) <= |SplitLines(text)|
  {
    hide SplitLines;
    LinesGrow(text, i + 1, j + 1);
    LinesGrow(text, j + 1, |text|);
    assert text[..|text|] == text;
  }

  // ----- single blanks ------------------------------------------------------------------------

  /** Two blanks in a row, the second at k. */
  predicate Twin(us: seq<Unit>, k: int) { 0 < k < |us| && us[k - 1].c == ' ' && us[k].c == ' ' }

  /** No blank first, and none behind another. */
  ghost predicate BlanksApart(us: seq<Unit>) {
    (us != [] ==> us[0].c != ' ') && forall k :: !Twin(us, k)
  }

  /** A character that is left out. */
  predicate IsHidden(c: char, hidden: Hidden) { c >= '\U{0080}' && hidden(c) }

  /** One that counts as white space. */
  predicate IsBlank(c: char) { if c < '\U{0080}' then IsAsciiSpace(c) else IsSpace(c) }

  /** What any other character folds to. */
  function Word(c: char, fold: Fold): string {
    if c < '\U{0080}' then [Lower(c)] else fold(c)
  }

  /** The character before i that is not hidden; -1 when there is none. */
  function Before(text: string, i: nat, hidden: Hidden): (p: int)
    requires i <= |text|
    ensures -1 <= p < i && (p >= 0 ==> !IsHidden(text[p], hidden))
    ensures forall k :: p < k < i ==> IsHidden(text[k], hidden)
  {
    if i == 0 then -1
    else if IsHidden(text[i - 1], hidden) then Before(text, i - 1, hidden)
    else i - 1
  }

  /** Every character of the text that is kept folds to something, as it does under NFKC. */
  predicate Folds(text: string, hidden: Hidden, fold: Fold) {
    forall c :: c in text && !IsHidden(c, hidden) && !IsBlank(c) ==> Word(c, fold) != ""
  }

  predicate HasDouble(w: string) { exists k :: 0 < k < |w| && w[k - 1] == ' ' && w[k] == ' ' }

  predicate StartsBlank(w: string) { w != "" && w[0] == ' ' }

  predicate EndsBlank(w: string) { w != "" && w[|w| - 1] == ' ' }

  /** The character at i brings a blank where one cannot stand: its fold has two in a row, or starts with
      one at the start or behind another; or it is white space behind a fold that ends with one. */
  predicate Crowds(text: string, i: nat, hidden: Hidden, fold: Fold)
    requires i < |text|
  {
    var p, c := Before(text, i, hidden), text[i];
    if IsHidden(c, hidden) then false
    else if IsBlank(c) then p >= 0 && !IsBlank(text[p]) && EndsBlank(Word(text[p], fold))
    else
      || HasDouble(Word(c, fold))
      || (StartsBlank(Word(c, fold)) && (p < 0 || IsBlank(text[p]) || EndsBlank(Word(text[p], fold))))
  }

  /** What is put out for one character, by what the character is. */
  lemma PutIs(c: char, at: nat, lastSpace: bool, hidden: Hidden, fold: Fold)
    ensures Put(c, at, lastSpace, hidden, fold) ==
      if IsHidden(c, hidden) then ([], lastSpace)
      else if IsBlank(c) then (if lastSpace then [] else [Unit(' ', at)], true)
      else (Units(Word(c, fold), at), false)
  {
    hide IsSpace;
    if c < '\U{0080}' {
      assert Units([Lower(c)], at) == [Unit(Lower(c), at)];
    }
  }

  /** How the output before i ends, by the character before i that is not hidden. */
  ghost predicate EndsAs(text: string, i: nat, hidden: Hidden, fold: Fold)
    requires i <= |text|
  {
    var (us, lastSpace) := Output(text, i, hidden, fold);
    var p := Before(text, i, hidden);
    if p < 0 then us == [] && lastSpace
    else if IsBlank(text[p]) then lastSpace && (us != [] ==> us[|us| - 1].c == ' ')
    else
      var w := Word(text[p], fold);
      !lastSpace && us != [] && w != "" && us[|us| - 1].c == w[|w| - 1]
  }

  lemma {:induction false} OutputEnds(text: string, i: nat, hidden: Hidden, fold: Fold)
    requires i <= |text| && Folds(text, hidden, fold)
    ensures EndsAs(text, i, hidden, fold)
  {
    hide IsBlank, IsHidden, Put;
    if i > 0 {
      OutputEnds(text, i - 1, hidden, fold);
      var before := Output(text, i - 1, hidden, fold);
      PutIs(text[i - 1], i - 1, before.1, hidden, fold);
    }
  }

  lemma JoinApart(a: seq<Unit>, b: seq<Unit>)
    ensures BlanksApart(a + b) <==>
      && BlanksApart(a) && (a == [] && b != [] ==> b[0].c != ' ') && (forall k :: !Twin(b, k))
      && (a != [] && b != [] ==> !(a[|a| - 1].c == ' ' && b[0].c == ' '))
  {
    var c := a + b;
    forall k ensures 0 < k < |a| ==> (Twin(c, k) <==> Twin(a, k)) {}
    forall k ensures 0 < k < |b| ==> (Twin(c, |a| + k) <==> Twin(b, k)) {}
    assert a != [] && b != [] ==> (Twin(c, |a|) <==> a[|a| - 1].c == ' ' && b[0].c == ' ');
    assert forall k :: Twin(c, k) ==> 0 < k < |a| || k == |a| || 0 < k - |a| < |b|;
    if BlanksApart(c) {
      forall k ensures !Twin(a, k) && !Twin(b, k) {
        assert !Twin(c, k) && !Twin(c, |a| + k);
      }
    } else if k :| Twin(c, k) {
      assert k > |a| ==> (Twin(c, |a| + (k - |a|)) <==> Twin(b, k - |a|));
    }
  }

  /** The blanks of the output stand apart if and only if no character crowds another. */
  lemma {:induction false} BlanksApartIff(text: string, i: nat, hidden: Hidden, fold: Fold)
    requires i <= |text| && Folds(text, hidden, fold)
    ensures BlanksApart(Output(text, i, hidden, fold).0) <==> forall k :: 0 <= k < i ==> !Crowds(text, k, hidden, fold)
  {
    hide IsBlank, IsHidden, Put, BlanksApart, Crowds;
    if i > 0 {
      BlanksApartIff(text, i - 1, hidden, fold);
      OneMoreApart(text, i - 1, hidden, fold);
    } else {
      NothingApart();
    }
  }

  lemma NothingApart()
    ensures BlanksApart([])
  {
  }

  lemma OneMoreApart(text: string, i: nat, hidden: Hidden, fold: Fold)
    requires i < |text| && Folds(text, hidden, fold)
    ensures BlanksApart(Output(text, i + 1, hidden, fold).0) <==>
      BlanksApart(Output(text, i, hidden, fold).0) && !Crowds(text, i, hidden, fold)
  {
    hide IsBlank, IsHidden, Put, BlanksApart;
    var before := Output(text, i, hidden, fold);
    var c := text[i];
    PutIs(c, i, before.1, hidden, fold);
    OutputEnds(text, i, hidden, fold);
    var now := Put(c, i, before.1, hidden, fold).0;
    JoinApart(before.0, now);
    assert c in text;
    if IsHidden(c, hidden) {
      assert before.0 + [] == before.0;
    } else if !IsBlank(c) {
      var w := Word(c, fold);
      DoubleIsTwin(w, i);
    } else {
      assert forall k :: !Twin(now, k);
    }
  }

  lemma DoubleIsTwin(w: string, at: nat)
    ensures HasDouble(w) <==> exists k :: Twin(Units(w, at), k)
  {
    var us := Units(w, at);
    if k :| 0 < k < |w| && w[k - 1] == ' ' && w[k] == ' ' {
      assert Twin(us, k);
    }
    if k :| Twin(us, k) {
      assert w[k - 1] == ' ' && w[k] == ' ';
    }
  }

  /** In particular when no fold brings a blank: the output starts with a word and has single blanks. */
  lemma OutputBlanksApart(text: string, hidden: Hidden, fold: Fold)
    requires Folds(text, hidden, fold)
    requires forall c :: c in text && !IsHidden(c, hidden) && !IsBlank(c) ==> ' ' !in Word(c, fold)
    ensures BlanksApart(Output(text, |text|, hidden, fold).0)
  {
    hide IsBlank, IsHidden, Output, BlanksApart, Word;
    forall k | 0 <= k < |text| ensures !Crowds(text, k, hidden, fold) {
      var p := Before(text, k, hidden);
      assert text[k] in text && (p >= 0 ==> text[p] in text);
    }
    BlanksApartIff(text, |text|, hidden, fold);
  }

  /** The compatibility fold of the diaeresis U+00A8: a blank and the combining one. */
  function Diaeresis(c: char): string { if c == '\U{00A8}' then " \U{0308}" else [c] }

  /** The single blanks that the phrase patterns count on fail for an "a", a blank and a diaeresis. */
  lemma DiaeresisCrowds()
    ensures var text, hidden: Hidden := "a \U{00A8}", c => false;
      && Folds(text, hidden, Diaeresis) && Crowds(text, 2, hidden, Diaeresis)
      && !BlanksApart(Output(text, 3, hidden, Diaeresis).0)
  {
    var text, hidden: Hidden := "a \U{00A8}", c => false;
    hide Output, BlanksApart;
    assert text[0] == 'a' && text[1] == ' ' && text[2] == '\U{00A8}';
    assert Before(text, 2, hidden) == 1;
    assert Crowds(text, 2, hidden, Diaeresis);
    BlanksApartIff(text, 3, hidden, Diaeresis);
  }
}
