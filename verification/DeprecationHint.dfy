/**
 The whole SKILL.md rewritten again (`buildDeprecationHint` of packages/shared/src/deprecation.ts):
 the banner is found and removed, the frontmatter is read back, and the last write wins.

 `LastWriteWins` is the main result: rewriting for a and then for b is rewriting for b alone if and only
 if the description is stable. `OnlyTheLastShows` carries it over to any sequence of rewrites.
 */
module DeprecationHint {
  import opened Common
  import opened TextLines
  import opened Deprecation
  import opened DeprecationNotes
  import opened DeprecationValue
  import opened DeprecationRerun

  // ----- the banner is found ------------------------------------------------------------------

  lemma NoAngleFree(s: string)
    requires '<' !in s
    ensures Free(s, CLOSE)
  {
    forall i ensures !At(s, CLOSE, i) {
      if At(s, CLOSE, i) {
        AtChar(s, CLOSE, i, 0);
      }
    }
  }

  lemma NoteLineFree(l: string)
    requires Free(l, "<!--")
    ensures Free(QuoteLine(l), CLOSE)
  {
    forall i ensures !At(QuoteLine(l), CLOSE, i) {
      if At(QuoteLine(l), CLOSE, i) {
        AtChar(QuoteLine(l), CLOSE, i, 0);
        AtRight("> ", l, CLOSE, i - 2);
        OpensComment(l, i - 2);
      }
    }
  }

  lemma OpensComment(l: string, i: int)
    requires At(l, CLOSE, i)
    ensures At(l, "<!--", i)
  {
    assert l[i..i + 4] == l[i..i + |CLOSE|][..4];
  }

  /** No CR comes into a note by neutralizing it. */
  lemma {:induction false} NeutralizeAddsNoCr(s: string)
    requires '\r' !in s
    ensures '\r' !in Neutralize(s)
    decreases |s|
  {
    if s != "" {
      var k := if At(s, "<!--", 0) then 4 else if At(s, "-->", 0) then 3 else if At(s, "--!>", 0) then 4 else 1;
      assert forall c :: c in s[k..] ==> c in s;
      assert s[0] in s;
      NeutralizeAddsNoCr(s[k..]);
    }
  }

  /** A banner line is whole and, but for the last one, without the closing marker. */
  ghost predicate BannerLine(l: string) {
    '\n' !in l && !EndsWithCr(l) && Free(l, CLOSE)
  }

  lemma NoticeIsBannerLine(input: HintInput)
    requires ValidInput(input)
    ensures BannerLine(Notice(input)) && BannerLine(OPEN)
  {
    var n := Notice(input);
    forall c | c in n ensures c != '<' && c != '\n' && c != '\r' {
      if Given(input.successor) {
        assert c in input.successor.value ==> RefChar(c);
      }
      if Given(input.successorUrl) {
        assert c in input.successorUrl.value ==> !IsSpace(c) && c != '<';
      }
    }
    NoAngleFree(n);
    assert n[|n| - 1] in n;
    forall i ensures !At(OPEN, CLOSE, i) {}
  }

  lemma NoteIsBannerLines(note: string)
    requires '\r' !in note
    ensures forall l :: l in QuoteLines(Lines(Neutralize(note))) ==> BannerLine(l)
  {
    hide Neutralize, Lines, Free, QuoteLines;
    var ls := Lines(Neutralize(note));
    NoteHasNoOpener(note);
    LinesFree(Neutralize(note), "<!--");
    LinesHaveNoBreak(Neutralize(note));
    NeutralizeAddsNoCr(note);
    LinesChars(Neutralize(note));
    forall l | l in QuoteLines(ls) ensures BannerLine(l) {
      var i :| 0 <= i < |ls| && l == QuoteLine(ls[i]);
      assert ls[i] in ls;
      NoteLineFree(ls[i]);
      assert ls[i] != "" ==> ls[i][|ls[i]| - 1] in ls[i];
    }
  }

  lemma BannerLines(input: HintInput)
    requires ValidInput(input)
    ensures forall l :: l in BannerHead(input) ==> BannerLine(l)
    ensures '\n' !in CLOSE && !EndsWithCr(CLOSE)
  {
    hide Neutralize, Lines, Free, QuoteLines, Notice;
    NoticeIsBannerLine(input);
    if Given(input.note) {
      NoteIsBannerLines(input.note.value);
      assert BannerLine(">") by { NoAngleFree(">"); }
    }
  }

  lemma IndexShift(a: string, b: string, pat: string)
    requires IndexOf(b, pat, 0) >= 0
    ensures IndexOf(a + b, pat, |a|) == |a| + IndexOf(b, pat, 0)
  {
    hide At;
    var k := IndexOf(b, pat, 0);
    AtRight(a, b, pat, k);
    forall i | |a| <= i < |a| + k ensures !At(a + b, pat, i) {
      AtRight(a, b, pat, i - |a|);
    }
    IndexIs(a + b, pat, |a|, |a| + k);
  }

  lemma SpanAt(md: string, open: string, close: string, start: nat, end: nat, n: nat)
    requires IndexOf(md, open, 0) == start && IndexOf(md, close, start) == end && BreakLen(md, end + |close|) == n
    ensures end + |close| + n <= |md| && start <= |md|
    ensures RemoveSpan(md, open, close) == md[..start] + md[end + |close| + n..]
  {
    hide IndexOf, At, BreakLen;
  }

  /** A span between two texts is found and removed with the line break behind it. */
  lemma SpanRemoved(above: string, open: string, middle: string, close: string, nl: string, after: string)
    requires var tail := middle + close + nl + after;
      IndexOf(above + tail, open, 0) == |above| && IndexOf(tail, close, 0) == |middle|
    requires IsBreak(nl)
    ensures RemoveSpan(above + (middle + close + nl + after), open, close) == above + after
  {
    hide IndexOf, At, BreakLen, RemoveSpan;
    var tail := middle + close + nl + after;
    var md := above + tail;
    var front := above + middle + close;
    Slices(above, middle, close, nl, after);
    IndexShift(above, tail, close);
    BreakBehind(front, nl, after);
    SpanAt(md, open, close, |above|, |above| + |middle|, |nl|);
  }

  lemma BreakBehind(front: string, nl: string, after: string)
    requires IsBreak(nl)
    ensures BreakLen(front + (nl + after), |front|) == |nl|
  {
    hide At;
    AtRight(front, nl + after, "\r\n", 0);
    AtRight(front, nl + after, "\n", 0);
    BreakAt(nl, after);
  }

  lemma Slices(a: string, b: string, c: string, d: string, e: string)
    ensures b + c + d + e == b + (c + d + e)
    ensures var s := a + (b + c + d + e);
      s[..|a|] == a && s[|a| + |b| + |c| + |d|..] == e && s == a + b + c + (d + e)
  {
  }

  lemma BreakAt(nl: string, after: string)
    requires IsBreak(nl)
    ensures At(nl + after, "\r\n", 0) <==> nl == "\r\n"
    ensures nl == "\n" ==> At(nl + after, "\n", 0)
  {
    AtStart(nl, after);
    if At(nl + after, "\r\n", 0) {
      AtChar(nl + after, "\r\n", 0, 0);
    }
  }

  /** The text of lines above a mark, the mark, and lines below it. */
  lemma TextShape(top: seq<string>, head: seq<string>, close: string, rest: seq<string>, nl: string)
    requires rest != []
    ensures Join(top + (head + [close]) + rest, nl) ==
      Ended(top, nl) + (Ended(head, nl) + close + nl + Join(rest, nl))
    ensures Join(top + rest, nl) == Ended(top, nl) + Join(rest, nl)
  {
    hide Ended, Join;
    Regroup(top, head + [close], rest);
    Regroup(head, [close], rest);
    JoinEnded(top, head + [close] + rest, nl);
    JoinEnded(head, [close] + rest, nl);
    JoinOne(close, rest, nl);
    JoinEnded(top, rest, nl);
    CoreParts(Ended(head, nl), close, nl, Join(rest, nl));
  }

  lemma JoinOne(close: string, rest: seq<string>, nl: string)
    requires rest != []
    ensures Join([close] + rest, nl) == close + (nl + Join(rest, nl))
  {
    assert ([close] + rest)[1..] == rest;
  }

  /** A mark that comes first after lines without it is found there. */
  lemma MarkFound(ls: seq<string>, mark: string, nl: string, after: string)
    requires IsBreak(nl) && mark != "" && '\n' !in mark && '\r' !in mark && forall l :: l in ls ==> Free(l, mark)
    ensures IndexOf(Ended(ls, nl) + mark + nl + after, mark, 0) == |Ended(ls, nl)|
  {
    hide IndexOf, Free, Ended, At;
    CoreParts(Ended(ls, nl), mark, nl, after);
    AtStart(mark, nl + after);
    IndexAfterEnded(ls, nl, mark, mark + (nl + after));
  }

  /** Lines from an opening mark through a closing one are removed. */
  lemma LinesRemoved(top: seq<string>, open: string, head: seq<string>, close: string, rest: seq<string>, nl: string)
    requires IsBreak(nl) && rest != [] && head != [] && head[0] == open
    requires open != "" && '\n' !in open && '\r' !in open && forall l :: l in top ==> Free(l, open)
    requires close != "" && '\n' !in close && '\r' !in close && forall l :: l in head ==> Free(l, close)
    ensures RemoveSpan(Join(top + (head + [close]) + rest, nl), open, close) == Join(top + rest, nl)
  {
    hide Ended, Join, IndexOf, Free, RemoveSpan, At;
    TextShape(top, head, close, rest, nl);
    var after := Join(rest, nl);
    OpensTail(head, close, nl, after);
    IndexAfterEnded(top, nl, open, Ended(head, nl) + close + nl + after);
    MarkFound(head, close, nl, after);
    SpanRemoved(Ended(top, nl), open, Ended(head, nl), close, nl, after);
  }

  lemma OpensTail(head: seq<string>, close: string, nl: string, after: string)
    requires head != []
    ensures At(Ended(head, nl) + close + nl + after, head[0], 0)
  {
    var rest := nl + Ended(head[1..], nl) + close + nl + after;
    assert Ended(head, nl) + close + nl + after == head[0] + rest;
    AtStart(head[0], rest);
  }

  /** Removing the banner of a rewritten SKILL.md leaves the other lines. */
  lemma BannerRemoved(top: seq<string>, input: HintInput, rest: seq<string>, nl: string)
    requires ValidInput(input) && IsBreak(nl) && rest != [] && forall l :: l in top ==> Free(l, OPEN)
    ensures StripBanner(Join(top + Banner(input) + rest, nl)) == Join(top + rest, nl)
  {
    hide Ended, Join, Free, RemoveSpan, Notice;
    BannerLines(input);
    assert BannerHead(input)[0] == OPEN;
    hide BannerHead;
    LinesRemoved(top, OPEN, BannerHead(input), CLOSE, rest, nl);
  }

  // ----- the lines are read back --------------------------------------------------------------

  /** Lines that joining and splitting keeps: only the last may end in CR. */
  ghost predicate CleanLines(ls: seq<string>, nl: string) {
    && ls != [] && '\n' !in ls[|ls| - 1]
    && forall i :: 0 <= i < |ls| - 1 ==> Splits(ls[i], nl)
  }

  /** A SKILL.md whose frontmatter holds no banner marker. Its lines survive the line break it is
      joined with. */
  ghost predicate Settled(md: string) {
    var lines := Lines(StripBanner(md));
    && CleanLines(lines, NewlineOf(md))
    && forall i :: 1 <= i < FmEnd(lines) ==> Free(lines[i], OPEN)
  }

  lemma CleanAppend(xs: seq<string>, ls: seq<string>, nl: string)
    requires AllSplit(xs, nl) && CleanLines(ls, nl)
    ensures CleanLines(xs + ls, nl)
  {
    hide Splits;
    var all := xs + ls;
    forall i | 0 <= i < |all| - 1 ensures Splits(all[i], nl) {
      if i < |xs| {
        assert all[i] in xs;
      } else {
        assert all[i] == ls[i - |xs|];
      }
    }
    assert all[|all| - 1] == ls[|ls| - 1];
  }

  lemma CleanSplit(ls: seq<string>, nl: string)
    requires CleanLines(ls, nl)
    ensures AllSplit(ls[..|ls| - 1], nl) && ls == ls[..|ls| - 1] + [ls[|ls| - 1]]
  {
  }

  lemma CleanLinesOfJoin(ls: seq<string>, nl: string)
    requires CleanLines(ls, nl) && IsBreak(nl)
    ensures Lines(Join(ls, nl)) == ls
  {
    CleanSplit(ls, nl);
    LinesOfJoin(ls[..|ls| - 1], ls[|ls| - 1], nl);
  }

  /** The line break of the joined lines is the one they are joined with. */
  lemma NewlineOfJoin(ls: seq<string>, nl: string)
    requires CleanLines(ls, nl) && IsBreak(nl) && |ls| > 1
    ensures NewlineOf(Join(ls, nl)) == nl
  {
    hide Join, Lines;
    var s := Join(ls, nl);
    if nl == "\r\n" {
      assert Join(ls, nl) == ls[0] + (nl + Join(ls[1..], nl)) by { JoinHead(ls, nl); }
      AtStart(nl, Join(ls[1..], nl));
      AtRight(ls[0], nl + Join(ls[1..], nl), "\r\n", 0);
    } else {
      CleanSplit(ls, nl);
      var init, last := ls[..|ls| - 1], ls[|ls| - 1];
      JoinEnded(init, [last], nl);
      JoinSingle(last, nl);
      EndedWithoutCrlf(init, last);
    }
  }

  lemma JoinHead(ls: seq<string>, nl: string)
    requires |ls| > 1
    ensures Join(ls, nl) == ls[0] + (nl + Join(ls[1..], nl))
  {
  }

  lemma JoinSingle(last: string, nl: string)
    ensures Join([last], nl) == last
  {
  }

  lemma RestIsClean(lines: seq<string>, nl: string)
    requires CleanLines(lines, nl) && IsBreak(nl)
    ensures CleanLines(Rest(lines), nl)
  {
    hide Splits, IsBlank, FmEnd;
    assert Splits("", nl) by { EmptySplits(nl); }
    var body := if FmEnd(lines) < 0 then lines else lines[FmEnd(lines) + 1..];
    if body != [] {
      assert CleanLines(body, nl);
      assert CleanLines([""] + body, nl) by { CleanAppend([""], body, nl); }
    }
  }

  lemma EmptySplits(nl: string)
    ensures Splits("", nl)
  {
  }

  lemma KeptFine(lines: seq<string>, nl: string)
    requires CleanLines(lines, nl) && FmEnd(lines) > 0 && forall i :: 1 <= i < FmEnd(lines) ==> Free(lines[i], OPEN)
    ensures AllFine(KeptKeys(lines[1..FmEnd(lines)]), nl)
  {
    hide Splits, Free, Trim, KeepsKey;
    var fm := lines[1..FmEnd(lines)];
    forall l | l in KeptKeys(fm) ensures Fine(l, nl) {
      var i :| 0 <= i < |fm| && fm[i] == l;
      assert l == lines[i + 1];
    }
  }

  lemma HeaderLines(ref: Option<string>, nl: string)
    requires ValidRef(ref)
    ensures forall l :: l in Header(ref) ==> Splits(l, nl) && Free(l, OPEN) && Trim(l) != RULE && !KeepsKey(l)
  {
    FlagLine(nl);
    if Given(ref) {
      SupersededLine(ref.value, nl);
    }
  }

  lemma KeyLine(l: string, c: nat, nl: string)
    requires c < |l| && l[c] == ':' && c > 0 && (l[..c] == "deprecated" || l[..c] == "superseded_by")
    requires '\n' !in l && '\r' !in l && '<' !in l
    ensures Splits(l, nl) && Free(l, OPEN) && Trim(l) != RULE && !KeepsKey(l)
  {
    hide IsSpace;
    var k := l[..c];
    LettersAreNoSpace();
    assert !IsSpace('y') && !IsSpace('D') by { LetterY(); }
    assert l[0] == k[0] && !IsSpace(k[0]) && !IsSpace(k[c - 1]);
    forall i | 0 <= i < c ensures !At(l, ":", i) {
      AtColon(l, i);
      assert l[i] == k[i];
    }
    AtColon(l, c);
    IndexIs(l, ":", 0, c);
    SpaceRunIs(k, 0);
    CoreLenIs(k, c);
    assert k[0..] == k && k[..c] == k;
    SpaceRunIs(l, 0);
    assert l[0..] == l;
    assert CoreLen(l) > 0;
    assert Trim(l)[0] == l[0];
    assert l[|l| - 1] in l;
    forall i ensures !At(l, OPEN, i) {
      if At(l, OPEN, i) {
        AtChar(l, OPEN, i, 0);
      }
    }
  }

  lemma LetterY()
    ensures !IsSpace('y') && !IsSpace('D')
  {
  }

  lemma FlagLine(nl: string)
    ensures var l := "deprecated: true"; Splits(l, nl) && Free(l, OPEN) && Trim(l) != RULE && !KeepsKey(l)
  {
    var l := "deprecated: true";
    assert l[..10] == "deprecated";
    KeyLine(l, 10, nl);
  }

  lemma SupersededLine(ref: string, nl: string)
    requires forall i :: 0 <= i < |ref| ==> RefChar(ref[i])
    ensures var l := "superseded_by: \"" + ref + "\""; Splits(l, nl) && Free(l, OPEN) && Trim(l) != RULE && !KeepsKey(l)
  {
    var l := "superseded_by: \"" + ref + "\"";
    assert l[..13] == "superseded_by";
    forall c | c in l ensures c != '\n' && c != '\r' && c != '<' {
      assert c in ref ==> RefChar(c);
    }
    KeyLine(l, 13, nl);
  }

  // ----- the frontmatter is read back ---------------------------------------------------------

  lemma {:induction false} KeptAppend(a: seq<string>, b: seq<string>)
    ensures KeptKeys(a + b) == KeptKeys(a) + KeptKeys(b)
    ensures KeptKeys([]) == [] && forall l :: KeptKeys([l]) == if KeepsKey(l) then [l] else []
  {
    hide KeepsKey;
    if a == [] {
      assert a + b == b;
    } else {
      assert (a + b)[1..] == a[1..] + b;
      KeptAppend(a[1..], b);
      Regroup(if KeepsKey(a[0]) then [a[0]] else [], KeptKeys(a[1..]), KeptKeys(b));
    }
  }

  lemma {:induction false} KeptAll(a: seq<string>)
    requires forall l :: l in a ==> KeepsKey(l)
    ensures KeptKeys(a) == a
  {
    hide KeepsKey;
    if a != [] {
      KeptAll(a[1..]);
      assert a == [a[0]] + a[1..];
    }
  }

  lemma KeptNone(a: seq<string>)
    requires forall l :: l in a ==> !KeepsKey(l)
    ensures KeptKeys(a) == []
  {
    hide KeepsKey, KeptKeys;
    if KeptKeys(a) != [] {
      assert KeptKeys(a)[0] in KeptKeys(a);
    }
  }

  lemma {:induction false} FirstRuleIs(lines: seq<string>, i: nat, e: nat)
    requires i <= e < |lines| && Trim(lines[e]) == RULE && forall k :: i <= k < e ==> Trim(lines[k]) != RULE
    ensures FirstRule(lines, i) == e
    decreases e - i
  {
    hide Trim;
    if i < e {
      FirstRuleIs(lines, i + 1, e);
    }
  }

  lemma RuleTrims()
    ensures Trim(RULE) == RULE && Trim("") == "" && IsBlank("")
  {
    TrimIs("", RULE, "");
    assert "" + RULE + "" == RULE;
  }

  /** Between two rules: the frontmatter ends at the second. */
  lemma FmEndIs(mid: seq<string>, rest: seq<string>)
    requires forall l :: l in mid ==> Trim(l) != RULE
    ensures var lines := [RULE] + mid + [RULE] + rest;
      FmEnd(lines) == |mid| + 1 && lines[1..|mid| + 1] == mid && lines[|mid| + 2..] == rest
  {
    hide Trim;
    var lines := [RULE] + mid + [RULE] + rest;
    RuleTrims();
    forall k | 1 <= k < |mid| + 1 ensures Trim(lines[k]) != RULE {
      assert lines[k] == mid[k - 1];
    }
    FirstRuleIs(lines, 1, |mid| + 1);
  }

  /** A line the rewrite inserts, and removes again. */
  ghost predicate HeaderLine(l: string, nl: string) {
    Splits(l, nl) && Free(l, OPEN) && Trim(l) != RULE && !KeepsKey(l)
  }

  lemma MidReadsBack(h: seq<string>, d: seq<string>, rest: seq<string>, nl: string)
    requires (forall l :: l in h ==> HeaderLine(l, nl)) && AllFine(d, nl)
    requires rest != [] && CleanLines(rest, nl) && IsBlank(rest[0])
    ensures var top := [RULE] + (h + d) + [RULE];
      var again := top + rest;
      && FmEnd(again) == |h + d| + 1 && again[1..FmEnd(again)] == h + d && again[FmEnd(again) + 1..] == rest
      && KeptKeys(h + d) == d && Rest(again) == rest && CleanLines(again, nl)
      && forall l :: l in top ==> Free(l, OPEN)
  {
    hide KeptKeys, FmEnd, Free, Splits, Trim, KeepsKey, Fine, HeaderLine, IsBlank, CleanLines;
    var mid := h + d;
    MidLines(h, d, nl);
    FmEndIs(mid, rest);
    CleanAppend([RULE] + mid + [RULE], rest, nl);
    NothingSeparates(rest);
  }

  lemma NothingSeparates(rest: seq<string>)
    requires rest != [] && IsBlank(rest[0])
    ensures Separate(rest) == rest
  {
  }

  lemma MidLines(h: seq<string>, d: seq<string>, nl: string)
    requires (forall l :: l in h ==> HeaderLine(l, nl)) && AllFine(d, nl)
    ensures KeptKeys(h + d) == d && (forall l :: l in h + d ==> Trim(l) != RULE)
    ensures var top := [RULE] + (h + d) + [RULE]; AllSplit(top, nl) && forall l :: l in top ==> Free(l, OPEN)
  {
    hide KeptKeys, Free, Splits, Trim, KeepsKey;
    assert forall l :: l in h + d ==> l in h || l in d;
    assert forall l :: l in d ==> Fine(l, nl);
    KeptAppend(h, d);
    KeptNone(h);
    KeptAll(d);
    assert [] + d == d;
    RuleFine(nl);
  }

  lemma RuleFine(nl: string)
    ensures Splits(RULE, nl) && Free(RULE, OPEN)
  {
    forall i ensures !At(RULE, OPEN, i) {}
  }

  /** The frontmatter the rewrite wrote is the frontmatter it finds, and what is below stays below. */
  lemma ReadsBack(lines: seq<string>, a: HintInput, nl: string)
    requires ValidInput(a) && IsBreak(nl) && CleanLines(lines, nl)
    requires forall i :: 1 <= i < FmEnd(lines) ==> Free(lines[i], OPEN)
    ensures var again := Top(lines, a) + Rest(lines);
      && Rest(again) == Rest(lines)
      && (FmEnd(again) < 0 <==> FmEnd(lines) < 0)
      && (FmEnd(lines) >= 0 ==>
        KeptKeys(again[1..FmEnd(again)]) == Describe(KeptKeys(lines[1..FmEnd(lines)]), Prefix(a.successor)))
      && (forall i :: 1 <= i < FmEnd(again) ==> Free(again[i], OPEN))
      && CleanLines(again, nl)
      && forall l :: l in Top(lines, a) ==> Free(l, OPEN)
  {
    hide Describe, KeptKeys, FmEnd, Free, Header, Prefix, Splits, Trim, KeepsKey;
    var rest := Rest(lines);
    RestIsClean(lines, nl);
    var again := Top(lines, a) + rest;
    if FmEnd(lines) < 0 {
      assert again == rest;
      NoFrontmatter(rest);
    } else {
      var fm := KeptKeys(lines[1..FmEnd(lines)]);
      var d := Describe(fm, Prefix(a.successor));
      var h := Header(a.successor);
      KeptFine(lines, nl);
      DescribeFine(fm, a.successor, nl);
      HeaderLines(a.successor, nl);
      MidReadsBack(h, d, rest, nl);
      Regroup([RULE], h, d);
      forall i | 1 <= i < FmEnd(again) ensures Free(again[i], OPEN) {
        assert again[i] == Top(lines, a)[i];
      }
    }
  }

  lemma NoFrontmatter(rest: seq<string>)
    requires rest != [] && IsBlank(rest[0])
    ensures FmEnd(rest) < 0 && Separate(rest) == rest
  {
  }

  // ----- the last write wins ------------------------------------------------------------------

  /** The description a rewrite would prefix is stable; a SKILL.md without one is, too. */
  ghost predicate StableDescription(md: string) {
    var lines := Lines(StripBanner(md));
    FmEnd(lines) >= 0 ==> StableFm(KeptKeys(lines[1..FmEnd(lines)]))
  }

  lemma BannerSplits(input: HintInput, nl: string)
    requires ValidInput(input)
    ensures AllSplit(Banner(input), nl)
  {
    hide BannerHead, Free;
    BannerLines(input);
    forall l | l in Banner(input) ensures Splits(l, nl) {
      assert l in BannerHead(input) ==> BannerLine(l);
    }
  }

  lemma FrontSplits(xs: seq<string>, rest: seq<string>, nl: string)
    requires CleanLines(xs + rest, nl) && rest != []
    ensures AllSplit(xs, nl)
  {
    forall l | l in xs ensures Splits(l, nl) {
      var i :| 0 <= i < |xs| && xs[i] == l;
      assert (xs + rest)[i] == l;
    }
  }

  /** The written lines are clean. */
  lemma WrittenClean(top: seq<string>, input: HintInput, rest: seq<string>, nl: string)
    requires ValidInput(input) && CleanLines(top + rest, nl) && CleanLines(rest, nl)
    ensures CleanLines(top + Banner(input) + rest, nl) && |top + Banner(input) + rest| > 1
  {
    hide Banner, Splits;
    FrontSplits(top, rest, nl);
    BannerSplits(input, nl);
    assert |Banner(input)| > 1 by { TwoLines(input); }
    CleanAppend(top + Banner(input), rest, nl);
  }

  lemma TwoLines(input: HintInput)
    ensures |Banner(input)| > 1
  {
  }

  /** What the rewrite finds in a file it wrote: the lines it wrote, without the banner. */
  lemma WrittenIsRead(md: string, a: HintInput)
    requires Settled(md) && ValidInput(a)
    ensures var lines, h := Lines(StripBanner(md)), Hint(md, a);
      Lines(StripBanner(h)) == Top(lines, a) + Rest(lines) && NewlineOf(h) == NewlineOf(md) && Settled(h)
  {
    hide Top, Rest, Banner, StripBanner, Lines, FmEnd, CleanLines, NewlineOf, Join, Free;
    var lines, nl := Lines(StripBanner(md)), NewlineOf(md);
    var top, rest := Top(lines, a), Rest(lines);
    ReadsBack(lines, a, nl);
    RestIsClean(lines, nl);
    BannerRemoved(top, a, rest, nl);
    CleanLinesOfJoin(top + rest, nl);
    WrittenClean(top, a, rest, nl);
    NewlineOfJoin(top + Banner(a) + rest, nl);
  }

  lemma SameEnd(a: seq<string>, b: seq<string>, rest: seq<string>)
    ensures a + rest == b + rest <==> a == b
  {
    if a + rest == b + rest {
      assert a == (a + rest)[..|a|] == b;
    }
  }

  lemma SameInside(front: seq<string>, a: seq<string>, b: seq<string>, rest: seq<string>)
    ensures front + a + rest == front + b + rest <==> a == b
  {
    SameEnd(front + a, front + b, rest);
    if front + a == front + b {
      assert a == (front + a)[|front|..] == b;
    }
  }

  /** Two clean lists of lines are the same text only when they are the same lines. */
  lemma SameText(xs: seq<string>, ys: seq<string>, nl: string)
    requires CleanLines(xs, nl) && CleanLines(ys, nl) && IsBreak(nl)
    ensures Join(xs, nl) == Join(ys, nl) <==> xs == ys
  {
    hide Join, Lines;
    CleanLinesOfJoin(xs, nl);
    CleanLinesOfJoin(ys, nl);
  }

  /** The frontmatter written second is the one written alone exactly when the description is stable. */
  lemma TopTwice(lines: seq<string>, a: HintInput, b: HintInput, nl: string)
    requires ValidInput(a) && IsBreak(nl) && CleanLines(lines, nl)
    requires forall i :: 1 <= i < FmEnd(lines) ==> Free(lines[i], OPEN)
    ensures Top(Top(lines, a) + Rest(lines), b) == Top(lines, b) <==>
      (FmEnd(lines) >= 0 ==> StableFm(KeptKeys(lines[1..FmEnd(lines)])))
  {
    hide Rest, Describe, KeptKeys, FmEnd, Free, Header, Prefix, StableFm, CleanLines;
    ReadsBack(lines, a, nl);
    if FmEnd(lines) >= 0 {
      var fm := KeptKeys(lines[1..FmEnd(lines)]);
      DescribeTwice(fm, a.successor, b.successor);
      var once := Describe(fm, Prefix(a.successor));
      SameInside([RULE] + Header(b.successor), Describe(once, Prefix(b.successor)), Describe(fm, Prefix(b.successor)), [RULE]);
    }
  }

  /** Rewriting for one input and then for another equals rewriting for the second alone, if and only
      if the description is stable. With equal inputs: rewriting is idempotent exactly then. */
  lemma LastWriteWins(md: string, a: HintInput, b: HintInput)
    requires Settled(md) && ValidInput(a) && ValidInput(b)
    ensures Hint(Hint(md, a), b) == Hint(md, b) <==> StableDescription(md)
  {
    hide Top, Rest, Banner, StripBanner, Lines, FmEnd, CleanLines, NewlineOf, Join, Free, KeptKeys, StableFm;
    var lines, nl := Lines(StripBanner(md)), NewlineOf(md);
    WrittenIsRead(md, a);
    ReadsBack(lines, a, nl);
    var again := Top(lines, a) + Rest(lines);
    TopTwice(lines, a, b, nl);
    ReadsBack(again, b, nl);
    ReadsBack(lines, b, nl);
    RestIsClean(lines, nl);
    WrittenClean(Top(again, b), b, Rest(lines), nl);
    WrittenClean(Top(lines, b), b, Rest(lines), nl);
    SameEnd(Top(again, b), Top(lines, b), Banner(b));
    SameEnd(Top(again, b) + Banner(b), Top(lines, b) + Banner(b), Rest(lines));
    SameText(Top(again, b) + Banner(b) + Rest(lines), Top(lines, b) + Banner(b) + Rest(lines), nl);
  }

  /** A rewritten file stays stable. */
  lemma StaysStable(md: string, a: HintInput)
    requires Settled(md) && ValidInput(a) && StableDescription(md)
    ensures StableDescription(Hint(md, a))
  {
    WrittenIsRead(md, a);
    LastWriteWins(md, a, a);
    LastWriteWins(Hint(md, a), a, a);
  }

  function HintAll(md: string, inputs: seq<HintInput>): string
    decreases |inputs|
  {
    if inputs == [] then md else HintAll(Hint(md, inputs[0]), inputs[1..])
  }

  /** However often a stable file is rewritten, only the last write shows. */
  lemma {:induction false} OnlyTheLastShows(md: string, inputs: seq<HintInput>)
    requires Settled(md) && StableDescription(md) && inputs != []
    requires forall i :: 0 <= i < |inputs| ==> ValidInput(inputs[i])
    ensures HintAll(md, inputs) == Hint(md, inputs[|inputs| - 1])
    decreases |inputs|
  {
    hide Hint, Settled, StableDescription, ValidInput;
    var first := Hint(md, inputs[0]);
    WrittenIsRead(md, inputs[0]);
    StaysStable(md, inputs[0]);
    if |inputs| > 1 {
      OnlyTheLastShows(first, inputs[1..]);
      LastWriteWins(md, inputs[0], inputs[|inputs| - 1]);
    } else {
      assert HintAll(first, inputs[1..]) == first;
    }
  }

  /** A file without a banner marker is settled. */
  lemma UnmarkedIsSettled(md: string)
    requires Free(md, OPEN)
    ensures Settled(md)
  {
    hide FmEnd, Lines;
    assert StripBanner(md) == md by { NoBanner(md); }
    LinesFree(md, OPEN);
    LinesHaveNoBreak(md);
    var lines, nl := Lines(md), NewlineOf(md);
    if nl == "\n" {
      assert Free(md, "\r\n");
      LinesWithoutCrlf(md);
    }
    forall i | 0 <= i < |lines| - 1 ensures Splits(lines[i], nl) {
      assert lines[i] in lines;
    }
    assert lines[|lines| - 1] in lines;
  }

  lemma NoBanner(md: string)
    requires Free(md, OPEN)
    ensures StripBanner(md) == md
  {
  }

  /** A value after a sequence of rewrites. */
  function Rewritten(v: string, refs: seq<Option<string>>): string {
    if refs == [] then v else PrefixValue(Rewritten(v, refs[..|refs| - 1]), Prefix(refs[|refs| - 1]))
  }

  function Blanks(n: nat): (s: string)
    ensures |s| == n && forall i :: 0 <= i < n ==> s[i] == ' '
  {
    if n == 0 then "" else " " + Blanks(n - 1)
  }

  lemma BlankValue(n: nat, prefix: string)
    ensures !IsQuoted(Blanks(n)) && StripPrefix(TrimEnd(Blanks(n))) == "" && Blanks(n)[CoreLen(Blanks(n))..] == Blanks(n)
    ensures PrefixValue(Blanks(n), prefix) == prefix + Blanks(n)
  {
    var b := Blanks(n);
    CoreLenIs(b, 0);
    assert b[..0] == "" && StripPrefix("") == "";
    assert !IsQuoted(b);
    assert prefix + "" + b == prefix + b;
  }

  /** An empty description is unstable: every rewrite but the first makes it a blank longer. */
  lemma {:induction false} EmptyDescriptionGrows(refs: seq<Option<string>>)
    requires refs != [] && forall k :: 0 <= k < |refs| ==> ValidRef(refs[k])
    ensures Rewritten("", refs) == Prefix(refs[|refs| - 1]) + Blanks(|refs| - 1)
  {
    hide Prefix, PrefixValue, ValidRef, CoreLen, IsQuoted, StripPrefix, TrimEnd;
    var before, last := refs[..|refs| - 1], refs[|refs| - 1];
    if before == [] {
      BlankValue(0, Prefix(last));
    } else {
      var n, a := |before| - 1, before[|before| - 1];
      EmptyDescriptionGrows(before);
      BlankValue(n, Prefix(a));
      EmptyTwice(Blanks(n), a, Prefix(last));
      assert Prefix(last) + " " + Blanks(n) == Prefix(last) + (" " + Blanks(n));
    }
  }

  // ----- two files on which the last write does not win --------------------------------------

  /** A SKILL.md with one line of frontmatter and no body. */
  function OneLineFile(l: string): string { Join([RULE, l, RULE, ""], "\n") }

  lemma OneLineText(l: string)
    ensures OneLineFile(l) == RULE + ("\n" + (l + ("\n" + (RULE + ("\n" + "")))))
  {
    JoinHead([RULE, l, RULE, ""], "\n");
    assert [RULE, l, RULE, ""][1..] == [l, RULE, ""];
    JoinHead([l, RULE, ""], "\n");
    assert [l, RULE, ""][1..] == [RULE, ""];
    JoinHead([RULE, ""], "\n");
    assert [RULE, ""][1..] == [""];
    JoinSingle("", "\n");
  }

  lemma NoMarkerInside(s: string)
    requires '<' !in s
    ensures Free(s, OPEN)
  {
    forall i ensures !At(s, OPEN, i) {
      if At(s, OPEN, i) {
        AtChar(s, OPEN, i, 0);
      }
    }
  }

  lemma OneLineLines(l: string)
    requires '\n' !in l && '\r' !in l && '<' !in l
    ensures Settled(OneLineFile(l)) && StripBanner(OneLineFile(l)) == OneLineFile(l)
    ensures Lines(OneLineFile(l)) == [RULE, l, RULE, ""]
  {
    hide Join, Lines, Settled, StripBanner, Free, Splits;
    var md, ls := OneLineFile(l), [RULE, l, RULE, ""];
    OneLineText(l);
    assert '<' !in md;
    NoMarkerInside(md);
    UnmarkedIsSettled(md);
    NoBanner(md);
    OneLineClean(l);
    CleanLinesOfJoin(ls, "\n");
  }

  lemma OneLineClean(l: string)
    requires '\n' !in l && '\r' !in l
    ensures CleanLines([RULE, l, RULE, ""], "\n")
  {
  }

  /** Its description is stable when that line is. */
  lemma OneLineStable(l: string)
    requires IsDescription(l) && '\n' !in l && '\r' !in l && '<' !in l
    ensures StableDescription(OneLineFile(l)) <==> StableLine(l)
  {
    hide Trim, FmEnd, StableLine, IsDescription, KeepsKey, StripBanner, Lines;
    OneLineLines(l);
    DescriptionFine(l);
    var lines := [RULE, l, RULE, ""];
    assert [RULE] + [l] + [RULE] + [""] == lines;
    FmEndIs([l], [""]);
    assert [l][1..] == [] && KeptKeys([]) == [];
    assert KeptKeys([l]) == [l];
    assert StableFm([l]) == StableLine(l);
  }

  /** For a file with an empty description the last write never wins: the text differs from a single one. */
  lemma EmptyDescriptionFile(a: HintInput, b: HintInput)
    requires ValidInput(a) && ValidInput(b)
    ensures var md := OneLineFile("description:"); Settled(md) && Hint(Hint(md, a), b) != Hint(md, b)
  {
    hide *;
    EmptyLine();
    UnstableFile("description:", a, b);
  }

  lemma UnstableFile(l: string, a: HintInput, b: HintInput)
    requires ValidInput(a) && ValidInput(b) && IsDescription(l) && !StableLine(l)
    requires '\n' !in l && '\r' !in l && '<' !in l
    ensures var md := OneLineFile(l); Settled(md) && Hint(Hint(md, a), b) != Hint(md, b)
  {
    hide StableDescription, Settled, ValidInput, IsDescription, StableLine, Hint, OneLineFile, StripBanner, Lines;
    OneLineLines(l);
    OneLineStable(l);
    LastWriteWins(OneLineFile(l), a, b);
  }

  lemma EmptyLine()
    ensures IsDescription("description:") && !StableLine("description:")
  {
    hide StableValue, IsBlockMark;
    var l := "description:";
    DescriptionLine(l);
    NothingStable();
    ColonAt(l, 11);
    assert l[12..] == "";
    assert ValuePart(l) == "" && Trim("") == "";
  }

  lemma DescriptionLine(l: string)
    requires l == "description:"
    ensures IsDescription(l)
  {
    assert l[11..] == ":";
  }

  lemma NothingStable()
    ensures !StableValue("") && !IsBlockMark("")
  {
  }

  /** Nor for a quoted one that starts with a blank. */
  lemma BlankInQuotesFile(a: HintInput, b: HintInput)
    requires ValidInput(a) && ValidInput(b)
    ensures var md := OneLineFile("description: ' x'"); Settled(md) && Hint(Hint(md, a), b) != Hint(md, b)
  {
    hide *;
    BlankInQuotesLine();
    UnstableFile("description: ' x'", a, b);
  }

  lemma BlankInQuotesLine()
    ensures IsDescription("description: ' x'") && !StableLine("description: ' x'")
  {
    var l := "description: ' x'";
    assert l[11..] == ": ' x'";
    ColonAt(l, 11);
    assert l[12..] == " ' x'";
    assert ValuePart(l) == "' x'" by { TrimsOne(" ' x'", "' x'"); }
    BlankInQuotes("' x'");
    NotABlock(l, "' x'");
    hide *;
  }

  lemma TrimsOne(s: string, rest: string)
    requires s == " " + rest && rest != "" && !IsSpace(rest[0])
    ensures TrimStart(s) == rest
  {
    SpaceRunIs(s, 1);
  }

  lemma BlankInQuotes(v: string)
    requires v == "' x'"
    ensures !StableValue(v)
  {
    assert v[4..] == "" && Closes(v, 3) && !Closes(v, 1) && !Closes(v, 2);
    assert ClosingQuote(v, 1) == 3;
    assert v[1..3] == " x" && !At(" x", "DEPRECATED", 0);
  }

  lemma NotABlock(l: string, v: string)
    requires IsDescription(l) && ValuePart(l) == v && v != "" && v[0] == '\''
    ensures !IsBlock(l)
  {
    LetterIsNoSpace();
    NotBlock(l);
  }

  lemma ColonAt(l: string, c: nat)
    requires c < |l| && l[c] == ':' && ':' !in l[..c]
    ensures Colon(l) == c
  {
    AtColon(l, c);
    forall i | 0 <= i < c ensures !At(l, ":", i) {
      AtColon(l, i);
      assert l[i] in l[..c];
    }
  }
}
