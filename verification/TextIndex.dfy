/**
 Text indexed for excerpts (`indexText` and `locateExcerpt` of packages/shared/src/ai-prereview-run.ts):
 one scan builds the text with its white space collapsed and a map from its characters back to source
 lines.
 */
module TextIndex {
  import opened Common
  import opened TextLines

  // ----- the simple form ----------------------------------------------------------------------

  /** `s.replace(/\s+/g, " ")` */
  function Squeezed(s: string): string
    decreases |s|
  {
    if s == "" then ""
    else if IsSpace(s[0]) then
      assert SpaceRun(s) > 0;
      " " + Squeezed(s[SpaceRun(s)..])
    else [s[0]] + Squeezed(s[1..])
  }

  /** Runs of white space collapsed to one blank, and none at the ends. */
  function CollapseWhitespace(s: string): string { Trim(Squeezed(s)) }

  // ----- the scan -----------------------------------------------------------------------------

  /** A character of the collapsed text with the source index of the word character it is, or, for a
      blank, of the one it comes before. */
  datatype Entry = Entry(c: char, at: nat)

  /** What the scan still emits from i on: whether a blank is owed, and whether anything was emitted. */
  function Emitted(text: string, i: nat, gap: bool, started: bool): seq<Entry>
    decreases |text| - i
  {
    if i >= |text| then []
    else if IsSpace(text[i]) then Emitted(text, i + 1, gap || started, started)
    else (if gap then [Entry(' ', i), Entry(text[i], i)] else [Entry(text[i], i)]) + Emitted(text, i + 1, false, true)
  }

  function Chars(es: seq<Entry>): (s: string)
    ensures |s| == |es| && forall k :: 0 <= k < |es| ==> s[k] == es[k].c
  {
    seq(|es|, k requires 0 <= k < |es| => es[k].c)
  }

  function Newlines(s: string): nat {
    if s == "" then 0 else Newlines(s[..|s| - 1]) + if s[|s| - 1] == '\n' then 1 else 0
  }

  /** 1 and the newlines before an index. */
  function LineOf(text: string, i: nat): nat
    requires i <= |text|
  {
    1 + Newlines(text[..i])
  }

  function LinesAt(text: string, es: seq<Entry>): (ls: seq<nat>)
    requires forall k :: 0 <= k < |es| ==> es[k].at <= |text|
    ensures |ls| == |es| && forall k :: 0 <= k < |es| ==> ls[k] == LineOf(text, es[k].at)
  {
    seq(|es|, k requires 0 <= k < |es| => LineOf(text, es[k].at))
  }

  datatype Index = Index(collapsed: string, lineAt: seq<nat>)

  /** Entries in source order from i on, each at a word character. */
  ghost predicate InOrder(text: string, i: nat, es: seq<Entry>) {
    && (forall k :: 0 <= k < |es| ==> i <= es[k].at < |text| && !IsSpace(text[es[k].at]))
    && (forall k :: 0 <= k < |es| ==> es[k].c == ' ' || es[k].c == text[es[k].at])
    && (forall j, k :: 0 <= j < k < |es| ==> es[j].at <= es[k].at)
    && (forall j, k :: 0 <= j < k < |es| && es[j].c != ' ' ==> es[j].at < es[k].at)
  }

  lemma PrependEntry(text: string, i: nat, e: Entry, es: seq<Entry>)
    requires i < |text| && !IsSpace(text[i]) && e.at == i && (e.c == ' ' || e.c == text[i])
    requires InOrder(text, if e.c == ' ' then i else i + 1, es)
    ensures InOrder(text, i, [e] + es)
  {
    hide IsSpace;
    var all := [e] + es;
    assert forall k :: 0 < k < |all| ==> all[k] == es[k - 1];
  }

  lemma {:induction false} EntriesInOrder(text: string, i: nat, gap: bool, started: bool)
    ensures InOrder(text, i, Emitted(text, i, gap, started))
    decreases |text| - i
  {
    hide IsSpace;
    if i < |text| {
      if IsSpace(text[i]) {
        EntriesInOrder(text, i + 1, gap || started, started);
      } else {
        assert text[i] != ' ' by { NewlineIsSpace(); }
        var rest := Emitted(text, i + 1, false, true);
        EntriesInOrder(text, i + 1, false, true);
        PrependEntry(text, i, Entry(text[i], i), rest);
        if gap {
          PrependEntry(text, i, Entry(' ', i), [Entry(text[i], i)] + rest);
          assert [Entry(' ', i)] + ([Entry(text[i], i)] + rest) == [Entry(' ', i), Entry(text[i], i)] + rest;
        }
      }
    }
  }

  lemma {:induction false} MoreNewlines(s: string, i: nat, j: nat)
    requires i <= j <= |s|
    ensures Newlines(s[..i]) <= Newlines(s[..j])
  {
    if i < j {
      MoreNewlines(s, i, j - 1);
      assert s[..j][..j - 1] == s[..j - 1];
    }
  }

  /** Build the index in one scan. */
  method IndexText(text: string) returns (index: Index)
    ensures var es := Emitted(text, 0, false, false);
      && (forall k :: 0 <= k < |es| ==> es[k].at <= |text|)
      && index.collapsed == Chars(es) && index.lineAt == LinesAt(text, es)
  {
    hide IsSpace, Newlines;
    ghost var all := Emitted(text, 0, false, false);
    EntriesInOrder(text, 0, false, false);
    ghost var es: seq<Entry> := [];
    assert text[..0] == "" && Newlines("") == 0 by { NoNewlines(); }
    var collapsed: string, lineAt: seq<nat>, line, pendingSpace := "", [], 1, false;
    for i := 0 to |text|
      invariant line == LineOf(text, i) && |collapsed| == |lineAt| == |es|
      invariant all == es + Emitted(text, i, pendingSpace, collapsed != "")
      invariant forall k :: 0 <= k < |es| ==> es[k].at < i && collapsed[k] == es[k].c && lineAt[k] == LineOf(text, es[k].at)
    {
      var ch := text[i];
      NextLine(text, i);
      if IsSpace(ch) {
        if |collapsed| > 0 {
          pendingSpace := true;
        }
        if ch == '\n' {
          line := line + 1;
        }
        continue;
      }
      assert ch != '\n' by { NewlineIsSpace(); }
      ghost var now := if pendingSpace then [Entry(' ', i), Entry(ch, i)] else [Entry(ch, i)];
      Regroup(es, now, Emitted(text, i + 1, false, true));
      if pendingSpace {
        collapsed, lineAt, pendingSpace := collapsed + " ", lineAt + [line], false;
      }
      collapsed, lineAt := collapsed + [ch], lineAt + [line];
      es := es + now;
    }
    assert all == es;
    index := Index(collapsed, lineAt);
    assert collapsed == Chars(all) && lineAt == LinesAt(text, all);
  }

  lemma NoNewlines()
    ensures Newlines("") == 0
  {
  }

  lemma NextLine(text: string, i: nat)
    requires i < |text|
    ensures LineOf(text, i + 1) == LineOf(text, i) + if text[i] == '\n' then 1 else 0
  {
    assert text[..i + 1][..i] == text[..i];
  }

  lemma NewlineIsSpace()
    ensures IsSpace('\n') && IsSpace(' ')
  {
  }

  // ----- the scan is the simple form ----------------------------------------------------------

  /** Trailing white space, seen from the front. */
  lemma TrimEndCons(c: char, x: string)
    ensures TrimEnd([c] + x) == if TrimEnd(x) == "" then (if IsSpace(c) then "" else [c]) else [c] + TrimEnd(x)
  {
    hide IsSpace;
    var s := [c] + x;
    var n := CoreLen(x);
    if n == 0 {
      if IsSpace(c) {
        CoreLenIs(s, 0);
      } else {
        CoreLenIs(s, 1);
      }
    } else {
      CoreLenIs(s, n + 1);
      assert s[..n + 1] == [c] + x[..n];
    }
  }

  /** What the scan is to emit from a text on: the simple form, and behind a blank when one is owed. */
  function Simple(s: string, gap: bool, started: bool): string {
    if !started then TrimEnd(Squeezed(TrimStart(s)))
    else if gap then TrimEnd(" " + Squeezed(TrimStart(s)))
    else TrimEnd(Squeezed(s))
  }

  lemma SimpleSpace(s: string, gap: bool, started: bool)
    requires s != "" && IsSpace(s[0]) && (gap ==> started)
    ensures Simple(s, gap, started) == Simple(s[1..], gap || started, started)
  {
    hide Squeezed, TrimStart, TrimEnd;
    SqueezedSpace(s);
  }

  lemma SimpleWord(s: string, gap: bool, started: bool)
    requires s != "" && !IsSpace(s[0]) && (gap ==> started)
    ensures Simple(s, gap, started) == (if gap then [' ', s[0]] else [s[0]]) + Simple(s[1..], false, true)
  {
    hide Squeezed, TrimStart, TrimEnd, IsSpace;
    WordStart(s);
    TrimEndCons(s[0], Squeezed(s[1..]));
    TrimEndCons(' ', Squeezed(s));
    var rest := TrimEnd(Squeezed(s[1..]));
    assert [' '] + ([s[0]] + rest) == [' ', s[0]] + rest;
    assert TrimEnd(Squeezed(s)) == [s[0]] + rest;
  }

  lemma {:induction false} EmitsSimple(text: string, i: nat, gap: bool, started: bool)
    requires i <= |text| && (gap ==> started)
    ensures Chars(Emitted(text, i, gap, started)) == Simple(text[i..], gap, started)
    decreases |text| - i
  {
    hide IsSpace, Simple;
    var s := text[i..];
    if i == |text| {
      assert s == "";
      NothingLeft(gap, started);
    } else {
      assert s[0] == text[i] && s[1..] == text[i + 1..];
      if IsSpace(text[i]) {
        EmitsSimple(text, i + 1, gap || started, started);
        SimpleSpace(s, gap, started);
      } else {
        EmitsSimple(text, i + 1, false, true);
        SimpleWord(s, gap, started);
        EmittedChars(text, i, gap, started);
      }
    }
  }

  lemma EmittedChars(text: string, i: nat, gap: bool, started: bool)
    requires i < |text| && !IsSpace(text[i])
    ensures Chars(Emitted(text, i, gap, started)) ==
      (if gap then [' ', text[i]] else [text[i]]) + Chars(Emitted(text, i + 1, false, true))
  {
    hide IsSpace;
  }

  lemma NothingLeft(gap: bool, started: bool)
    ensures Simple("", gap, started) == ""
  {
    NewlineIsSpace();
    assert " " + "" == " ";
    CoreLenIs(" ", 0);
  }

  lemma SqueezedSpace(s: string)
    requires s != "" && IsSpace(s[0])
    ensures Squeezed(s) == " " + Squeezed(TrimStart(s)) && TrimStart(s) == TrimStart(s[1..])
  {
    assert s[SpaceRun(s)..] == s[1..][SpaceRun(s[1..])..];
  }

  lemma WordStart(s: string)
    requires s != "" && !IsSpace(s[0])
    ensures TrimStart(s) == s && Squeezed(s) == [s[0]] + Squeezed(s[1..])
    ensures TrimEnd(Squeezed(s)) != ""
  {
    SpaceRunIs(s, 0);
    TrimEndCons(s[0], Squeezed(s[1..]));
  }

  /** Squeezing keeps where white space starts. */
  lemma SqueezedTrimStart(s: string)
    ensures TrimStart(Squeezed(s)) == Squeezed(TrimStart(s))
  {
    var t := TrimStart(s);
    if t != "" {
      assert !IsSpace(t[0]);
      assert Squeezed(t)[0] == t[0];
    }
    if s != "" && IsSpace(s[0]) {
      SqueezedSpace(s);
      NewlineIsSpace();
      var q := " " + Squeezed(t);
      SpaceRunIs(q, 1);
      assert q[1..] == Squeezed(t);
    } else {
      SpaceRunIs(Squeezed(s), 0);
      assert SpaceRun(s) == 0;
    }
  }

  /** The scan's text is the collapsed text, from the start and from any of its words on. */
  lemma ScanIsCollapse(text: string, i: nat)
    requires i <= |text|
    ensures Chars(Emitted(text, i, false, false)) == CollapseWhitespace(text[i..])
  {
    hide Squeezed, TrimEnd, TrimStart, Emitted;
    EmitsSimple(text, i, false, false);
    SqueezedTrimStart(text[i..]);
  }

  /** The index is the simple form, with one line for each of its characters, never decreasing. */
  lemma IndexRefines(text: string)
    ensures var es := Emitted(text, 0, false, false);
      && (forall k :: 0 <= k < |es| ==> es[k].at <= |text|)
      && Chars(es) == CollapseWhitespace(text) && |LinesAt(text, es)| == |CollapseWhitespace(text)|
      && forall j, k :: 0 <= j < k < |es| ==> LinesAt(text, es)[j] <= LinesAt(text, es)[k]
  {
    hide Emitted, CollapseWhitespace, IsSpace;
    EntriesInOrder(text, 0, false, false);
    ScanIsCollapse(text, 0);
    assert text[0..] == text;
    var es := Emitted(text, 0, false, false);
    forall j, k | 0 <= j < k < |es| ensures LinesAt(text, es)[j] <= LinesAt(text, es)[k] {
      MoreNewlines(text, es[j].at, es[k].at);
    }
  }

  // ----- locating an excerpt ------------------------------------------------------------------

  /** The excerpt occurs at a source index: there the text, collapsed, starts with it. */
  predicate OccursAt(text: string, needle: string, p: nat) {
    p < |text| && !IsSpace(text[p]) && needle <= CollapseWhitespace(text[p..])
  }

  /** Behind a word's entry the scan goes on as it would start there. */
  lemma {:induction false} SuffixIsScan(text: string, i: nat, gap: bool, started: bool, k: nat)
    requires k < |Emitted(text, i, gap, started)| && Emitted(text, i, gap, started)[k].c != ' '
    ensures var e := Emitted(text, i, gap, started)[k];
      e.at < |text| && !IsSpace(text[e.at]) && Emitted(text, i, gap, started)[k..] == Emitted(text, e.at, false, false)
    decreases |text| - i
  {
    NewlineIsSpace();
    hide IsSpace;
    var es := Emitted(text, i, gap, started);
    if IsSpace(text[i]) {
      SuffixIsScan(text, i + 1, gap || started, started, k);
    } else {
      var rest := Emitted(text, i + 1, false, true);
      var w := if gap then 1 else 0;
      if k > w {
        assert es[k..] == rest[k - w - 1..];
        SuffixIsScan(text, i + 1, false, true, k - w - 1);
      } else {
        assert k == w;
        assert es[k..] == [Entry(text[i], i)] + rest;
      }
    }
  }

  /** Every word character has its entry. */
  lemma {:induction false} EntryOf(text: string, i: nat, gap: bool, started: bool, p: nat) returns (k: nat)
    requires i <= p < |text| && !IsSpace(text[p])
    ensures k < |Emitted(text, i, gap, started)| && Emitted(text, i, gap, started)[k] == Entry(text[p], p) && text[p] != ' '
    decreases |text| - i
  {
    NewlineIsSpace();
    hide IsSpace;
    if i == p {
      k := if gap then 1 else 0;
    } else if IsSpace(text[i]) {
      k := EntryOf(text, i + 1, gap || started, started, p);
    } else {
      k := EntryOf(text, i + 1, false, true, p);
      k := k + if gap then 2 else 1;
    }
  }

  /** The excerpt is in the collapsed text at k exactly when it occurs at k's source index. */
  lemma OccursIff(text: string, needle: string, k: nat)
    requires needle != "" && !IsSpace(needle[0])
    ensures var es := Emitted(text, 0, false, false);
      k < |es| && es[k].c != ' ' ==> (At(Chars(es), needle, k) <==> OccursAt(text, needle, es[k].at))
  {
    hide CollapseWhitespace, IsSpace;
    var es := Emitted(text, 0, false, false);
    if k < |es| && es[k].c != ' ' {
      SuffixIsScan(text, 0, false, false, k);
      ScanIsCollapse(text, es[k].at);
      var s := Chars(es);
      assert s[k..] == Chars(es[k..]);
      assert At(s, needle, k) <==> needle <= s[k..];
    }
  }

  /** 1 and the newlines before the excerpt's first occurrence, white space aside; nothing when it does not
      occur or is blank. */
  method Locate(text: string, index: Index, excerpt: string) returns (line: Option<nat>)
    requires var es := Emitted(text, 0, false, false);
      (forall k :: 0 <= k < |es| ==> es[k].at <= |text|) && index == Index(Chars(es), LinesAt(text, es))
    ensures var needle := CollapseWhitespace(excerpt);
      && (line.None? <==> needle == "" || forall p :: 0 <= p < |text| ==> !OccursAt(text, needle, p))
      && (line.Some? ==> exists p :: (
        && 0 <= p < |text| && OccursAt(text, needle, p) && line.value == LineOf(text, p)
        && forall q :: 0 <= q < p ==> !OccursAt(text, needle, q)))
  {
    hide Emitted, CollapseWhitespace, IsSpace, OccursAt, At, IndexOf;
    var needle := CollapseWhitespace(excerpt);
    if needle == "" {
      return None;
    }
    NeedleStarts(excerpt);
    ghost var es := Emitted(text, 0, false, false);
    var idx := IndexOf(index.collapsed, needle, 0);
    if idx < 0 {
      forall p | 0 <= p < |text| ensures !OccursAt(text, needle, p) {
        NotFoundAt(text, needle, p);
      }
      return None;
    }
    FoundAt(text, needle, idx);
    line := Some(index.lineAt[idx]);
    assert OccursAt(text, needle, es[idx].at);
  }

  lemma NeedleStarts(excerpt: string)
    ensures CollapseWhitespace(excerpt) != "" ==> !IsSpace(CollapseWhitespace(excerpt)[0])
  {
    hide Squeezed, IsSpace;
    var t := TrimStart(Squeezed(excerpt));
    assert t != "" ==> !IsSpace(t[0]);
  }

  lemma NotFoundAt(text: string, needle: string, p: nat)
    requires p < |text| && needle != "" && !IsSpace(needle[0])
    requires IndexOf(Chars(Emitted(text, 0, false, false)), needle, 0) < 0
    ensures !OccursAt(text, needle, p)
  {
    hide Emitted, CollapseWhitespace, IsSpace, At, IndexOf;
    if !IsSpace(text[p]) {
      var k := EntryOf(text, 0, false, false, p);
      OccursIff(text, needle, k);
      assert !At(Chars(Emitted(text, 0, false, false)), needle, k);
    }
  }

  /** The first place in the collapsed text is the first occurrence. */
  lemma FoundAt(text: string, needle: string, idx: nat)
    requires needle != "" && !IsSpace(needle[0]) && IndexOf(Chars(Emitted(text, 0, false, false)), needle, 0) == idx
    ensures var es := Emitted(text, 0, false, false);
      && idx < |es| && es[idx].at < |text| && OccursAt(text, needle, es[idx].at)
      && forall q :: 0 <= q < es[idx].at ==> !OccursAt(text, needle, q)
  {
    NewlineIsSpace();
    hide Emitted, CollapseWhitespace, IsSpace, IndexOf;
    var es := Emitted(text, 0, false, false);
    EntriesInOrder(text, 0, false, false);
    AtChar(Chars(es), needle, idx, 0);
    OccursIff(text, needle, idx);
    forall q | 0 <= q < es[idx].at ensures !OccursAt(text, needle, q) {
      if !IsSpace(text[q]) {
        var k := EntryOf(text, 0, false, false, q);
        OccursIff(text, needle, k);
        assert k < idx;
      }
    }
  }
}
