/**
 What a reader of a diff (packages/shared/src/linediff.ts) sees: of all scripts with the fewest changes it is
 the first one in the order context, deletion, addition, and its hunks show exactly the lines within three
 lines of a change.
 */
module LineDiffOrder {
  import opened LineDiff

  // ----- deletions first ----------------------------------------------------------------------

  /** Context comes before deletions, and deletions before additions. */
  function Rank(kind: LineKind): nat {
    match kind
    case Context => 0
    case Del => 1
    case Add => 2
  }

  /** The first place where two scripts differ in kind, if any, has the lower kind in the first one. */
  ghost predicate NotAfter(script: seq<DiffLine>, other: seq<DiffLine>) {
    script == [] ||
    (other != [] &&
     (Rank(script[0].kind) < Rank(other[0].kind)
      || (script[0].kind == other[0].kind && NotAfter(script[1..], other[1..]))))
  }

  /** What is left of the texts and of the common lines behind a script's first line. */
  lemma RestTransforms(script: seq<DiffLine>, a: seq<string>, b: seq<string>, i: nat, j: nat) returns (i': nat, j': nat)
    requires i <= |a| && j <= |b| && script != [] && Transforms(script, a[i..], b[j..])
    ensures i' == (if script[0].kind != Add then i + 1 else i) <= |a|
    ensures j' == (if script[0].kind != Del then j + 1 else j) <= |b|
    ensures Transforms(script[1..], a[i'..], b[j'..])
    ensures Count(script[1..], Context) == Count(script, Context) - (if script[0].kind == Context then 1 else 0)
    ensures script[0].kind == Context ==> a[i] == b[j]
  {
    var first, rest := script[0], script[1..];
    assert Count(script, Context) == (if first.kind == Context then 1 else 0) + Count(rest, Context);
    hide OldText, NewText, Count;
    SidesOfCons(first, rest);
    assert script == [first] + rest;
    i' := Behind(first.kind != Add, first.text, OldText(rest), a, i);
    j' := Behind(first.kind != Del, first.text, NewText(rest), b, j);
  }

  /** What is left of a side behind a line that is on it or not. */
  lemma Behind(on: bool, text: string, rest: seq<string>, side: seq<string>, i: nat) returns (i': nat)
    requires i <= |side| && (if on then [text] else []) + rest == side[i..]
    ensures i' == (if on then i + 1 else i) <= |side| && rest == side[i'..]
    ensures on ==> side[i] == text
  {
    i' := if on then i + 1 else i;
    if on {
      assert ([text] + rest)[0] == text == side[i..][0] && ([text] + rest)[1..] == rest == side[i..][1..];
    } else {
      assert [] + rest == rest;
    }
  }

  /** Of all scripts that keep as many lines, the edit script comes first. */
  lemma {:induction false} EditScriptFirst(a: seq<string>, b: seq<string>, i: nat, j: nat, other: seq<DiffLine>)
    requires i <= |a| && j <= |b| && Transforms(other, a[i..], b[j..])
    requires Count(other, Context) == Count(EditScript(a, b, i, j), Context)
    ensures NotAfter(EditScript(a, b, i, j), other)
    decreases |a| - i + |b| - j
  {
    EditScriptKeepsLcs(a, b, i, j);
    if i < |a| || j < |b| {
      assert other != [];
      var first, p, q := EditScriptHead(a, b, i, j);
      var i', j' := RestTransforms(other, a, b, i, j);
      EditScriptKeepsLcs(a, b, p, q);
      NoScriptBeatsLcs(other[1..], a, b, i', j');
      if first.kind == other[0].kind {
        EditScriptFirst(a, b, p, q, other[1..]);
        assert EditScript(a, b, i, j)[1..] == EditScript(a, b, p, q);
      }
    }
  }

  lemma NoDeletionBehind(a: seq<string>, b: seq<string>, i: nat, j: nat)
    requires i <= |a| && j < |b| && EditScript(a, b, i, j)[0].kind == Add
    ensures var rest := EditScript(a, b, i, j + 1); rest != [] ==> rest[0].kind != Del
  {
    if i < |a| {
      LcsDropFirst(a, b, i + 1, j);
      assert Lcs(a, b, i + 1, j) < Lcs(a, b, i, j + 1);
    }
  }

  /** Where lines were replaced, the old ones stand before the new ones. */
  lemma {:induction false} DeletionsFirst(a: seq<string>, b: seq<string>, i: nat, j: nat)
    requires i <= |a| && j <= |b|
    ensures var script := EditScript(a, b, i, j);
      forall k :: 0 <= k < |script| - 1 && script[k].kind == Add ==> script[k + 1].kind != Del
    decreases |a| - i + |b| - j
  {
    if i < |a| || j < |b| {
      var first, p, q := EditScriptHead(a, b, i, j);
      var script, rest := EditScript(a, b, i, j), EditScript(a, b, p, q);
      DeletionsFirst(a, b, p, q);
      if first.kind == Add {
        NoDeletionBehind(a, b, i, j);
      }
      forall k | 0 <= k < |script| - 1 && script[k].kind == Add ensures script[k + 1].kind != Del {
        assert k > 0 ==> rest[k - 1] == script[k] && rest[k] == script[k + 1];
      }
    }
  }

  // ----- what the hunks show ------------------------------------------------------------------

  /** A change stands within three lines. */
  ghost predicate Shown(script: seq<DiffLine>, x: int) {
    exists k :: 0 <= k < |script| && script[k].kind != Context && x - 3 <= k <= x + 3
  }

  /** The lines from p on that are shown. */
  ghost function ShownFrom(script: seq<DiffLine>, p: nat): seq<DiffLine>
    requires p <= |script|
    decreases |script| - p
  {
    if p == |script| then [] else (if Shown(script, p) then [script[p]] else []) + ShownFrom(script, p + 1)
  }

  function HunkLines(hunks: seq<Hunk>): seq<DiffLine> {
    if hunks == [] then [] else hunks[0].lines + HunkLines(hunks[1..])
  }

  lemma {:induction false} ShownRun(script: seq<DiffLine>, p: nat, q: nat)
    requires p <= q <= |script| && forall x :: p <= x < q ==> Shown(script, x)
    ensures ShownFrom(script, p) == script[p..q] + ShownFrom(script, q)
    decreases q - p
  {
    hide Shown;
    if p < q {
      ShownRun(script, p + 1, q);
      assert script[p..q] == [script[p]] + script[p + 1..q];
      assert Shown(script, p);
      var rest := ShownFrom(script, q);
      assert [script[p]] + (script[p + 1..q] + rest) == [script[p]] + script[p + 1..q] + rest;
    } else {
      assert script[p..q] == [];
    }
  }

  lemma {:induction false} HiddenRun(script: seq<DiffLine>, p: nat, q: nat)
    requires p <= q <= |script| && forall x :: p <= x < q ==> !Shown(script, x)
    ensures ShownFrom(script, p) == ShownFrom(script, q)
    decreases q - p
  {
    hide Shown;
    if p < q {
      HiddenRun(script, p + 1, q);
    }
  }

  /** Where the hunks before the r-th end. */
  function EndBefore(ranges: seq<(nat, nat)>, r: nat): nat
    requires r <= |ranges|
  {
    if r == 0 then 0 else ranges[r - 1].1 + 1
  }

  /** The lines up to the r-th run are hidden, those of the run are shown. */
  lemma RunIsShown(script: seq<DiffLine>, ranges: seq<(nat, nat)>, r: nat)
    requires MaximalRuns(script, ranges) && r <= |ranges|
    ensures var p, end: nat := EndBefore(ranges, r), if r == |ranges| then |script| else ranges[r].0;
      p <= end <= |script| && (forall x :: p <= x < end ==> !Shown(script, x))
    ensures r < |ranges| ==> ranges[r].0 <= ranges[r].1 < |script|
    ensures r < |ranges| ==> forall x :: ranges[r].0 <= x <= ranges[r].1 ==> Shown(script, x)
  {
    hide Near, Shown, Covered;
    var p, end: nat := EndBefore(ranges, r), if r == |ranges| then |script| else ranges[r].0;
    forall x | p <= x < end ensures !Shown(script, x) {
      GapNotCovered(ranges, r, x);
      NearIsShown(script, x);
    }
    if r < |ranges| {
      forall x | ranges[r].0 <= x <= ranges[r].1 ensures Shown(script, x) {
        InRun(ranges, r, x);
        NearIsShown(script, x);
      }
    }
  }

  lemma InRun(ranges: seq<(nat, nat)>, r: nat, x: int)
    requires r < |ranges| && ranges[r].0 <= x <= ranges[r].1
    ensures Covered(ranges, x)
  {
  }

  lemma NearIsShown(script: seq<DiffLine>, x: int)
    ensures Near(script, x) <==> Shown(script, x)
  {
  }

  ghost predicate InBounds(script: seq<DiffLine>, ranges: seq<(nat, nat)>) {
    forall r :: 0 <= r < |ranges| ==> ranges[r].0 <= ranges[r].1 < |script|
  }

  lemma {:induction false} HunksShowFrom(script: seq<DiffLine>, ranges: seq<(nat, nat)>, r: nat)
    requires MaximalRuns(script, ranges) && r <= |ranges| && InBounds(script, ranges)
    ensures HunkLines(HunksOf(script, ranges[r..])) == ShownFrom(script, EndBefore(ranges, r))
    decreases |ranges| - r
  {
    hide MaximalRuns, Shown, HunksOf, HunkLines;
    RunIsShown(script, ranges, r);
    var p := EndBefore(ranges, r);
    if r == |ranges| {
      HiddenRun(script, p, |script|);
      assert ranges[r..] == [];
      NoHunks(script);
    } else {
      var (s, e) := ranges[r];
      HiddenRun(script, p, s);
      ShownRun(script, s, e + 1);
      HunksShowFrom(script, ranges, r + 1);
      FirstHunk(script, ranges[r], ranges[r + 1..]);
      assert ranges[r..] == [ranges[r]] + ranges[r + 1..];
    }
  }

  lemma NoHunks(script: seq<DiffLine>)
    ensures HunkLines(HunksOf(script, [])) == []
  {
  }

  lemma FirstHunk(script: seq<DiffLine>, range: (nat, nat), rest: seq<(nat, nat)>)
    requires InBounds(script, [range] + rest) && InBounds(script, rest) && range.0 <= range.1 < |script|
    ensures HunkLines(HunksOf(script, [range] + rest)) == script[range.0..range.1 + 1] + HunkLines(HunksOf(script, rest))
  {
    hide FirstOld, FirstNew;
    assert ([range] + rest)[1..] == rest;
    var h, hs := HunkAt(script, range), HunksOf(script, rest);
    assert HunksOf(script, [range] + rest) == [h] + hs;
    assert ([h] + hs)[1..] == hs;
  }

  /** One hunk: its lines are lines of the script in a row; it starts behind the lines before it on each side,
      at 0 on a side where it has none. */
  ghost predicate StandsAt(script: seq<DiffLine>, h: Hunk, s: nat, e: nat) {
    && s < e <= |script| && h.lines == script[s..e]
    && h.oldLines == |OldText(h.lines)| && h.newLines == |NewText(h.lines)|
    && h.oldStart == (if OldText(h.lines) == [] then 0 else |OldText(script[..s])| + 1)
    && h.newStart == (if NewText(h.lines) == [] then 0 else |NewText(script[..s])| + 1)
  }

  lemma HunkStands(script: seq<DiffLine>, range: (nat, nat))
    requires Numbered(script, 1, 1) && range.0 <= range.1 < |script|
    ensures StandsAt(script, HunkAt(script, range), range.0, range.1 + 1)
  {
    hide Numbered, FirstOld, FirstNew, OldSide, NewSide;
    var s := range.0;
    var lines, rest := script[s..range.1 + 1], script[range.1 + 1..];
    NumberedSuffix(script, s, 1, 1);
    assert script[s..] == lines + rest;
    FirstNumbers(lines, rest, 1 + |OldSide(script[..s])|, 1 + |NewSide(script[..s])|);
  }

  lemma {:induction false} HunksAt(script: seq<DiffLine>, ranges: seq<(nat, nat)>)
    requires forall r :: 0 <= r < |ranges| ==> ranges[r].0 <= ranges[r].1 < |script|
    ensures |HunksOf(script, ranges)| == |ranges|
    ensures forall r :: 0 <= r < |ranges| ==> HunksOf(script, ranges)[r] == HunkAt(script, ranges[r])
  {
    if ranges != [] {
      HunksAt(script, ranges[1..]);
    }
  }

  /** The hunks show exactly the lines within three lines of a change, in order; the lines of each stand in a
      row, at the places it records, and between two hunks a line is left out. */
  lemma HunksShow(script: seq<DiffLine>, ranges: seq<(nat, nat)>)
    requires Numbered(script, 1, 1) && MaximalRuns(script, ranges)
    ensures var hunks := HunksOf(script, ranges);
      && HunkLines(hunks) == ShownFrom(script, 0)
      && |hunks| == |ranges|
      && (forall r :: 0 <= r < |hunks| ==> StandsAt(script, hunks[r], ranges[r].0, ranges[r].1 + 1))
      && (forall r :: 0 <= r < |hunks| - 1 ==> ranges[r].1 + 1 < ranges[r + 1].0)
  {
    assert ranges[0..] == ranges;
    assert InBounds(script, ranges);
    HunksShowFrom(script, ranges, 0);
    HunksAt(script, ranges);
    forall r | 0 <= r < |ranges| ensures StandsAt(script, HunksOf(script, ranges)[r], ranges[r].0, ranges[r].1 + 1) {
      HunkStands(script, ranges[r]);
    }
  }
}
