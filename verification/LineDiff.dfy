/**
 The line-level diff shown to reviewers (packages/shared/src/linediff.ts): the edit script is correct and
 has the fewest possible changes, and a strict `patch` interpreter applies its hunks to the old lines to
 obtain the new ones.
 */
module LineDiff {
  import opened Common

  const MAX_LINES_PER_SIDE := 2000
  const CONTEXT := 3

  newtype uint32 = x: int | 0 <= x < 0x1_0000_0000

  datatype LineKind = Context | Add | Del

  datatype DiffLine = DiffLine(kind: LineKind, text: string, oldLine: Option<nat>, newLine: Option<nat>)

  datatype Hunk = Hunk(oldStart: nat, oldLines: nat, newStart: nat, newLines: nat, lines: seq<DiffLine>)

  datatype DiffResult = TooLarge | Diff(hunks: seq<Hunk>, added: nat, removed: nat)

  // ----- reading a script ---------------------------------------------------------------------

  /** The lines of a script that exist on the old side: context and deletions. */
  function OldSide(script: seq<DiffLine>): (r: seq<DiffLine>)
    ensures |r| <= |script|
  {
    if script == [] then []
    else (if script[0].kind != Add then [script[0]] else []) + OldSide(script[1..])
  }

  /** The lines of a script that exist on the new side: context and additions. */
  function NewSide(script: seq<DiffLine>): (r: seq<DiffLine>)
    ensures |r| <= |script|
  {
    if script == [] then []
    else (if script[0].kind != Del then [script[0]] else []) + NewSide(script[1..])
  }

  function Texts(lines: seq<DiffLine>): seq<string> {
    seq(|lines|, i requires 0 <= i < |lines| => lines[i].text)
  }

  function OldText(script: seq<DiffLine>): seq<string> { Texts(OldSide(script)) }

  function NewText(script: seq<DiffLine>): seq<string> { Texts(NewSide(script)) }

  function Count(script: seq<DiffLine>, kind: LineKind): (n: nat) {
    if script == [] then 0
    else (if script[0].kind == kind then 1 else 0) + Count(script[1..], kind)
  }

  /** An order-preserving script that turns `a` into `b`, whatever its line numbers. */
  ghost predicate Transforms(script: seq<DiffLine>, a: seq<string>, b: seq<string>) {
    OldText(script) == a && NewText(script) == b
  }

  /** Each line carries the next number of exactly the sides it exists on. */
  ghost predicate Numbered(script: seq<DiffLine>, oldFrom: nat, newFrom: nat) {
    script == [] ||
    var l := script[0];
    && l.oldLine == (if l.kind != Add then Some(oldFrom) else None)
    && l.newLine == (if l.kind != Del then Some(newFrom) else None)
    && Numbered(script[1..], if l.kind != Add then oldFrom + 1 else oldFrom, if l.kind != Del then newFrom + 1 else newFrom)
  }

  /** Read off a numbered script: the k-th old-side line is number oldFrom + k of the old side, the
      k-th new-side line is number newFrom + k of the new side. */
  lemma {:induction false} NumberedAt(script: seq<DiffLine>, oldFrom: nat, newFrom: nat)
    requires Numbered(script, oldFrom, newFrom)
    ensures forall k :: 0 <= k < |OldSide(script)| ==> OldSide(script)[k].oldLine == Some(oldFrom + k)
    ensures forall k :: 0 <= k < |NewSide(script)| ==> NewSide(script)[k].newLine == Some(newFrom + k)
  {
    if script != [] {
      var l := script[0];
      NumberedAt(script[1..], if l.kind != Add then oldFrom + 1 else oldFrom, if l.kind != Del then newFrom + 1 else newFrom);
    }
  }

  lemma TextsAppend(s: seq<DiffLine>, t: seq<DiffLine>)
    ensures Texts(s + t) == Texts(s) + Texts(t)
  {
  }

  lemma Regroup(a: seq<DiffLine>, b: seq<DiffLine>, c: seq<DiffLine>)
    ensures a + b + c == a + (b + c)
  {
  }

  lemma {:induction false} OldSideAppend(s: seq<DiffLine>, t: seq<DiffLine>)
    ensures OldSide(s + t) == OldSide(s) + OldSide(t)
    ensures OldText(s + t) == OldText(s) + OldText(t)
  {
    hide Texts;
    if s == [] {
      assert s + t == t;
    } else {
      assert (s + t)[0] == s[0] && (s + t)[1..] == s[1..] + t;
      OldSideAppend(s[1..], t);
      Regroup(if s[0].kind != Add then [s[0]] else [], OldSide(s[1..]), OldSide(t));
    }
    TextsAppend(OldSide(s), OldSide(t));
  }

  lemma {:induction false} NewSideAppend(s: seq<DiffLine>, t: seq<DiffLine>)
    ensures NewSide(s + t) == NewSide(s) + NewSide(t)
    ensures NewText(s + t) == NewText(s) + NewText(t)
  {
    hide Texts;
    if s == [] {
      assert s + t == t;
    } else {
      assert (s + t)[0] == s[0] && (s + t)[1..] == s[1..] + t;
      NewSideAppend(s[1..], t);
      Regroup(if s[0].kind != Del then [s[0]] else [], NewSide(s[1..]), NewSide(t));
    }
    TextsAppend(NewSide(s), NewSide(t));
  }

  // ----- the longest common subsequence -------------------------------------------------------

  /** What table cell (i, j) holds: the common-subsequence length of the suffixes a[i..], b[j..]. */
  function Lcs(a: seq<string>, b: seq<string>, i: nat, j: nat): (n: nat)
    requires i <= |a| && j <= |b|
    ensures n <= |a| - i && n <= |b| - j
    decreases |a| - i + |b| - j
  {
    if i == |a| || j == |b| then 0
    else if a[i] == b[j] then Lcs(a, b, i + 1, j + 1) + 1
    else Max(Lcs(a, b, i + 1, j), Lcs(a, b, i, j + 1))
  }

  /** Dropping the first line of either side costs at most one common line and gains none. */
  lemma {:induction false} LcsDropFirst(a: seq<string>, b: seq<string>, i: nat, j: nat)
    requires i <= |a| && j <= |b|
    ensures i < |a| ==> Lcs(a, b, i + 1, j) <= Lcs(a, b, i, j) <= Lcs(a, b, i + 1, j) + 1
    ensures j < |b| ==> Lcs(a, b, i, j + 1) <= Lcs(a, b, i, j) <= Lcs(a, b, i, j + 1) + 1
    decreases |a| - i + |b| - j
  {
    if i < |a| && j < |b| {
      LcsDropFirst(a, b, i + 1, j);
      LcsDropFirst(a, b, i, j + 1);
      if a[i] != b[j] {
        LcsDropFirst(a, b, i + 1, j + 1);
      }
    }
  }

  /** Every script that turns a[i..] into b[j..] keeps at most Lcs lines, so it changes at least
      |a[i..]| + |b[j..]| - 2 * Lcs of them. */
  lemma {:induction false} NoScriptBeatsLcs(script: seq<DiffLine>, a: seq<string>, b: seq<string>, i: nat, j: nat)
    requires i <= |a| && j <= |b| && Transforms(script, a[i..], b[j..])
    ensures Count(script, Del) + Count(script, Context) == |a| - i
    ensures Count(script, Add) + Count(script, Context) == |b| - j
    ensures Count(script, Context) <= Lcs(a, b, i, j)
  {
    if script != [] {
      var first, rest := script[0], script[1..];
      SidesOfCons(first, rest);
      assert script == [first] + rest;
      var i', j' := if first.kind != Add then i + 1 else i, if first.kind != Del then j + 1 else j;
      assert OldText(rest) == a[i'..] by {
        assert OldText(script) == (if first.kind != Add then [first.text] else []) + OldText(rest);
      }
      assert NewText(rest) == b[j'..] by {
        assert NewText(script) == (if first.kind != Del then [first.text] else []) + NewText(rest);
      }
      NoScriptBeatsLcs(rest, a, b, i', j');
      LcsDropFirst(a, b, i, j);
      if first.kind == Context {
        assert OldText(script)[0] == first.text == NewText(script)[0];
        assert a[i] == b[j];
      }
    }
  }

  lemma SidesOfCons(first: DiffLine, rest: seq<DiffLine>)
    ensures OldText([first] + rest) == (if first.kind != Add then [first.text] else []) + OldText(rest)
    ensures NewText([first] + rest) == (if first.kind != Del then [first.text] else []) + NewText(rest)
  {
    assert ([first] + rest)[1..] == rest;
  }

  // ----- the edit script ----------------------------------------------------------------------

  /** The script the backtrack emits from position (i, j): context on a match, otherwise the side
      that loses no common line, deletions first on a tie. */
  function EditScript(a: seq<string>, b: seq<string>, i: nat, j: nat): (script: seq<DiffLine>)
    requires i <= |a| && j <= |b|
    decreases |a| - i + |b| - j
  {
    if i < |a| && j < |b| then
      if a[i] == b[j] then
        [DiffLine(Context, a[i], Some(i + 1), Some(j + 1))] + EditScript(a, b, i + 1, j + 1)
      else if Lcs(a, b, i + 1, j) >= Lcs(a, b, i, j + 1) then
        [DiffLine(Del, a[i], Some(i + 1), None)] + EditScript(a, b, i + 1, j)
      else
        [DiffLine(Add, b[j], None, Some(j + 1))] + EditScript(a, b, i, j + 1)
    else if i < |a| then
      [DiffLine(Del, a[i], Some(i + 1), None)] + EditScript(a, b, i + 1, j)
    else if j < |b| then
      [DiffLine(Add, b[j], None, Some(j + 1))] + EditScript(a, b, i, j + 1)
    else []
  }

  /** The first line of the script and the script that follows it. */
  lemma EditScriptHead(a: seq<string>, b: seq<string>, i: nat, j: nat) returns (first: DiffLine, i': nat, j': nat)
    requires i <= |a| && j <= |b| && (i < |a| || j < |b|)
    ensures i' == (if first.kind != Add then i + 1 else i) <= |a|
    ensures j' == (if first.kind != Del then j + 1 else j) <= |b|
    ensures EditScript(a, b, i, j) == [first] + EditScript(a, b, i', j')
    ensures first.kind != Add ==> first.text == a[i]
    ensures first.kind != Del ==> first.text == b[j]
    ensures Lcs(a, b, i, j) == Lcs(a, b, i', j') + (if first.kind == Context then 1 else 0)
  {
    first := EditScript(a, b, i, j)[0];
    i', j' := if first.kind != Add then i + 1 else i, if first.kind != Del then j + 1 else j;
  }

  /** The edit script transforms what is left of the two sides. */
  lemma {:induction false} EditScriptTransforms(a: seq<string>, b: seq<string>, i: nat, j: nat)
    requires i <= |a| && j <= |b|
    ensures Transforms(EditScript(a, b, i, j), a[i..], b[j..])
    decreases |a| - i + |b| - j
  {
    if i < |a| || j < |b| {
      var first, i', j' := EditScriptHead(a, b, i, j);
      EditScriptTransforms(a, b, i', j');
      SidesOfCons(first, EditScript(a, b, i', j'));
    }
  }

  /** The edit script keeps exactly Lcs lines. */
  lemma {:induction false} EditScriptKeepsLcs(a: seq<string>, b: seq<string>, i: nat, j: nat)
    requires i <= |a| && j <= |b|
    ensures Count(EditScript(a, b, i, j), Context) == Lcs(a, b, i, j)
    decreases |a| - i + |b| - j
  {
    if i < |a| || j < |b| {
      var first, i', j' := EditScriptHead(a, b, i, j);
      EditScriptKeepsLcs(a, b, i', j');
      CountAppend([first], EditScript(a, b, i', j'), Context);
    }
  }

  /** Lines are numbered 1, 2, ... on each side. */
  lemma {:induction false} EditScriptNumbered(a: seq<string>, b: seq<string>, i: nat, j: nat)
    requires i <= |a| && j <= |b|
    ensures Numbered(EditScript(a, b, i, j), i + 1, j + 1)
    decreases |a| - i + |b| - j
  {
    if i < |a| || j < |b| {
      var script := EditScript(a, b, i, j);
      var i', j' := if script[0].kind != Add then i + 1 else i, if script[0].kind != Del then j + 1 else j;
      assert script[1..] == EditScript(a, b, i', j');
      EditScriptNumbered(a, b, i', j');
    }
  }

  /** The whole script is correct and no order-preserving script has fewer changes. */
  lemma EditScriptMinimal(a: seq<string>, b: seq<string>, other: seq<DiffLine>)
    requires Transforms(other, a, b)
    ensures var script := EditScript(a, b, 0, 0);
      && Transforms(script, a, b) && Numbered(script, 1, 1)
      && Count(script, Add) + Count(script, Del) == |a| + |b| - 2 * Lcs(a, b, 0, 0)
      && Count(script, Add) + Count(script, Del) <= Count(other, Add) + Count(other, Del)
  {
    EditScriptTransforms(a, b, 0, 0);
    EditScriptKeepsLcs(a, b, 0, 0);
    EditScriptNumbered(a, b, 0, 0);
    assert a[0..] == a && b[0..] == b;
    NoScriptBeatsLcs(EditScript(a, b, 0, 0), a, b, 0, 0);
    NoScriptBeatsLcs(other, a, b, 0, 0);
  }

  // ----- the table, and the backtrack over it -------------------------------------------------

  /** Cell (i, j) of the row-major table is in range and right. */
  ghost predicate CellRight(t: seq<uint32>, a: seq<string>, b: seq<string>, i: nat, j: nat)
    requires i <= |a| && j <= |b|
  {
    0 <= i * (|b| + 1) + j < |t| && t[i * (|b| + 1) + j] as int == Lcs(a, b, i, j)
  }

  /** Every cell from row `from` on is right. */
  ghost predicate RowsRight(t: seq<uint32>, a: seq<string>, b: seq<string>, from: nat) {
    forall i, j :: from <= i <= |a| && 0 <= j <= |b| ==> CellRight(t, a, b, i, j)
  }

  /** Rows do not overlap: a later row starts no earlier than where row i ends, and the last row
      ends at the table's length. */
  lemma RowBounds(i: nat, later: nat, n: nat, W: nat)
    requires i < later <= n
    ensures i * W + W <= later * W && later * W + W <= (n + 1) * W
  {
    assert (later - (i + 1)) * W >= 0;
    assert (n - later) * W >= 0;
  }

  /** Rewriting row i leaves the later rows right. */
  lemma RewriteRow(before: seq<uint32>, after: seq<uint32>, a: seq<string>, b: seq<string>, i: nat, row: nat)
    requires i < |a| && row == i * (|b| + 1) && |before| == |after| == (|a| + 1) * (|b| + 1)
    requires RowsRight(before, a, b, i + 1)
    requires forall k :: row + (|b| + 1) <= k < |after| ==> after[k] == before[k]
    requires forall k :: row <= k <= row + |b| < |after| ==> after[k] as int == Lcs(a, b, i, k - row)
    ensures RowsRight(after, a, b, i)
  {
    forall r, j | i <= r <= |a| && 0 <= j <= |b| ensures CellRight(after, a, b, r, j) {
      if r > i {
        assert CellRight(before, a, b, r, j);
        RowBounds(i, r, |a|, |b| + 1);
      } else {
        RowBounds(i, i + 1, |a|, |b| + 1);
        assert after[row + j] as int == Lcs(a, b, i, row + j - row);
      }
    }
  }

  /** The bottom-up LCS table, row-major with one extra row and column of zeros. */
  method FillTable(a: seq<string>, b: seq<string>) returns (dp: array<uint32>)
    requires |a| <= MAX_LINES_PER_SIDE && |b| <= MAX_LINES_PER_SIDE
    ensures fresh(dp) && dp.Length == (|a| + 1) * (|b| + 1)
    ensures RowsRight(dp[..], a, b, 0)
  {
    var n, W := |a|, |b| + 1;
    dp := new uint32[(n + 1) * W](_ => 0);
    assert (n + 1) * W == n * W + W;
    var i := n;
    while i > 0
      invariant 0 <= i <= n
      invariant RowsRight(dp[..], a, b, i)
      invariant forall k :: 0 <= k < i * W + (if i == n then W else 0) ==> dp[k] == 0
    {
      i := i - 1;
      RowBounds(i, i + 1, n, W);
      FillRow(dp, a, b, i, i * W);
    }
  }

  /** Row i of the table, which starts at index `row`, from the row below it. */
  method FillRow(dp: array<uint32>, a: seq<string>, b: seq<string>, i: nat, row: nat)
    requires |a| <= MAX_LINES_PER_SIDE && |b| <= MAX_LINES_PER_SIDE && i < |a|
    requires row == i * (|b| + 1) && row + 2 * (|b| + 1) <= dp.Length == (|a| + 1) * (|b| + 1)
    requires RowsRight(dp[..], a, b, i + 1)
    requires forall k :: 0 <= k < row + (|b| + 1) ==> dp[k] == 0
    modifies dp
    ensures RowsRight(dp[..], a, b, i)
    ensures forall k :: 0 <= k < row ==> dp[k] == 0
  {
    var m, W := |b|, |b| + 1;
    ghost var before := dp[..];
    assert (i + 1) * W == row + W;
    var j := m;
    while j > 0
      invariant 0 <= j <= m
      invariant forall k :: row + W <= k < dp.Length ==> dp[k] == before[k]
      invariant forall k :: 0 <= k < row + j ==> dp[k] == 0
      invariant forall k :: row + j <= k <= row + m ==> dp[k] as int == Lcs(a, b, i, k - row)
    {
      j := j - 1;
      assert CellRight(before, a, b, i + 1, j) && CellRight(before, a, b, i + 1, j + 1);
      assert dp[row + (j + 1)] as int == Lcs(a, b, i, row + (j + 1) - row);
      dp[row + j] :=
        if a[i] == b[j] then dp[row + W + (j + 1)] + 1
        else if dp[row + W + j] > dp[row + (j + 1)] then dp[row + W + j]
        else dp[row + (j + 1)];
    }
    RewriteRow(before, dp[..], a, b, i, row);
  }

  /** The backtrack's choice on a mismatch: a deletion unless an addition keeps strictly more. */
  method PrefersDelete(a: seq<string>, b: seq<string>, dp: seq<uint32>, i: nat, j: nat) returns (del: bool)
    requires i < |a| && j < |b| && RowsRight(dp, a, b, 0)
    ensures del <==> Lcs(a, b, i + 1, j) >= Lcs(a, b, i, j + 1)
  {
    var W := |b| + 1;
    assert CellRight(dp, a, b, i + 1, j) && CellRight(dp, a, b, i, j + 1);
    del := dp[(i + 1) * W + j] >= dp[i * W + (j + 1)];
  }

  /** The backtrack over the finished table `dp`: the flat edit script with its change counts. */
  method Backtrack(a: seq<string>, b: seq<string>, dp: seq<uint32>)
    returns (script: seq<DiffLine>, added: nat, removed: nat)
    requires RowsRight(dp, a, b, 0)
    ensures script == EditScript(a, b, 0, 0)
    ensures added == Count(script, Add) && removed == Count(script, Del)
  {
    var n, m := |a|, |b|;
    script, added, removed := [], 0, 0;
    var i, j := 0, 0;
    while i < n && j < m
      invariant 0 <= i <= n && 0 <= j <= m
      invariant script + EditScript(a, b, i, j) == EditScript(a, b, 0, 0)
      invariant added == Count(script, Add) && removed == Count(script, Del)
      decreases n - i + m - j
    {
      var del := PrefersDelete(a, b, dp, i, j);
      if a[i] == b[j] {
        script := PushLine(script, DiffLine(Context, a[i], Some(i + 1), Some(j + 1)), EditScript(a, b, i + 1, j + 1));
        i, j := i + 1, j + 1;
      } else if del {
        script := PushLine(script, DiffLine(Del, a[i], Some(i + 1), None), EditScript(a, b, i + 1, j));
        removed, i := removed + 1, i + 1;
      } else {
        script := PushLine(script, DiffLine(Add, b[j], None, Some(j + 1)), EditScript(a, b, i, j + 1));
        added, j := added + 1, j + 1;
      }
    }
    while i < n
      invariant 0 <= i <= n && 0 <= j <= m && (i == n || j == m)
      invariant script + EditScript(a, b, i, j) == EditScript(a, b, 0, 0)
      invariant added == Count(script, Add) && removed == Count(script, Del)
    {
      script := PushLine(script, DiffLine(Del, a[i], Some(i + 1), None), EditScript(a, b, i + 1, j));
      removed, i := removed + 1, i + 1;
    }
    while j < m
      invariant i == n && 0 <= j <= m
      invariant script + EditScript(a, b, i, j) == EditScript(a, b, 0, 0)
      invariant added == Count(script, Add) && removed == Count(script, Del)
    {
      script := PushLine(script, DiffLine(Add, b[j], None, Some(j + 1)), EditScript(a, b, i, j + 1));
      added, j := added + 1, j + 1;
    }
  }

  /** `script.push(l)`, with what it does to the counts and to a pending rest of the script. */
  method PushLine(script: seq<DiffLine>, l: DiffLine, ghost rest: seq<DiffLine>) returns (r: seq<DiffLine>)
    ensures r == script + [l]
    ensures r + rest == script + ([l] + rest)
    ensures forall kind :: Count(r, kind) == Count(script, kind) + (if l.kind == kind then 1 else 0)
  {
    r := script + [l];
    forall kind ensures Count(r, kind) == Count(script, kind) + (if l.kind == kind then 1 else 0) {
      CountAppend(script, [l], kind);
    }
  }

  lemma {:induction false} CountAppend(s: seq<DiffLine>, t: seq<DiffLine>, kind: LineKind)
    ensures Count(s + t, kind) == Count(s, kind) + Count(t, kind)
  {
    if s == [] {
      assert s + t == t;
    } else {
      assert (s + t)[1..] == s[1..] + t;
      CountAppend(s[1..], t, kind);
    }
  }

  // ----- hunks --------------------------------------------------------------------------------

  /** A line within CONTEXT lines of a change. */
  ghost predicate Near(script: seq<DiffLine>, x: int) {
    exists k :: 0 <= k < |script| && script[k].kind != Context && x - CONTEXT <= k <= x + CONTEXT
  }

  ghost predicate Covered(ranges: seq<(nat, nat)>, x: int) {
    exists r :: 0 <= r < |ranges| && ranges[r].0 <= x <= ranges[r].1
  }

  /** Inclusive ranges that increase and leave at least one line between any two of them. */
  ghost predicate Separated(ranges: seq<(nat, nat)>) {
    && (forall r :: 0 <= r < |ranges| ==> ranges[r].0 <= ranges[r].1)
    && (forall r, q :: 0 <= r < q < |ranges| ==> ranges[r].1 + 1 < ranges[q].0)
  }

  /** The ranges are exactly the maximal runs of lines near a change. */
  ghost predicate MaximalRuns(script: seq<DiffLine>, ranges: seq<(nat, nat)>) {
    && Separated(ranges)
    && (forall r :: 0 <= r < |ranges| ==> ranges[r].1 < |script|)
    && (forall x :: 0 <= x < |script| ==> (Near(script, x) <==> Covered(ranges, x)))
  }

  /** The 1-based old line number of the first line that has one, 0 if none does. */
  function FirstOld(lines: seq<DiffLine>): nat {
    if lines == [] then 0
    else if lines[0].oldLine.Some? then lines[0].oldLine.value
    else FirstOld(lines[1..])
  }

  function FirstNew(lines: seq<DiffLine>): nat {
    if lines == [] then 0
    else if lines[0].newLine.Some? then lines[0].newLine.value
    else FirstNew(lines[1..])
  }

  /** The hunk of the script lines `from` to `to` inclusive. */
  function HunkAt(script: seq<DiffLine>, range: (nat, nat)): Hunk
    requires range.0 <= range.1 < |script|
  {
    var lines := script[range.0..range.1 + 1];
    Hunk(FirstOld(lines), |OldSide(lines)|, FirstNew(lines), |NewSide(lines)|, lines)
  }

  function HunksOf(script: seq<DiffLine>, ranges: seq<(nat, nat)>): (hunks: seq<Hunk>)
    requires forall r :: 0 <= r < |ranges| ==> ranges[r].0 <= ranges[r].1 < |script|
  {
    if ranges == [] then [] else [HunkAt(script, ranges[0])] + HunksOf(script, ranges[1..])
  }

  /** The indices of the changed script lines, in order. */
  method ChangedLines(script: seq<DiffLine>) returns (changed: seq<nat>)
    ensures forall c, d :: 0 <= c < d < |changed| ==> changed[c] < changed[d]
    ensures forall c :: 0 <= c < |changed| ==> changed[c] < |script| && script[changed[c]].kind != Context
    ensures forall k :: 0 <= k < |script| && script[k].kind != Context ==> k in changed
  {
    changed := [];
    for k := 0 to |script|
      invariant forall c, d :: 0 <= c < d < |changed| ==> changed[c] < changed[d]
      invariant forall c :: 0 <= c < |changed| ==> changed[c] < k && script[changed[c]].kind != Context
      invariant forall x :: 0 <= x < k && script[x].kind != Context ==> x in changed
    {
      if script[k].kind != Context {
        changed := changed + [k];
      }
    }
  }

  /** A line within CONTEXT lines of one of the first c changes. */
  ghost predicate NearFirst(changed: seq<nat>, c: nat, x: int)
    requires c <= |changed|
  {
    exists d :: 0 <= d < c && x - CONTEXT <= changed[d] <= x + CONTEXT
  }

  lemma NearNext(changed: seq<nat>, c: nat, x: int)
    requires c < |changed|
    ensures NearFirst(changed, c + 1, x) <==> NearFirst(changed, c, x) || x - CONTEXT <= changed[c] <= x + CONTEXT
  {
    if x - CONTEXT <= changed[c] <= x + CONTEXT {
      assert NearFirst(changed, c + 1, x);
    }
  }

  /** The context windows of the changes, merged where they touch. */
  method ContextRanges(script: seq<DiffLine>, changed: seq<nat>) returns (ranges: seq<(nat, nat)>)
    requires forall c, d :: 0 <= c < d < |changed| ==> changed[c] < changed[d]
    requires forall c :: 0 <= c < |changed| ==> changed[c] < |script| && script[changed[c]].kind != Context
    requires forall k :: 0 <= k < |script| && script[k].kind != Context ==> k in changed
    ensures MaximalRuns(script, ranges)
  {
    ranges := [];
    for c := 0 to |changed|
      invariant Separated(ranges)
      invariant c == 0 <==> ranges == []
      invariant c > 0 ==> ranges[|ranges| - 1].0 <= Max(0, changed[c - 1] - CONTEXT)
      invariant c > 0 ==> ranges[|ranges| - 1].1 == Min(|script| - 1, changed[c - 1] + CONTEXT)
      invariant forall x :: 0 <= x < |script| ==> (Covered(ranges, x) <==> NearFirst(changed, c, x))
    {
      ranges := AddWindow(ranges, Max(0, changed[c] - CONTEXT), Min(|script| - 1, changed[c] + CONTEXT));
      forall x | 0 <= x < |script| ensures Covered(ranges, x) <==> NearFirst(changed, c + 1, x) {
        NearNext(changed, c, x);
      }
    }
    forall x | 0 <= x < |script| ensures Near(script, x) <==> NearFirst(changed, |changed|, x) {
      if Near(script, x) {
        var k :| 0 <= k < |script| && script[k].kind != Context && x - CONTEXT <= k <= x + CONTEXT;
        assert k in changed;
      }
    }
  }

  /** One turn of the merge: widen the last range when the new window touches it, else append. */
  method AddWindow(ranges: seq<(nat, nat)>, s: nat, e: nat) returns (r: seq<(nat, nat)>)
    requires Separated(ranges) && s <= e
    requires ranges != [] ==> ranges[|ranges| - 1].0 <= s && ranges[|ranges| - 1].1 <= e
    ensures Separated(r) && r != []
    ensures r[|r| - 1].0 <= s && r[|r| - 1].1 == e
    ensures forall x :: Covered(r, x) <==> Covered(ranges, x) || s <= x <= e
  {
    if ranges != [] && s <= ranges[|ranges| - 1].1 + 1 {
      var last := ranges[|ranges| - 1];
      r := ranges[|ranges| - 1 := (last.0, Max(last.1, e))];
    } else {
      r := ranges + [(s, e)];
    }
    CoverExtends(ranges, r, s, e);
  }

  lemma CoverExtends(before: seq<(nat, nat)>, after: seq<(nat, nat)>, s: nat, e: nat)
    requires
      || after == before + [(s, e)]
      || (before != [] && var last := before[|before| - 1];
          && last.0 <= s <= last.1 + 1 && last.1 <= e && after == before[|before| - 1 := (last.0, e)])
    ensures forall x :: Covered(after, x) <==> Covered(before, x) || s <= x <= e
  {
    forall x ensures Covered(after, x) <==> Covered(before, x) || s <= x <= e {
      if Covered(before, x) {
        var r :| 0 <= r < |before| && before[r].0 <= x <= before[r].1;
        assert after[r].0 <= x <= after[r].1;
      }
      if s <= x <= e {
        assert after[|after| - 1].0 <= x <= after[|after| - 1].1;
      }
      if Covered(after, x) {
        var r :| 0 <= r < |after| && after[r].0 <= x <= after[r].1;
        if r < |before| && before[r] == after[r] {
          assert Covered(before, x);
        } else if x < s || x > e {
          assert before[|before| - 1].0 <= x <= before[|before| - 1].1;
        }
      }
    }
  }

  /** Group the edit script into hunks: one per maximal run of lines near a change. */
  method GroupHunks(script: seq<DiffLine>) returns (hunks: seq<Hunk>)
    ensures exists ranges :: MaximalRuns(script, ranges) && hunks == HunksOf(script, ranges)
  {
    var changed := ChangedLines(script);
    var ranges := ContextRanges(script, changed);
    hunks := HunksOf(script, ranges);
  }

  // ----- the hunks are a patch ----------------------------------------------------------------

  /** The number of lines before a hunk on a side where it starts at `start`, 0 meaning the hunk has
      no line there. */
  function LinesBefore(start: nat): nat {
    if start == 0 then 0 else start - 1
  }

  /** A strict `patch`: copy the old lines before each hunk, check that the hunk's old side is what
      stands in the file at its recorded place and that its recorded new place is where the output
      has got to, then write its new side. `at` old lines are consumed and `out` is written. */
  function Patch(hunks: seq<Hunk>, old_: seq<string>, at: nat, out: seq<string>): (r: Option<seq<string>>)
    requires at <= |old_|
  {
    if hunks == [] then Some(out + old_[at..])
    else
      var h := hunks[0];
      var start := LinesBefore(h.oldStart);
      if !(at <= start && start + h.oldLines <= |old_|) then None
      else if old_[start..start + h.oldLines] != OldText(h.lines) then None
      else if |out| + (start - at) != LinesBefore(h.newStart) || h.newLines != |NewText(h.lines)| then None
      else Patch(hunks[1..], old_, start + h.oldLines, out + old_[at..start] + NewText(h.lines))
  }

  lemma {:induction false} NumberedSuffix(script: seq<DiffLine>, s: nat, oldFrom: nat, newFrom: nat)
    requires s <= |script| && Numbered(script, oldFrom, newFrom)
    ensures Numbered(script[s..], oldFrom + |OldSide(script[..s])|, newFrom + |NewSide(script[..s])|)
    decreases s
  {
    if s == 0 {
      assert script[0..] == script;
    } else {
      var init, l := script[..s - 1], script[s - 1];
      NumberedSuffix(script, s - 1, oldFrom, newFrom);
      assert script[s - 1..][0] == l && script[s - 1..][1..] == script[s..];
      assert script[..s] == init + [l];
      OldSideAppend(init, [l]);
      NewSideAppend(init, [l]);
      assert |OldSide([l])| == (if l.kind != Add then 1 else 0) && |NewSide([l])| == (if l.kind != Del then 1 else 0);
    }
  }

  /** In a slice of a numbered script the first numbers, if any, are the slice's own start. */
  lemma {:induction false} FirstNumbers(lines: seq<DiffLine>, rest: seq<DiffLine>, oldFrom: nat, newFrom: nat)
    requires Numbered(lines + rest, oldFrom, newFrom)
    ensures FirstOld(lines) == if OldSide(lines) == [] then 0 else oldFrom
    ensures FirstNew(lines) == if NewSide(lines) == [] then 0 else newFrom
  {
    if lines != [] {
      var l := lines[0];
      assert (lines + rest)[0] == l && (lines + rest)[1..] == lines[1..] + rest;
      FirstNumbers(lines[1..], rest,
        if l.kind != Add then oldFrom + 1 else oldFrom, if l.kind != Del then newFrom + 1 else newFrom);
    }
  }

  lemma {:induction false} ContextOnly(lines: seq<DiffLine>)
    requires forall k :: 0 <= k < |lines| ==> lines[k].kind == Context
    ensures OldSide(lines) == NewSide(lines) == lines
  {
    if lines != [] {
      ContextOnly(lines[1..]);
    }
  }

  /** The part of either text that script lines p to q stand for. */
  lemma TextBetween(script: seq<DiffLine>, p: nat, q: nat)
    requires p <= q <= |script|
    ensures |OldText(script[..p])| <= |OldText(script[..q])| <= |OldText(script)|
    ensures OldText(script)[|OldText(script[..p])|..|OldText(script[..q])|] == OldText(script[p..q])
    ensures NewText(script[..q]) == NewText(script[..p]) + NewText(script[p..q])
  {
    assert script == script[..q] + script[q..] && script[..q] == script[..p] + script[p..q];
    OldSideAppend(script[..q], script[q..]);
    OldSideAppend(script[..p], script[p..q]);
    NewSideAppend(script[..p], script[p..q]);
  }

  ghost predicate AllContext(script: seq<DiffLine>, from: nat, to: nat)
    requires from <= to <= |script|
  {
    forall x :: from <= x < to ==> script[x].kind == Context
  }

  /** The ranges still to apply at script position p: all lines outside them are context, and a range
      that does not open the script opens with context. */
  ghost predicate Ahead(script: seq<DiffLine>, ranges: seq<(nat, nat)>, p: nat)
    requires p <= |script|
    decreases |ranges|
  {
    if ranges == [] then AllContext(script, p, |script|)
    else
      var (s, e) := ranges[0];
      && p <= s <= e < |script|
      && (s > 0 ==> script[s].kind == Context)
      && AllContext(script, p, s)
      && Ahead(script, ranges[1..], e + 1)
  }

  /** The recorded starts of a hunk are the numbers of lines before it on each side. */
  lemma HunkStarts(script: seq<DiffLine>, range: (nat, nat))
    requires Numbered(script, 1, 1) && range.0 <= range.1 < |script|
    requires range.0 > 0 ==> script[range.0].kind == Context
    ensures LinesBefore(HunkAt(script, range).oldStart) == |OldText(script[..range.0])|
    ensures LinesBefore(HunkAt(script, range).newStart) == |NewText(script[..range.0])|
  {
    var s := range.0;
    var lines := script[s..range.1 + 1];
    NumberedSuffix(script, s, 1, 1);
    assert script[s..] == lines + script[range.1 + 1..];
    FirstNumbers(lines, script[range.1 + 1..], 1 + |OldSide(script[..s])|, 1 + |NewSide(script[..s])|);
    assert lines[0] == script[s];
  }

  /** What the old and new text contribute to the context gap p..s and to the hunk s..e. */
  lemma GapAndHunk(script: seq<DiffLine>, p: nat, s: nat, e: nat) returns (at: nat, start: nat, end: nat)
    requires p <= s <= e <= |script|
    requires AllContext(script, p, s)
    ensures at == |OldText(script[..p])| && start == |OldText(script[..s])| && end == |OldText(script[..e])|
    ensures at <= start <= end <= |OldText(script)|
    ensures NewText(script[..s]) == NewText(script[..p]) + OldText(script)[at..start]
    ensures NewText(script[..e]) == NewText(script[..s]) + NewText(script[s..e])
    ensures OldText(script)[start..end] == OldText(script[s..e])
  {
    at, start, end := |OldText(script[..p])|, |OldText(script[..s])|, |OldText(script[..e])|;
    TextBetween(script, p, s);
    TextBetween(script, s, e);
    ContextOnly(script[p..s]);
  }

  /** One turn of `Patch` when every check passes. */
  lemma PatchStep(h: Hunk, rest: seq<Hunk>, old_: seq<string>, at: nat, out: seq<string>, start: nat)
    requires start == LinesBefore(h.oldStart) && at <= start && start + h.oldLines <= |old_|
    requires old_[start..start + h.oldLines] == OldText(h.lines)
    requires |out| + (start - at) == LinesBefore(h.newStart) && h.newLines == |NewText(h.lines)|
    ensures Patch([h] + rest, old_, at, out)
      == Patch(rest, old_, start + h.oldLines, out + old_[at..start] + NewText(h.lines))
  {
    assert ([h] + rest)[1..] == rest;
  }

  /** The first remaining hunk applies and moves both sides to the end of its range. */
  lemma PatchOneHunk(script: seq<DiffLine>, range: (nat, nat), p: nat, rest: seq<Hunk>)
    requires Numbered(script, 1, 1) && p <= range.0 <= range.1 < |script|
    requires range.0 > 0 ==> script[range.0].kind == Context
    requires AllContext(script, p, range.0)
    ensures var e := range.1 + 1;
      && |OldText(script[..p])| <= |OldText(script)| && |OldText(script[..e])| <= |OldText(script)|
      && Patch([HunkAt(script, range)] + rest, OldText(script), |OldText(script[..p])|, NewText(script[..p]))
        == Patch(rest, OldText(script), |OldText(script[..e])|, NewText(script[..e]))
  {
    var h := HunkAt(script, range);
    HunkStarts(script, range);
    var at, start, end := GapAndHunk(script, p, range.0, range.1 + 1);
    assert end == start + h.oldLines;
    PatchStep(h, rest, OldText(script), at, NewText(script[..p]), start);
  }

  /** Once no hunk is left, the rest of the old text is the rest of the new text. */
  lemma PatchTail(script: seq<DiffLine>, p: nat)
    requires p <= |script| && AllContext(script, p, |script|)
    ensures |OldText(script[..p])| <= |OldText(script)|
    ensures NewText(script[..p]) + OldText(script)[|OldText(script[..p])|..] == NewText(script)
  {
    var at, start, end := GapAndHunk(script, p, |script|, |script|);
    assert script[..|script|] == script;
    assert OldText(script)[at..start] == OldText(script)[at..];
  }

  /** From script position p on, replaying the remaining hunks rebuilds the rest of the new text. */
  lemma {:induction false} PatchFrom(script: seq<DiffLine>, ranges: seq<(nat, nat)>, p: nat)
    requires Numbered(script, 1, 1) && p <= |script| && Ahead(script, ranges, p)
    requires forall r :: 0 <= r < |ranges| ==> ranges[r].0 <= ranges[r].1 < |script|
    ensures |OldText(script[..p])| <= |OldText(script)|
    ensures Patch(HunksOf(script, ranges), OldText(script), |OldText(script[..p])|, NewText(script[..p]))
      == Some(NewText(script))
    decreases |ranges|
  {
    if ranges == [] {
      PatchTail(script, p);
    } else {
      var rest := HunksOf(script, ranges[1..]);
      PatchOneHunk(script, ranges[0], p, rest);
      PatchFrom(script, ranges[1..], ranges[0].1 + 1);
    }
  }

  /** Of separated ranges from position p on, the lines from p to the first one are not covered. */
  lemma GapNotCovered(ranges: seq<(nat, nat)>, r: nat, x: int)
    requires Separated(ranges) && r <= |ranges|
    requires r > 0 ==> ranges[r - 1].1 < x
    requires r < |ranges| ==> x < ranges[r].0
    ensures !Covered(ranges, x)
  {
    forall q | 0 <= q < |ranges| ensures !(ranges[q].0 <= x <= ranges[q].1) {
      if q < r {
        assert q == r - 1 || ranges[q].1 + 1 < ranges[r - 1].0;
      } else {
        assert q == r || ranges[r].1 + 1 < ranges[q].0;
      }
    }
  }

  /** Maximal runs are ahead of the end of the run before them. */
  lemma {:induction false} RunsAhead(script: seq<DiffLine>, ranges: seq<(nat, nat)>, r: nat)
    requires MaximalRuns(script, ranges) && r <= |ranges|
    ensures Ahead(script, ranges[r..], if r == 0 then 0 else ranges[r - 1].1 + 1)
    decreases |ranges| - r
  {
    var p := if r == 0 then 0 else ranges[r - 1].1 + 1;
    var end: int := if r == |ranges| then |script| else ranges[r].0;
    forall x | p <= x < end ensures script[x].kind == Context {
      GapNotCovered(ranges, r, x);
      assert script[x].kind != Context ==> Near(script, x);
    }
    if r < |ranges| {
      if end > 0 {
        assert r > 0 ==> ranges[r - 1].1 + 1 < ranges[r].0;
        GapNotCovered(ranges, r, end - 1);
        assert script[end].kind != Context ==> Near(script, end - 1);
      }
      RunsAhead(script, ranges, r + 1);
      assert ranges[r..][0] == ranges[r] && ranges[r..][1..] == ranges[r + 1..];
    }
  }

  /** Grouping a numbered script by its maximal runs gives a patch from its old to its new text. */
  lemma HunksPatch(script: seq<DiffLine>, ranges: seq<(nat, nat)>)
    requires Numbered(script, 1, 1) && MaximalRuns(script, ranges)
    ensures Patch(HunksOf(script, ranges), OldText(script), 0, []) == Some(NewText(script))
  {
    RunsAhead(script, ranges, 0);
    assert ranges[0..] == ranges && script[..0] == [];
    PatchFrom(script, ranges, 0);
  }

  // ----- the entry point ----------------------------------------------------------------------

  /** `s.split("\n")`. */
  function Split(s: string): (lines: seq<string>)
    ensures lines != []
  {
    if s == "" then [""]
    else if s[0] == '\n' then [""] + Split(s[1..])
    else
      var rest := Split(s[1..]);
      [[s[0]] + rest[0]] + rest[1..]
  }

  /** Split into lines, a trailing newline being a terminator. */
  function SplitLines(s: string): seq<string> {
    if s == "" then []
    else
      var lines := Split(s);
      if lines[|lines| - 1] == "" then lines[..|lines| - 1] else lines
  }

  function Unlines(lines: seq<string>): string {
    if lines == [] then "" else lines[0] + "\n" + Unlines(lines[1..])
  }

  lemma {:induction false} SplitInverse(s: string)
    ensures Unlines(Split(s)) == s + "\n"
  {
    if s != "" {
      SplitInverse(s[1..]);
      var rest := Split(s[1..]);
      assert Unlines(rest) == rest[0] + "\n" + Unlines(rest[1..]);
      if s[0] == '\n' {
        assert ([""] + rest)[1..] == rest;
        assert Unlines([""] + rest) == "" + "\n" + Unlines(rest);
      } else {
        var lines := [[s[0]] + rest[0]] + rest[1..];
        assert lines[1..] == rest[1..];
        assert Unlines(lines) == ([s[0]] + rest[0]) + "\n" + Unlines(rest[1..]);
        assert Unlines(lines) == [s[0]] + Unlines(rest);
      }
      assert s == [s[0]] + s[1..];
    } else {
      assert [""][1..] == [];
    }
  }

  lemma {:induction false} SplitShape(s: string)
    ensures forall k :: 0 <= k < |Split(s)| ==> '\n' !in Split(s)[k]
    ensures Split(s)[|Split(s)| - 1] == "" <==> s == "" || s[|s| - 1] == '\n'
    ensures |Split(s)| == 1 ==> Split(s) == [s]
  {
    if s != "" {
      SplitShape(s[1..]);
      var rest := Split(s[1..]);
      assert s == [s[0]] + s[1..];
      if s[0] != '\n' {
        assert [[s[0]] + rest[0]] + rest[1..] == rest[0 := [s[0]] + rest[0]];
      }
    }
  }

  /** The lines are newline-free and, each terminated again, give back the text up to one final
      newline. */
  lemma SplitLinesInverse(s: string)
    ensures Unlines(SplitLines(s)) == if s == "" || s[|s| - 1] == '\n' then s else s + "\n"
    ensures forall k :: 0 <= k < |SplitLines(s)| ==> '\n' !in SplitLines(s)[k]
  {
    SplitInverse(s);
    SplitShape(s);
    var lines := Split(s);
    if s != "" && lines[|lines| - 1] == "" {
      var init := lines[..|lines| - 1];
      UnlinesAppend(init, [""]);
      assert lines == init + [""];
      assert Unlines([""]) == "\n" by { assert [""][1..] == []; }
      assert Unlines(init) + "\n" == s + "\n";
      assert (Unlines(init) + "\n")[..|Unlines(init)|] == Unlines(init) && (s + "\n")[..|s|] == s;
    }
  }

  lemma {:induction false} UnlinesAppend(xs: seq<string>, ys: seq<string>)
    ensures Unlines(xs + ys) == Unlines(xs) + Unlines(ys)
  {
    if xs == [] {
      assert xs + ys == ys;
    } else {
      assert (xs + ys)[1..] == xs[1..] + ys;
      UnlinesAppend(xs[1..], ys);
    }
  }

  /** The unified diff of two texts: refused only when a side is too long; otherwise the counts are
      the fewest possible and the hunks patch the old lines into the new ones. */
  method DiffLines(oldText: string, newText: string) returns (r: DiffResult)
    ensures r.TooLarge? <==> |SplitLines(oldText)| > 2000 || |SplitLines(newText)| > 2000
    ensures r.Diff? ==>
      var a, b := SplitLines(oldText), SplitLines(newText);
      && r.added == Count(EditScript(a, b, 0, 0), Add) && r.removed == Count(EditScript(a, b, 0, 0), Del)
      && r.added + r.removed == |a| + |b| - 2 * Lcs(a, b, 0, 0)
      && (exists ranges :: MaximalRuns(EditScript(a, b, 0, 0), ranges) && r.hunks == HunksOf(EditScript(a, b, 0, 0), ranges))
      && Patch(r.hunks, a, 0, []) == Some(b)
  {
    var a, b := SplitLines(oldText), SplitLines(newText);
    if |a| > MAX_LINES_PER_SIDE || |b| > MAX_LINES_PER_SIDE {
      return TooLarge;
    }
    var dp := FillTable(a, b);
    var script, added, removed := Backtrack(a, b, dp[..]);
    var hunks := GroupHunks(script);
    EditScriptTransforms(a, b, 0, 0);
    EditScriptMinimal(a, b, script);
    ghost var ranges :| MaximalRuns(script, ranges) && hunks == HunksOf(script, ranges);
    HunksPatch(script, ranges);
    r := Diff(hunks, added, removed);
  }
}
