/**
 The bounded draft plan (`planDraft` of packages/shared/src/quality-draft.ts): of the queued files at
 most 25 stay, SKILL.md first, then tier by tier, with a random draw in the first tier that does not
 fit. The random source is any function into [0, 1).
 */
module DraftPlan {
  import opened Common

  const MAX_FILES := 25
  const SKILL_MD := "SKILL.md"

  datatype Status = Queued | Skipped(reason: string) | Delete

  /** A planned file with the rank of its worst level: 0 error, 1 warning, 2 info, 3 none. */
  datatype PlanFile = PlanFile(path: string, rank: nat, status: Status)

  /** The numbers a seeded generator gives, by call. */
  type Random = nat -> real

  ghost predicate UnitInterval(rand: Random) {
    forall i :: 0.0 <= rand(i) < 1.0
  }

  predicate DistinctPaths(files: seq<PlanFile>) {
    forall i, j :: 0 <= i < j < |files| ==> files[i].path != files[j].path
  }

  predicate Distinct(s: seq<nat>) {
    forall i, j :: 0 <= i < j < |s| ==> s[i] != s[j]
  }

  // ----- counting -----------------------------------------------------------------------------

  function Elements(s: seq<nat>): set<nat> { set x | x in s }

  lemma {:induction false} DistinctSize(s: seq<nat>)
    requires Distinct(s)
    ensures |Elements(s)| == |s|
  {
    if s == [] {
      assert Elements(s) == {};
    } else {
      var n := |s| - 1;
      DistinctSize(s[..n]);
      forall k | 0 <= k < n ensures s[..n][k] != s[n] {}
      assert s == s[..n] + [s[n]];
      assert Elements(s) == Elements(s[..n]) + {s[n]};
    }
  }

  lemma ConcatDistinct(a: seq<nat>, b: seq<nat>)
    requires Distinct(a) && Distinct(b) && forall x :: x in a ==> x !in b
    ensures Distinct(a + b) && forall x :: x in a + b <==> x in a || x in b
  {
    var c := a + b;
    forall i, j | 0 <= i < j < |c| ensures c[i] != c[j] {
      if i < |a| <= j {
        assert c[i] in a && c[j] in b;
      }
    }
  }

  function QueuedFiles(files: seq<PlanFile>): set<nat> {
    set i: nat | i < |files| && files[i].status == Queued
  }

  function SkillFile(files: seq<PlanFile>): set<nat> {
    set i: nat | i < |files| && files[i].status == Queued && files[i].path == SKILL_MD
  }

  predicate IsOther(f: PlanFile) { f.status == Queued && f.path != SKILL_MD }

  function Others(files: seq<PlanFile>): set<nat> {
    set i: nat | i < |files| && IsOther(files[i])
  }

  lemma QueuedSplits(files: seq<PlanFile>)
    requires DistinctPaths(files)
    ensures QueuedFiles(files) == SkillFile(files) + Others(files) && SkillFile(files) !! Others(files)
    ensures |QueuedFiles(files)| == |SkillFile(files)| + |Others(files)| && |SkillFile(files)| <= 1
  {
    OneSkillFile(files);
    UnionSize(SkillFile(files), Others(files));
  }

  lemma OneSkillFile(files: seq<PlanFile>)
    requires DistinctPaths(files)
    ensures |SkillFile(files)| <= 1
  {
    if i :| i in SkillFile(files) {
      assert SkillFile(files) == {i};
    }
  }

  // ----- the draw -----------------------------------------------------------------------------

  /** `Math.floor(r * m)`: one of m numbers. */
  function DrawIndex(r: real, m: nat): (k: nat)
    requires 0.0 <= r < 1.0 && m > 0
    ensures k < m
  {
    assert 0.0 <= r * m as real < m as real;
    (r * m as real).Floor
  }

  /** Each of m numbers has an equal share of the unit interval. */
  lemma DrawIsFair(r: real, m: nat, k: nat)
    requires 0.0 <= r < 1.0 && m > 0
    ensures DrawIndex(r, m) == k <==> k as real <= r * m as real < k as real + 1.0
  {
  }

  function Swapped(s: seq<nat>, i: nat, j: nat): (r: seq<nat>)
    requires i < |s| && j < |s|
    ensures |r| == |s|
  {
    s[i := s[j]][j := s[i]]
  }

  /** What the draw picks from position i on. */
  ghost function Drawn(tier: seq<nat>, room: nat, rand: Random, i: nat): seq<nat>
    requires i <= room <= |tier| && UnitInterval(rand)
    decreases room - i
  {
    if i == room then []
    else
      var t := Swapped(tier, i, i + DrawIndex(rand(i), |tier| - i));
      [t[i]] + Drawn(t, room, rand, i + 1)
  }

  lemma {:induction false} SameDraw(tier: seq<nat>, room: nat, rand: Random, other: Random, i: nat)
    requires i <= room <= |tier| && UnitInterval(rand) && UnitInterval(other) && forall k :: k >= i ==> rand(k) == other(k)
    ensures Drawn(tier, room, rand, i) == Drawn(tier, room, other, i)
    decreases room - i
  {
    hide DrawIndex;
    if i < room {
      SameDraw(Swapped(tier, i, i + DrawIndex(rand(i), |tier| - i)), room, rand, other, i + 1);
    }
  }

  /** Every choice of files in every order can be drawn. */
  lemma {:induction false} AnyDraw(tier: seq<nat>, room: nat, target: seq<nat>, i: nat) returns (rand: Random)
    requires i <= room <= |tier| && |target| == room - i && Distinct(tier) && Distinct(target)
    requires forall k :: 0 <= k < |target| ==> target[k] in tier[i..]
    ensures UnitInterval(rand) && Drawn(tier, room, rand, i) == target
    decreases room - i
  {
    hide DrawIndex, Drawn, Distinct, UnitInterval;
    if i == room {
      rand := Zero();
      NothingDrawn(tier, room, rand);
    } else {
      var j :| 0 <= j < |tier[i..]| && tier[i..][j] == target[0];
      var t := Swapped(tier, i, i + j);
      SwappedDistinct(tier, i, i + j);
      RestDistinct(target);
      forall k | 0 <= k < |target| - 1 ensures target[1..][k] in t[i + 1..] {
        StillThere(tier, t, i, i + j, target[k + 1], target[0]);
      }
      var later := AnyDraw(t, room, target[1..], i + 1);
      rand := FirstThen(tier, room, target, i, j, later);
    }
  }

  lemma Zero() returns (rand: Random)
    ensures UnitInterval(rand)
  {
    rand := _ => 0.0;
  }

  lemma RestDistinct(s: seq<nat>)
    requires Distinct(s) && s != []
    ensures Distinct(s[1..]) && forall k :: 0 < k < |s| ==> s[k] != s[0]
  {
  }

  /** One number in front of the others. */
  lemma FirstThen(tier: seq<nat>, room: nat, target: seq<nat>, i: nat, j: nat, later: Random) returns (rand: Random)
    requires i < room <= |tier| && |target| == room - i && i + j < |tier| && tier[i + j] == target[0] && UnitInterval(later)
    requires Drawn(Swapped(tier, i, i + j), room, later, i + 1) == target[1..]
    ensures UnitInterval(rand) && Drawn(tier, room, rand, i) == target
  {
    hide DrawIndex;
    var t := Swapped(tier, i, i + j);
    var r := Share(j, |tier| - i);
    rand := (k: nat) => if k == i then r else later(k);
    SameDraw(t, room, rand, later, i + 1);
    assert Drawn(tier, room, rand, i) == [t[i]] + Drawn(t, room, rand, i + 1);
    assert target == [target[0]] + target[1..];
  }

  lemma SwappedDistinct(tier: seq<nat>, i: nat, j: nat)
    requires Distinct(tier) && i < |tier| && j < |tier|
    ensures Distinct(Swapped(tier, i, j)) && Swapped(tier, i, j)[i] == tier[j]
  {
  }

  /** A number in the middle of a share. */
  lemma Share(j: nat, m: nat) returns (r: real)
    requires j < m
    ensures 0.0 <= r < 1.0 && DrawIndex(r, m) == j
  {
    r := j as real / m as real;
    assert r * m as real == j as real;
    DrawIsFair(r, m, j);
  }

  /** What is not picked stays among the rest. */
  lemma StillThere(tier: seq<nat>, t: seq<nat>, i: nat, j: nat, x: nat, first: nat)
    requires i <= j < |tier| && t == Swapped(tier, i, j) && tier[j] == first && x != first && x in tier[i..]
    ensures x in t[i + 1..]
  {
    var k :| 0 <= k < |tier[i..]| && tier[i..][k] == x;
    var p := if i + k == i then j else i + k;
    assert t[p] == x && p > i;
    assert t[i + 1..][p - i - 1] == x;
  }

  /** A partial Fisher-Yates draw: room different files of the tier, whatever the random source. */
  method Draw(tier: array<nat>, room: nat, rand: Random) returns (picked: seq<nat>)
    requires room <= tier.Length && Distinct(tier[..]) && UnitInterval(rand)
    modifies tier
    ensures |picked| == room && Distinct(picked) && forall x :: x in picked ==> x in old(tier[..])
    ensures picked == Drawn(old(tier[..]), room, rand, 0)
  {
    hide Distinct, DrawIndex, Swapped, Drawn;
    picked := [];
    assert [] + Drawn(tier[..], room, rand, 0) == Drawn(tier[..], room, rand, 0);
    for i := 0 to room
      invariant picked == tier[..i] && Distinct(tier[..])
      invariant picked + Drawn(tier[..], room, rand, i) == Drawn(old(tier[..]), room, rand, 0)
      invariant forall k :: 0 <= k < tier.Length ==> tier[k] in old(tier[..])
    {
      var j := i + DrawIndex(rand(i), tier.Length - i);
      ghost var before := tier[..];
      tier[i], tier[j] := tier[j], tier[i];
      SwapKeepsDistinct(before, tier[..], i, j);
      assert tier[..] == Swapped(before, i, j) by { SwapIs(before, tier[..], i, j); }
      assert before[..i] == tier[..i];
      assert tier[..i + 1] == tier[..i] + [tier[i]];
      DrawNext(before, room, rand, i, picked);
      picked := picked + [tier[i]];
    }
    PrefixDistinct(tier[..], room);
    assert tier[..][..room] == picked;
    assert picked + Drawn(tier[..], room, rand, room) == picked by { NothingDrawn(tier[..], room, rand); }
  }

  lemma NothingDrawn(tier: seq<nat>, room: nat, rand: Random)
    requires room <= |tier| && UnitInterval(rand)
    ensures Drawn(tier, room, rand, room) == []
  {
  }

  lemma SwapIs(a: seq<nat>, b: seq<nat>, i: nat, j: nat)
    requires |a| == |b| && i < |a| && j < |a| && b[i] == a[j] && b[j] == a[i]
    requires forall k :: 0 <= k < |a| && k != i && k != j ==> b[k] == a[k]
    ensures b == Swapped(a, i, j)
  {
  }

  lemma DrawNext(tier: seq<nat>, room: nat, rand: Random, i: nat, picked: seq<nat>)
    requires i < room <= |tier| && UnitInterval(rand)
    ensures var t := Swapped(tier, i, i + DrawIndex(rand(i), |tier| - i));
      picked + Drawn(tier, room, rand, i) == picked + [t[i]] + Drawn(t, room, rand, i + 1)
  {
    hide DrawIndex;
    var t := Swapped(tier, i, i + DrawIndex(rand(i), |tier| - i));
    assert picked + ([t[i]] + Drawn(t, room, rand, i + 1)) == picked + [t[i]] + Drawn(t, room, rand, i + 1);
  }

  lemma PrefixDistinct(s: seq<nat>, n: nat)
    requires Distinct(s) && n <= |s|
    ensures Distinct(s[..n])
  {
  }

  lemma SwapKeepsDistinct(a: seq<nat>, b: seq<nat>, i: nat, j: nat)
    requires Distinct(a) && |a| == |b| && i < |a| && j < |a| && b[i] == a[j] && b[j] == a[i]
    requires forall k :: 0 <= k < |a| && k != i && k != j ==> b[k] == a[k]
    ensures Distinct(b)
  {
  }

  // ----- the plan -----------------------------------------------------------------------------

  /** The other queued files, in order. */
  method ListOthers(files: array<PlanFile>) returns (others: seq<nat>)
    ensures Distinct(others) && Elements(others) == Others(files[..])
    ensures forall x: nat :: x in others <==> x < files.Length && IsOther(files[x])
  {
    others := [];
    for i := 0 to files.Length
      invariant Distinct(others) && forall x: nat :: x in others <==> x < i && IsOther(files[x])
    {
      if IsOther(files[i]) {
        others := others + [i];
      }
    }
  }

  /** The others of one rank, in order. */
  method ListTier(files: array<PlanFile>, others: seq<nat>, rank: nat) returns (tier: seq<nat>)
    requires Distinct(others) && forall x :: x in others ==> x < files.Length
    ensures Distinct(tier) && forall x :: x in tier <==> x in others && files[x].rank == rank
  {
    tier := [];
    for i := 0 to |others|
      invariant Distinct(tier)
      invariant forall x :: x in tier <==> x in others[..i] && x < files.Length && files[x].rank == rank
    {
      assert others[..i + 1] == others[..i] + [others[i]];
      assert others[i] in others;
      forall k | 0 <= k < i ensures others[..i][k] != others[i] {}
      if files[others[i]].rank == rank {
        tier := tier + [others[i]];
      }
    }
    assert others[..|others|] == others;
  }

  /** Everything of a rank below r is picked, and nothing else. */
  ghost predicate PickedBelow(picked: seq<nat>, others: seq<nat>, files: seq<PlanFile>, r: nat) {
    && Distinct(picked)
    && forall x :: x in picked <==> x in others && x < |files| && files[x].rank < r
  }

  /** Fill the slots tier by tier: different others, as many as there is room for, and none of a worse
      rank than one left out. */
  method PickTiers(files: array<PlanFile>, others: seq<nat>, slots: nat, rand: Random) returns (picked: seq<nat>)
    requires Distinct(others) && |others| > slots && UnitInterval(rand)
    requires forall x :: x in others ==> x < files.Length && files[x].rank <= 3
    ensures Distinct(picked) && |picked| == slots && forall x :: x in picked ==> x in others
    ensures forall x, y :: x in picked && y in others && y !in picked ==> files[x].rank <= files[y].rank
  {
    hide Distinct;
    picked := [];
    assert Distinct([]) by { NoneDistinct(); }
    for rank := 0 to 4
      invariant PickedBelow(picked, others, files[..], rank) && |picked| <= slots
    {
      var tier := ListTier(files, others, rank);
      var room := slots - |picked|;
      if |tier| <= room {
        ConcatDistinct(picked, tier);
        picked := picked + tier;
        continue;
      }
      var shuffled := new nat[|tier|](i requires 0 <= i < |tier| => tier[i]);
      assert shuffled[..] == tier;
      var drawn := Draw(shuffled, room, rand);
      ConcatDistinct(picked, drawn);
      picked := picked + drawn;
      return;
    }
    AllPicked(picked, others, files[..]);
    assert false;
  }

  lemma NoneDistinct()
    ensures Distinct([])
  {
  }

  lemma AllPicked(picked: seq<nat>, others: seq<nat>, files: seq<PlanFile>)
    requires PickedBelow(picked, others, files, 4) && Distinct(others)
    requires forall x :: x in others ==> x < |files| && files[x].rank <= 3
    ensures |picked| == |others|
  {
    DistinctSize(picked);
    DistinctSize(others);
    assert Elements(picked) == Elements(others);
  }

  /** The plan before and after the cap. No file is lost and SKILL.md keeps its slot: only other queued
      files change, to skipped. */
  ghost predicate OnlySkips(was: seq<PlanFile>, now: seq<PlanFile>) {
    && |now| == |was|
    && forall i :: 0 <= i < |was| ==>
      now[i] == was[i] || (IsOther(was[i]) && now[i] == was[i].(status := Skipped("over_limit")))
  }

  /** No file left out has a strictly better claim than one kept. */
  ghost predicate BestKept(was: seq<PlanFile>, now: seq<PlanFile>) {
    |now| == |was| && forall i, j :: 0 <= i < |now| && 0 <= j < |now| && IsOther(now[i]) && now[j] != was[j] ==>
      now[i].rank <= was[j].rank
  }

  /** Cap the plan: exactly min(25, queued) files stay queued. */
  method CapPlan(files: array<PlanFile>, rand: Random)
    requires DistinctPaths(files[..]) && UnitInterval(rand)
    requires forall i :: 0 <= i < files.Length ==> files[i].rank <= 3
    modifies files
    ensures OnlySkips(old(files[..]), files[..]) && BestKept(old(files[..]), files[..])
    ensures var n := |QueuedFiles(old(files[..]))|; |QueuedFiles(files[..])| == if n <= 25 then n else 25
    ensures |QueuedFiles(old(files[..]))| <= MAX_FILES ==> files[..] == old(files[..])
  {
    hide Distinct, DistinctPaths, QueuedFiles, SkillFile, Others, OnlySkips, BestKept;
    var others := ListOthers(files);
    ghost var was := files[..];
    QueuedSplits(was);
    DistinctSize(others);
    var kept := CountSkill(files);
    var slots := MAX_FILES - kept;
    if |others| <= slots {
      NothingSkipped(was);
      return;
    }
    var picked := PickTiers(files, others, slots, rand);
    MarkOthers(files, others, picked);
    PlanKept(was, files[..], others, picked);
  }

  lemma NothingSkipped(was: seq<PlanFile>)
    ensures OnlySkips(was, was) && BestKept(was, was)
  {
  }

  function Marked(was: PlanFile, skip: bool): PlanFile {
    if skip then was.(status := Skipped("over_limit")) else was
  }

  /** Skip the others that were not picked. */
  method MarkOthers(files: array<PlanFile>, others: seq<nat>, picked: seq<nat>)
    requires forall x :: x in others ==> x < files.Length
    modifies files
    ensures forall x :: 0 <= x < files.Length ==> files[x] == Marked(old(files[x]), x in others && x !in picked)
  {
    for i := 0 to |others|
      invariant forall x :: 0 <= x < files.Length ==> files[x] == Marked(old(files[x]), x in others[..i] && x !in picked)
    {
      assert others[..i + 1] == others[..i] + [others[i]] && others[i] in others;
      if others[i] !in picked {
        files[others[i]] := files[others[i]].(status := Skipped("over_limit"));
      }
    }
    assert others[..|others|] == others;
  }

  /** How many queued files are SKILL.md: none or one. */
  method CountSkill(files: array<PlanFile>) returns (n: nat)
    requires DistinctPaths(files[..])
    ensures n == |SkillFile(files[..])| <= 1
  {
    n := 0;
    QueuedSplits(files[..]);
    for i := 0 to files.Length
      invariant n == 0 ==> forall k :: 0 <= k < i ==> !(files[k].status == Queued && files[k].path == SKILL_MD)
      invariant n > 0 ==> n == 1 && exists k: nat :: k < i && k in SkillFile(files[..])
    {
      if files[i].status == Queued && files[i].path == SKILL_MD {
        assert i in SkillFile(files[..]);
        n := n + 1;
      }
    }
    if n == 0 {
      assert SkillFile(files[..]) == {};
    }
  }

  lemma PlanKept(was: seq<PlanFile>, now: seq<PlanFile>, others: seq<nat>, picked: seq<nat>)
    requires DistinctPaths(was) && |now| == |was| && Distinct(picked)
    requires (forall x: nat :: x in others <==> x < |was| && IsOther(was[x])) && forall x :: x in picked ==> x in others
    requires forall x :: 0 <= x < |was| ==> now[x] == Marked(was[x], x in others && x !in picked)
    requires forall x, y :: x in picked && y in others && y !in picked ==> was[x].rank <= was[y].rank
    ensures |QueuedFiles(now)| == |SkillFile(was)| + |picked|
    ensures OnlySkips(was, now) && BestKept(was, now)
  {
    hide DistinctPaths, Distinct;
    DistinctSize(picked);
    var p := Elements(picked);
    forall x: nat | x < |was| ensures x in QueuedFiles(now) <==> x in SkillFile(was) || x in p {
    }
    assert QueuedFiles(now) == SkillFile(was) + p;
    UnionSize(SkillFile(was), p);
  }
}
