/**
 Selections over versions (packages/shared/src/semver.ts): the predecessor a version's changes are
 shown against, the latest stable version, and the rule that versions only go up.
 */
module VersionChain {
  import opened Common
  import opened Semver

  /** A listed version; `None` when it does not parse. */
  type Entry = Option<Version>

  predicate AllValid(all: seq<Entry>) {
    forall i :: 0 <= i < |all| && all[i].Some? ==> IsValid(all[i].value)
  }

  predicate IsBelow(e: Entry, target: Version) {
    e.Some? && Compare(e.value, target) < 0
  }

  // ----- the predecessor ----------------------------------------------------------------------

  /** The first of the highest entries below the target. */
  function Predecessor(target: Version, all: seq<Entry>): Entry {
    if all == [] then None
    else
      var best, e := Predecessor(target, all[..|all| - 1]), all[|all| - 1];
      if !IsBelow(e, target) then best
      else if best.None? || Compare(e.value, best.value) > 0 then e
      else best
  }

  method ResolvePredecessor(target: Entry, all: seq<Entry>) returns (best: Entry)
    ensures best == if target.None? then None else Predecessor(target.value, all)
  {
    hide Compare;
    if target.None? {
      return None;
    }
    best := None;
    for i := 0 to |all|
      invariant best == Predecessor(target.value, all[..i])
    {
      assert all[..i + 1][..i] == all[..i];
      if all[i].Some? && Compare(all[i].value, target.value) < 0 {
        if best.None? || Compare(all[i].value, best.value) > 0 {
          best := all[i];
        }
      }
    }
    assert all[..|all|] == all;
  }

  /** It is listed, below the target, and not below any other such entry. */
  lemma {:induction false} PredecessorIs(target: Version, all: seq<Entry>)
    requires AllValid(all)
    ensures var p := Predecessor(target, all);
      && (p.Some? ==> p in all && IsBelow(p, target) && IsValid(p.value))
      && forall e :: e in all && IsBelow(e, target) ==> p.Some? && Compare(e.value, p.value) <= 0
  {
    hide Compare, IsValid;
    if all != [] {
      var n := |all| - 1;
      assert AllValid(all[..n]);
      PredecessorIs(target, all[..n]);
      var before, p := Predecessor(target, all[..n]), Predecessor(target, all);
      assert all == all[..n] + [all[n]];
      if IsBelow(all[n], target) {
        CompareIsPrecedence(all[n].value, all[n].value);
        assert Compare(all[n].value, all[n].value) == 0;
      }
      forall e | e in all && IsBelow(e, target) ensures p.Some? && Compare(e.value, p.value) <= 0 {
        if e in all[..n] && p != before {
          var i :| 0 <= i < |all| && all[i] == e;
          CompareTransitive(e.value, before.value, p.value) by { CompareIsPrecedence(p.value, before.value); }
        }
      }
    }
  }

  /** Of entries that differ in build metadata only it is the first listed. */
  lemma {:induction false} PredecessorIsFirst(target: Version, all: seq<Entry>)
    requires AllValid(all) && Predecessor(target, all).Some?
    ensures var p := Predecessor(target, all);
      exists k :: 0 <= k < |all| && all[k] == p && NoneAsHigh(target, all, k, p.value)
  {
    hide Compare, IsValid;
    var n := |all| - 1;
    assert AllValid(all[..n]);
    var before, p := Predecessor(target, all[..n]), Predecessor(target, all);
    PredecessorIs(target, all[..n]);
    if before.Some? && p == before {
      PredecessorIsFirst(target, all[..n]);
      var k :| 0 <= k < n && all[..n][k] == p && NoneAsHigh(target, all[..n], k, p.value);
      assert all[k] == p && NoneAsHigh(target, all, k, p.value);
    } else {
      forall j | 0 <= j < n && IsBelow(all[j], target) ensures Compare(all[j].value, p.value) < 0 {
        assert all[..n][j] == all[j] && all[j] in all[..n];
        CompareIsPrecedence(p.value, before.value);
        CompareTransitive(all[j].value, before.value, p.value);
      }
      assert all[n] == p && NoneAsHigh(target, all, n, p.value);
    }
  }

  /** No entry before the k-th is below the target and as high. */
  ghost predicate NoneAsHigh(target: Version, all: seq<Entry>, k: int, p: Version) {
    forall j :: 0 <= j < k && j < |all| && IsBelow(all[j], target) ==> Compare(all[j].value, p) < 0
  }

  // ----- the chain ----------------------------------------------------------------------------

  /** How many entries are below the target. */
  function CountBelow(all: seq<Entry>, target: Version): nat {
    if all == [] then 0
    else CountBelow(all[..|all| - 1], target) + if IsBelow(all[|all| - 1], target) then 1 else 0
  }

  lemma {:induction false} FewerBelow(all: seq<Entry>, p: Version, target: Version)
    requires AllValid(all) && IsValid(p) && IsValid(target) && Compare(p, target) < 0
    ensures CountBelow(all, p) <= CountBelow(all, target)
    ensures Some(p) in all ==> CountBelow(all, p) < CountBelow(all, target)
  {
    hide Compare, IsValid;
    if all != [] {
      var n := |all| - 1;
      var e := all[n];
      assert AllValid(all[..n]);
      FewerBelow(all[..n], p, target);
      assert all == all[..n] + [e];
      if e.Some? && Compare(e.value, p) < 0 {
        CompareTransitive(e.value, p, target);
      }
      CompareIsPrecedence(p, p);
      assert Compare(p, p) == 0;
    }
  }

  /** The target's predecessor, its predecessor, and so on. */
  function Chain(target: Version, all: seq<Entry>): seq<Version>
    requires AllValid(all) && IsValid(target)
    decreases CountBelow(all, target)
  {
    var p := Predecessor(target, all);
    PredecessorIs(target, all);
    if p.None? then []
    else
      FewerBelow(all, p.value, target);
      [p.value] + Chain(p.value, all)
  }

  ghost predicate Descending(target: Version, chain: seq<Version>) {
    && (chain != [] ==> Compare(chain[0], target) < 0)
    && forall i :: 0 < i < |chain| ==> Compare(chain[i], chain[i - 1]) < 0
  }

  /** The chain ends, goes strictly down, and meets every version below the target, up to build metadata. */
  lemma {:induction false} ChainMeetsEvery(target: Version, all: seq<Entry>, v: Version)
    requires AllValid(all) && IsValid(target)
    ensures Descending(target, Chain(target, all))
    ensures forall i :: 0 <= i < |Chain(target, all)| ==> Some(Chain(target, all)[i]) in all
    ensures Some(v) in all && Compare(v, target) < 0 ==>
      exists i :: 0 <= i < |Chain(target, all)| && SameButBuild(Chain(target, all)[i], v)
    decreases CountBelow(all, target)
  {
    hide Compare, IsValid;
    PredecessorIs(target, all);
    var p := Predecessor(target, all);
    if p.Some? {
      FewerBelow(all, p.value, target);
      ChainMeetsEvery(p.value, all, v);
      var chain, rest := Chain(target, all), Chain(p.value, all);
      assert chain == [p.value] + rest;
      forall i | 0 < i < |chain| ensures Compare(chain[i], chain[i - 1]) < 0 {
        assert chain[i] == rest[i - 1];
        assert chain[i - 1] == if i == 1 then p.value else rest[i - 2];
      }
      if Some(v) in all && Compare(v, target) < 0 {
        assert IsBelow(Some(v), target);
        var k :| 0 <= k < |all| && all[k] == Some(v);
        CompareIsPrecedence(v, p.value);
        CompareIsPrecedence(p.value, v);
        if Compare(v, p.value) == 0 {
          assert SameButBuild(chain[0], v);
        } else {
          var i :| 0 <= i < |rest| && SameButBuild(rest[i], v);
          assert SameButBuild(chain[i + 1], v);
        }
      }
    }
  }

  /** Further down the chain is lower, so no class of equal versions is met twice. */
  lemma {:induction false} ChainMeetsOnce(target: Version, all: seq<Entry>, i: nat, j: nat)
    requires AllValid(all) && IsValid(target) && i < j < |Chain(target, all)|
    ensures Compare(Chain(target, all)[j], Chain(target, all)[i]) < 0
    ensures !SameButBuild(Chain(target, all)[i], Chain(target, all)[j])
    decreases j
  {
    hide Compare, IsValid, SameButBuild;
    var chain := Chain(target, all);
    ChainMeetsEvery(target, all, target);
    assert Compare(chain[j], chain[j - 1]) < 0;
    assert Some(chain[i]) in all && Some(chain[j - 1]) in all && Some(chain[j]) in all;
    if i < j - 1 {
      ChainMeetsOnce(target, all, i, j - 1);
      CompareTransitive(chain[j], chain[j - 1], chain[i]);
    }
    CompareIsPrecedence(chain[i], chain[j]);
    CompareIsPrecedence(chain[j], chain[i]);
  }

  // ----- the latest ---------------------------------------------------------------------------

  predicate IsStable(e: Entry) { e.Some? && e.value.prerelease == [] }

  /** No stable entry before the k-th is as high. */
  ghost predicate NoStableAsHigh(all: seq<Entry>, k: int, v: Version) {
    forall j :: 0 <= j < k && j < |all| && IsStable(all[j]) ==> Compare(all[j].value, v) < 0
  }

  /** The highest stable entry, if any is stable. */
  method ResolveLatest(all: seq<Entry>) returns (latest: Entry)
    requires AllValid(all)
    ensures latest.None? <==> forall e :: e in all ==> !IsStable(e)
    ensures latest.Some? ==> latest in all && IsStable(latest)
    ensures forall e :: e in all && IsStable(e) ==> latest.Some? && Compare(e.value, latest.value) <= 0
    ensures latest.Some? ==> exists k :: 0 <= k < |all| && all[k] == latest && NoStableAsHigh(all, k, latest.value)
  {
    hide Compare, IsValid;
    latest := None;
    ghost var at := 0;
    for i := 0 to |all|
      invariant latest.Some? ==> latest in all && IsStable(latest)
      invariant latest.Some? ==> 0 <= at < i && all[at] == latest && NoStableAsHigh(all, at, latest.value)
      invariant forall k :: 0 <= k < i && IsStable(all[k]) ==> latest.Some? && Compare(all[k].value, latest.value) <= 0
    {
      if IsStable(all[i]) {
        CompareIsPrecedence(all[i].value, all[i].value);
        assert Compare(all[i].value, all[i].value) == 0;
        if latest.None? || !(Compare(latest.value, all[i].value) >= 0) {
          forall k | 0 <= k < i && IsStable(all[k]) ensures Compare(all[k].value, all[i].value) <= 0 {
            CompareTransitive(all[k].value, latest.value, all[i].value);
          }
          if latest.Some? {
            CompareIsPrecedence(latest.value, all[i].value);
            forall k | 0 <= k < i && IsStable(all[k]) ensures Compare(all[k].value, all[i].value) < 0 {
              CompareTransitive(all[k].value, latest.value, all[i].value);
            }
          }
          latest, at := all[i], i;
        } else {
          CompareIsPrecedence(latest.value, all[i].value);
        }
      }
    }
  }

  // ----- versions only go up ------------------------------------------------------------------

  datatype Verdict = Accepted | Malformed | NotAbove(existing: Version) | BadEntry

  /** The first existing entry that a proposed version is not above. */
  ghost predicate FirstFault(proposed: Version, existing: seq<Entry>, k: int) {
    && 0 <= k < |existing| && (existing[k].None? || Compare(proposed, existing[k].value) <= 0)
    && forall j :: 0 <= j < k ==> existing[j].Some? && Compare(proposed, existing[j].value) > 0
  }

  /** A proposed version must be above every existing one. */
  method AssertStrictlyIncreasing(proposed: Entry, existing: seq<Entry>) returns (v: Verdict)
    ensures v == Malformed <==> proposed.None?
    ensures v == Accepted <==> proposed.Some? && forall e :: e in existing ==> e.Some? && Compare(proposed.value, e.value) > 0
    ensures v.NotAbove? ==> exists k :: FirstFault(proposed.value, existing, k) && existing[k] == Some(v.existing)
    ensures v == BadEntry ==> exists k :: FirstFault(proposed.value, existing, k) && existing[k].None?
  {
    hide Compare;
    if proposed.None? {
      return Malformed;
    }
    for i := 0 to |existing|
      invariant forall k :: 0 <= k < i ==> existing[k].Some? && Compare(proposed.value, existing[k].value) > 0
    {
      assert existing[i] in existing;
      assert existing[i].None? || Compare(proposed.value, existing[i].value) <= 0 ==> FirstFault(proposed.value, existing, i);
      if existing[i].None? {
        return BadEntry;
      }
      if Compare(proposed.value, existing[i].value) <= 0 {
        return NotAbove(existing[i].value);
      }
    }
    v := Accepted;
  }

  /** A history in which every version was accepted against all before it. */
  ghost predicate AcceptedInTurn(history: seq<Entry>) {
    forall i, j :: 0 <= j < i < |history| ==>
      history[i].Some? && history[j].Some? && Compare(history[i].value, history[j].value) > 0
  }

  /** In such a history a version's predecessor is the one accepted just before it, whatever came later,
      and the first has none. */
  lemma PredecessorIsThePrevious(history: seq<Entry>, k: nat)
    requires AllValid(history) && AcceptedInTurn(history) && k < |history| && history[k].Some?
    ensures Predecessor(history[k].value, history) == if k == 0 then None else history[k - 1]
  {
    hide Compare, IsValid, Predecessor;
    var target := history[k].value;
    PredecessorIs(target, history);
    if k > 0 {
      CompareIsPrecedence(target, history[k - 1].value);
      assert IsBelow(history[k - 1], target);
    }
    var p := Predecessor(target, history);
    if p.Some? {
      var i :| 0 <= i < |history| && history[i] == p;
      CompareIsPrecedence(p.value, target);
      CompareIsPrecedence(target, target);
      InTurn(history, i, k);
      InTurn(history, k - 1, i);
    }
  }

  lemma InTurn(history: seq<Entry>, i: int, j: int)
    requires AcceptedInTurn(history)
    ensures 0 <= j < i < |history| ==>
      history[i].Some? && history[j].Some? && Compare(history[i].value, history[j].value) > 0
  {
  }
}
