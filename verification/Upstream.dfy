/**
 Upstream releases (packages/shared/src/upstream-releases.ts): which ref is the candidate, what version
 to suggest, and when a release is pending. The rules agree because they share the order of versions.
 Reading a version from text is a parameter, as is normalizing an origin's URL.
 */
module Upstream {
  import opened Common
  import opened TextLines
  import opened Semver

  /** `parseSemver`: any reader of valid versions. */
  type Reader = string -> Option<Version>

  ghost predicate ReadsVersions(parse: Reader) {
    forall s :: parse(s).Some? ==> IsValid(parse(s).value)
  }

  /** The stable version a ref names, past white space and one leading v. */
  function UpstreamSemver(parse: Reader, ref: string): Option<Version> {
    var t := Trim(ref);
    var raw := if t != "" && (t[0] == 'v' || t[0] == 'V') then t[1..] else t;
    if parse(raw).Some? && parse(raw).value.prerelease == [] then parse(raw) else None
  }

  predicate AllSpace(s: string) { forall c :: c in s ==> IsSpace(c) }

  /** White space around a ref and one v in front of it do not matter; the rest is read as a stable version. */
  lemma OneLeadingV(parse: Reader, before: string, v: string, text: string, after: string)
    requires AllSpace(before) && AllSpace(after) && (v == "" || v == "v" || v == "V")
    requires text != "" && !IsSpace(text[0]) && !IsSpace(text[|text| - 1])
    requires v == "" ==> text[0] != 'v' && text[0] != 'V'
    ensures UpstreamSemver(parse, before + v + text + after) ==
      if parse(text).Some? && parse(text).value.prerelease == [] then parse(text) else None
  {
    hide Trim, IsSpace;
    var core := v + text;
    NoSpaceV();
    assert core[0] == (if v == "" then text[0] else v[0]) && core[|core| - 1] == text[|text| - 1];
    TrimIs(before, core, after);
    assert before + v + text + after == before + core + after;
    assert v != "" ==> core[1..] == text;
    assert v == "" ==> core == text;
  }

  lemma NoSpaceV()
    ensures !IsSpace('v') && !IsSpace('V')
  {
  }

  // ----- bumps --------------------------------------------------------------------------------

  datatype Bump = Major | Minor | Patch

  /** The highest component that differs. */
  function BumpLevel(from: Version, to: Version): Bump {
    if from.major != to.major then Major else if from.minor != to.minor then Minor else Patch
  }

  function Suggested(latest: Option<Version>, bump: Option<Bump>): Version {
    if latest.None? then Version(1, 0, 0, [], [])
    else
      var p := latest.value;
      match bump
      case Some(Major) => Version(p.major + 1, 0, 0, [], [])
      case Some(Minor) => Version(p.major, p.minor + 1, 0, [], [])
      case _ => Version(p.major, p.minor, p.patch + 1, [], [])
  }

  predicate Stable(v: Version) { v.prerelease == [] }

  /** The suggestion for the bump between two stable versions is above the first, at most the second, and
      a bump of the same level itself. */
  lemma SuggestionFits(from: Version, to: Version)
    requires Stable(from) && Stable(to) && Compare(from, to) < 0
    ensures var s := Suggested(Some(from), Some(BumpLevel(from, to)));
      Compare(from, s) < 0 && Compare(s, to) <= 0 && BumpLevel(from, s) == BumpLevel(from, to)
  {
    hide ComparePrereleases;
  }

  /** Without a version 1.0.0 is suggested, and without a bump the next patch. */
  lemma SuggestionDefaults(latest: Version, bump: Option<Bump>)
    ensures Suggested(None, bump) == Version(1, 0, 0, [], [])
    ensures Suggested(Some(latest), None) == Version(latest.major, latest.minor, latest.patch + 1, [], [])
  {
  }

  // ----- the candidate ------------------------------------------------------------------------

  datatype Candidate = Candidate(ref: string, version: Version, bump: Bump)

  /** The highest stable ref above the pin; of equal ones the first listed. */
  method PickCandidate(parse: Reader, pinnedRef: string, refs: seq<string>) returns (best: Option<Candidate>)
    requires ReadsVersions(parse)
    ensures UpstreamSemver(parse, pinnedRef).None? ==> best.None?
    ensures best.Some? ==>
      && best.value.ref in refs && UpstreamSemver(parse, best.value.ref) == Some(best.value.version)
      && Compare(best.value.version, UpstreamSemver(parse, pinnedRef).value) > 0
      && best.value.bump == BumpLevel(UpstreamSemver(parse, pinnedRef).value, best.value.version)
    ensures forall ref :: ref in refs && IsAbove(parse, ref, pinnedRef) ==>
      best.Some? && Compare(UpstreamSemver(parse, ref).value, best.value.version) <= 0
    ensures best.Some? ==> exists k :: (
      && 0 <= k < |refs| && refs[k] == best.value.ref
      && forall j :: 0 <= j < k && IsAbove(parse, refs[j], pinnedRef) ==>
        Compare(UpstreamSemver(parse, refs[j]).value, best.value.version) < 0)
  {
    hide Compare, UpstreamSemver;
    var pinned := UpstreamSemver(parse, pinnedRef);
    if pinned.None? {
      return None;
    }
    var found: Option<(string, Version)> := None;
    ghost var at := 0;
    for i := 0 to |refs|
      invariant found.Some? ==>
        && 0 <= at < i && refs[at] == found.value.0 && UpstreamSemver(parse, refs[at]) == Some(found.value.1)
        && Compare(found.value.1, pinned.value) > 0
        && forall j :: 0 <= j < at && IsAbove(parse, refs[j], pinnedRef) ==>
          Compare(UpstreamSemver(parse, refs[j]).value, found.value.1) < 0
      invariant forall j :: 0 <= j < i && IsAbove(parse, refs[j], pinnedRef) ==>
        found.Some? && Compare(UpstreamSemver(parse, refs[j]).value, found.value.1) <= 0
    {
      var version := UpstreamSemver(parse, refs[i]);
      if version.None? || Compare(version.value, pinned.value) <= 0 {
        continue;
      }
      ReadIsValid(parse, refs[i]);
      CompareIsPrecedence(version.value, version.value);
      assert Compare(version.value, version.value) == 0;
      if found.None? || Compare(version.value, found.value.1) > 0 {
        if found.Some? {
          HigherThanAll(parse, refs, i, pinnedRef, found.value.1, version.value, at);
        }
        found, at := Some((refs[i], version.value)), i;
      }
    }
    if found.None? {
      return None;
    }
    best := Some(Candidate(found.value.0, found.value.1, BumpLevel(pinned.value, found.value.1)));
  }

  predicate IsAbove(parse: Reader, ref: string, pinnedRef: string) {
    && UpstreamSemver(parse, ref).Some? && UpstreamSemver(parse, pinnedRef).Some?
    && Compare(UpstreamSemver(parse, ref).value, UpstreamSemver(parse, pinnedRef).value) > 0
  }

  lemma ReadIsValid(parse: Reader, ref: string)
    requires ReadsVersions(parse) && UpstreamSemver(parse, ref).Some?
    ensures IsValid(UpstreamSemver(parse, ref).value) && Stable(UpstreamSemver(parse, ref).value)
  {
  }

  /** What is above the highest so far is above them all. */
  lemma HigherThanAll(parse: Reader, refs: seq<string>, i: nat, pinnedRef: string, best: Version, v: Version, at: nat)
    requires ReadsVersions(parse) && i < |refs| && at < i && UpstreamSemver(parse, refs[at]) == Some(best)
    requires UpstreamSemver(parse, refs[i]) == Some(v) && Compare(v, best) > 0
    requires forall j :: 0 <= j < i && IsAbove(parse, refs[j], pinnedRef) ==> Compare(UpstreamSemver(parse, refs[j]).value, best) <= 0
    ensures forall j :: 0 <= j < i && IsAbove(parse, refs[j], pinnedRef) ==> Compare(UpstreamSemver(parse, refs[j]).value, v) < 0
  {
    hide Compare, UpstreamSemver;
    ReadIsValid(parse, refs[at]);
    ReadIsValid(parse, refs[i]);
    CompareIsPrecedence(v, best);
    forall j | 0 <= j < i && IsAbove(parse, refs[j], pinnedRef)
      ensures Compare(UpstreamSemver(parse, refs[j]).value, v) < 0
    {
      ReadIsValid(parse, refs[j]);
      CompareTransitive(UpstreamSemver(parse, refs[j]).value, best, v);
    }
  }

  // ----- sources ------------------------------------------------------------------------------

  function DropSlashes(s: string): string {
    if s != "" && s[0] == '/' then DropSlashes(s[1..]) else s
  }

  function DropEndSlashes(s: string): string {
    if s != "" && s[|s| - 1] == '/' then DropEndSlashes(s[..|s| - 1]) else s
  }

  /** Without the slashes at its ends. */
  function Trimmed(s: string): string { DropEndSlashes(DropSlashes(s)) }

  predicate Slashes(s: string) { forall c :: c in s ==> c == '/' }

  /** Slashes around a path do not matter. */
  lemma TrimmedIs(before: string, path: string, after: string)
    requires Slashes(before) && Slashes(after) && (path != "" ==> path[0] != '/' && path[|path| - 1] != '/')
    ensures Trimmed(before + path + after) == path
  {
    hide DropEndSlashes;
    FrontDropped(before, path + after);
    assert before + path + after == before + (path + after);
    if path == "" {
      FrontDropped(after, "");
      assert after + "" == after && "" + after == after;
      EndDropped("", "");
      assert "" + "" == "" && DropSlashes("") == "";
    } else {
      assert (path + after)[0] == path[0];
      EndDropped(path, after);
    }
  }

  lemma {:induction false} FrontDropped(before: string, rest: string)
    requires Slashes(before)
    ensures DropSlashes(before + rest) == DropSlashes(rest)
  {
    if before == "" {
      assert before + rest == rest;
    } else {
      assert before[0] in before && (before + rest)[1..] == before[1..] + rest;
      assert forall c :: c in before[1..] ==> c in before;
      FrontDropped(before[1..], rest);
    }
  }

  lemma {:induction false} EndDropped(path: string, after: string)
    requires Slashes(after) && (path != "" ==> path[|path| - 1] != '/')
    ensures DropEndSlashes(path + after) == path
    decreases |after|
  {
    if after == "" {
      assert path + after == path;
    } else {
      var n := |after| - 1;
      assert after[n] in after && (path + after)[..|path + after| - 1] == path + after[..n];
      assert forall c :: c in after[..n] ==> c in after;
      EndDropped(path, after[..n]);
    }
  }

  method FirstNonSlash(s: string) returns (start: nat)
    ensures start <= |s| && DropSlashes(s) == s[start..] && (start < |s| ==> s[start] != '/')
  {
    start := 0;
    while start < |s| && s[start] == '/'
      invariant start <= |s| && DropSlashes(s) == DropSlashes(s[start..])
    {
      assert s[start..][0] == s[start] && s[start..][1..] == s[start + 1..];
      start := start + 1;
    }
    assert start < |s| ==> s[start..][0] == s[start];
  }

  /** Strip leading and trailing slashes with two indices. */
  method TrimSlashes(s: string) returns (r: string)
    ensures r == Trimmed(s)
    ensures r != "" ==> r[0] != '/' && r[|r| - 1] != '/'
  {
    hide DropSlashes;
    var start := FirstNonSlash(s);
    var end := |s|;
    assert s[start..] == s[start..end];
    while end > start && s[end - 1] == '/'
      invariant start <= end <= |s| && DropEndSlashes(s[start..]) == DropEndSlashes(s[start..end])
    {
      DropsOne(s, start, end);
      end := end - 1;
    }
    r := s[start..end];
    assert r != "" ==> r[|r| - 1] == s[end - 1] && r[0] == s[start];
  }

  lemma DropsOne(s: string, start: nat, end: nat)
    requires start < end <= |s| && s[end - 1] == '/'
    ensures DropEndSlashes(s[start..end]) == DropEndSlashes(s[start..end - 1])
  {
    var t := s[start..end];
    assert t[|t| - 1] == s[end - 1] && t[..|t| - 1] == s[start..end - 1];
  }

  datatype Source = Source(originUrl: string, subdir: string)

  /** The same normalized origin and, slashes aside, the same folder. */
  predicate SameSource(norm: string -> string, a: Source, b: Source) {
    norm(a.originUrl) == norm(b.originUrl) && Trimmed(Trim(a.subdir)) == Trimmed(Trim(b.subdir))
  }

  // ----- the release state --------------------------------------------------------------------

  datatype PinKind = SemverTag | PlainTag | Branch | Commit | Registry

  /** The sweep's row; a text that is null or empty is `None`. */
  datatype Row = Row(
    source: Source, pin: PinKind, releaseRef: Option<string>, releaseSemver: Option<string>,
    filesChanged: Option<bool>, skippedRef: string)

  /** A pin: the skill's current baseline, or a proposal's. */
  datatype Pin = Pin(source: Source, ref: string)

  datatype ReleaseState = Quiet | Pending | Skipped

  /** The stored release is pending, the skip aside. */
  predicate Applies(parse: Reader, norm: string -> string, enabled: bool, eligible: bool, row: Row, baseline: Pin) {
    var pinned := UpstreamSemver(parse, baseline.ref);
    && enabled && eligible && (row.pin == SemverTag || row.pin == Registry)
    && row.releaseRef.Some? && row.releaseSemver.Some? && parse(row.releaseSemver.value).Some?
    && SameSource(norm, row.source, baseline.source)
    && pinned.Some? && Compare(parse(row.releaseSemver.value).value, pinned.value) > 0
    && (row.pin == SemverTag ==> row.filesChanged == Some(true))
  }

  predicate SkipCovers(parse: Reader, row: Row) {
    var skipped := UpstreamSemver(parse, row.skippedRef);
    && skipped.Some? && row.releaseSemver.Some? && parse(row.releaseSemver.value).Some?
    && Compare(parse(row.releaseSemver.value).value, skipped.value) <= 0
  }

  function StateOf(parse: Reader, norm: string -> string, enabled: bool, eligible: bool, row: Option<Row>, baseline: Option<Pin>): ReleaseState {
    if row.None? || baseline.None? || !Applies(parse, norm, enabled, eligible, row.value, baseline.value) then Quiet
    else if SkipCovers(parse, row.value) then Skipped
    else Pending
  }

  /** A stored release shows, pending or skipped, exactly when alerts are on for an eligible skill pinned to a version, the
      release is one, of the baseline's source and above its version, and, for a pinned tag, changes its files. */
  lemma ShowsIff(parse: Reader, norm: string -> string, enabled: bool, eligible: bool, row: Row, baseline: Pin)
    requires ReadsVersions(parse)
    ensures StateOf(parse, norm, enabled, eligible, Some(row), Some(baseline)) != Quiet <==>
      && enabled && eligible
      && (row.pin == Registry || (row.pin == SemverTag && row.filesChanged == Some(true)))
      && row.releaseRef.Some? && row.releaseSemver.Some? && parse(row.releaseSemver.value).Some?
      && SameSource(norm, row.source, baseline.source)
      && UpstreamSemver(parse, baseline.ref).Some?
      && Lower(UpstreamSemver(parse, baseline.ref).value, parse(row.releaseSemver.value).value)
  {
    hide Compare, UpstreamSemver, SkipCovers, Lower;
    if UpstreamSemver(parse, baseline.ref).Some? && row.releaseSemver.Some? && parse(row.releaseSemver.value).Some? {
      ReadIsValid(parse, baseline.ref);
      CompareIsPrecedence(parse(row.releaseSemver.value).value, UpstreamSemver(parse, baseline.ref).value);
    }
  }

  /** An open proposal covers a release: the same source, at the release's version or above. */
  predicate ProposalCovers(parse: Reader, norm: string -> string, proposal: Pin, source: Source, releaseSemver: Option<string>) {
    var proposed := UpstreamSemver(parse, proposal.ref);
    && SameSource(norm, proposal.source, source)
    && proposed.Some? && releaseSemver.Some? && parse(releaseSemver.value).Some?
    && Compare(proposed.value, parse(releaseSemver.value).value) >= 0
  }

  /** Once a covering proposal's pin is the baseline, the release is quiet. */
  lemma CoveringProposalQuiets(parse: Reader, norm: string -> string, enabled: bool, eligible: bool, row: Row, baseline: Pin, proposal: Pin)
    requires ReadsVersions(parse) && ProposalCovers(parse, norm, proposal, baseline.source, row.releaseSemver)
    ensures StateOf(parse, norm, enabled, eligible, Some(row), Some(proposal)) == Quiet
  {
    hide Compare;
    var release := parse(row.releaseSemver.value).value;
    CompareIsPrecedence(UpstreamSemver(parse, proposal.ref).value, release);
  }

  /** And of the proposals of the row's source a proposal covers the release exactly when its pin as the
      baseline would be at or above it. */
  lemma CoversIffNotAbove(parse: Reader, norm: string -> string, row: Row, baseline: Pin, proposal: Pin)
    requires ReadsVersions(parse) && Applies(parse, norm, true, true, row, baseline)
    requires SameSource(norm, proposal.source, baseline.source) && UpstreamSemver(parse, proposal.ref).Some?
    ensures ProposalCovers(parse, norm, proposal, baseline.source, row.releaseSemver) <==>
      StateOf(parse, norm, true, true, Some(row), Some(proposal)) == Quiet
  {
    hide Compare;
    var release := parse(row.releaseSemver.value).value;
    CompareIsPrecedence(UpstreamSemver(parse, proposal.ref).value, release);
  }

  /** A skip hides exactly the releases that are not above it. */
  lemma SkipHides(parse: Reader, norm: string -> string, enabled: bool, eligible: bool, row: Row, baseline: Pin)
    requires ReadsVersions(parse) && Applies(parse, norm, enabled, eligible, row, baseline)
    requires UpstreamSemver(parse, row.skippedRef).Some?
    ensures StateOf(parse, norm, enabled, eligible, Some(row), Some(baseline)) == Pending <==>
      Lower(UpstreamSemver(parse, row.skippedRef).value, parse(row.releaseSemver.value).value)
  {
    hide Compare;
    CompareIsPrecedence(parse(row.releaseSemver.value).value, UpstreamSemver(parse, row.skippedRef).value);
  }

  /** A release that a skip hides stays hidden by every higher skip. */
  lemma HigherSkipsHide(parse: Reader, norm: string -> string, row: Row, baseline: Pin, higher: string)
    requires ReadsVersions(parse) && StateOf(parse, norm, true, true, Some(row), Some(baseline)) == Skipped
    requires UpstreamSemver(parse, higher).Some?
    requires Compare(UpstreamSemver(parse, row.skippedRef).value, UpstreamSemver(parse, higher).value) <= 0
    ensures StateOf(parse, norm, true, true, Some(row.(skippedRef := higher)), Some(baseline)) == Skipped
  {
    hide Compare;
    CompareTransitive(
      parse(row.releaseSemver.value).value, UpstreamSemver(parse, row.skippedRef).value, UpstreamSemver(parse, higher).value);
  }
}
