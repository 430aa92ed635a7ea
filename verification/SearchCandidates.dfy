/**
 Which texts PostgreSQL is asked to match against synonym groups (`bareRuns` and `synonymCandidates` of
 packages/shared/src/search.ts), and why they suffice: the walk of `ComposeSearch` looks no other text
 up, so a synonym match for any other text cannot change the compiled query.
 */
module SearchCandidates {
  import opened Common
  import opened SearchQuery
  import opened SearchCompose

  predicate IsBare(u: Unit) { u.One? && u.leaf.Word? }

  /** `len` units from i on are bare words. */
  predicate BareAt(us: seq<Unit>, i: nat, len: nat) {
    i + len <= |us| && forall k :: i <= k < i + len ==> IsBare(us[k])
  }

  function TextAt(u: Unit): string { if IsBare(u) then u.leaf.text else "" }

  /** The texts of `len` units from i on. */
  function TextsAt(us: seq<Unit>, i: nat, len: nat): (r: seq<string>)
    requires i + len <= |us|
    ensures |r| == len && forall k :: 0 <= k < len ==> r[k] == TextAt(us[i + k])
    decreases len
  {
    if len == 0 then [] else [TextAt(us[i])] + TextsAt(us, i + 1, len - 1)
  }

  /** The text is an n-gram of one to four bare words in a row. */
  ghost predicate IsNgram(us: seq<Unit>, t: string) {
    exists i: nat, len: nat :: 1 <= len <= TERM_MAX_WORDS && BareAt(us, i, len) && t == Join(TextsAt(us, i, len), " ")
  }

  /** The text is a bare word in an OR group. */
  predicate IsOrMember(us: seq<Unit>, t: string) {
    exists u :: u in us && u.OrGroup? && exists m :: m in u.members && m.Word? && m.text == t
  }

  ghost predicate IsCandidate(us: seq<Unit>, t: string) { IsNgram(us, t) || IsOrMember(us, t) }

  // ----- runs of bare words -------------------------------------------------------------------

  /** The run is the bare words from s on. */
  ghost predicate Stands(us: seq<Unit>, run: seq<string>, s: nat) {
    BareAt(us, s, |run|) && run == TextsAt(us, s, |run|)
  }

  /** A run at s reaches over `len` units from i on. */
  predicate Reaches(run: seq<string>, s: nat, i: nat, len: nat) {
    s <= i && i + len <= s + |run|
  }

  /** The runs stand where the starts say, and reach over all bare words in a row before `end`. */
  ghost predicate RunsOf(us: seq<Unit>, end: nat, runs: seq<seq<string>>, starts: seq<nat>) {
    && |starts| == |runs|
    && (forall r :: 0 <= r < |runs| ==> Stands(us, runs[r], starts[r]))
    && forall i: nat, len: nat :: 1 <= len && i + len <= end && BareAt(us, i, len) ==>
      exists r :: 0 <= r < |runs| && Reaches(runs[r], starts[r], i, len)
  }

  lemma OneMoreText(us: seq<Unit>, s: nat, len: nat)
    requires s + len < |us|
    ensures TextsAt(us, s, len + 1) == TextsAt(us, s, len) + [TextAt(us[s + len])]
  {
  }

  /** A run that ends, at a unit that is no bare word or at the end, joins the runs before it. */
  lemma RunEnds(us: seq<Unit>, c: nat, end: nat, runs: seq<seq<string>>, starts: seq<nat>, cur: seq<string>)
    requires RunsOf(us, c, runs, starts) && Stands(us, cur, c) && end == c + |cur|
    requires c > 0 ==> !IsBare(us[c - 1])
    ensures cur != [] ==> RunsOf(us, end, runs + [cur], starts + [c])
    ensures cur == [] ==> RunsOf(us, end, runs, starts)
    ensures cur == [] && end < |us| && !IsBare(us[end]) ==> RunsOf(us, end + 1, runs, starts)
    ensures cur != [] && end < |us| && !IsBare(us[end]) ==> RunsOf(us, end + 1, runs + [cur], starts + [c])
  {
    hide TextsAt;
    var all, at := if cur == [] then runs else runs + [cur], if cur == [] then starts else starts + [c];
    forall r | 0 <= r < |all| ensures Stands(us, all[r], at[r]) {
      if r < |runs| {
        assert all[r] == runs[r] && at[r] == starts[r];
      }
    }
    forall i: nat, len: nat | 1 <= len && i + len <= end + 1 && i + len <= |us| && BareAt(us, i, len)
        && (i + len <= end || !IsBare(us[end]))
      ensures exists r :: 0 <= r < |all| && Reaches(all[r], at[r], i, len)
    {
      assert IsBare(us[i + len - 1]) && IsBare(us[i]);
      if i + len <= c {
        var r :| 0 <= r < |runs| && Reaches(runs[r], starts[r], i, len);
        assert all[r] == runs[r] && at[r] == starts[r];
      } else {
        assert c > 0 ==> !(i <= c - 1 < i + len);
        assert Reaches(all[|runs|], at[|runs|], i, len);
      }
    }
  }

  lemma NoRuns(us: seq<Unit>, s: nat)
    requires s <= |us|
    ensures RunsOf(us, 0, [], []) && Stands(us, [], s)
  {
  }

  /** Cut the positives into their runs of bare words. */
  method BareRuns(us: seq<Unit>) returns (runs: seq<seq<string>>)
    ensures exists starts :: RunsOf(us, |us|, runs, starts)
  {
    hide TextsAt, RunsOf;
    var cur: seq<string> := [];
    ghost var starts: seq<nat> := [];
    runs := [];
    NoRuns(us, 0);
    for k := 0 to |us|
      invariant |cur| <= k && Stands(us, cur, k - |cur|) && RunsOf(us, k - |cur|, runs, starts)
      invariant k > |cur| ==> !IsBare(us[k - |cur| - 1])
    {
      if us[k].One? && us[k].leaf.Word? {
        OneMoreText(us, k - |cur|, |cur|);
        cur := cur + [us[k].leaf.text];
      } else {
        RunEnds(us, k - |cur|, k, runs, starts, cur);
        if |cur| > 0 {
          starts, runs := starts + [k - |cur|], runs + [cur];
        }
        cur := [];
        NoRuns(us, k + 1);
      }
    }
    RunEnds(us, |us| - |cur|, |us|, runs, starts, cur);
    if |cur| > 0 {
      starts, runs := starts + [|us| - |cur|], runs + [cur];
    }
  }

  // ----- the candidates -----------------------------------------------------------------------

  predicate NgramIn(run: seq<string>, i: nat, len: nat) {
    1 <= len <= TERM_MAX_WORDS && i + len <= |run|
  }

  ghost predicate NgramsOf(run: seq<string>, t: string) {
    exists i: nat, len: nat :: NgramIn(run, i, len) && t == Join(run[i..i + len], " ")
  }

  /** The n-grams of one run. */
  method RunNgrams(run: seq<string>) returns (out: set<string>)
    ensures forall t :: t in out <==> NgramsOf(run, t)
  {
    hide Join;
    out := {};
    for i := 0 to |run|
      invariant forall t :: t in out <==> exists j: nat, len: nat :: j < i && NgramIn(run, j, len) && t == Join(run[j..j + len], " ")
    {
      ghost var before := out;
      var n := 1;
      while n <= TERM_MAX_WORDS && i + n <= |run|
        invariant 1 <= n <= TERM_MAX_WORDS + 1 && i + n <= |run| + 1
        invariant forall t :: t in out <==> t in before || exists len: nat :: len < n && NgramIn(run, i, len) && t == Join(run[i..i + len], " ")
      {
        assert NgramIn(run, i, n);
        out := out + {Join(run[i..i + n], " ")};
        n := n + 1;
      }
    }
  }

  /** The n-grams of the runs are the n-grams of the units. */
  lemma NgramsOfRuns(us: seq<Unit>, runs: seq<seq<string>>, starts: seq<nat>, t: string)
    requires RunsOf(us, |us|, runs, starts)
    ensures IsNgram(us, t) <==> exists r :: 0 <= r < |runs| && NgramsOf(runs[r], t)
  {
    hide IsNgram, NgramsOf;
    if IsNgram(us, t) {
      var r := NgramIsInRun(us, runs, starts, t);
    }
    if r :| 0 <= r < |runs| && NgramsOf(runs[r], t) {
      assert Stands(us, runs[r], starts[r]);
      RunNgramIs(us, runs[r], starts[r], t);
    }
  }

  lemma NgramIsInRun(us: seq<Unit>, runs: seq<seq<string>>, starts: seq<nat>, t: string) returns (r: nat)
    requires RunsOf(us, |us|, runs, starts) && IsNgram(us, t)
    ensures r < |runs| && NgramsOf(runs[r], t)
  {
    hide Join, TextsAt, Stands, NgramsOf;
    var i: nat, len: nat :| 1 <= len <= TERM_MAX_WORDS && BareAt(us, i, len) && t == Join(TextsAt(us, i, len), " ");
    r :| 0 <= r < |runs| && Reaches(runs[r], starts[r], i, len);
    NgramReached(us, runs[r], starts[r], i - starts[r], len);
  }

  lemma NgramReached(us: seq<Unit>, run: seq<string>, s: nat, i: nat, len: nat)
    requires Stands(us, run, s) && NgramIn(run, i, len)
    ensures NgramsOf(run, Join(TextsAt(us, s + i, len), " "))
  {
    hide Join, TextsAt;
    SliceIs(us, run, s, i, len);
    assert NgramIn(run, i, len);
  }

  lemma RunNgramIs(us: seq<Unit>, run: seq<string>, s: nat, t: string)
    requires Stands(us, run, s) && NgramsOf(run, t)
    ensures IsNgram(us, t)
  {
    hide Join, TextsAt;
    var i: nat, len: nat :| NgramIn(run, i, len) && t == Join(run[i..i + len], " ");
    SliceIs(us, run, s, i, len);
    assert BareAt(us, s + i, len);
  }

  lemma SliceIs(us: seq<Unit>, run: seq<string>, s: nat, i: nat, len: nat)
    requires Stands(us, run, s) && i + len <= |run|
    ensures run[i..i + len] == TextsAt(us, s + i, len)
  {
  }

  /** Every text that could name a synonym. */
  method SynonymCandidates(us: seq<Unit>) returns (out: set<string>)
    ensures forall t :: t in out <==> IsCandidate(us, t)
  {
    hide Join, RunsOf, NgramsOf, IsNgram;
    var runs := BareRuns(us);
    ghost var starts :| RunsOf(us, |us|, runs, starts);
    out := {};
    for r := 0 to |runs|
      invariant forall t :: t in out <==> exists q :: 0 <= q < r && NgramsOf(runs[q], t)
    {
      var more := RunNgrams(runs[r]);
      out := out + more;
    }
    ghost var ngrams := out;
    forall t ensures t in ngrams <==> IsNgram(us, t) {
      NgramsOfRuns(us, runs, starts, t);
    }
    for k := 0 to |us|
      invariant forall t :: t in out <==> t in ngrams || IsOrMember(us[..k], t)
    {
      assert us[..k + 1] == us[..k] + [us[k]];
      if us[k].OrGroup? {
        var words := set m | m in us[k].members && m.Word? :: m.text;
        out := out + words;
      }
    }
    assert us[..|us|] == us;
  }

  // ----- they suffice -------------------------------------------------------------------------

  /** The matches for the texts asked. */
  function Asked(synonyms: seq<SynonymMatch>, asked: set<string>): seq<SynonymMatch> {
    if synonyms == [] then []
    else (if synonyms[0].ngram in asked then [synonyms[0]] else []) + Asked(synonyms[1..], asked)
  }

  lemma {:induction false} AskedKeeps(synonyms: seq<SynonymMatch>, asked: set<string>, ngram: string)
    requires ngram in asked
    ensures MemberQueries(Asked(synonyms, asked), ngram) == MemberQueries(synonyms, ngram)
    ensures HasNgram(Asked(synonyms, asked), ngram) <==> HasNgram(synonyms, ngram)
  {
    if synonyms != [] {
      var first, rest := synonyms[0], synonyms[1..];
      AskedKeeps(rest, asked, ngram);
      assert synonyms == [first] + rest;
      HasHead(first, rest, ngram);
      HasHead(first, Asked(rest, asked), ngram);
      assert Asked(synonyms, asked) == (if first.ngram in asked then [first] + Asked(rest, asked) else Asked(rest, asked));
    }
  }

  /** The plan is that of the units. */
  ghost predicate PlanOf(planned: seq<Planned>, us: seq<Unit>) {
    |planned| == |us| && forall i :: 0 <= i < |planned| ==> Unplanned(planned[i]) == us[i]
  }

  /** The n-grams the walk looks up are candidates. */
  lemma LooksUpCandidates(planned: seq<Planned>, us: seq<Unit>, i: nat, len: nat)
    requires PlanOf(planned, us) && 1 <= len <= TERM_MAX_WORDS && i + len <= |planned| && AllWords(planned[i..i + len])
    ensures IsCandidate(us, NgramKey(planned[i..i + len]))
  {
    var step := planned[i..i + len];
    forall k | i <= k < i + len ensures IsBare(us[k]) && TextAt(us[k]) == planned[k].one.leaf.text {
      assert planned[k] == step[k - i] && Unplanned(planned[k]) == us[k];
    }
    WordTextsAre(step);
    assert WordTexts(step) == TextsAt(us, i, len);
    assert BareAt(us, i, len);
  }

  lemma {:induction false} WordTextsAre(planned: seq<Planned>)
    requires AllWords(planned)
    ensures forall k :: 0 <= k < |planned| ==> WordTexts(planned)[k] == planned[k].one.leaf.text
  {
    if planned != [] {
      WordTextsAre(planned[1..]);
    }
  }

  lemma MembersAreCandidates(planned: seq<Planned>, us: seq<Unit>, i: nat, k: nat)
    requires PlanOf(planned, us) && i < |planned| && planned[i].PlannedOr? && k < |planned[i].members|
    requires planned[i].members[k].leaf.Word?
    ensures IsCandidate(us, planned[i].members[k].leaf.text)
  {
    assert Unplanned(planned[i]) == us[i];
    assert us[i].members[k] == planned[i].members[k].leaf;
    assert us[i].members[k] in us[i].members && us[i] in us;
  }

  /** One step takes the same units and has the same query. */
  lemma SameStep(n: Normalization, m: Normalization, planned: seq<Planned>, us: seq<Unit>, asked: set<string>, i: nat)
    requires PlanOf(planned, us) && i < |planned| && forall t :: IsCandidate(us, t) ==> t in asked
    requires m == n.(synonyms := Asked(n.synonyms, asked))
    ensures StepLen(m, planned, i) == StepLen(n, planned, i) && StepQuery(m, planned, i) == StepQuery(n, planned, i)
  {
    hide IsCandidate, Asked, MemberQueries, HasNgram, OrOf, AndOf, NgramKey, AllLeaves, PlanOf;
    forall len: nat | 2 <= len <= TERM_MAX_WORDS ensures Names(m, planned, i, len) <==> Names(n, planned, i, len) {
      if i + len <= |planned| && AllWords(planned[i..i + len]) {
        LooksUpCandidates(planned, us, i, len);
        AskedKeeps(n.synonyms, asked, NgramKey(planned[i..i + len]));
      }
    }
    match planned[i]
    case PlannedOr(members) =>
      forall k | 0 <= k < |members| ensures MemberQuery(m, members[k]) == MemberQuery(n, members[k]) {
        if members[k].leaf.Word? {
          MembersAreCandidates(planned, us, i, k);
          AskedKeeps(n.synonyms, asked, members[k].leaf.text);
        }
      }
      assert MemberQueriesOf(m, members) == MemberQueriesOf(n, members);
    case PlannedOne(one) =>
      if one.leaf.Word? {
        var len := StepLen(n, planned, i);
        StepIsWords(n, planned, i);
        LooksUpCandidates(planned, us, i, len);
        AskedKeeps(n.synonyms, asked, NgramKey(planned[i..i + len]));
        var leaves := AllLeaves(planned[i..i + len]);
        assert Fragments(m, leaves) == Fragments(n, leaves);
      }
  }

  /** Matches for texts that are no candidates change nothing: the query compiled from the matches for
      the candidates alone is the query compiled from all matches. */
  lemma {:induction false} CandidatesSuffice(n: Normalization, planned: seq<Planned>, us: seq<Unit>, asked: set<string>, i: nat)
    requires PlanOf(planned, us) && forall t :: IsCandidate(us, t) ==> t in asked
    ensures UnitsFrom(n.(synonyms := Asked(n.synonyms, asked)), planned, i) == UnitsFrom(n, planned, i)
    decreases |planned| - i
  {
    hide IsCandidate, Asked, StepQuery, StepLen, PlanOf;
    hide AllWords, Names, Unplanned;
    var m := n.(synonyms := Asked(n.synonyms, asked));
    if i < |planned| {
      SameStep(n, m, planned, us, asked, i);
      CandidatesSuffice(n, planned, us, asked, i + StepLen(n, planned, i));
      assert UnitsFrom(m, planned, i + StepLen(m, planned, i)) == UnitsFrom(n, planned, i + StepLen(n, planned, i));
    }
  }
}
