/**
 Compiling a parsed query to Boolean tsqueries (`planFragments` and `composeSearch` of
 packages/shared/src/search.ts). PostgreSQL's normalized fragments are opaque atoms here; what is
 modelled is how they are numbered, grouped by the greedy synonym walk, and combined.
 */
module SearchCompose {
  import opened Common
  import opened SearchQuery

  const TERM_MAX_WORDS := 4
  const MAX_SYNONYMS_PER_UNIT := 10
  const TYPO_MIN_CHARS := 4

  // ----- tsqueries ----------------------------------------------------------------------------

  /** A tsquery text; `Nothing` is the empty text a stop word normalizes to. */
  datatype Query = Nothing | Atom(text: string) | AnyOf(parts: seq<Query>) | AllOf(parts: seq<Query>)

  /** A row is the set of fragments it matches. */
  ghost predicate Matches(q: Query, row: set<string>) {
    match q
    case Nothing => false
    case Atom(text) => text in row
    case AnyOf(parts) => exists i :: 0 <= i < |parts| && Matches(parts[i], row)
    case AllOf(parts) => forall i :: 0 <= i < |parts| ==> Matches(parts[i], row)
  }

  function AtomOf(text: string): Query {
    if text == "" then Nothing else Atom(text)
  }

  function Atoms(texts: seq<string>): (qs: seq<Query>)
    ensures |qs| == |texts| && forall i :: 0 <= i < |qs| ==> qs[i] == AtomOf(texts[i])
  {
    if texts == [] then [] else [AtomOf(texts[0])] + Atoms(texts[1..])
  }

  function Kept(qs: seq<Query>): (r: seq<Query>)
    ensures Nothing !in r
  {
    if qs == [] then [] else (if qs[0] == Nothing then [] else [qs[0]]) + Kept(qs[1..])
  }

  function OrOf(qs: seq<Query>): Query {
    if Kept(qs) == [] then Nothing else AnyOf(Kept(qs))
  }

  function AndOf(qs: seq<Query>): Query {
    if Kept(qs) == [] then Nothing else AllOf(Kept(qs))
  }

  lemma {:induction false} KeptExactly(qs: seq<Query>)
    ensures forall q :: q in Kept(qs) <==> q != Nothing && q in qs
  {
    if qs != [] {
      KeptExactly(qs[1..]);
      assert qs == [qs[0]] + qs[1..];
    }
  }

  /** A disjunction drops its empty parts and matches when one of the others does. */
  lemma OrMatches(qs: seq<Query>, row: set<string>)
    ensures Matches(OrOf(qs), row) <==> exists q :: q in qs && Matches(q, row)
    ensures OrOf(qs) == Nothing <==> forall q :: q in qs ==> q == Nothing
  {
    KeptExactly(qs);
    if q :| q in qs && Matches(q, row) {
      assert q in Kept(qs);
    }
    if q :| q in qs && q != Nothing {
      assert q in Kept(qs);
    }
    if Kept(qs) != [] {
      assert Kept(qs)[0] in qs;
    }
  }

  /** A conjunction drops its empty parts and matches when all the others do. */
  lemma AndMatches(qs: seq<Query>, row: set<string>)
    ensures AndOf(qs) != Nothing ==>
      (Matches(AndOf(qs), row) <==> forall q :: q in qs && q != Nothing ==> Matches(q, row))
    ensures AndOf(qs) == Nothing <==> forall q :: q in qs ==> q == Nothing
  {
    KeptExactly(qs);
    if q :| q in qs && q != Nothing {
      assert q in Kept(qs);
    }
    if Kept(qs) != [] {
      assert Kept(qs)[0] in qs;
      if Matches(AndOf(qs), row) {
        forall q | q in qs && q != Nothing ensures Matches(q, row) {
          assert q in Kept(qs);
        }
      }
      if forall q :: q in qs && q != Nothing ==> Matches(q, row) {
        forall i | 0 <= i < |Kept(qs)| ensures Matches(Kept(qs)[i], row) {
          assert Kept(qs)[i] in Kept(qs);
        }
      }
    }
  }

  // ----- numbering the fragments --------------------------------------------------------------

  datatype Request =
    | PlainFragment(text: string)
    | PrefixFragment(text: string)
    | PhraseFragment(text: string)
    | PhrasePrefixFragment(head: string, last: string)

  datatype PlannedLeaf = PlannedLeaf(leaf: Leaf, frag: nat)

  datatype Planned = PlannedOne(one: PlannedLeaf) | PlannedOr(members: seq<PlannedLeaf>)

  function RequestOf(leaf: Leaf): Request {
    match leaf
    case Word(text, prefix) => if prefix then PrefixFragment(text) else PlainFragment(text)
    case Phrase(words, prefix) =>
      if prefix && |words| > 1 then PhrasePrefixFragment(Join(words[..|words| - 1], " "), words[|words| - 1])
      else if prefix && words != [] then PrefixFragment(words[0])
      else PhraseFragment(Join(words, " "))
  }

  function LeavesOf(pu: Planned): seq<PlannedLeaf> {
    match pu
    case PlannedOne(one) => [one]
    case PlannedOr(members) => members
  }

  /** Every planned leaf, in the walk's order. */
  function AllLeaves(planned: seq<Planned>): seq<PlannedLeaf> {
    if planned == [] then [] else LeavesOf(planned[0]) + AllLeaves(planned[1..])
  }

  function UnplannedLeaves(ls: seq<PlannedLeaf>): (r: seq<Leaf>)
    ensures |r| == |ls| && forall i :: 0 <= i < |ls| ==> r[i] == ls[i].leaf
  {
    if ls == [] then [] else [ls[0].leaf] + UnplannedLeaves(ls[1..])
  }

  function Unplanned(pu: Planned): Unit {
    match pu
    case PlannedOne(one) => One(one.leaf)
    case PlannedOr(members) => OrGroup(UnplannedLeaves(members))
  }

  /** The leaves carry consecutive numbers and each number's request is its leaf's: a bijection
      between leaves and the fragments the SQL side returns. */
  ghost predicate Consecutive(leaves: seq<PlannedLeaf>, reqs: seq<Request>) {
    && |leaves| == |reqs|
    && forall k :: 0 <= k < |leaves| ==> leaves[k].frag == k && reqs[k] == RequestOf(leaves[k].leaf)
  }

  lemma {:induction false} AllLeavesAppend(a: seq<Planned>, b: seq<Planned>)
    ensures AllLeaves(a + b) == AllLeaves(a) + AllLeaves(b)
  {
    if a == [] {
      assert a + b == b;
    } else {
      assert (a + b)[1..] == a[1..] + b;
      AllLeavesAppend(a[1..], b);
    }
  }

  lemma OneMore(planned: seq<Planned>, pu: Planned)
    ensures AllLeaves(planned + [pu]) == AllLeaves(planned) + LeavesOf(pu)
  {
    AllLeavesAppend(planned, [pu]);
    assert [pu][1..] == [] && AllLeaves([]) == [];
  }

  lemma NoLeaves()
    ensures Consecutive(AllLeaves([]), [])
  {
  }

  lemma NextNumber(leaves: seq<PlannedLeaf>, reqs: seq<Request>, pl: PlannedLeaf)
    requires Consecutive(leaves, reqs) && pl.frag == |reqs|
    ensures Consecutive(leaves + [pl], reqs + [RequestOf(pl.leaf)])
  {
  }

  /** Plan a list of leaves: each gets the next request. */
  method PlanLeaves(ls: seq<Leaf>, reqs: seq<Request>, ghost before: seq<PlannedLeaf>)
    returns (planned: seq<PlannedLeaf>, reqs': seq<Request>)
    requires Consecutive(before, reqs)
    ensures UnplannedLeaves(planned) == ls && Consecutive(before + planned, reqs')
  {
    planned, reqs' := [], reqs;
    assert before + [] == before;
    for k := 0 to |ls|
      invariant |planned| == k && forall i :: 0 <= i < k ==> planned[i].leaf == ls[i]
      invariant Consecutive(before + planned, reqs')
    {
      var pl := PlannedLeaf(ls[k], |reqs'|);
      assert before + (planned + [pl]) == before + planned + [pl];
      planned, reqs' := planned + [pl], reqs' + [RequestOf(ls[k])];
    }
  }

  /** Number the leaves of a query, positives before exclusions, with one request for each. */
  method PlanFragments(p: ParsedSearch)
    returns (reqs: seq<Request>, positives: seq<Planned>, negatives: seq<PlannedLeaf>)
    ensures |positives| == |p.positives| && forall i :: 0 <= i < |positives| ==> Unplanned(positives[i]) == p.positives[i]
    ensures UnplannedLeaves(negatives) == p.negatives
    ensures Consecutive(AllLeaves(positives) + negatives, reqs)
  {
    hide RequestOf, AllLeaves, Consecutive;
    reqs, positives := [], [];
    NoLeaves();
    for k := 0 to |p.positives|
      invariant |positives| == k && forall i :: 0 <= i < k ==> Unplanned(positives[i]) == p.positives[i]
      invariant Consecutive(AllLeaves(positives), reqs)
    {
      match p.positives[k] {
        case One(leaf) =>
          var one := PlannedLeaf(leaf, |reqs|);
          OneMore(positives, PlannedOne(one));
          NextNumber(AllLeaves(positives), reqs, one);
          positives, reqs := positives + [PlannedOne(one)], reqs + [RequestOf(leaf)];
        case OrGroup(members) =>
          var ms, reqs' := PlanLeaves(members, reqs, AllLeaves(positives));
          OneMore(positives, PlannedOr(ms));
          positives, reqs := positives + [PlannedOr(ms)], reqs';
      }
    }
    negatives, reqs := PlanLeaves(p.negatives, reqs, AllLeaves(positives));
  }

  // ----- synonyms -----------------------------------------------------------------------------

  /** A synonym group that an n-gram of the query names, with its members and their tsquery texts. */
  datatype SynonymMatch = SynonymMatch(ngram: string, terms: seq<string>, queries: seq<string>)

  /** What PostgreSQL returned for the planned query. */
  datatype Normalization = Normalization(fragments: seq<string>, synonyms: seq<SynonymMatch>)

  function NonEmpty(texts: seq<string>): seq<string> {
    if texts == [] then [] else (if texts[0] == "" then [] else [texts[0]]) + NonEmpty(texts[1..])
  }

  /** Every non-empty member text of every group the n-gram names, in order. */
  function MemberQueries(synonyms: seq<SynonymMatch>, ngram: string): seq<string> {
    if synonyms == [] then []
    else (if synonyms[0].ngram == ngram then NonEmpty(synonyms[0].queries) else []) + MemberQueries(synonyms[1..], ngram)
  }

  predicate HasNgram(synonyms: seq<SynonymMatch>, ngram: string) {
    exists k :: 0 <= k < |synonyms| && synonyms[k].ngram == ngram
  }

  function Capped(qs: seq<string>): seq<string> {
    if |qs| <= MAX_SYNONYMS_PER_UNIT then qs else qs[..MAX_SYNONYMS_PER_UNIT]
  }

  function SynonymQueries(synonyms: seq<SynonymMatch>, ngram: string): (qs: seq<string>)
    ensures |qs| <= MAX_SYNONYMS_PER_UNIT
  {
    Capped(MemberQueries(synonyms, ngram))
  }

  lemma {:induction false} NonEmptyAppend(a: seq<string>, b: seq<string>)
    ensures NonEmpty(a + b) == NonEmpty(a) + NonEmpty(b)
  {
    if a == [] {
      assert a + b == b;
    } else {
      assert (a + b)[1..] == a[1..] + b;
      NonEmptyAppend(a[1..], b);
    }
  }

  lemma {:induction false} MemberQueriesAppend(a: seq<SynonymMatch>, b: seq<SynonymMatch>, ngram: string)
    ensures MemberQueries(a + b, ngram) == MemberQueries(a, ngram) + MemberQueries(b, ngram)
  {
    if a == [] {
      assert a + b == b;
    } else {
      assert (a + b)[1..] == a[1..] + b;
      MemberQueriesAppend(a[1..], b, ngram);
    }
  }

  lemma OneMoreText(texts: seq<string>, t: string)
    ensures Capped(texts + [t]) == Capped(texts) + if |Capped(texts)| < MAX_SYNONYMS_PER_UNIT then [t] else []
    ensures texts + [] == texts
  {
  }

  lemma OneText(t: string)
    ensures NonEmpty([t]) == (if t == "" then [] else [t]) && NonEmpty([]) == []
  {
    assert [t][1..] == [];
  }

  lemma HasHead(m: SynonymMatch, rest: seq<SynonymMatch>, ngram: string)
    ensures HasNgram([m] + rest, ngram) <==> m.ngram == ngram || HasNgram(rest, ngram)
    ensures MemberQueries([m] + rest, ngram) == (if m.ngram == ngram then NonEmpty(m.queries) else []) + MemberQueries(rest, ngram)
  {
    var all := [m] + rest;
    assert all[0] == m && all[1..] == rest;
    if k :| 0 <= k < |rest| && rest[k].ngram == ngram {
      assert all[k + 1].ngram == ngram;
    }
    if k :| 0 <= k < |all| && all[k].ngram == ngram {
      assert k > 0 ==> rest[k - 1].ngram == ngram;
    }
  }

  /** The key a group is listed under. */
  function GroupKey(terms: seq<string>): string { Join(terms, "\0") }

  /** The groups listed so far, in the order in which they came; one with the same key is replaced. */
  function WithGroup(groups: seq<seq<string>>, terms: seq<string>): seq<seq<string>> {
    if groups == [] then [terms]
    else if GroupKey(groups[0]) == GroupKey(terms) then [terms] + groups[1..]
    else [groups[0]] + WithGroup(groups[1..], terms)
  }

  /** With the groups an n-gram names. */
  function Listed(groups: seq<seq<string>>, synonyms: seq<SynonymMatch>, ngram: string): seq<seq<string>> {
    if synonyms == [] then groups
    else
      var m := synonyms[|synonyms| - 1];
      var before := Listed(groups, synonyms[..|synonyms| - 1], ngram);
      if m.ngram == ngram then WithGroup(before, m.terms) else before
  }

  /** With the groups several n-grams name. */
  function ListedAll(groups: seq<seq<string>>, synonyms: seq<SynonymMatch>, ngrams: seq<string>): seq<seq<string>> {
    if ngrams == [] then groups
    else Listed(ListedAll(groups, synonyms, ngrams[..|ngrams| - 1]), synonyms, ngrams[|ngrams| - 1])
  }

  lemma {:induction false} ListedInTurn(groups: seq<seq<string>>, synonyms: seq<SynonymMatch>, a: seq<string>, b: seq<string>)
    ensures ListedAll(groups, synonyms, a + b) == ListedAll(ListedAll(groups, synonyms, a), synonyms, b)
  {
    if b == [] {
      assert a + b == a;
    } else {
      assert (a + b)[..|a + b| - 1] == a + b[..|b| - 1];
      ListedInTurn(groups, synonyms, a, b[..|b| - 1]);
    }
  }

  lemma ListedOne(groups: seq<seq<string>>, synonyms: seq<SynonymMatch>, ngram: string)
    ensures ListedAll(groups, synonyms, [ngram]) == Listed(groups, synonyms, ngram)
    ensures ListedAll(groups, synonyms, []) == groups
  {
    assert [ngram][..0] == [];
  }

  /** One group's members, added while there is room. */
  method AddMembers(qs: seq<string>, texts: seq<string>, ghost all: seq<string>) returns (r: seq<string>)
    requires qs == Capped(all)
    ensures r == Capped(all + NonEmpty(texts))
  {
    r := qs;
    assert all + [] == all;
    hide NonEmpty, Capped;
    assert NonEmpty([]) == [] by { OneText(""); }
    for j := 0 to |texts|
      invariant r == Capped(all + NonEmpty(texts[..j]))
    {
      assert texts[..j + 1] == texts[..j] + [texts[j]];
      NonEmptyAppend(texts[..j], [texts[j]]);
      OneText(texts[j]);
      ghost var so := all + NonEmpty(texts[..j]);
      assert all + (NonEmpty(texts[..j]) + NonEmpty([texts[j]])) == so + NonEmpty([texts[j]]);
      OneMoreText(so, texts[j]);
      if texts[j] != "" && |r| < MAX_SYNONYMS_PER_UNIT {
        r := r + [texts[j]];
      }
    }
    assert texts[..|texts|] == texts;
  }

  /** The capped collection loop over every member of every matched group, which lists the groups. */
  method CollectSynonyms(synonyms: seq<SynonymMatch>, ngram: string, groups: seq<seq<string>>)
    returns (qs: seq<string>, applied: seq<seq<string>>)
    ensures qs == SynonymQueries(synonyms, ngram) && applied == Listed(groups, synonyms, ngram)
  {
    qs, applied := [], groups;
    for k := 0 to |synonyms|
      invariant qs == Capped(MemberQueries(synonyms[..k], ngram)) && applied == Listed(groups, synonyms[..k], ngram)
    {
      ghost var all := MemberQueries(synonyms[..k], ngram);
      assert synonyms[..k + 1] == synonyms[..k] + [synonyms[k]];
      MemberQueriesAppend(synonyms[..k], [synonyms[k]], ngram);
      OneMember(synonyms[k], ngram);
      assert synonyms[..k + 1][..k] == synonyms[..k];
      if synonyms[k].ngram == ngram {
        applied := WithGroup(applied, synonyms[k].terms);
        qs := AddMembers(qs, synonyms[k].queries, all);
      } else {
        assert all + [] == all;
      }
    }
    assert synonyms[..|synonyms|] == synonyms;
  }

  lemma OneMember(m: SynonymMatch, ngram: string)
    ensures MemberQueries([m], ngram) == if m.ngram == ngram then NonEmpty(m.queries) else []
  {
    assert [m][1..] == [] && MemberQueries([], ngram) == [];
  }

  // ----- the greedy walk ----------------------------------------------------------------------

  predicate IsWord(pu: Planned) {
    pu.PlannedOne? && pu.one.leaf.Word?
  }

  predicate AllWords(planned: seq<Planned>) {
    forall i :: 0 <= i < |planned| ==> IsWord(planned[i])
  }

  function WordTexts(planned: seq<Planned>): (r: seq<string>)
    requires AllWords(planned)
    ensures |r| == |planned|
  {
    if planned == [] then [] else [planned[0].one.leaf.text] + WordTexts(planned[1..])
  }

  function NgramKey(planned: seq<Planned>): string
    requires AllWords(planned)
  {
    Join(WordTexts(planned), " ")
  }

  /** The `len` units from i on are bare words whose n-gram names a synonym group. */
  predicate Names(n: Normalization, planned: seq<Planned>, i: nat, len: nat) {
    && i + len <= |planned| && AllWords(planned[i..i + len])
    && HasNgram(n.synonyms, NgramKey(planned[i..i + len]))
  }

  /** How many units the walk takes at i: the longest synonym n-gram of two to four bare words that
      starts there, else one. */
  function StepLen(n: Normalization, planned: seq<Planned>, i: nat): (len: nat)
    requires i < |planned|
    ensures 1 <= len <= TERM_MAX_WORDS && i + len <= |planned|
    ensures len > 1 ==> Names(n, planned, i, len)
    ensures IsWord(planned[i]) ==> forall k :: len < k <= TERM_MAX_WORDS && k >= 2 ==> !Names(n, planned, i, k)
    ensures !IsWord(planned[i]) ==> len == 1
  {
    if !IsWord(planned[i]) then 1
    else if Names(n, planned, i, 4) then 4
    else if Names(n, planned, i, 3) then 3
    else if Names(n, planned, i, 2) then 2
    else 1
  }

  /** The search for it, longest first. */
  method LongestNgram(n: Normalization, planned: seq<Planned>, i: nat) returns (len: nat)
    requires i < |planned| && IsWord(planned[i])
    ensures len == StepLen(n, planned, i)
  {
    len := 1;
    var k := Min(TERM_MAX_WORDS, |planned| - i);
    while k >= 2
      invariant k <= Min(TERM_MAX_WORDS, |planned| - i)
      invariant len == 1 && forall m :: k < m <= TERM_MAX_WORDS && m >= 2 ==> !Names(n, planned, i, m)
    {
      if Names(n, planned, i, k) {
        len := k;
        return;
      }
      k := k - 1;
    }
  }

  /** Where the walk from i stops to take a step. */
  function Starts(n: Normalization, planned: seq<Planned>, i: nat): seq<nat>
    decreases |planned| - i
  {
    if i >= |planned| then [] else [i] + Starts(n, planned, i + StepLen(n, planned, i))
  }

  /** Unit k belongs to the step at i. */
  ghost predicate InStep(n: Normalization, planned: seq<Planned>, i: nat, k: int) {
    i < |planned| && i <= k < i + StepLen(n, planned, i)
  }

  /** The walk moves forward only. */
  lemma {:induction false} WalkIncreases(n: Normalization, planned: seq<Planned>, i: nat)
    requires i <= |planned|
    ensures forall a :: a in Starts(n, planned, i) ==> i <= a < |planned|
    ensures forall x, y :: 0 <= x < y < |Starts(n, planned, i)| ==> Starts(n, planned, i)[x] < Starts(n, planned, i)[y]
    decreases |planned| - i
  {
    if i < |planned| {
      var next := i + StepLen(n, planned, i);
      WalkIncreases(n, planned, next);
      var s, rest := Starts(n, planned, i), Starts(n, planned, next);
      assert s == [i] + rest;
      forall x, y | 0 <= x < y < |s| ensures s[x] < s[y] {
        assert s[y] == rest[y - 1] && rest[y - 1] in rest;
        assert x > 0 ==> s[x] == rest[x - 1];
      }
    }
  }

  /** The walk takes every unit exactly once: unit k lies in one step and in no other. */
  lemma {:induction false} WalkPartitions(n: Normalization, planned: seq<Planned>, i: nat, k: nat) returns (step: nat)
    requires i <= k < |planned|
    ensures step in Starts(n, planned, i) && InStep(n, planned, step, k)
    ensures forall other :: other in Starts(n, planned, i) && InStep(n, planned, other, k) ==> other == step
    decreases |planned| - i
  {
    var next := i + StepLen(n, planned, i);
    WalkIncreases(n, planned, next);
    assert Starts(n, planned, i) == [i] + Starts(n, planned, next);
    if k < next {
      step := i;
    } else {
      step := WalkPartitions(n, planned, next, k);
    }
  }

  // ----- the queries --------------------------------------------------------------------------

  function Fragment(n: Normalization, pl: PlannedLeaf): Query {
    if pl.frag < |n.fragments| then AtomOf(n.fragments[pl.frag]) else Nothing
  }

  function Fragments(n: Normalization, ls: seq<PlannedLeaf>): (qs: seq<Query>)
    ensures |qs| == |ls| && forall i :: 0 <= i < |qs| ==> qs[i] == Fragment(n, ls[i])
  {
    if ls == [] then [] else [Fragment(n, ls[0])] + Fragments(n, ls[1..])
  }

  /** A typed fragment, or a synonym of what was typed. */
  function WithSynonyms(n: Normalization, typed: Query, ngram: string): Query {
    OrOf([typed] + Atoms(SynonymQueries(n.synonyms, ngram)))
  }

  function MemberQuery(n: Normalization, pl: PlannedLeaf): Query {
    if pl.leaf.Word? then WithSynonyms(n, Fragment(n, pl), pl.leaf.text) else Fragment(n, pl)
  }

  function MemberQueriesOf(n: Normalization, ls: seq<PlannedLeaf>): (qs: seq<Query>)
    ensures |qs| == |ls| && forall i :: 0 <= i < |qs| ==> qs[i] == MemberQuery(n, ls[i])
  {
    if ls == [] then [] else [MemberQuery(n, ls[0])] + MemberQueriesOf(n, ls[1..])
  }

  /** The typed leaves a step covers. */
  function StepLeaves(n: Normalization, planned: seq<Planned>, i: nat): seq<PlannedLeaf>
    requires i < |planned|
  {
    AllLeaves(planned[i..i + StepLen(n, planned, i)])
  }

  /** The query of the step at i. */
  function StepQuery(n: Normalization, planned: seq<Planned>, i: nat): Query
  {
    if i >= |planned| then Nothing
    else
    match planned[i]
    case PlannedOr(members) => OrOf(MemberQueriesOf(n, members))
    case PlannedOne(one) =>
      if one.leaf.Phrase? then Fragment(n, one)
      else
        var step := planned[i..i + StepLen(n, planned, i)];
        WithSynonyms(n, AndOf(Fragments(n, AllLeaves(step))), NgramKey(step))
  }

  /** The surviving steps' queries, from position i on. */
  function UnitsFrom(n: Normalization, planned: seq<Planned>, i: nat): seq<Query>
    decreases |planned| - i
  {
    if i >= |planned| then []
    else
      var q := StepQuery(n, planned, i);
      (if q != Nothing then [q] else []) + UnitsFrom(n, planned, i + StepLen(n, planned, i))
  }

  /** The n-grams looked up for the members of an OR group. */
  function MemberNgrams(members: seq<PlannedLeaf>): seq<string> {
    if members == [] then []
    else
      var last := members[|members| - 1].leaf;
      MemberNgrams(members[..|members| - 1]) + if last.Word? then [last.text] else []
  }

  /** The n-grams looked up at a step. */
  function StepNgrams(n: Normalization, planned: seq<Planned>, i: nat): seq<string>
    requires i < |planned|
  {
    match planned[i]
    case PlannedOr(members) => MemberNgrams(members)
    case PlannedOne(one) => if one.leaf.Phrase? then [] else [NgramKey(planned[i..i + StepLen(n, planned, i)])]
  }

  /** The n-grams looked up from position i on. */
  function NgramsFrom(n: Normalization, planned: seq<Planned>, i: nat): seq<string>
    decreases |planned| - i
  {
    if i >= |planned| then [] else StepNgrams(n, planned, i) + NgramsFrom(n, planned, i + StepLen(n, planned, i))
  }

  datatype Composed = Composed(
    strict: Query, any: Query, units: seq<Query>, excluded: Query, relaxable: bool, exclusionsOnly: bool,
    substring: Option<string>, typo: Option<string>, synonymsApplied: seq<seq<string>>)

  /** The queries of an OR group's members; a bare word brings its own synonyms. */
  method ComposeMembers(n: Normalization, members: seq<PlannedLeaf>, groups: seq<seq<string>>)
    returns (qs: seq<Query>, applied: seq<seq<string>>)
    ensures qs == MemberQueriesOf(n, members) && applied == ListedAll(groups, n.synonyms, MemberNgrams(members))
  {
    hide Listed, SynonymQueries, OrOf;
    qs, applied := [], groups;
    for k := 0 to |members|
      invariant |qs| == k && forall j :: 0 <= j < k ==> qs[j] == MemberQuery(n, members[j])
      invariant applied == ListedAll(groups, n.synonyms, MemberNgrams(members[..k]))
    {
      var m := Fragment(n, members[k]);
      if members[k].leaf.Word? {
        var text := members[k].leaf.text;
        ListedInTurn(groups, n.synonyms, MemberNgrams(members[..k]), [text]);
        ListedOne(applied, n.synonyms, text);
        var synonyms;
        synonyms, applied := CollectSynonyms(n.synonyms, text, applied);
        m := OrOf([m] + Atoms(synonyms));
      }
      NextMember(members, k);
      qs := qs + [m];
    }
    assert members[..|members|] == members;
  }

  lemma NextMember(members: seq<PlannedLeaf>, k: nat)
    requires k < |members|
    ensures MemberNgrams(members[..k + 1]) == if members[k].leaf.Word? then MemberNgrams(members[..k]) + [members[k].leaf.text] else MemberNgrams(members[..k])
  {
    assert members[..k + 1][..k] == members[..k];
  }

  /** The query of one step, with the number of units it takes and the groups listed with its own. */
  method ComposeStep(n: Normalization, planned: seq<Planned>, i: nat, groups: seq<seq<string>>)
    returns (q: Query, len: nat, applied: seq<seq<string>>)
    requires i < |planned|
    ensures q == StepQuery(n, planned, i) && len == StepLen(n, planned, i)
    ensures applied == ListedAll(groups, n.synonyms, StepNgrams(n, planned, i))
  {
    hide OrOf, AndOf, NgramKey, Names, SynonymQueries, AllLeaves, Fragments, Listed, ListedAll;
    match planned[i] {
      case PlannedOr(members) =>
        var qs;
        qs, applied := ComposeMembers(n, members, groups);
        q, len := OrOf(qs), 1;
      case PlannedOne(one) =>
        if one.leaf.Phrase? {
          q, len, applied := Fragment(n, one), 1, groups;
          ListedOne(groups, n.synonyms, "");
        } else {
          len := LongestNgram(n, planned, i);
          var step := planned[i..i + len];
          StepIsWords(n, planned, i);
          var synonyms;
          synonyms, applied := CollectSynonyms(n.synonyms, NgramKey(step), groups);
          ListedOne(groups, n.synonyms, NgramKey(step));
          q := OrOf([AndOf(Fragments(n, AllLeaves(step)))] + Atoms(synonyms));
        }
    }
  }

  /** Turn a planned query and its normalization into tsqueries. Units that normalize to nothing drop
      out. */
  method ComposeSearch(p: ParsedSearch, n: Normalization)
    returns (c: Composed, ghost reqs: seq<Request>, ghost positives: seq<Planned>, ghost negatives: seq<PlannedLeaf>)
    ensures |positives| == |p.positives| && forall i :: 0 <= i < |positives| ==> Unplanned(positives[i]) == p.positives[i]
    ensures UnplannedLeaves(negatives) == p.negatives && Consecutive(AllLeaves(positives) + negatives, reqs)
    ensures c.units == UnitsFrom(n, positives, 0)
    ensures c.strict == AndOf(c.units) && c.any == OrOf(c.units)
    ensures c.excluded == OrOf(Fragments(n, negatives))
    ensures c.relaxable <==> |c.units| >= 2 && !p.hasOr
    ensures c.exclusionsOnly <==> c.strict == Nothing && c.excluded != Nothing
    ensures c.substring == (if p.operatorFree then Some(p.text) else None)
    ensures c.typo.Some? <==> c.substring.Some? && |p.text| >= 4
    ensures c.typo.Some? ==> c.typo == c.substring
    ensures c.synonymsApplied == ListedAll([], n.synonyms, NgramsFrom(n, positives, 0))
  {
    var rs, pos, neg := PlanFragments(p);
    reqs, positives, negatives := rs, pos, neg;
    var units, applied := ComposeUnits(pos, n);
    var excluded := OrOf(Fragments(n, neg));
    var substring := if p.operatorFree then Some(p.text) else None;
    var typo := if substring.Some? && |substring.value| >= TYPO_MIN_CHARS then substring else None;
    c := Composed(AndOf(units), OrOf(units), units, excluded,
      |units| >= 2 && !p.hasOr, AndOf(units) == Nothing && excluded != Nothing, substring, typo, applied);
  }

  lemma Regroup(a: seq<Query>, b: seq<Query>, c: seq<Query>)
    ensures a + (b + c) == a + b + c
    ensures a + [] == a
  {
  }

  /** What is composed so far, and what the walk goes on with from position i, is what it gives in all. */
  ghost predicate ComposedTo(n: Normalization, planned: seq<Planned>, i: nat, units: seq<Query>, groups: seq<seq<string>>) {
    && units + UnitsFrom(n, planned, i) == UnitsFrom(n, planned, 0)
    && ListedAll(groups, n.synonyms, NgramsFrom(n, planned, i)) == ListedAll([], n.synonyms, NgramsFrom(n, planned, 0))
  }

  lemma ComposedNext(n: Normalization, planned: seq<Planned>, i: nat, units: seq<Query>, groups: seq<seq<string>>)
    requires i < |planned| && ComposedTo(n, planned, i, units, groups)
    ensures var q := StepQuery(n, planned, i);
      ComposedTo(n, planned, i + StepLen(n, planned, i), if q != Nothing then units + [q] else units,
        ListedAll(groups, n.synonyms, StepNgrams(n, planned, i)))
  {
    hide StepQuery, StepLen, StepNgrams, ListedAll;
    var next := i + StepLen(n, planned, i);
    var q := StepQuery(n, planned, i);
    Regroup(units, if q != Nothing then [q] else [], UnitsFrom(n, planned, next));
    ListedInTurn(groups, n.synonyms, StepNgrams(n, planned, i), NgramsFrom(n, planned, next));
  }

  lemma ComposedStarts(n: Normalization, planned: seq<Planned>)
    ensures ComposedTo(n, planned, 0, [], [])
  {
  }

  lemma ComposedEnds(n: Normalization, planned: seq<Planned>, units: seq<Query>, groups: seq<seq<string>>)
    requires ComposedTo(n, planned, |planned|, units, groups)
    ensures units == UnitsFrom(n, planned, 0) && groups == ListedAll([], n.synonyms, NgramsFrom(n, planned, 0))
  {
    assert units + [] == units;
    ListedOne(groups, n.synonyms, "");
  }

  /** The walk over the positives. */
  method ComposeUnits(planned: seq<Planned>, n: Normalization) returns (units: seq<Query>, applied: seq<seq<string>>)
    ensures units == UnitsFrom(n, planned, 0) && applied == ListedAll([], n.synonyms, NgramsFrom(n, planned, 0))
  {
    hide StepQuery, StepLen, StepNgrams, ListedAll, ComposedTo, UnitsFrom, NgramsFrom;
    units, applied := [], [];
    ComposedStarts(n, planned);
    var i := 0;
    while i < |planned|
      invariant 0 <= i <= |planned| && ComposedTo(n, planned, i, units, applied)
    {
      var q, len;
      ComposedNext(n, planned, i, units, applied);
      q, len, applied := ComposeStep(n, planned, i, applied);
      if q != Nothing {
        units := units + [q];
      }
      i := i + len;
    }
    ComposedEnds(n, planned, units, applied);
  }

  // ----- what the queries mean ----------------------------------------------------------------

  /** The units are exactly the surviving steps' queries. */
  lemma {:induction false} UnitsExactly(n: Normalization, planned: seq<Planned>, i: nat)
    requires i <= |planned|
    ensures forall a :: a in Starts(n, planned, i) ==> a < |planned|
    ensures forall a :: a in Starts(n, planned, i) && StepQuery(n, planned, a) != Nothing ==>
      StepQuery(n, planned, a) in UnitsFrom(n, planned, i)
    ensures forall q :: q in UnitsFrom(n, planned, i) ==>
      q != Nothing && exists a :: a in Starts(n, planned, i) && q == StepQuery(n, planned, a)
    decreases |planned| - i
  {
    hide StepQuery;
    WalkIncreases(n, planned, i);
    if i < |planned| {
      var next := i + StepLen(n, planned, i);
      UnitsExactly(n, planned, next);
      var s, rest := Starts(n, planned, i), Starts(n, planned, next);
      assert s == [i] + rest;
      forall q | q in UnitsFrom(n, planned, i)
        ensures q != Nothing && exists a :: a in s && q == StepQuery(n, planned, a)
      {
        if q in UnitsFrom(n, planned, next) {
          var a :| a in rest && q == StepQuery(n, planned, a);
          assert a in s;
        } else {
          assert i in s;
        }
      }
    }
  }

  /** strict is the conjunction and any the disjunction of the units, so strict implies any. */
  lemma StrictImpliesAny(units: seq<Query>, row: set<string>)
    requires Nothing !in units && Matches(AndOf(units), row)
    ensures Matches(OrOf(units), row)
    ensures forall q :: q in units ==> Matches(q, row)
  {
    AndMatches(units, row);
    OrMatches(units, row);
    if AndOf(units) != Nothing {
      var q :| q in units && q != Nothing;
    }
  }

  /** What was typed for one unit is in the row: its fragment, or one member of an OR group. A unit
      with no surviving fragment asks for nothing. */
  ghost predicate TypedUnit(n: Normalization, pu: Planned, row: set<string>) {
    match pu
    case PlannedOne(one) => Fragment(n, one) == Nothing || Matches(Fragment(n, one), row)
    case PlannedOr(members) =>
      || (forall k :: 0 <= k < |members| ==> Fragment(n, members[k]) == Nothing)
      || (exists k :: 0 <= k < |members| && Matches(Fragment(n, members[k]), row))
  }

  /** The row matches everything typed. */
  ghost predicate Typed(n: Normalization, planned: seq<Planned>, row: set<string>) {
    forall k :: 0 <= k < |planned| ==> TypedUnit(n, planned[k], row)
  }

  /** Some typed fragment of the step at i survived normalization. */
  ghost predicate Survives(n: Normalization, planned: seq<Planned>, i: nat)
    requires i < |planned|
  {
    exists pl :: pl in StepLeaves(n, planned, i) && Fragment(n, pl) != Nothing
  }

  /** No step stands on its synonyms alone. */
  ghost predicate Anchored(n: Normalization, planned: seq<Planned>) {
    forall i :: i in Starts(n, planned, 0) && i < |planned| ==>
      Survives(n, planned, i) || StepQuery(n, planned, i) == Nothing
  }

  lemma {:induction false} LeavesIn(planned: seq<Planned>)
    ensures forall k, pl :: 0 <= k < |planned| && pl in LeavesOf(planned[k]) ==> pl in AllLeaves(planned)
    ensures forall pl :: pl in AllLeaves(planned) ==> exists k :: 0 <= k < |planned| && pl in LeavesOf(planned[k])
  {
    if planned != [] {
      LeavesIn(planned[1..]);
      forall k, pl | 0 <= k < |planned| && pl in LeavesOf(planned[k]) ensures pl in AllLeaves(planned) {
        assert k > 0 ==> planned[k] == planned[1..][k - 1];
      }
      forall pl | pl in AllLeaves(planned) ensures exists k :: 0 <= k < |planned| && pl in LeavesOf(planned[k]) {
        if pl in AllLeaves(planned[1..]) {
          var k :| 0 <= k < |planned[1..]| && pl in LeavesOf(planned[1..][k]);
          assert planned[k + 1] == planned[1..][k];
        } else {
          assert pl in LeavesOf(planned[0]);
        }
      }
    }
  }

  lemma AtomMatches(text: string, row: set<string>)
    ensures Matches(AtomOf(text), row) <==> text != "" && text in row
  {
  }

  lemma WithSynonymsMatches(n: Normalization, typed: Query, ngram: string, row: set<string>)
    ensures Matches(WithSynonyms(n, typed, ngram), row) <==>
      Matches(typed, row) || exists t :: t in SynonymQueries(n.synonyms, ngram) && t != "" && t in row
    ensures typed != Nothing ==> WithSynonyms(n, typed, ngram) != Nothing
  {
    hide OrOf, SynonymQueries, Matches, AtomOf, Atoms;
    var texts := SynonymQueries(n.synonyms, ngram);
    var parts := [typed] + Atoms(texts);
    OrMatches(parts, row);
    assert parts[0] == typed && typed in parts;
    forall q | q in parts && Matches(q, row) && q != typed
      ensures exists t :: t in texts && t != "" && t in row
    {
      var i :| 0 <= i < |parts| && parts[i] == q;
      assert q == Atoms(texts)[i - 1];
      AtomMatches(texts[i - 1], row);
      assert texts[i - 1] in texts;
    }
    forall t | t in texts && t != "" && t in row ensures exists q :: q in parts && Matches(q, row) {
      var i :| 0 <= i < |texts| && texts[i] == t;
      AtomMatches(t, row);
      assert parts[i + 1] == Atoms(texts)[i];
      assert parts[i + 1] in parts;
    }
  }

  /** The typed part of a word step. */
  lemma TypedWords(n: Normalization, planned: seq<Planned>, i: nat, len: nat, row: set<string>)
    requires i + len <= |planned| && AllWords(planned[i..i + len]) && Typed(n, planned, row)
    ensures var qs := Fragments(n, AllLeaves(planned[i..i + len])); AndOf(qs) != Nothing ==> Matches(AndOf(qs), row)
  {
    hide AndOf, AllLeaves;
    var step := planned[i..i + len];
    var leaves := AllLeaves(step);
    var qs := Fragments(n, leaves);
    LeavesIn(step);
    AndMatches(qs, row);
    forall q | q in qs && q != Nothing ensures Matches(q, row) {
      var j :| 0 <= j < |qs| && qs[j] == q;
      assert leaves[j] in leaves;
      var k :| 0 <= k < |step| && leaves[j] in LeavesOf(step[k]);
      assert step[k] == planned[i + k];
      assert TypedUnit(n, planned[i + k], row);
    }
  }

  lemma OrStep(n: Normalization, planned: seq<Planned>, i: nat)
    requires i < |planned| && !IsWord(planned[i])
    ensures StepLeaves(n, planned, i) == LeavesOf(planned[i])
  {
    var step := planned[i..i + 1];
    assert step == [planned[i]] && step[1..] == [] && AllLeaves([]) == [];
  }

  /** A step some typed fragment of which survives matches every row that matches what was typed. */
  lemma TypedMatchesStep(n: Normalization, planned: seq<Planned>, i: nat, row: set<string>)
    requires i < |planned| && Typed(n, planned, row) && Survives(n, planned, i)
    ensures Matches(StepQuery(n, planned, i), row)
  {
    hide WithSynonyms, OrOf, AndOf, Fragment, Matches, StepLen, NgramKey, AllLeaves, AllWords, NgramKey, MemberQueriesOf;
    assert TypedUnit(n, planned[i], row);
    hide Typed;
    var pl :| pl in StepLeaves(n, planned, i) && Fragment(n, pl) != Nothing;
    match planned[i] {
      case PlannedOr(members) =>
        OrStep(n, planned, i);
        TypedMatchesGroup(n, members, pl, row);
      case PlannedOne(one) =>
        if one.leaf.Phrase? {
          OrStep(n, planned, i);
        } else {
          StepIsWords(n, planned, i);
          TypedMatchesWords(n, planned, i, StepLen(n, planned, i), pl, row);
        }
    }
  }

  lemma TypedMatchesGroup(n: Normalization, members: seq<PlannedLeaf>, pl: PlannedLeaf, row: set<string>)
    requires TypedUnit(n, PlannedOr(members), row) && pl in members && Fragment(n, pl) != Nothing
    ensures Matches(OrOf(MemberQueriesOf(n, members)), row)
  {
    hide WithSynonyms, OrOf, Fragment, Matches;
    var k :| 0 <= k < |members| && Matches(Fragment(n, members[k]), row);
    var qs := MemberQueriesOf(n, members);
    if members[k].leaf.Word? {
      WithSynonymsMatches(n, Fragment(n, members[k]), members[k].leaf.text, row);
    }
    OrMatches(qs, row);
    assert qs[k] in qs;
  }

  lemma TypedMatchesWords(n: Normalization, planned: seq<Planned>, i: nat, len: nat, pl: PlannedLeaf, row: set<string>)
    requires i + len <= |planned| && AllWords(planned[i..i + len]) && Typed(n, planned, row)
    requires pl in AllLeaves(planned[i..i + len]) && Fragment(n, pl) != Nothing
    ensures var step := planned[i..i + len]; Matches(WithSynonyms(n, AndOf(Fragments(n, AllLeaves(step))), NgramKey(step)), row)
  {
    hide WithSynonyms, AndOf, Fragment, Matches, NgramKey, Typed, AllLeaves, AllWords;
    var step := planned[i..i + len];
    TypedWords(n, planned, i, len, row);
    var leaves := AllLeaves(step);
    var qs := Fragments(n, leaves);
    AndMatches(qs, row);
    var j :| 0 <= j < |leaves| && leaves[j] == pl;
    assert qs[j] in qs;
    WithSynonymsMatches(n, AndOf(qs), NgramKey(step), row);
  }

  lemma StepIsWords(n: Normalization, planned: seq<Planned>, i: nat)
    requires i < |planned| && IsWord(planned[i])
    ensures AllWords(planned[i..i + StepLen(n, planned, i)])
  {
    if StepLen(n, planned, i) == 1 {
      assert planned[i..i + 1] == [planned[i]];
    }
  }

  /** A row that matches everything typed matches strict, provided no step stands on synonyms alone. */
  lemma TypedMatchesStrict(n: Normalization, planned: seq<Planned>, row: set<string>)
    requires Anchored(n, planned) && Typed(n, planned, row)
    ensures var strict := AndOf(UnitsFrom(n, planned, 0)); strict == Nothing || Matches(strict, row)
  {
    hide StepQuery, AndOf;
    UnitsExactly(n, planned, 0);
    var units := UnitsFrom(n, planned, 0);
    AndMatches(units, row);
    forall q | q in units && q != Nothing ensures Matches(q, row) {
      var a :| a in Starts(n, planned, 0) && q == StepQuery(n, planned, a);
      TypedMatchesStep(n, planned, a, row);
    }
  }

  // ----- synonyms only widen ------------------------------------------------------------------

  /** The same fragments, no synonym group named. */
  function Bare(n: Normalization): Normalization { Normalization(n.fragments, []) }

  /** Two lists of queries that agree position by position. */
  lemma SamePointwise(a: seq<Query>, b: seq<Query>, row: set<string>)
    requires |a| == |b|
    requires forall k :: 0 <= k < |a| ==> (a[k] == Nothing <==> b[k] == Nothing)
    requires forall k :: 0 <= k < |a| ==> (Matches(a[k], row) <==> Matches(b[k], row))
    ensures (exists q :: q in a && Matches(q, row)) <==> exists k :: 0 <= k < |b| && Matches(b[k], row)
    ensures (forall q :: q in a ==> q == Nothing) <==> forall k :: 0 <= k < |b| ==> b[k] == Nothing
  {
    hide Matches;
    forall q | q in a && Matches(q, row) ensures exists k :: 0 <= k < |b| && Matches(b[k], row) {
      var k :| 0 <= k < |a| && a[k] == q;
      assert Matches(b[k], row);
    }
    forall k | 0 <= k < |b| && Matches(b[k], row) ensures exists q :: q in a && Matches(q, row) {
      assert a[k] in a;
    }
    if forall q :: q in a ==> q == Nothing {
      forall k | 0 <= k < |b| ensures b[k] == Nothing {
        assert a[k] in a;
      }
    }
  }

  lemma BareGroup(n: Normalization, members: seq<PlannedLeaf>, row: set<string>)
    requires n.synonyms == []
    ensures var q := OrOf(MemberQueriesOf(n, members));
      (q == Nothing || Matches(q, row)) <==> TypedUnit(n, PlannedOr(members), row)
  {
    hide OrOf, AndOf, Matches, WithSynonyms;
    var qs, fs := MemberQueriesOf(n, members), Fragments(n, members);
    OrMatches(qs, row);
    forall k | 0 <= k < |members|
      ensures qs[k] == Nothing <==> fs[k] == Nothing
      ensures Matches(qs[k], row) <==> Matches(fs[k], row)
    {
      BareMember(n, fs[k], members[k].leaf, row);
    }
    SamePointwise(qs, fs, row);
  }

  lemma BareStep(n: Normalization, planned: seq<Planned>, i: nat, row: set<string>)
    requires i < |planned| && n.synonyms == []
    ensures StepLen(n, planned, i) == 1
    ensures var q := StepQuery(n, planned, i); (q == Nothing || Matches(q, row)) <==> TypedUnit(n, planned[i], row)
  {
    hide OrOf, AndOf, WithSynonyms, Matches;
    match planned[i]
    case PlannedOr(members) =>
      BareGroup(n, members, row);
    case PlannedOne(one) =>
      if one.leaf.Word? {
        var step := planned[i..i + 1];
        assert step == [planned[i]] && step[1..] == [] && AllLeaves([]) == [];
        var qs := Fragments(n, AllLeaves(step));
        var f := Fragment(n, one);
        assert qs == [f] && f in qs;
        AndMatches(qs, row);
        assert AndOf(qs) == Nothing <==> f == Nothing;
        AtomMatches("", row);
        assert f != Nothing ==> (Matches(AndOf(qs), row) <==> Matches(f, row));
        BareMember(n, AndOf(qs), one.leaf, row);
        assert WordTexts(step) == [one.leaf.text];
        assert NgramKey(step) == one.leaf.text;
      }
  }

  lemma BareMember(n: Normalization, typed: Query, leaf: Leaf, row: set<string>)
    requires n.synonyms == []
    ensures leaf.Word? ==> var q := WithSynonyms(n, typed, leaf.text);
      (q == Nothing <==> typed == Nothing) && (Matches(q, row) <==> Matches(typed, row))
  {
    if leaf.Word? {
      WithSynonymsMatches(n, typed, leaf.text, row);
      var parts := [typed] + Atoms(SynonymQueries(n.synonyms, leaf.text));
      assert parts == [typed];
      OrMatches(parts, row);
    }
  }

  lemma {:induction false} BareStarts(n: Normalization, planned: seq<Planned>, i: nat, k: nat)
    requires n.synonyms == [] && i <= k < |planned|
    ensures k in Starts(n, planned, i)
    decreases |planned| - i
  {
    BareStep(n, planned, i, {});
    if i < k {
      BareStarts(n, planned, i + 1, k);
    }
  }

  /** Without synonyms strict means exactly what was typed. */
  lemma BareMeansTyped(n: Normalization, planned: seq<Planned>, row: set<string>)
    requires n.synonyms == []
    ensures var strict := AndOf(UnitsFrom(n, planned, 0));
      (strict == Nothing || Matches(strict, row)) <==> Typed(n, planned, row)
  {
    hide StepQuery, StepLen, AndOf, TypedUnit, Starts;
    var units := UnitsFrom(n, planned, 0);
    UnitsExactly(n, planned, 0);
    AndMatches(units, row);
    var strict := AndOf(units);
    if strict == Nothing || Matches(strict, row) {
      forall k | 0 <= k < |planned| ensures TypedUnit(n, planned[k], row) {
        BareStarts(n, planned, 0, k);
        BareStep(n, planned, k, row);
        assert StepQuery(n, planned, k) != Nothing ==> StepQuery(n, planned, k) in units;
      }
    }
    if Typed(n, planned, row) {
      forall q | q in units && q != Nothing ensures Matches(q, row) {
        var a :| a in Starts(n, planned, 0) && q == StepQuery(n, planned, a);
        BareStep(n, planned, a, row);
      }
    }
  }

  /** Synonyms only widen: what the query matches without them it matches with them, provided no step
      stands on synonyms alone. */
  lemma SynonymsWiden(n: Normalization, planned: seq<Planned>, row: set<string>)
    requires Anchored(n, planned)
    requires var bare := AndOf(UnitsFrom(Bare(n), planned, 0)); bare == Nothing || Matches(bare, row)
    ensures var strict := AndOf(UnitsFrom(n, planned, 0)); strict == Nothing || Matches(strict, row)
  {
    hide AndOf;
    BareMeansTyped(Bare(n), planned, row);
    assert forall pl :: Fragment(Bare(n), pl) == Fragment(n, pl);
    assert forall k :: 0 <= k < |planned| ==> (TypedUnit(n, planned[k], row) <==> TypedUnit(Bare(n), planned[k], row));
    TypedMatchesStrict(n, planned, row);
  }

  // ----- and exactly then ---------------------------------------------------------------------

  /** Every typed fragment. */
  ghost function TypedTexts(n: Normalization, planned: seq<Planned>): set<string> {
    set pl | pl in AllLeaves(planned) && Fragment(n, pl) != Nothing :: Fragment(n, pl).text
  }

  /** A synonym text of the step at i. */
  ghost predicate StepSynonym(n: Normalization, planned: seq<Planned>, i: nat, t: string)
    requires i < |planned|
  {
    match planned[i]
    case PlannedOr(members) =>
      exists k :: 0 <= k < |members| && members[k].leaf.Word? && t in SynonymQueries(n.synonyms, members[k].leaf.text)
    case PlannedOne(one) =>
      one.leaf.Word? && t in SynonymQueries(n.synonyms, NgramKey(planned[i..i + StepLen(n, planned, i)]))
  }

  /** A step none of whose typed fragments survives has no synonym text that was typed elsewhere. */
  ghost predicate LoneFresh(n: Normalization, planned: seq<Planned>) {
    forall i, t :: i in Starts(n, planned, 0) && i < |planned| && !Survives(n, planned, i) && StepSynonym(n, planned, i, t) ==>
      t !in TypedTexts(n, planned)
  }

  /** The row of exactly the typed fragments matches everything typed. */
  lemma TypedRow(n: Normalization, planned: seq<Planned>)
    ensures Typed(n, planned, TypedTexts(n, planned))
  {
    var row := TypedTexts(n, planned);
    LeavesIn(planned);
    forall pl | pl in AllLeaves(planned) ensures Fragment(n, pl) == Nothing || Matches(Fragment(n, pl), row) {}
    forall k | 0 <= k < |planned| ensures TypedUnit(n, planned[k], row) {
      match planned[k]
      case PlannedOne(one) => assert one in LeavesOf(planned[k]);
      case PlannedOr(members) =>
        if j :| 0 <= j < |members| && Fragment(n, members[j]) != Nothing {
          assert members[j] in LeavesOf(planned[k]);
        }
    }
  }

  /** A step with no surviving typed fragment matches a row only by a synonym. */
  lemma LoneStep(n: Normalization, planned: seq<Planned>, i: nat, row: set<string>)
    requires i < |planned| && !Survives(n, planned, i)
    ensures Matches(StepQuery(n, planned, i), row) ==> exists t :: StepSynonym(n, planned, i, t) && t in row
    ensures StepQuery(n, planned, i) != Nothing ==> exists t :: StepSynonym(n, planned, i, t)
  {
    hide OrOf, AndOf, WithSynonyms, Names, NgramKey, SynonymQueries, Matches, Fragment, StepLen, AllLeaves;
    match planned[i]
    case PlannedOr(members) =>
      OrStep(n, planned, i);
      var qs := MemberQueriesOf(n, members);
      OrMatches(qs, row);
      forall k | 0 <= k < |members|
        ensures Matches(qs[k], row) ==> exists t :: StepSynonym(n, planned, i, t) && t in row
        ensures qs[k] != Nothing ==> exists t :: StepSynonym(n, planned, i, t)
      {
        assert members[k] in StepLeaves(n, planned, i);
        NothingMatches(row);
        if members[k].leaf.Word? {
          LoneSynonyms(n, Fragment(n, members[k]), members[k].leaf.text, row);
          assert forall t :: t in SynonymQueries(n.synonyms, members[k].leaf.text) ==> StepSynonym(n, planned, i, t);
        }
      }
    case PlannedOne(one) =>
      if one.leaf.Phrase? {
        OrStep(n, planned, i);
        NothingMatches(row);
        assert one in StepLeaves(n, planned, i);
      } else {
        StepIsWords(n, planned, i);
        var step := planned[i..i + StepLen(n, planned, i)];
        NothingTypedIn(n, AllLeaves(step));
        LoneSynonyms(n, AndOf(Fragments(n, AllLeaves(step))), NgramKey(step), row);
        assert forall t :: t in SynonymQueries(n.synonyms, NgramKey(step)) ==> StepSynonym(n, planned, i, t);
      }
  }

  lemma NothingMatches(row: set<string>)
    ensures !Matches(Nothing, row)
  {
  }

  lemma NothingTypedIn(n: Normalization, leaves: seq<PlannedLeaf>)
    requires forall pl :: pl in leaves ==> Fragment(n, pl) == Nothing
    ensures AndOf(Fragments(n, leaves)) == Nothing
  {
    hide AndOf, Fragment;
    var qs := Fragments(n, leaves);
    AndMatches(qs, {});
    forall q | q in qs ensures q == Nothing {
      var j :| 0 <= j < |qs| && qs[j] == q;
      assert leaves[j] in leaves;
    }
  }

  /** Without a typed part there are only the synonyms. */
  lemma LoneSynonyms(n: Normalization, typed: Query, ngram: string, row: set<string>)
    requires typed == Nothing
    ensures var q := WithSynonyms(n, typed, ngram);
      && (Matches(q, row) ==> exists t :: t in SynonymQueries(n.synonyms, ngram) && t in row)
      && (q != Nothing ==> exists t :: t in SynonymQueries(n.synonyms, ngram))
  {
    hide SynonymQueries;
    WithSynonymsMatches(n, typed, ngram, row);
    var texts := SynonymQueries(n.synonyms, ngram);
    if texts != [] {
      assert texts[0] in texts;
    } else {
      OrMatches([typed] + Atoms(texts), row);
    }
  }

  /** When a step without typed fragments has synonym texts of its own, every row that matches what was
      typed matches strict if and only if no step stands on synonyms alone. */
  lemma WidensIffAnchored(n: Normalization, planned: seq<Planned>)
    requires LoneFresh(n, planned)
    ensures Anchored(n, planned) <==>
      forall row :: Typed(n, planned, row) ==>
        var strict := AndOf(UnitsFrom(n, planned, 0)); strict == Nothing || Matches(strict, row)
  {
    hide AndOf, StepQuery, TypedTexts, Typed, Survives, StepSynonym, LoneFresh;
    var units := UnitsFrom(n, planned, 0);
    if Anchored(n, planned) {
      forall row | Typed(n, planned, row) ensures AndOf(units) == Nothing || Matches(AndOf(units), row) {
        TypedMatchesStrict(n, planned, row);
      }
    } else {
      var i :| i in Starts(n, planned, 0) && i < |planned|
        && !Survives(n, planned, i) && StepQuery(n, planned, i) != Nothing;
      var row := TypedTexts(n, planned);
      TypedRow(n, planned);
      LoneStep(n, planned, i, row);
      FreshAt(n, planned, i);
      UnitsExactly(n, planned, 0);
      AndMatches(units, row);
      assert StepQuery(n, planned, i) in units;
      assert Typed(n, planned, row);
    }
  }

  lemma FreshAt(n: Normalization, planned: seq<Planned>, i: nat)
    requires LoneFresh(n, planned) && i in Starts(n, planned, 0) && i < |planned| && !Survives(n, planned, i)
    ensures forall t :: StepSynonym(n, planned, i, t) ==> t !in TypedTexts(n, planned)
  {
  }

  /** A step that does stand on synonyms alone: one word, with no fragment but a synonym. The empty row
      matches what was typed, which asks for nothing, and not strict. */
  lemma AloneNarrows()
    ensures var n := Normalization([""], [SynonymMatch("of", ["of", "x"], ["x"])]);
      var planned := [PlannedOne(PlannedLeaf(Word("of", false), 0))];
      && LoneFresh(n, planned) && !Anchored(n, planned) && Typed(n, planned, {})
      && var strict := AndOf(UnitsFrom(n, planned, 0)); strict != Nothing && !Matches(strict, {})
  {
    hide AndOf, StepQuery, StepLen, TypedTexts, Matches, SynonymQueries, LoneFresh, Survives;
    var n := Normalization([""], [SynonymMatch("of", ["of", "x"], ["x"])]);
    var planned := [PlannedOne(PlannedLeaf(Word("of", false), 0))];
    OneWord(n, planned);
    AloneStep(n, planned);
    NothingTyped(n, planned);
    var q := StepQuery(n, planned, 0);
    assert UnitsFrom(n, planned, 0) == [q] + UnitsFrom(n, planned, 1) == [q];
    AndMatches([q], {});
    assert q in [q];
    assert 0 in Starts(n, planned, 0);
  }

  lemma AloneStep(n: Normalization, planned: seq<Planned>)
    requires n == Normalization([""], [SynonymMatch("of", ["of", "x"], ["x"])])
    requires planned == [PlannedOne(PlannedLeaf(Word("of", false), 0))]
    ensures var q := StepQuery(n, planned, 0); q != Nothing && !Matches(q, {})
    ensures !Survives(n, planned, 0)
  {
    hide AndOf, OrOf, SynonymQueries, Names;
    OneWord(n, planned);
    var step := planned[0..1];
    assert step == planned && step[1..] == [] && AllLeaves([]) == [];
    assert WordTexts(step) == ["of"] && NgramKey(step) == "of";
    assert SynonymQueries(n.synonyms, "of") == ["x"] by { AloneTexts(n.synonyms); }
    assert AllLeaves(step) == [planned[0].one];
    var qs := Fragments(n, AllLeaves(step));
    AndMatches(qs, {});
    WithSynonymsMatches(n, AndOf(qs), "of", {});
    var parts := [AndOf(qs)] + Atoms(["x"]);
    OrMatches(parts, {});
    assert parts[1] == Atom("x") && parts[1] in parts;
  }

  lemma AloneTexts(synonyms: seq<SynonymMatch>)
    requires synonyms == [SynonymMatch("of", ["of", "x"], ["x"])]
    ensures SynonymQueries(synonyms, "of") == ["x"]
  {
    OneMember(synonyms[0], "of");
    assert ["x"][1..] == [] && NonEmpty([]) == [];
    assert NonEmpty(["x"]) == ["x"];
  }

  lemma NothingTyped(n: Normalization, planned: seq<Planned>)
    requires n.fragments == [""] && planned == [PlannedOne(PlannedLeaf(Word("of", false), 0))]
    ensures TypedTexts(n, planned) == {} && Typed(n, planned, {}) && LoneFresh(n, planned)
  {
    assert planned[1..] == [] && AllLeaves([]) == [];
    assert AllLeaves(planned) == [planned[0].one];
  }

  lemma OneWord(n: Normalization, planned: seq<Planned>)
    requires |planned| == 1
    ensures StepLen(n, planned, 0) == 1 && Starts(n, planned, 0) == [0]
  {
  }
}
