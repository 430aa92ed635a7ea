/**
 The synonym groups that a compiled query lists as applied (`synonymsApplied` of `composeSearch`,
 packages/shared/src/search.ts): which they are, and that no other group has a part in the query.
 */
module SearchApplied {
  import opened TextLines
  import opened SearchCompose

  // ----- keys ---------------------------------------------------------------------------------

  /** PostgreSQL's texts hold no NUL. */
  predicate NoNul(terms: seq<string>) { forall k :: 0 <= k < |terms| ==> '\0' !in terms[k] }

  /** The key a group is listed under tells it from others. */
  lemma KeyTells(a: seq<string>, b: seq<string>)
    requires a != [] && b != [] && NoNul(a) && NoNul(b) && GroupKey(a) == GroupKey(b)
    ensures a == b
  {
    assert "\0" == ['\0'];
    SplitJoined(a, '\0');
    SplitJoined(b, '\0');
  }

  predicate TermsOk(terms: seq<string>) { terms != [] && NoNul(terms) }

  ghost predicate MatchesOk(synonyms: seq<SynonymMatch>) {
    forall k :: 0 <= k < |synonyms| ==> TermsOk(synonyms[k].terms)
  }

  ghost predicate GroupsOk(groups: seq<seq<string>>) {
    forall k :: 0 <= k < |groups| ==> TermsOk(groups[k])
  }

  predicate Distinct(groups: seq<seq<string>>) {
    forall j, k :: 0 <= j < k < |groups| ==> groups[j] != groups[k]
  }

  // ----- what is listed -----------------------------------------------------------------------

  lemma {:induction false} OneMoreGroup(groups: seq<seq<string>>, terms: seq<string>)
    requires GroupsOk(groups) && TermsOk(terms) && Distinct(groups)
    ensures WithGroup(groups, terms) == if terms in groups then groups else groups + [terms]
    ensures GroupsOk(WithGroup(groups, terms)) && Distinct(WithGroup(groups, terms))
  {
    hide TermsOk, GroupKey;
    if groups != [] {
      var rest := groups[1..];
      if GroupKey(groups[0]) == GroupKey(terms) {
        KeyTells(groups[0], terms) by { assert TermsOk(groups[0]) && TermsOk(terms); TermsAre(groups[0]); TermsAre(terms); }
        assert [terms] + rest == groups;
      } else {
        OneMoreGroup(rest, terms);
        assert [groups[0]] + rest == groups;
      }
    }
  }

  lemma TermsAre(terms: seq<string>)
    requires TermsOk(terms)
    ensures terms != [] && NoNul(terms)
  {
  }

  /** An n-gram names a group. */
  ghost predicate NamedBy(synonyms: seq<SynonymMatch>, ngram: string, terms: seq<string>) {
    exists k :: 0 <= k < |synonyms| && synonyms[k].ngram == ngram && synonyms[k].terms == terms
  }

  lemma NamedByLast(synonyms: seq<SynonymMatch>, ngram: string, terms: seq<string>)
    requires synonyms != []
    ensures var m := synonyms[|synonyms| - 1];
      NamedBy(synonyms, ngram, terms) <==> NamedBy(synonyms[..|synonyms| - 1], ngram, terms) || (m.ngram == ngram && m.terms == terms)
  {
    var before := synonyms[..|synonyms| - 1];
    if k :| 0 <= k < |before| && before[k].ngram == ngram && before[k].terms == terms {
      assert synonyms[k] == before[k];
    }
    if k :| 0 <= k < |synonyms| && synonyms[k].ngram == ngram && synonyms[k].terms == terms {
      assert k < |before| ==> before[k] == synonyms[k];
    }
  }

  lemma {:induction false} ListedExactly(groups: seq<seq<string>>, synonyms: seq<SynonymMatch>, ngram: string)
    requires GroupsOk(groups) && MatchesOk(synonyms) && Distinct(groups)
    ensures var r := Listed(groups, synonyms, ngram);
      GroupsOk(r) && Distinct(r) && forall t :: t in r <==> t in groups || NamedBy(synonyms, ngram, t)
  {
    hide TermsOk, Distinct, GroupsOk, NamedBy, WithGroup;
    if synonyms == [] {
      forall t ensures !NamedBy(synonyms, ngram, t) { NothingNamed(ngram, t); }
    } else {
      var before := synonyms[..|synonyms| - 1];
      var m := synonyms[|synonyms| - 1];
      ListedExactly(groups, before, ngram);
      forall t ensures NamedBy(synonyms, ngram, t) <==> NamedBy(before, ngram, t) || (m.ngram == ngram && m.terms == t) {
        NamedByLast(synonyms, ngram, t);
      }
      OneMoreGroup(Listed(groups, before, ngram), m.terms);
    }
  }

  lemma NothingNamed(ngram: string, terms: seq<string>)
    ensures !NamedBy([], ngram, terms)
  {
  }

  /** The groups listed are exactly those some looked-up n-gram names, each once. */
  lemma {:induction false} AppliedExactly(synonyms: seq<SynonymMatch>, ngrams: seq<string>)
    requires MatchesOk(synonyms)
    ensures var r := ListedAll([], synonyms, ngrams);
      GroupsOk(r) && Distinct(r) && forall t :: t in r <==> exists g :: g in ngrams && NamedBy(synonyms, g, t)
  {
    hide TermsOk, NamedBy, Listed, MatchesOk;
    if ngrams != [] {
      var before, last := ngrams[..|ngrams| - 1], ngrams[|ngrams| - 1];
      AppliedExactly(synonyms, before);
      ListedExactly(ListedAll([], synonyms, before), synonyms, last);
      forall g ensures g in ngrams <==> g in before || g == last {
        assert ngrams == before + [last];
      }
    }
  }

  // ----- the others have no part --------------------------------------------------------------

  /** The matches of the groups listed. */
  function Kept(synonyms: seq<SynonymMatch>, listed: seq<seq<string>>): seq<SynonymMatch> {
    if synonyms == [] then []
    else (if synonyms[0].terms in listed then [synonyms[0]] else []) + Kept(synonyms[1..], listed)
  }

  /** All groups an n-gram names are listed. */
  ghost predicate AllListed(synonyms: seq<SynonymMatch>, listed: seq<seq<string>>, ngram: string) {
    forall k :: 0 <= k < |synonyms| && synonyms[k].ngram == ngram ==> synonyms[k].terms in listed
  }

  lemma {:induction false} KeptSame(synonyms: seq<SynonymMatch>, listed: seq<seq<string>>, ngram: string)
    ensures HasNgram(Kept(synonyms, listed), ngram) ==> HasNgram(synonyms, ngram)
    ensures AllListed(synonyms, listed, ngram) ==>
      MemberQueries(Kept(synonyms, listed), ngram) == MemberQueries(synonyms, ngram)
      && (HasNgram(synonyms, ngram) ==> HasNgram(Kept(synonyms, listed), ngram))
  {
    hide NonEmpty, MemberQueries, HasNgram;
    if synonyms != [] {
      var first, rest := synonyms[0], synonyms[1..];
      KeptSame(rest, listed, ngram);
      assert synonyms == [first] + rest;
      HasHead(first, rest, ngram);
      HasHead(first, Kept(rest, listed), ngram);
      assert Kept(synonyms, listed) == if first.terms in listed then [first] + Kept(rest, listed) else Kept(rest, listed);
      assert AllListed(synonyms, listed, ngram) ==> AllListed(rest, listed, ngram);
    }
  }

  lemma {:induction false} MemberIsLookedUp(members: seq<PlannedLeaf>, k: nat)
    requires k < |members| && members[k].leaf.Word?
    ensures members[k].leaf.text in MemberNgrams(members)
  {
    if k < |members| - 1 {
      MemberIsLookedUp(members[..|members| - 1], k);
    }
  }

  ghost predicate StepListed(n: Normalization, listed: seq<seq<string>>, planned: seq<Planned>, i: nat)
    requires i < |planned|
  {
    forall g :: g in StepNgrams(n, planned, i) ==> AllListed(n.synonyms, listed, g)
  }

  lemma SameLen(n: Normalization, m: Normalization, listed: seq<seq<string>>, planned: seq<Planned>, i: nat)
    requires i < |planned| && m == n.(synonyms := Kept(n.synonyms, listed)) && StepListed(n, listed, planned, i)
    ensures StepLen(m, planned, i) == StepLen(n, planned, i)
  {
    hide Kept, MemberQueries, HasNgram, NgramKey, AllListed, AllWords;
    if IsWord(planned[i]) {
      var len := StepLen(n, planned, i);
      forall k: nat | 2 <= k <= TERM_MAX_WORDS && i + k <= |planned| && AllWords(planned[i..i + k])
        ensures Names(m, planned, i, k) ==> Names(n, planned, i, k)
        ensures k == len && Names(n, planned, i, k) ==> Names(m, planned, i, k)
      {
        KeptSame(n.synonyms, listed, NgramKey(planned[i..i + k]));
        if k == len {
          assert StepNgrams(n, planned, i) == [NgramKey(planned[i..i + len])];
          assert NgramKey(planned[i..i + len]) in StepNgrams(n, planned, i);
        }
      }
    }
  }

  lemma SameQuery(n: Normalization, m: Normalization, listed: seq<seq<string>>, planned: seq<Planned>, i: nat)
    requires i < |planned| && m == n.(synonyms := Kept(n.synonyms, listed)) && StepListed(n, listed, planned, i)
    ensures StepQuery(m, planned, i) == StepQuery(n, planned, i)
  {
    hide Kept, MemberQueries, HasNgram, OrOf, AndOf, NgramKey, AllLeaves, AllListed;
    SameLen(n, m, listed, planned, i);
    match planned[i]
    case PlannedOr(members) =>
      forall k | 0 <= k < |members| ensures MemberQuery(m, members[k]) == MemberQuery(n, members[k]) {
        if members[k].leaf.Word? {
          MemberIsLookedUp(members, k);
          KeptSame(n.synonyms, listed, members[k].leaf.text);
        }
      }
      assert MemberQueriesOf(m, members) == MemberQueriesOf(n, members);
    case PlannedOne(one) =>
      if one.leaf.Word? {
        var len := StepLen(n, planned, i);
        StepIsWords(n, planned, i);
        var key := NgramKey(planned[i..i + len]);
        assert key in StepNgrams(n, planned, i);
        KeptSame(n.synonyms, listed, key);
        var leaves := AllLeaves(planned[i..i + len]);
        assert Fragments(m, leaves) == Fragments(n, leaves);
      }
  }

  lemma ListedApart(n: Normalization, listed: seq<seq<string>>, planned: seq<Planned>, i: nat)
    requires i < |planned| && forall g :: g in NgramsFrom(n, planned, i) ==> AllListed(n.synonyms, listed, g)
    ensures StepListed(n, listed, planned, i)
    ensures forall g :: g in NgramsFrom(n, planned, i + StepLen(n, planned, i)) ==> AllListed(n.synonyms, listed, g)
  {
    hide StepLen, StepNgrams, AllListed;
    var a, b := StepNgrams(n, planned, i), NgramsFrom(n, planned, i + StepLen(n, planned, i));
    assert forall g :: g in a + b <==> g in a || g in b;
  }

  lemma {:induction false} SameUnits(n: Normalization, listed: seq<seq<string>>, planned: seq<Planned>, i: nat)
    requires forall g :: g in NgramsFrom(n, planned, i) ==> AllListed(n.synonyms, listed, g)
    ensures UnitsFrom(n.(synonyms := Kept(n.synonyms, listed)), planned, i) == UnitsFrom(n, planned, i)
    decreases |planned| - i
  {
    hide Kept, StepQuery, StepLen, AllListed, StepListed, NgramsFrom;
    var m := n.(synonyms := Kept(n.synonyms, listed));
    if i < |planned| {
      ListedApart(n, listed, planned, i);
      SameLen(n, m, listed, planned, i);
      SameQuery(n, m, listed, planned, i);
      SameUnits(n, listed, planned, i + StepLen(n, planned, i));
    }
  }

  /** Without the matches of all groups that are not listed, the query compiles to the same units. */
  lemma UnlistedUnused(n: Normalization, planned: seq<Planned>)
    requires MatchesOk(n.synonyms)
    ensures var listed := ListedAll([], n.synonyms, NgramsFrom(n, planned, 0));
      UnitsFrom(n.(synonyms := Kept(n.synonyms, listed)), planned, 0) == UnitsFrom(n, planned, 0)
  {
    hide ListedAll, MatchesOk, NamedBy, Kept, UnitsFrom, NgramsFrom;
    var ngrams := NgramsFrom(n, planned, 0);
    var listed := ListedAll([], n.synonyms, ngrams);
    AppliedExactly(n.synonyms, ngrams);
    forall g | g in ngrams ensures AllListed(n.synonyms, listed, g) {
      forall k | 0 <= k < |n.synonyms| && n.synonyms[k].ngram == g ensures n.synonyms[k].terms in listed {
        NamedAt(n.synonyms, k);
      }
    }
    SameUnits(n, listed, planned, 0);
  }

  lemma NamedAt(synonyms: seq<SynonymMatch>, k: nat)
    requires k < |synonyms|
    ensures NamedBy(synonyms, synonyms[k].ngram, synonyms[k].terms)
  {
  }

  /** Not every group listed has a part: one behind the ten texts taken for its n-gram has none, and is
      listed all the same. */
  lemma ListedButCapped(synonyms: seq<SynonymMatch>, last: SynonymMatch)
    requires |MemberQueries(synonyms, last.ngram)| >= MAX_SYNONYMS_PER_UNIT && MatchesOk(synonyms + [last])
    ensures SynonymQueries(synonyms + [last], last.ngram) == SynonymQueries(synonyms, last.ngram)
    ensures last.terms in ListedAll([], synonyms + [last], [last.ngram])
  {
    hide MatchesOk, ListedAll;
    var all := synonyms + [last];
    MemberQueriesAppend(synonyms, [last], last.ngram);
    AppliedExactly(all, [last.ngram]);
    NamedAt(all, |synonyms|);
    assert last.ngram in [last.ngram];
  }
}
