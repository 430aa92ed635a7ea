/**
 What PostgreSQL returns for a planned query (`normalizationSql` of packages/shared/src/search.ts), and why
 synonyms never narrow a search: a group is joined only to an n-gram that has a lexeme, and an n-gram
 with a lexeme has a word whose own fragment survives.
 */
module SearchSynonyms {
  import opened Common
  import opened SearchQuery
  import opened SearchCompose

  /** PostgreSQL under one search language: the tsquery text of a request, the phrase query of a term,
      and a text's lexemes in order, joined by blanks. */
  datatype Language = Language(fragment: Request -> string, phrase: string -> string, normalize: string -> string)

  /** Fragments and normalized forms are made of the same lexemes: a word whose fragment is empty has none,
      and words without lexemes have none when written one blank apart. */
  ghost predicate Consistent(l: Language) {
    && (forall w, prefix :: l.fragment(RequestOf(Word(w, prefix))) == "" ==> l.normalize(w) == "")
    && (forall ws: seq<string> :: (forall w :: w in ws ==> l.normalize(w) == "") ==> l.normalize(Join(ws, " ")) == "")
  }

  /** A synonym group with its terms' normalized forms as stored. */
  datatype Group = Group(terms: seq<string>, normalized: seq<string>)

  // ----- the normalization query --------------------------------------------------------------

  function FragmentTexts(l: Language, reqs: seq<Request>): (r: seq<string>)
    ensures |r| == |reqs| && forall i :: 0 <= i < |r| ==> r[i] == l.fragment(reqs[i])
  {
    if reqs == [] then [] else [l.fragment(reqs[0])] + FragmentTexts(l, reqs[1..])
  }

  function PhraseTexts(l: Language, terms: seq<string>): seq<string> {
    if terms == [] then [] else [l.phrase(terms[0])] + PhraseTexts(l, terms[1..])
  }

  /** The condition a group is joined to an n-gram under. */
  predicate Joins(l: Language, ngram: string, g: Group) {
    l.normalize(ngram) != "" && l.normalize(ngram) in g.normalized
  }

  /** The groups joined to one n-gram. */
  function MatchesOf(l: Language, ngram: string, groups: seq<Group>): (r: seq<SynonymMatch>)
    ensures forall m :: m in r ==> m.ngram == ngram && l.normalize(ngram) != ""
  {
    if groups == [] then []
    else
      (if Joins(l, ngram, groups[0]) then [SynonymMatch(ngram, groups[0].terms, PhraseTexts(l, groups[0].terms))] else [])
        + MatchesOf(l, ngram, groups[1..])
  }

  function AllMatches(l: Language, asked: seq<string>, groups: seq<Group>): (r: seq<SynonymMatch>)
    ensures forall m :: m in r ==> l.normalize(m.ngram) != ""
  {
    if asked == [] then [] else MatchesOf(l, asked[0], groups) + AllMatches(l, asked[1..], groups)
  }

  /** What the query returns for the requests of a plan and the n-grams asked. */
  function Normalized(l: Language, groups: seq<Group>, asked: seq<string>, reqs: seq<Request>): Normalization {
    Normalization(FragmentTexts(l, reqs), AllMatches(l, asked, groups))
  }

  // ----- a named n-gram has a surviving fragment ----------------------------------------------

  ghost predicate SomeSurvives(n: Normalization, ls: seq<PlannedLeaf>) {
    exists pl :: pl in ls && Fragment(n, pl) != Nothing
  }

  /** Bare words whose n-gram names a group, and a bare OR member that names one, have a fragment. */
  ghost predicate NamedSurvives(n: Normalization, planned: seq<Planned>) {
    && (forall i: nat, len: nat :: Names(n, planned, i, len) ==> SomeSurvives(n, AllLeaves(planned[i..i + len])))
    && (forall pl :: pl in AllLeaves(planned) && pl.leaf.Word? && HasNgram(n.synonyms, pl.leaf.text) ==>
      Fragment(n, pl) != Nothing)
  }

  /** A word the plan numbers has a fragment when it has a lexeme. */
  lemma LexemeSurvives(l: Language, groups: seq<Group>, asked: seq<string>, reqs: seq<Request>, leaves: seq<PlannedLeaf>, pl: PlannedLeaf)
    requires Consistent(l) && Consecutive(leaves, reqs) && pl in leaves && pl.leaf.Word? && l.normalize(pl.leaf.text) != ""
    ensures Fragment(Normalized(l, groups, asked, reqs), pl) != Nothing
  {
    var k :| 0 <= k < |leaves| && leaves[k] == pl;
    assert reqs[k] == RequestOf(Word(pl.leaf.text, pl.leaf.prefix));
  }

  lemma NamedHasLexeme(l: Language, groups: seq<Group>, asked: seq<string>, ngram: string)
    requires HasNgram(AllMatches(l, asked, groups), ngram)
    ensures l.normalize(ngram) != ""
  {
    var k :| 0 <= k < |AllMatches(l, asked, groups)| && AllMatches(l, asked, groups)[k].ngram == ngram;
    assert AllMatches(l, asked, groups)[k] in AllMatches(l, asked, groups);
  }

  /** The leaves of bare words, by their texts. */
  lemma {:induction false} WordLeaves(step: seq<Planned>)
    requires AllWords(step)
    ensures forall t :: t in WordTexts(step) ==> exists pl :: pl in AllLeaves(step) && pl.leaf.Word? && pl.leaf.text == t
  {
    if step != [] {
      WordLeaves(step[1..]);
      assert AllLeaves(step) == [step[0].one] + AllLeaves(step[1..]);
      assert step[0].one in AllLeaves(step);
    }
  }

  lemma LeavesOfPart(planned: seq<Planned>, i: nat, len: nat)
    requires i + len <= |planned|
    ensures forall pl :: pl in AllLeaves(planned[i..i + len]) ==> pl in AllLeaves(planned)
  {
    hide AllLeaves;
    var step := planned[i..i + len];
    LeavesIn(step);
    LeavesIn(planned);
    forall pl | pl in AllLeaves(step) ensures pl in AllLeaves(planned) {
      var k :| 0 <= k < |step| && pl in LeavesOf(step[k]);
      assert step[k] == planned[i + k];
    }
  }

  /** What the query returns has a surviving fragment for whatever it names. */
  lemma QueryNamesSurvivors(l: Language, groups: seq<Group>, asked: seq<string>, reqs: seq<Request>,
      planned: seq<Planned>, negatives: seq<PlannedLeaf>)
    requires Consistent(l) && Consecutive(AllLeaves(planned) + negatives, reqs)
    ensures NamedSurvives(Normalized(l, groups, asked, reqs), planned)
  {
    hide AllLeaves, Consistent, Consecutive, AllMatches, FragmentTexts, HasNgram, Fragment;
    var n := Normalized(l, groups, asked, reqs);
    forall i: nat, len: nat | Names(n, planned, i, len) ensures SomeSurvives(n, AllLeaves(planned[i..i + len])) {
      var step := planned[i..i + len];
      NamedHasLexeme(l, groups, asked, NgramKey(step));
      var t := SomeLexeme(l, WordTexts(step));
      WordLeaves(step);
      var pl :| pl in AllLeaves(step) && pl.leaf.Word? && pl.leaf.text == t;
      LeavesOfPart(planned, i, len);
      LexemeSurvives(l, groups, asked, reqs, AllLeaves(planned) + negatives, pl);
    }
    forall pl | pl in AllLeaves(planned) && pl.leaf.Word? && HasNgram(n.synonyms, pl.leaf.text)
      ensures Fragment(n, pl) != Nothing
    {
      NamedHasLexeme(l, groups, asked, pl.leaf.text);
      LexemeSurvives(l, groups, asked, reqs, AllLeaves(planned) + negatives, pl);
    }
  }

  lemma SomeLexeme(l: Language, words: seq<string>) returns (t: string)
    requires Consistent(l) && l.normalize(Join(words, " ")) != ""
    ensures t in words && l.normalize(t) != ""
  {
    t :| t in words && l.normalize(t) != "";
  }

  // ----- synonyms never narrow ----------------------------------------------------------------

  lemma {:induction false} NoneNamed(synonyms: seq<SynonymMatch>, ngram: string)
    requires !HasNgram(synonyms, ngram)
    ensures MemberQueries(synonyms, ngram) == []
  {
    if synonyms != [] {
      assert synonyms[0].ngram != ngram;
      forall k | 0 <= k < |synonyms[1..]| ensures synonyms[1..][k].ngram != ngram {
        assert synonyms[1..][k] == synonyms[k + 1];
      }
      NoneNamed(synonyms[1..], ngram);
    }
  }

  /** Then no step stands on its synonyms alone. */
  lemma NamedIsAnchored(n: Normalization, planned: seq<Planned>)
    requires NamedSurvives(n, planned)
    ensures Anchored(n, planned)
  {
    hide AllLeaves, StepQuery, Fragment, HasNgram, MemberQueries, NgramKey;
    forall i | i in Starts(n, planned, 0) && i < |planned| && !Survives(n, planned, i)
      ensures StepQuery(n, planned, i) == Nothing
    {
      LoneStep(n, planned, i, {});
      forall t ensures !StepSynonym(n, planned, i, t) {
        NoSynonym(n, planned, i, t);
      }
    }
  }

  lemma NoSynonym(n: Normalization, planned: seq<Planned>, i: nat, t: string)
    requires NamedSurvives(n, planned) && i < |planned| && !Survives(n, planned, i)
    ensures !StepSynonym(n, planned, i, t)
  {
    hide AllLeaves, Fragment, HasNgram, MemberQueries, NgramKey;
    match planned[i]
    case PlannedOr(members) =>
      OrStep(n, planned, i);
      LeavesIn(planned);
      forall k | 0 <= k < |members| && members[k].leaf.Word? ensures SynonymQueries(n.synonyms, members[k].leaf.text) == [] {
        assert members[k] in LeavesOf(planned[i]);
        NoneNamed(n.synonyms, members[k].leaf.text);
      }
    case PlannedOne(one) =>
      if one.leaf.Word? {
        var len := StepLen(n, planned, i);
        StepIsWords(n, planned, i);
        assert !SomeSurvives(n, AllLeaves(planned[i..i + len]));
        assert !Names(n, planned, i, len);
        NoneNamed(n.synonyms, NgramKey(planned[i..i + len]));
      }
  }

  /** A row that matches everything typed matches strict, whatever synonym groups there are. */
  lemma TypedRowsFound(l: Language, groups: seq<Group>, asked: seq<string>, reqs: seq<Request>,
      planned: seq<Planned>, negatives: seq<PlannedLeaf>, row: set<string>)
    requires Consistent(l) && Consecutive(AllLeaves(planned) + negatives, reqs)
    requires Typed(Normalized(l, groups, asked, reqs), planned, row)
    ensures var strict := AndOf(UnitsFrom(Normalized(l, groups, asked, reqs), planned, 0)); strict == Nothing || Matches(strict, row)
  {
    hide UnitsFrom, AndOf, Matches, Typed, Normalized, NamedSurvives, Anchored;
    var n := Normalized(l, groups, asked, reqs);
    QueryNamesSurvivors(l, groups, asked, reqs, planned, negatives);
    NamedIsAnchored(n, planned);
    TypedMatchesStrict(n, planned, row);
  }

  /** Synonyms only widen: what is found without any group is found with every set of groups. */
  lemma GroupsOnlyWiden(l: Language, groups: seq<Group>, asked: seq<string>, reqs: seq<Request>,
      planned: seq<Planned>, negatives: seq<PlannedLeaf>, row: set<string>)
    requires Consistent(l) && Consecutive(AllLeaves(planned) + negatives, reqs)
    requires var bare := AndOf(UnitsFrom(Normalized(l, [], asked, reqs), planned, 0)); bare == Nothing || Matches(bare, row)
    ensures var strict := AndOf(UnitsFrom(Normalized(l, groups, asked, reqs), planned, 0)); strict == Nothing || Matches(strict, row)
  {
    hide UnitsFrom, AndOf, Matches, Typed, NamedSurvives, Anchored;
    var n := Normalized(l, groups, asked, reqs);
    NoGroups(l, asked);
    assert Normalized(l, [], asked, reqs) == Bare(n);
    QueryNamesSurvivors(l, groups, asked, reqs, planned, negatives);
    NamedIsAnchored(n, planned);
    SynonymsWiden(n, planned, row);
  }

  lemma {:induction false} NoGroups(l: Language, asked: seq<string>)
    ensures AllMatches(l, asked, []) == []
  {
    if asked != [] {
      NoGroups(l, asked[1..]);
    }
  }
}
