/**
 What a compiled query finds (packages/shared/src/search.ts): the request a term is sent to PostgreSQL as asks of
 a document what the term itself does, so a search finds exactly the documents that hold what was typed.
 */
module SearchRequests {
  import opened Common
  import opened SearchQuery
  import opened SearchGaps
  import opened GapIdempotence
  import opened SearchReading
  import opened SearchCompose

  /** A document as its words, in order. */
  type Document = seq<string>

  predicate StartsWith(w: string, start: string) {
    |start| <= |w| && w[..|start|] == start
  }

  /** The words stand in the document one behind the other, from i on. */
  predicate StandAt(words: seq<string>, doc: Document, i: nat) {
    i + |words| <= |doc| && doc[i..i + |words|] == words
  }

  // ----- what a term asks for -----------------------------------------------------------------

  /** A word: that word, or one it starts when it is still being typed. A phrase: its words in a row, the last of
      which is only the start of one when the phrase is. */
  ghost predicate LeafHolds(leaf: Leaf, doc: Document) {
    match leaf
    case Word(text, unfinished) => exists k :: 0 <= k < |doc| && if unfinished then StartsWith(doc[k], text) else doc[k] == text
    case Phrase(words, unfinished) =>
      exists i: nat :: PhraseAt(words, unfinished, doc, i)
  }

  predicate PhraseAt(words: seq<string>, unfinished: bool, doc: Document, i: nat) {
    i + |words| <= |doc| && forall k :: 0 <= k < |words| ==>
      if unfinished && k == |words| - 1 then StartsWith(doc[i + k], words[k]) else doc[i + k] == words[k]
  }

  // ----- what a request asks for --------------------------------------------------------------

  /** `plainto_tsquery`: all words; `to_tsquery` with `:*`: a word that starts so; `phraseto_tsquery`: the words in a
      row; `tsquery_phrase` of two: the words in a row, and behind them one that starts so. */
  ghost predicate RequestHolds(r: Request, doc: Document) {
    match r
    case PlainFragment(text) => forall w :: w in Words(text) ==> w in doc
    case PrefixFragment(text) => exists k :: 0 <= k < |doc| && StartsWith(doc[k], text)
    case PhraseFragment(text) => exists i: nat :: StandAt(Words(text), doc, i)
    case PhrasePrefixFragment(head, last) =>
      exists i: nat :: StandAt(Words(head), doc, i) && i + |Words(head)| < |doc| && StartsWith(doc[i + |Words(head)|], last)
  }

  /** A term as the parser returns them: its words hold no blank, white space or quote, and a phrase has one. */
  predicate Sound(leaf: Leaf) {
    match leaf
    case Word(text, _) => BareWord(text)
    case Phrase(words, _) => words != [] && forall k :: 0 <= k < |words| ==> BareWord(words[k])
  }

  /** The request asks of a document what the term does. */
  lemma RequestMeansLeaf(leaf: Leaf, doc: Document)
    requires Sound(leaf)
    ensures RequestHolds(RequestOf(leaf), doc) <==> LeafHolds(leaf, doc)
  {
    hide Words;
    match leaf
    case Word(text, unfinished) =>
      OneWordJoin(text);
      WordsOfJoin([text]);
      if text in doc {
        var k :| 0 <= k < |doc| && doc[k] == text;
      }
    case Phrase(words, unfinished) =>
      if unfinished {
        UnfinishedPhrase(words, doc);
      } else {
        WordsOfJoin(words);
        FinishedPhrase(words, doc);
      }
  }

  lemma OneWordJoin(text: string)
    ensures Join([text], " ") == text
  {
  }

  lemma FinishedPhrase(words: seq<string>, doc: Document)
    ensures forall i: nat :: PhraseAt(words, false, doc, i) <==> StandAt(words, doc, i)
  {
    forall i: nat ensures PhraseAt(words, false, doc, i) <==> StandAt(words, doc, i) {
      if StandAt(words, doc, i) {
        forall k | 0 <= k < |words| ensures doc[i + k] == words[k] {
          assert doc[i..i + |words|][k] == words[k];
        }
      }
    }
  }

  lemma UnfinishedAt(words: seq<string>, doc: Document, i: nat)
    requires words != []
    ensures var n := |words| - 1;
      PhraseAt(words, true, doc, i) <==> StandAt(words[..n], doc, i) && i + n < |doc| && StartsWith(doc[i + n], words[n])
  {
    hide StartsWith;
    var n := |words| - 1;
    var head := words[..n];
    if StandAt(head, doc, i) {
      forall k | 0 <= k < n ensures doc[i + k] == words[k] {
        assert doc[i..i + n][k] == head[k];
      }
    }
    if PhraseAt(words, true, doc, i) {
      assert doc[i..i + n] == head;
    }
  }

  lemma UnfinishedPhrase(words: seq<string>, doc: Document)
    requires Sound(Phrase(words, true))
    ensures RequestHolds(RequestOf(Phrase(words, true)), doc) <==> LeafHolds(Phrase(words, true), doc)
  {
    hide Words, StartsWith, PhraseAt, StandAt, BareWord;
    var n := |words| - 1;
    forall i: nat
      ensures PhraseAt(words, true, doc, i) <==> StandAt(words[..n], doc, i) && i + n < |doc| && StartsWith(doc[i + n], words[n])
    {
      UnfinishedAt(words, doc, i);
    }
    if n > 0 {
      WordsOfJoin(words[..n]);
      assert |Words(Join(words[..n], " "))| == n;
    } else {
      EmptyStands(doc);
      assert words[..n] == [];
      if k :| 0 <= k < |doc| && StartsWith(doc[k], words[0]) {
        assert doc[k + 0] == doc[k] && PhraseAt(words, true, doc, k);
      }
      if i: nat :| PhraseAt(words, true, doc, i) {
        assert StartsWith(doc[i], words[0]);
      }
    }
  }

  lemma EmptyStands(doc: Document)
    ensures forall i: nat :: i <= |doc| ==> StandAt([], doc, i)
  {
  }

  // ----- the parser's terms are sound ---------------------------------------------------------

  ghost predicate AllSound(leaves: seq<Leaf>) {
    forall k :: 0 <= k < |leaves| ==> Sound(leaves[k])
  }

  lemma {:induction false} ItemLeavesSound(items: seq<Item>)
    requires AllScannable(items)
    ensures AllSound(PositiveLeaves(items)) && AllSound(NegativeLeaves(items))
  {
    hide BareWord;
    if items != [] {
      ItemLeavesSound(items[..|items| - 1]);
    }
  }

  lemma ParsedSound(raw: string)
    requires Parse(raw).Some?
    ensures AllSound(Leaves(Parse(raw).value.positives)) && AllSound(Parse(raw).value.negatives)
  {
    hide Parse, Lex, NormalizeSearchText, Leaves, PositiveLeaves, NegativeLeaves, Joins, StillTyped, BareWord;
    ParseReads(raw);
    NormalizedSpaces(raw);
    var items := Lex(NormalizeSearchText(raw), 0).items;
    LexScannable(NormalizeSearchText(raw), 0);
    ItemLeavesSound(items);
    var leaves := Leaves(Parse(raw).value.positives);
    forall k | 0 <= k < |leaves| ensures Sound(leaves[k]) {
      assert UnmarkLeaf(leaves[k]) == PositiveLeaves(items)[k];
    }
  }

  // ----- what a search finds ------------------------------------------------------------------

  /** A row of the index holds a fragment exactly when its document answers the request; a request of stop words
      alone has no fragment. */
  ghost predicate Indexed(fragments: seq<string>, reqs: seq<Request>, doc: Document, row: set<string>) {
    |fragments| == |reqs| && forall k :: 0 <= k < |reqs| ==> fragments[k] != "" ==>
      (fragments[k] in row <==> RequestHolds(reqs[k], doc))
  }

  /** The term has a fragment at all. */
  predicate Asks(fragments: seq<string>, pl: PlannedLeaf) {
    pl.frag < |fragments| && fragments[pl.frag] != ""
  }

  /** The document holds one positive unit: its term, or one term of an OR group. */
  ghost predicate UnitHolds(fragments: seq<string>, pu: Planned, doc: Document) {
    match pu
    case PlannedOne(one) => Asks(fragments, one) ==> LeafHolds(one.leaf, doc)
    case PlannedOr(members) =>
      (exists k :: 0 <= k < |members| && Asks(fragments, members[k])) ==>
      exists k :: 0 <= k < |members| && Asks(fragments, members[k]) && LeafHolds(members[k].leaf, doc)
  }

  /** A planned term's fragment is in the row exactly when the document holds the term. */
  lemma FragmentFinds(n: Normalization, leaves: seq<PlannedLeaf>, reqs: seq<Request>, pl: PlannedLeaf, doc: Document, row: set<string>)
    requires Consecutive(leaves, reqs) && Indexed(n.fragments, reqs, doc, row) && pl in leaves && Sound(pl.leaf)
    ensures Fragment(n, pl) != Nothing <==> Asks(n.fragments, pl)
    ensures Asks(n.fragments, pl) ==> (Matches(Fragment(n, pl), row) <==> LeafHolds(pl.leaf, doc))
  {
    hide LeafHolds, RequestHolds, RequestOf, Sound;
    var k :| 0 <= k < |leaves| && leaves[k] == pl;
    assert pl.frag == k && reqs[k] == RequestOf(pl.leaf);
    RequestMeansLeaf(pl.leaf, doc);
  }

  lemma UnitFinds(n: Normalization, leaves: seq<PlannedLeaf>, reqs: seq<Request>, pu: Planned, doc: Document, row: set<string>)
    requires Consecutive(leaves, reqs) && Indexed(n.fragments, reqs, doc, row)
    requires forall pl :: pl in LeavesOf(pu) ==> pl in leaves && Sound(pl.leaf)
    ensures TypedUnit(n, pu, row) <==> UnitHolds(n.fragments, pu, doc)
  {
    hide LeafHolds, Fragment, Matches, Asks, Sound, Consecutive, Indexed;
    NothingMatches(row);
    match pu
    case PlannedOne(one) =>
      assert one in LeavesOf(pu);
      FragmentFinds(n, leaves, reqs, one, doc, row);
    case PlannedOr(members) =>
      forall k | 0 <= k < |members|
        ensures Fragment(n, members[k]) != Nothing <==> Asks(n.fragments, members[k])
        ensures Asks(n.fragments, members[k]) ==> (Matches(Fragment(n, members[k]), row) <==> LeafHolds(members[k].leaf, doc))
      {
        assert members[k] in LeavesOf(pu);
        FragmentFinds(n, leaves, reqs, members[k], doc, row);
      }
  }

  /** Without synonyms a search finds exactly the documents that hold every positive unit typed, and excludes exactly
      those that hold some excluded term; terms of stop words alone ask for nothing. */
  lemma FindsWhatIsTyped(n: Normalization, reqs: seq<Request>, planned: seq<Planned>, negatives: seq<PlannedLeaf>,
      doc: Document, row: set<string>)
    requires n.synonyms == [] && Consecutive(AllLeaves(planned) + negatives, reqs) && Indexed(n.fragments, reqs, doc, row)
    requires forall pl :: pl in AllLeaves(planned) + negatives ==> Sound(pl.leaf)
    ensures var strict := AndOf(UnitsFrom(n, planned, 0));
      (strict == Nothing || Matches(strict, row)) <==> forall k :: 0 <= k < |planned| ==> UnitHolds(n.fragments, planned[k], doc)
    ensures Matches(OrOf(Fragments(n, negatives)), row) <==>
      exists k :: 0 <= k < |negatives| && Asks(n.fragments, negatives[k]) && LeafHolds(negatives[k].leaf, doc)
  {
    hide UnitsFrom, AndOf, OrOf, Matches, TypedUnit, UnitHolds, Consecutive, Indexed, Sound, AllLeaves, Fragment, LeafHolds, Asks;
    var leaves := AllLeaves(planned) + negatives;
    BareMeansTyped(n, planned, row);
    LeavesIn(planned);
    forall k | 0 <= k < |planned| ensures TypedUnit(n, planned[k], row) <==> UnitHolds(n.fragments, planned[k], doc) {
      UnitFinds(n, leaves, reqs, planned[k], doc, row);
    }
    ExcludesWhatIsTyped(n, leaves, reqs, negatives, doc, row);
  }

  lemma ExcludesWhatIsTyped(n: Normalization, leaves: seq<PlannedLeaf>, reqs: seq<Request>, negatives: seq<PlannedLeaf>,
      doc: Document, row: set<string>)
    requires Consecutive(leaves, reqs) && Indexed(n.fragments, reqs, doc, row)
    requires forall pl :: pl in negatives ==> pl in leaves && Sound(pl.leaf)
    ensures Matches(OrOf(Fragments(n, negatives)), row) <==>
      exists k :: 0 <= k < |negatives| && Asks(n.fragments, negatives[k]) && LeafHolds(negatives[k].leaf, doc)
  {
    hide OrOf, Matches, Consecutive, Indexed, Sound, Fragment, LeafHolds, Asks;
    var qs := Fragments(n, negatives);
    OrMatches(qs, row);
    NothingMatches(row);
    forall k | 0 <= k < |negatives|
      ensures Matches(qs[k], row) <==> Asks(n.fragments, negatives[k]) && LeafHolds(negatives[k].leaf, doc)
    {
      assert negatives[k] in negatives;
      FragmentFinds(n, leaves, reqs, negatives[k], doc, row);
    }
    if q :| q in qs && Matches(q, row) {
      var k :| 0 <= k < |qs| && qs[k] == q;
    }
    if k :| 0 <= k < |negatives| && Asks(n.fragments, negatives[k]) && LeafHolds(negatives[k].leaf, doc) {
      assert qs[k] in qs;
    }
  }

  // ----- synonyms -----------------------------------------------------------------------------

  /** The texts an n-gram brings are those of the groups it names, without the empty ones, in order, the first ten. */
  lemma {:induction false} MemberTexts(synonyms: seq<SynonymMatch>, ngram: string)
    ensures forall t :: t in MemberQueries(synonyms, ngram) <==>
      t != "" && exists m :: m in synonyms && m.ngram == ngram && t in m.queries
  {
    hide NonEmpty;
    if synonyms != [] {
      var first, rest := synonyms[0], synonyms[1..];
      MemberTexts(rest, ngram);
      NonEmptyTexts(first.queries);
      assert synonyms == [first] + rest;
      forall t ensures (exists m :: m in synonyms && m.ngram == ngram && t in m.queries) <==>
        (first.ngram == ngram && t in first.queries) || exists m :: m in rest && m.ngram == ngram && t in m.queries
      {
        assert first in synonyms;
      }
    }
  }

  lemma {:induction false} NonEmptyTexts(texts: seq<string>)
    ensures forall t :: t in NonEmpty(texts) <==> t != "" && t in texts
  {
    if texts != [] {
      NonEmptyTexts(texts[1..]);
      assert texts == [texts[0]] + texts[1..];
    }
  }

  /** Some typed fragment of the words from i on survives, and the row holds all that do. */
  ghost predicate WordsFound(n: Normalization, planned: seq<Planned>, i: nat, len: nat, row: set<string>)
    requires i + len <= |planned| && AllWords(planned[i..i + len])
  {
    var step := planned[i..i + len];
    && (exists k :: 0 <= k < len && Fragment(n, step[k].one) != Nothing)
    && (forall k :: 0 <= k < len && Fragment(n, step[k].one) != Nothing ==> Matches(Fragment(n, step[k].one), row))
  }

  /** The words of a step, as typed. */
  function TextsOf(step: seq<Planned>): seq<string>
    requires AllWords(step)
  {
    seq(|step|, k requires 0 <= k < |step| => step[k].one.leaf.text)
  }

  /** Some of the first ten texts that the n-gram brings as synonyms is in the row. */
  ghost predicate SynonymFound(n: Normalization, ngram: string, row: set<string>) {
    var texts := MemberQueries(n.synonyms, ngram);
    exists k :: 0 <= k < |texts| && k < 10 && texts[k] in row
  }

  /** A step of bare words matches exactly the rows that hold its words, or a synonym of the words one blank
      apart. */
  lemma StepFinds(n: Normalization, planned: seq<Planned>, i: nat, row: set<string>)
    requires i < |planned| && IsWord(planned[i])
    ensures var len := StepLen(n, planned, i); var step := planned[i..i + len];
      AllWords(step) &&
      (Matches(StepQuery(n, planned, i), row) <==>
       WordsFound(n, planned, i, len, row) || SynonymFound(n, Join(TextsOf(step), " "), row))
  {
    hide OrOf, AndOf, MemberQueries, Matches, StepLen, Fragment, AllLeaves, Names, WithSynonyms, WordsFound, WordTexts;
    var len := StepLen(n, planned, i);
    StepIsWords(n, planned, i);
    var step := planned[i..i + len];
    WordTextsAt(step);
    assert WordTexts(step) == TextsOf(step);
    var typed := AndOf(Fragments(n, AllLeaves(step)));
    WithSynonymsMatches(n, typed, NgramKey(step), row);
    TypedFound(n, planned, i, len, row);
    MemberTexts(n.synonyms, NgramKey(step));
    FirstTen(MemberQueries(n.synonyms, NgramKey(step)), row);
  }

  ghost predicate UnitFound(n: Normalization, pu: Planned, row: set<string>) {
    match pu
    case PlannedOne(one) => Matches(Fragment(n, one), row)
    case PlannedOr(members) => exists k :: 0 <= k < |members| && MemberFound(n, members[k], row)
  }

  /** A phrase matches by its fragment alone; an OR group by the fragment of some member, or a synonym of a bare
      word among them. */
  lemma OtherStepFinds(n: Normalization, planned: seq<Planned>, i: nat, row: set<string>)
    requires i < |planned| && !IsWord(planned[i])
    ensures Matches(StepQuery(n, planned, i), row) <==> UnitFound(n, planned[i], row)
  {
    hide OrOf, Matches, Fragment, WithSynonyms, SynonymFound;
    if planned[i].PlannedOr? {
      var members := planned[i].members;
      var qs := MemberQueriesOf(n, members);
      OrMatches(qs, row);
      forall k | 0 <= k < |members| ensures Matches(qs[k], row) <==> MemberFound(n, members[k], row) {
        MemberFinds(n, members[k], row);
      }
      if q :| q in qs && Matches(q, row) {
        var k :| 0 <= k < |qs| && qs[k] == q;
        assert MemberFound(n, members[k], row);
      }
      if k :| 0 <= k < |members| && MemberFound(n, members[k], row) {
        assert qs[k] in qs;
      }
    }
  }

  ghost predicate MemberFound(n: Normalization, pl: PlannedLeaf, row: set<string>) {
    Matches(Fragment(n, pl), row) || (pl.leaf.Word? && SynonymFound(n, pl.leaf.text, row))
  }

  lemma MemberFinds(n: Normalization, pl: PlannedLeaf, row: set<string>)
    ensures Matches(MemberQuery(n, pl), row) <==> MemberFound(n, pl, row)
  {
    hide OrOf, MemberQueries, Matches, Fragment, WithSynonyms;
    if pl.leaf.Word? {
      WithSynonymsMatches(n, Fragment(n, pl), pl.leaf.text, row);
      MemberTexts(n.synonyms, pl.leaf.text);
      FirstTen(MemberQueries(n.synonyms, pl.leaf.text), row);
    }
  }

  /** The units from i on are bare words, and one blank apart they name a group. */
  ghost predicate NamedAt(n: Normalization, planned: seq<Planned>, i: nat, len: nat) {
    && i + len <= |planned| && AllWords(planned[i..i + len])
    && exists m :: m in n.synonyms && m.ngram == Join(TextsOf(planned[i..i + len]), " ")
  }

  /** A step takes the longest two to four bare words that name a group, or else one unit. */
  lemma StepTakes(n: Normalization, planned: seq<Planned>, i: nat)
    requires i < |planned|
    ensures var len := StepLen(n, planned, i);
      && 1 <= len <= 4 && (len > 1 ==> NamedAt(n, planned, i, len))
      && forall more :: len < more <= 4 ==> !NamedAt(n, planned, i, more)
  {
    hide Names;
    forall k: nat | i + k <= |planned| && AllWords(planned[i..i + k]) ensures Names(n, planned, i, k) <==> NamedAt(n, planned, i, k) {
      NamesAre(n, planned, i, k);
    }
    forall k: nat | Names(n, planned, i, k) ensures i + k <= |planned| && AllWords(planned[i..i + k]) {
      NamesWords(n, planned, i, k);
    }
    if !IsWord(planned[i]) {
      forall more: nat | 1 < more ensures !NamedAt(n, planned, i, more) {
        if i + more <= |planned| {
          assert planned[i..i + more][0] == planned[i];
        }
      }
    }
  }

  lemma NamesWords(n: Normalization, planned: seq<Planned>, i: nat, k: nat)
    requires Names(n, planned, i, k)
    ensures i + k <= |planned| && AllWords(planned[i..i + k])
  {
  }

  lemma NamesAre(n: Normalization, planned: seq<Planned>, i: nat, k: nat)
    requires i + k <= |planned| && AllWords(planned[i..i + k])
    ensures Names(n, planned, i, k) <==> NamedAt(n, planned, i, k)
  {
    var step := planned[i..i + k];
    WordTextsAt(step);
    assert WordTexts(step) == TextsOf(step);
    hide WordTexts, AllWords, Join;
    var ngram := NgramKey(step);
    if m :| m in n.synonyms && m.ngram == ngram {
      var x :| 0 <= x < |n.synonyms| && n.synonyms[x] == m;
      assert HasNgram(n.synonyms, ngram);
    }
    if HasNgram(n.synonyms, ngram) {
      var x :| 0 <= x < |n.synonyms| && n.synonyms[x].ngram == ngram;
      assert n.synonyms[x] in n.synonyms;
    }
  }

  lemma TypedFound(n: Normalization, planned: seq<Planned>, i: nat, len: nat, row: set<string>)
    requires i + len <= |planned| && AllWords(planned[i..i + len])
    ensures Matches(AndOf(Fragments(n, AllLeaves(planned[i..i + len]))), row) <==> WordsFound(n, planned, i, len, row)
  {
    hide AndOf, Matches, Fragment, AllLeaves;
    var step := planned[i..i + len];
    WordLeavesAt(step);
    var qs := Fragments(n, AllLeaves(step));
    AndMatches(qs, row);
    NothingMatches(row);
    assert forall k :: 0 <= k < len ==> qs[k] == Fragment(n, step[k].one) && qs[k] in qs;
    forall q | q in qs && q != Nothing ensures exists k :: 0 <= k < len && Fragment(n, step[k].one) == q {
      var k :| 0 <= k < |qs| && qs[k] == q;
      assert Fragment(n, step[k].one) == q;
    }
  }

  lemma FirstTen(texts: seq<string>, row: set<string>)
    requires forall t :: t in texts ==> t != ""
    ensures (exists t :: t in Capped(texts) && t != "" && t in row) <==> exists k :: 0 <= k < |texts| && k < 10 && texts[k] in row
  {
    var first := Capped(texts);
    if t :| t in first && t != "" && t in row {
      var k :| 0 <= k < |first| && first[k] == t;
      assert texts[k] in row;
    }
    if k :| 0 <= k < |texts| && k < 10 && texts[k] in row {
      assert first[k] == texts[k] && texts[k] in texts && first[k] in first;
    }
  }

  lemma {:induction false} WordTextsAt(step: seq<Planned>)
    requires AllWords(step)
    ensures forall k :: 0 <= k < |step| ==> WordTexts(step)[k] == step[k].one.leaf.text
  {
    if step != [] {
      WordTextsAt(step[1..]);
    }
  }

  lemma {:induction false} WordLeavesAt(step: seq<Planned>)
    requires AllWords(step)
    ensures |AllLeaves(step)| == |step| && forall k :: 0 <= k < |step| ==> AllLeaves(step)[k] == step[k].one
  {
    if step != [] {
      WordLeavesAt(step[1..]);
    }
  }
}
