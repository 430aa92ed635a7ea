/**
 When normalizing a gap query a second time changes nothing.

 `NormalizeGapQuery` (packages/shared/src/search-gaps.ts) is the identity of a gap: its result is
 stored, shown, and searched again. It is not idempotent on every input: a quoted "-foo" prints as an
 exclusion, `"a"` prints below the length floor, and glued phrases can print past the length cap.
 `NormalizesOnce` gives the exact condition.
 */
module GapIdempotence {
  import opened Common
  import opened SearchQuery
  import opened TextLines
  import opened SearchGaps

  // ----- what the scanner produces ------------------------------------------------------------

  ghost predicate OnlySpaces(s: string) {
    forall i :: 0 <= i < |s| && IsSpace(s[i]) ==> s[i] == ' '
  }

  /** A token as the scanner makes it: like a readable one, but a phrase may be left open. */
  predicate Scannable(item: Item) {
    match item
    case WordItem(text, neg) => BareWord(text) && (!neg ==> text != "OR" && !DashWord(text))
    case PhraseItem(words, _, _) => words != [] && forall i :: 0 <= i < |words| ==> BareWord(words[i])
    case OrItem => true
  }

  predicate AllScannable(items: seq<Item>) {
    forall i :: 0 <= i < |items| ==> Scannable(items[i])
  }

  lemma {:induction false} BareLenChars(s: string)
    ensures forall i :: 0 <= i < BareLen(s) ==> s[i] != ' ' && s[i] != '"'
    ensures s != "" && s[0] != ' ' && s[0] != '"' ==> BareLen(s) > 0
  {
    if s != "" {
      BareLenChars(s[1..]);
      forall i | 0 <= i < BareLen(s) ensures s[i] != ' ' && s[i] != '"' {
        assert i > 0 ==> s[i] == s[1..][i - 1];
      }
    }
  }

  lemma {:induction false} QuoteLenChars(s: string)
    ensures forall i :: 0 <= i < QuoteLen(s) ==> s[i] != '"'
  {
    if s != "" {
      QuoteLenChars(s[1..]);
      forall i | 0 <= i < QuoteLen(s) ensures s[i] != '"' {
        assert i > 0 ==> s[i] == s[1..][i - 1];
      }
    }
  }

  lemma {:induction false} WordLenChars(s: string)
    ensures forall i :: 0 <= i < WordLen(s) ==> s[i] != ' '
    ensures s != "" && s[0] != ' ' ==> WordLen(s) > 0
  {
    if s != "" {
      WordLenChars(s[1..]);
      forall i | 0 <= i < WordLen(s) ensures s[i] != ' ' {
        assert i > 0 ==> s[i] == s[1..][i - 1];
      }
    }
  }

  lemma {:induction false} WordsBare(s: string)
    requires OnlySpaces(s) && '"' !in s
    ensures forall i :: 0 <= i < |Words(s)| ==> BareWord(Words(s)[i])
    ensures |Join(Words(s), " ")| <= |s|
    decreases |s|
  {
    if s != "" {
      if s[0] == ' ' {
        assert forall i :: 0 <= i < |s[1..]| ==> s[1..][i] == s[i + 1];
        WordsBare(s[1..]);
      } else {
        WordLenChars(s);
        WordEnds(s);
        var w, rest := s[..WordLen(s)], s[WordLen(s)..];
        if rest != "" {
          assert forall i :: 0 <= i < |rest[1..]| ==> rest[1..][i] == s[i + |w| + 1];
          WordsBare(rest[1..]);
          assert Words(rest) == Words(rest[1..]);
        }
        assert Words(s)[1..] == Words(rest);
      }
    }
  }

  lemma {:induction false} WordEnds(s: string)
    ensures WordLen(s) < |s| ==> s[WordLen(s)] == ' '
  {
    if s != "" {
      WordEnds(s[1..]);
    }
  }

  lemma TokenScannable(s: string)
    requires s != "" && s[0] != ' ' && OnlySpaces(s)
    ensures var t := NextToken(s); OnlySpaces(t.rest) && (t.item.Some? ==> Scannable(t.item.value))
  {
    var neg := StartsExclusion(s);
    var body := if neg then s[1..] else s;
    assert OnlySpaces(body) by {
      assert neg ==> forall i :: 0 <= i < |body| ==> body[i] == s[i + 1];
    }
    if body[0] == '"' {
      QuotedScannable(body, neg);
    } else {
      BareLenChars(body);
      assert OnlySpaces(body[BareLen(body)..]);
      var text := body[..BareLen(body)];
      assert BareWord(text);
      assert !neg && |text| > 1 ==> text[0] == s[0] && text[1] == s[1];
    }
  }

  lemma QuotedScannable(body: string, neg: bool)
    requires body != "" && body[0] == '"' && OnlySpaces(body)
    ensures var t := QuotedToken(body, neg); OnlySpaces(t.rest) && (t.item.Some? ==> Scannable(t.item.value))
  {
    var k := QuoteLen(body[1..]);
    var content := body[1..1 + k];
    QuoteLenChars(body[1..]);
    assert forall i :: 0 <= i < k ==> content[i] == body[1..][i] == body[i + 1];
    WordsBare(content);
  }

  lemma LexUnfold(s: string, terms: nat)
    ensures s == "" || terms >= MAX_TERMS ==> Lex(s, terms).items == []
    ensures s != "" && terms < MAX_TERMS && s[0] == ' ' ==> Lex(s, terms) == Lex(s[1..], terms)
    ensures s != "" && terms < MAX_TERMS && s[0] != ' ' ==>
      var t := NextToken(s);
      Lex(s, terms).items == if t.item.None? then Lex(t.rest, terms).items
        else [t.item.value] + Lex(t.rest, terms + t.item.value.Cost()).items
  {
    hide NextToken;
  }

  lemma {:induction false} LexScannable(s: string, terms: nat)
    requires OnlySpaces(s) && terms <= MAX_TERMS
    ensures AllScannable(Lex(s, terms).items) && terms + Cost(Lex(s, terms).items) <= MAX_TERMS
    decreases |s|
  {
    hide Scannable, Lex, NextToken;
    LexUnfold(s, terms);
    if s != "" && terms < MAX_TERMS {
      if s[0] == ' ' {
        LexScannable(s[1..], terms);
      } else {
        TokenScannable(s);
        var t := NextToken(s);
        LexScannable(t.rest, if t.item.Some? then terms + t.item.value.Cost() else terms);
      }
    }
  }

  lemma {:induction false} CollapseSpaces(s: string)
    ensures OnlySpaces(Collapse(s))
  {
    if s != "" {
      CollapseSpaces(s[1..]);
    }
  }

  lemma TrimmedSpaces(s: string)
    requires OnlySpaces(s)
    ensures OnlySpaces(TrimStart(s)) && OnlySpaces(TrimEnd(s))
  {
    hide IsSpace;
  }

  lemma NormalizedSpaces(raw: string)
    ensures OnlySpaces(NormalizeSearchText(raw))
  {
    CollapseSpaces(raw);
    TrimmedSpaces(Collapse(raw));
    TrimmedSpaces(TrimStart(Collapse(raw)));
    var s := Trim(Collapse(raw));
    if |s| > MAX_CHARS {
      TrimmedSpaces(s[..MAX_CHARS]);
    }
  }

  // ----- what assembling does to the tokens ---------------------------------------------------

  function Shut(item: Item): Item {
    match item
    case PhraseItem(words, neg, _) => PhraseItem(words, neg, true)
    case _ => item
  }

  /** The assembler's trees: every group has two members or more and nothing is marked yet. */
  ghost predicate Tree(st: Assembly) {
    && (forall i :: 0 <= i < |st.positives| ==> UnitUnmarked(st.positives[i]))
    && (forall i :: 0 <= i < |st.negatives| ==> Unmarked(st.negatives[i]))
  }

  function Tokens(st: Assembly): seq<Item> {
    Flatten(st.positives, st.negatives)
  }

  lemma {:induction false} FlatUnitsAppend(a: seq<Unit>, b: seq<Unit>)
    ensures FlatUnits(a + b) == FlatUnits(a) + FlatUnits(b)
  {
    hide FlatUnit;
    if a == [] {
      assert a + b == b;
    } else {
      assert (a + b)[1..] == a[1..] + b;
      FlatUnitsAppend(a[1..], b);
    }
  }

  lemma {:induction false} FlatNegativesAppend(a: seq<Leaf>, b: seq<Leaf>)
    ensures FlatNegatives(a + b) == FlatNegatives(a) + FlatNegatives(b)
  {
    if a == [] {
      assert a + b == b;
    } else {
      assert (a + b)[1..] == a[1..] + b;
      FlatNegativesAppend(a[1..], b);
    }
  }

  lemma {:induction false} FlatOrAppend(a: seq<Leaf>, b: seq<Leaf>)
    ensures FlatOr(a + b) == FlatOr(a) + FlatOr(b)
  {
    if a == [] {
      assert a + b == b;
    } else {
      assert (a + b)[1..] == a[1..] + b;
      FlatOrAppend(a[1..], b);
    }
  }

  lemma FlatJoinOr(u: Unit, leaf: Leaf)
    requires UnitUnmarked(u) && Unmarked(leaf)
    ensures UnitUnmarked(JoinOr(u, leaf))
    ensures FlatUnit(JoinOr(u, leaf)) == FlatUnit(u) + [OrItem, LeafItem(leaf, false)]
  {
    assert FlatOr([leaf]) == [OrItem, LeafItem(leaf, false)] by {
      assert [leaf][1..] == [];
      assert FlatOr([]) == [];
    }
    match u
    case One(first) =>
      assert [first, leaf][1..] == [leaf];
    case OrGroup(members) =>
      assert (members + [leaf])[1..] == members[1..] + [leaf];
      FlatOrAppend(members[1..], [leaf]);
  }

  /** What a token adds to the positive tokens of the tree. */
  function Added(st: Assembly, item: Item): seq<Item> {
    if !item.Positive() then []
    else if st.pendingOr && st.positives != [] then [OrItem, Shut(item)]
    else [Shut(item)]
  }

  /** One token changes the tokens of the tree by itself and the OR it completes. */
  lemma TakeTokens(st: Assembly, item: Item)
    requires Tree(st)
    ensures Tree(Take(st, item))
    ensures FlatUnits(Take(st, item).positives) == FlatUnits(st.positives) + Added(st, item)
    ensures FlatNegatives(Take(st, item).negatives)
      == FlatNegatives(st.negatives) + (if item.Negative() then [Shut(item)] else [])
  {
    hide FlatUnit, FlatNegatives, FlatUnits, UnitUnmarked;
    var st' := Take(st, item);
    if item.Negative() {
      FlatNegativesAppend(st.negatives, [LeafOf(item)]);
      OneNegative(LeafOf(item));
    } else if item.Positive() && st.pendingOr && st.positives != [] {
      var n := |st.positives| - 1;
      var last := st.positives[n];
      FlatJoinOr(last, LeafOf(item));
      assert st.positives == st.positives[..n] + [last];
      FlatUnitsAppend(st.positives[..n], [last]);
      FlatUnitsAppend(st.positives[..n], [JoinOr(last, LeafOf(item))]);
      OneUnit(last);
      OneUnit(JoinOr(last, LeafOf(item)));
    } else if item.Positive() {
      FlatUnitsAppend(st.positives, [One(LeafOf(item))]);
      OneUnit(One(LeafOf(item)));
      NewUnit(item);
    }
  }

  lemma OneUnit(u: Unit)
    ensures FlatUnits([u]) == FlatUnit(u)
  {
    assert [u][1..] == [];
    assert FlatUnits([]) == [];
  }

  lemma NewUnit(item: Item)
    requires item.Positive()
    ensures UnitUnmarked(One(LeafOf(item))) && FlatUnit(One(LeafOf(item))) == [Shut(item)]
  {}

  lemma OneNegative(leaf: Leaf)
    ensures FlatNegatives([leaf]) == [LeafItem(leaf, true)]
  {
    assert [leaf][1..] == [];
    assert FlatNegatives([]) == [];
  }

  /** The printed length of tokens, each with one separator. */
  function Weight(items: seq<Item>): nat {
    if items == [] then 0 else |ItemText(items[0])| + 1 + Weight(items[1..])
  }

  lemma {:induction false} WeightAppend(a: seq<Item>, b: seq<Item>)
    ensures Weight(a + b) == Weight(a) + Weight(b) && Cost(a + b) == Cost(a) + Cost(b)
  {
    hide ItemText;
    if a == [] {
      assert a + b == b;
    } else {
      assert (a + b)[1..] == a[1..] + b;
      WeightAppend(a[1..], b);
    }
  }

  lemma {:induction false} WeightOfJoin(items: seq<Item>)
    ensures |JoinItems(items)| == if items == [] then 0 else Weight(items) - 1
  {
    hide ItemText;
    if |items| > 1 {
      WeightOfJoin(items[1..]);
    }
  }

  lemma AddedMeasures(st: Assembly, item: Item)
    ensures Cost(Added(st, item)) == (if item.Positive() then 1 else 0)
    ensures Weight(Added(st, item)) <=
      (if item.Positive() then |ItemText(item)| + 1 + (if st.pendingOr then 3 else 0) else 0)
  {
    hide ItemText;
    assert ItemText(Shut(item)) == ItemText(item) && |ItemText(OrItem)| == 2 by { ShutText(item); }
    assert [OrItem, Shut(item)][1..] == [Shut(item)] && [Shut(item)][1..] == [];
    assert Cost([Shut(item)]) == Shut(item).Cost() && Weight([Shut(item)]) == |ItemText(Shut(item))| + 1 by {
      assert Cost([]) == 0 && Weight([]) == 0;
    }
  }

  lemma ShutText(item: Item)
    ensures ItemText(Shut(item)) == ItemText(item) && ItemText(OrItem) == "OR"
  {}

  /** Assembling loses no term, and nothing printed but ORs that join nothing. */
  lemma {:induction false} AssembleMeasures(items: seq<Item>, st: Assembly)
    requires Tree(st)
    ensures Tree(Assemble(items, st))
    ensures Cost(Tokens(Assemble(items, st))) == Cost(Tokens(st)) + Cost(items)
    ensures Weight(Tokens(Assemble(items, st))) <= Weight(Tokens(st)) + Weight(items) + (if st.pendingOr then 3 else 0)
    decreases |items|
  {
    hide FlatUnits, FlatNegatives, ItemText, Tree;
    if items != [] {
      var item, st' := items[0], Take(st, items[0]);
      TakeTokens(st, item);
      TakeMeasures(st, item);
      AssembleMeasures(items[1..], st');
    }
  }

  lemma TakeMeasures(st: Assembly, item: Item)
    requires Tree(st)
    ensures Cost(Tokens(Take(st, item))) == Cost(Tokens(st)) + item.Cost()
    ensures var st' := Take(st, item);
      Weight(Tokens(st')) + (if st'.pendingOr then 3 else 0)
      <= Weight(Tokens(st)) + (if st.pendingOr then 3 else 0) + |ItemText(item)| + 1
  {
    hide FlatUnits, FlatNegatives, ItemText, Tree;
    var st' := Take(st, item);
    var pos, neg := FlatUnits(st.positives), FlatNegatives(st.negatives);
    var one := if item.Negative() then [Shut(item)] else [];
    TakeTokens(st, item);
    AddedMeasures(st, item);
    ShutText(item);
    assert Cost(one) == (if item.Negative() then 1 else 0) && Weight(one) == (if item.Negative() then |ItemText(item)| + 1 else 0) by {
      assert [Shut(item)][1..] == [];
      assert Cost([]) == 0 && Weight([]) == 0;
    }
    WeightAppend(pos, neg);
    WeightAppend(pos, Added(st, item));
    WeightAppend(neg, one);
    WeightAppend(FlatUnits(st'.positives), FlatNegatives(st'.negatives));
  }

  ghost predicate Within(items: seq<Item>, pool: set<Item>) {
    forall i :: 0 <= i < |items| ==> items[i] in pool
  }

  /** The tokens of the tree come from the tokens read, closed, and ORs. */
  lemma {:induction false} AssembleFrom(items: seq<Item>, st: Assembly, pool: set<Item>)
    requires Tree(st) && OrItem in pool && forall i :: 0 <= i < |items| ==> Shut(items[i]) in pool
    requires Within(FlatUnits(st.positives), pool) && Within(FlatNegatives(st.negatives), pool)
    ensures Within(Tokens(Assemble(items, st)), pool)
    decreases |items|
  {
    hide FlatUnits, FlatNegatives, Tree, Shut;
    if items != [] {
      TakeTokens(st, items[0]);
      AssembleFrom(items[1..], Take(st, items[0]), pool);
    }
  }

  lemma TreeTokens(items: seq<Item>)
    ensures Tree(NOTHING) && Tokens(NOTHING) == []
    ensures var tokens := Tokens(Assemble(items, NOTHING));
      && Cost(tokens) == Cost(items) && Weight(tokens) <= Weight(items)
      && forall i :: 0 <= i < |tokens| ==> tokens[i] == OrItem || exists k :: 0 <= k < |items| && tokens[i] == Shut(items[k])
  {
    hide Assemble, ItemText, Shut;
    assert Tokens(NOTHING) == [];
    AssembleMeasures(items, NOTHING);
    var pool := {OrItem} + set k | 0 <= k < |items| :: Shut(items[k]);
    AssembleFrom(items, NOTHING, pool);
  }

  // ----- the canonical tokens of a tree, and how they read back -------------------------------

  function CanonItem(item: Item): Item {
    match item
    case WordItem(text, neg) => WordItem(Lower(text), neg)
    case PhraseItem(words, neg, _) =>
      if |words| == 1 then WordItem(Lower(words[0]), neg) else PhraseItem(LowerAll(words), neg, true)
    case OrItem => OrItem
  }

  function CanonItems(items: seq<Item>): (r: seq<Item>)
    ensures |r| == |items| && forall i :: 0 <= i < |items| ==> r[i] == CanonItem(items[i])
  {
    if items == [] then [] else [CanonItem(items[0])] + CanonItems(items[1..])
  }

  /** A positive word that looks like an exclusion reads back as one. */
  function Reread(item: Item): Item {
    if item.WordItem? && !item.neg && DashWord(item.text) then WordItem(item.text[1..], true) else item
  }

  function RereadItems(items: seq<Item>): (r: seq<Item>)
    ensures |r| == |items| && forall i :: 0 <= i < |items| ==> r[i] == Reread(items[i])
  {
    if items == [] then [] else [Reread(items[0])] + RereadItems(items[1..])
  }

  lemma CanonItemsAppend(a: seq<Item>, b: seq<Item>)
    ensures CanonItems(a + b) == CanonItems(a) + CanonItems(b)
    ensures RereadItems(a + b) == RereadItems(a) + RereadItems(b)
  {
    hide CanonItem, Reread;
  }

  lemma {:induction false} FlatOrCanon(members: seq<Leaf>)
    ensures FlatOr(CanonLeaves(members)) == CanonItems(FlatOr(members))
  {
    hide CanonItem, CanonLeaf;
    if members != [] {
      FlatOrCanon(members[1..]);
      assert CanonLeaves(members)[1..] == CanonLeaves(members[1..]);
      LeafCanon(members[0], false);
      var pair := [OrItem, LeafItem(members[0], false)];
      CanonItemsAppend(pair, FlatOr(members[1..]));
      assert CanonItems(pair) == [OrItem, LeafItem(CanonLeaf(members[0]), false)];
    }
  }

  lemma LeafCanon(leaf: Leaf, neg: bool)
    ensures LeafItem(CanonLeaf(leaf), neg) == CanonItem(LeafItem(leaf, neg))
    ensures CanonItem(OrItem) == OrItem
  {}

  lemma FlatUnitCanon(u: Unit)
    ensures FlatUnit(CanonUnit(u)) == CanonItems(FlatUnit(u))
  {
    hide CanonItem, CanonLeaf;
    var first := if u.One? then u.leaf else if u.members != [] then u.members[0] else Word("", false);
    LeafCanon(first, false);
    assert CanonItems([LeafItem(first, false)]) == [CanonItem(LeafItem(first, false))];
    if u.OrGroup? && u.members != [] {
      FlatOrCanon(u.members[1..]);
      assert CanonLeaves(u.members)[1..] == CanonLeaves(u.members[1..]);
      CanonItemsAppend([LeafItem(first, false)], FlatOr(u.members[1..]));
    }
  }

  lemma {:induction false} FlatUnitsCanon(us: seq<Unit>)
    ensures FlatUnits(CanonUnits(us)) == CanonItems(FlatUnits(us))
  {
    hide CanonItem, CanonUnit, FlatUnit;
    if us != [] {
      FlatUnitCanon(us[0]);
      FlatUnitsCanon(us[1..]);
      assert CanonUnits(us)[1..] == CanonUnits(us[1..]);
      CanonItemsAppend(FlatUnit(us[0]), FlatUnits(us[1..]));
    }
  }

  lemma {:induction false} FlatNegativesCanon(ns: seq<Leaf>)
    ensures FlatNegatives(CanonLeaves(ns)) == CanonItems(FlatNegatives(ns))
  {
    hide CanonItem, CanonLeaf;
    if ns != [] {
      LeafCanon(ns[0], true);
      FlatNegativesCanon(ns[1..]);
      assert CanonLeaves(ns)[1..] == CanonLeaves(ns[1..]);
      CanonItemsAppend([LeafItem(ns[0], true)], FlatNegatives(ns[1..]));
    }
  }

  lemma FlattenCanon(us: seq<Unit>, ns: seq<Leaf>)
    ensures Flatten(CanonUnits(us), CanonLeaves(ns)) == CanonItems(Flatten(us, ns))
  {
    hide CanonItem;
    FlatUnitsCanon(us);
    FlatNegativesCanon(ns);
    CanonItemsAppend(FlatUnits(us), FlatNegatives(ns));
  }

  lemma LowerChars(w: string)
    ensures LowerCase(Lower(w))
    ensures BareWord(w) ==> BareWord(Lower(w))
    ensures Lower(w) != "OR"
  {
    assert "OR"[0] == 'O';
    assert Lower(w) == "OR" ==> Lower(w)[0] == 'O';
  }

  /** Tokens printing leaves alone and reading gives back. */
  predicate Settled(item: Item) {
    Readable(item) && CanonItem(item) == item
  }

  /** A canonical token is lower case and tidy; read back, it is a token that stays as it is. */
  lemma CanonReread(item: Item)
    requires Scannable(item)
    ensures ItemText(Reread(CanonItem(item))) == ItemText(CanonItem(item))
    ensures |ItemText(CanonItem(item))| <= |ItemText(item)|
    ensures Settled(Reread(CanonItem(item)))
    ensures Reread(CanonItem(item)).Cost() == item.Cost() && Reread(CanonItem(item)).OrItem? == item.OrItem?
  {
    match item
    case OrItem =>
    case WordItem(text, neg) => WordSettles(text, neg);
    case PhraseItem(words, neg, _) =>
      if |words| == 1 {
        WordSettles(words[0], neg);
        assert Join(words, " ") == words[0];
      } else {
        forall i | 0 <= i < |words|
          ensures BareWord(LowerAll(words)[i]) && LowerAll(LowerAll(words))[i] == LowerAll(words)[i]
        {
          LowerChars(words[i]);
          LowerKeeps(Lower(words[i]));
        }
        JoinLower(words);
      }
  }

  lemma WordSettles(w: string, neg: bool)
    requires BareWord(w)
    ensures var item := Reread(WordItem(Lower(w), neg));
      Settled(item) && ItemText(item) == ItemText(WordItem(Lower(w), neg))
  {
    LowerChars(w);
    LowerKeeps(Lower(w));
    var t := Lower(w);
    if !neg && DashWord(t) {
      assert ['-'] + t[1..] == t;
      LowerKeeps(t[1..]);
    }
  }

  lemma {:induction false} JoinLower(words: seq<string>)
    ensures |Join(LowerAll(words), " ")| == |Join(words, " ")|
  {
    if |words| > 1 {
      JoinLower(words[1..]);
      assert LowerAll(words)[1..] == LowerAll(words[1..]);
    }
  }

  // ----- token order --------------------------------------------------------------------------

  predicate AllNegative(items: seq<Item>) {
    forall i :: 0 <= i < |items| ==> items[i].Negative()
  }

  /** Positive tokens with ORs only between two of them, then exclusions. */
  predicate Ordered(items: seq<Item>, afterOr: bool) {
    if items == [] then !afterOr
    else if items[0].OrItem? then !afterOr && Ordered(items[1..], true)
    else if items[0].neg then !afterOr && AllNegative(items)
    else Ordered(items[1..], false)
  }

  /** Ordered tokens that open with a positive one assemble to a tree with exactly those tokens. */
  lemma {:induction false} AssembleOrdered(items: seq<Item>, st: Assembly)
    requires Tree(st) && Ordered(items, st.pendingOr) && st.negatives == [] && st.lastWasPositive && st.positives != []
    requires forall i :: 0 <= i < |items| ==> Shut(items[i]) == items[i]
    ensures Tokens(Assemble(items, st)) == FlatUnits(st.positives) + (if st.pendingOr then [OrItem] else []) + items
    decreases |items|
  {
    hide FlatUnits, FlatNegatives, Tree, Shut;
    NoNegatives();
    if items != [] {
      var item, st' := items[0], Take(st, items[0]);
      TakeTokens(st, item);
      assert items == [item] + items[1..];
      if item.Negative() {
        AssembleExclusions(items, st);
        NoNegatives();
      } else if item.OrItem? {
        AssembleOrdered(items[1..], st');
      } else {
        assert st'.positives != [];
        AssembleOrdered(items[1..], st');
        Glue(FlatUnits(st.positives), item, items[1..]);
      }
    }
  }

  lemma Glue(front: seq<Item>, item: Item, rest: seq<Item>)
    ensures front + [OrItem, item] + [] + rest == front + [OrItem] + ([item] + rest)
    ensures front + [item] + [] + rest == front + [] + ([item] + rest)
  {}

  lemma {:induction false} AssembleExclusions(items: seq<Item>, st: Assembly)
    requires Tree(st) && AllNegative(items)
    requires forall i :: 0 <= i < |items| ==> Shut(items[i]) == items[i]
    ensures Tokens(Assemble(items, st)) == FlatUnits(st.positives) + FlatNegatives(st.negatives) + items
    decreases |items|
  {
    hide FlatUnits, FlatNegatives, Tree, Shut;
    if items != [] {
      TakeTokens(st, items[0]);
      AssembleExclusions(items[1..], Take(st, items[0]));
      assert items == [items[0]] + items[1..];
    }
  }

  lemma {:induction false} FlatOrOrdered(members: seq<Leaf>, rest: seq<Item>)
    requires Ordered(rest, false)
    ensures Ordered(FlatOr(members) + rest, false)
  {
    if members == [] {
      assert FlatOr(members) + rest == rest;
    } else {
      FlatOrOrdered(members[1..], rest);
      var item, tail := LeafItem(members[0], false), FlatOr(members[1..]) + rest;
      assert FlatOr(members) + rest == [OrItem] + ([item] + tail);
      assert ([OrItem] + ([item] + tail))[1..] == [item] + tail && ([item] + tail)[1..] == tail;
    }
  }

  lemma FlatUnitOrdered(u: Unit, rest: seq<Item>)
    requires Ordered(rest, false) && UnitUnmarked(u)
    ensures Ordered(FlatUnit(u) + rest, false) && FlatUnit(u) != [] && FlatUnit(u)[0].Positive()
  {
    var first, more := if u.One? then u.leaf else u.members[0], if u.One? then [] else FlatOr(u.members[1..]);
    if u.OrGroup? {
      FlatOrOrdered(u.members[1..], rest);
    } else {
      assert more + rest == rest;
    }
    assert FlatUnit(u) + rest == [LeafItem(first, false)] + (more + rest);
    assert (FlatUnit(u) + rest)[1..] == more + rest;
  }

  /** A tree's own tokens are ordered. */
  lemma {:induction false} FlattenOrdered(us: seq<Unit>, ns: seq<Leaf>)
    requires forall i :: 0 <= i < |us| ==> UnitUnmarked(us[i])
    ensures Ordered(Flatten(us, ns), false)
    ensures us != [] ==> Flatten(us, ns) != [] && Flatten(us, ns)[0].Positive()
  {
    hide FlatUnit, UnitUnmarked, Ordered;
    if us == [] {
      NegativesOrdered(ns);
      assert [] + FlatNegatives(ns) == FlatNegatives(ns);
    } else {
      FlattenOrdered(us[1..], ns);
      FlatUnitOrdered(us[0], Flatten(us[1..], ns));
      assert Flatten(us, ns) == FlatUnit(us[0]) + Flatten(us[1..], ns);
    }
  }

  lemma {:induction false} NegativesOrdered(ns: seq<Leaf>)
    ensures AllNegative(FlatNegatives(ns)) && Ordered(FlatNegatives(ns), false)
    ensures |FlatNegatives(ns)| == |ns|
  {
    if ns != [] {
      NegativesOrdered(ns[1..]);
    }
  }

  /** The tree assembled from some tokens has exactly those tokens when they are ordered, and only
      then. */
  lemma OrderedIffAssembled(items: seq<Item>)
    requires forall i :: 0 <= i < |items| ==> Shut(items[i]) == items[i]
    ensures var st := Assemble(items, NOTHING);
      (st.positives != [] && Tokens(st) == items) <==> (items != [] && items[0].Positive() && Ordered(items, false))
  {
    hide Assemble, Shut, Ordered;
    var st := Assemble(items, NOTHING);
    TreeTokens(items);
    AssembleMeasures(items, NOTHING);
    FlattenOrdered(st.positives, st.negatives);
    if items != [] && items[0].Positive() && Ordered(items, false) {
      FirstPositive(items);
    }
  }

  lemma FirstToken(item: Item)
    requires item.Positive()
    ensures var st := Take(NOTHING, item);
      && Tree(st) && FlatUnits(st.positives) == [Shut(item)]
      && st.positives != [] && st.negatives == [] && st.lastWasPositive && !st.pendingOr
  {
    hide FlatUnits, FlatNegatives, Shut;
    TakeTokens(NOTHING, item);
    NoUnits();
  }

  lemma FirstPositive(items: seq<Item>)
    requires forall i :: 0 <= i < |items| ==> Shut(items[i]) == items[i]
    requires items != [] && items[0].Positive() && Ordered(items, false)
    ensures var st := Assemble(items, NOTHING); Tokens(st) == items && st.positives != []
  {
    hide FlatUnits, FlatNegatives, Tree, Shut, Take;
    FirstToken(items[0]);
    AssembleOrdered(items[1..], Take(NOTHING, items[0]));
    assert [Shut(items[0])] + [] + items[1..] == items;
    var st := Assemble(items, NOTHING);
    NoUnits();
    NegativesOrdered(st.negatives);
    assert st.positives == [] ==> Tokens(st) == FlatNegatives(st.negatives);
  }

  lemma NoNegatives()
    ensures FlatNegatives([]) == []
  {}

  lemma NoUnits()
    ensures FlatUnits([]) == []
  {}

  // ----- trees that print in a stable order ---------------------------------------------------

  /** The leaf prints as a bare word that reads as an exclusion: only a quoted "-word" does. */
  predicate Dashed(leaf: Leaf) {
    match CanonLeaf(leaf)
    case Word(text, _) => DashWord(text)
    case Phrase(_, _) => false
  }

  predicate NoneDashed(members: seq<Leaf>) {
    forall i :: 0 <= i < |members| ==> !Dashed(members[i])
  }

  predicate DashFree(u: Unit) {
    match u
    case One(leaf) => !Dashed(leaf)
    case OrGroup(members) => NoneDashed(members)
  }

  predicate AllDashed(us: seq<Unit>) {
    forall i :: 0 <= i < |us| ==> us[i].One? && Dashed(us[i].leaf)
  }

  predicate StableTail(us: seq<Unit>) {
    us == [] || (DashFree(us[0]) && StableTail(us[1..])) || AllDashed(us)
  }

  /** Quoted "-words", if any, are plain units behind all the other positives, which are not none. */
  predicate Stable(us: seq<Unit>) {
    us != [] && DashFree(us[0]) && StableTail(us[1..])
  }

  /** The tokens a token sequence prints as and reads back as. */
  function Reprint(items: seq<Item>): (r: seq<Item>)
    ensures |r| == |items| && forall i :: 0 <= i < |items| ==> r[i] == Reread(CanonItem(items[i]))
  {
    RereadItems(CanonItems(items))
  }

  lemma ReprintAppend(a: seq<Item>, b: seq<Item>)
    ensures Reprint(a + b) == Reprint(a) + Reprint(b)
  {
    hide CanonItem, Reread;
  }

  lemma LeafReprint(leaf: Leaf)
    ensures var item := Reread(CanonItem(LeafItem(leaf, false)));
      !item.OrItem? && (item.neg <==> Dashed(leaf))
    ensures Reread(CanonItem(LeafItem(leaf, true))).Negative()
    ensures Reread(CanonItem(OrItem)) == OrItem
  {}

  lemma {:induction false} OrOrdered(members: seq<Leaf>, rest: seq<Item>)
    ensures Ordered(Reprint(FlatOr(members)) + rest, false) <==> NoneDashed(members) && Ordered(rest, false)
  {
    hide Reread, CanonItem, Dashed, NoneDashed, Ordered;
    if members == [] {
      assert Reprint(FlatOr(members)) + rest == rest;
      assert NoneDashed([]) by { NoneDashedEmpty(); }
    } else {
      LeafReprint(members[0]);
      OrOrdered(members[1..], rest);
      var item := Reread(CanonItem(LeafItem(members[0], false)));
      var tail := Reprint(FlatOr(members[1..])) + rest;
      PairReprint(members[0], FlatOr(members[1..]), rest);
      OrThen(item, tail);
      NoneDashedCons(members);
    }
  }

  lemma PairReprint(leaf: Leaf, more: seq<Item>, rest: seq<Item>)
    ensures Reprint([OrItem, LeafItem(leaf, false)] + more) + rest
      == [OrItem] + ([Reread(CanonItem(LeafItem(leaf, false)))] + (Reprint(more) + rest))
  {
    hide Reprint;
    ReprintAppend([OrItem, LeafItem(leaf, false)], more);
    ReprintPair(leaf);
    PairAssoc(OrItem, Reread(CanonItem(LeafItem(leaf, false))), Reprint(more), rest);
  }

  lemma ReprintPair(leaf: Leaf)
    ensures Reprint([OrItem, LeafItem(leaf, false)]) == [OrItem, Reread(CanonItem(LeafItem(leaf, false)))]
  {
    hide CanonItem, Reread;
    LeafReprint(leaf);
  }

  lemma PairAssoc(a: Item, b: Item, more: seq<Item>, rest: seq<Item>)
    ensures [a, b] + more + rest == [a] + ([b] + (more + rest))
  {
  }

  lemma OrThen(item: Item, tail: seq<Item>)
    requires !item.OrItem?
    ensures Ordered([OrItem] + ([item] + tail), false) <==> !item.neg && Ordered(tail, false)
  {
    assert ([OrItem] + ([item] + tail))[1..] == [item] + tail && ([item] + tail)[1..] == tail;
  }

  lemma NoneDashedEmpty()
    ensures NoneDashed([])
  {}

  lemma NoneDashedCons(members: seq<Leaf>)
    requires members != []
    ensures NoneDashed(members) <==> !Dashed(members[0]) && NoneDashed(members[1..])
  {
    hide Dashed;
    forall i | 0 <= i < |members| && i > 0 ensures members[i] == members[1..][i - 1] {}
  }

  lemma FirstThen(item: Item, tail: seq<Item>)
    requires !item.OrItem?
    ensures Ordered([item] + tail, false) <==> if item.neg then AllNegative(tail) else Ordered(tail, false)
  {
    assert ([item] + tail)[1..] == tail;
    if item.neg && AllNegative(tail) {
      assert AllNegative([item] + tail);
    }
    if item.neg && AllNegative([item] + tail) {
      forall i | 0 <= i < |tail| ensures tail[i].Negative() {
        assert tail[i] == ([item] + tail)[i + 1];
      }
    }
  }

  lemma {:induction false} AllDashedTokens(us: seq<Unit>)
    requires forall i :: 0 <= i < |us| ==> UnitUnmarked(us[i])
    ensures AllNegative(Reprint(FlatUnits(us))) <==> AllDashed(us)
  {
    hide CanonItem, Reread, Dashed, UnitUnmarked;
    if us != [] {
      AllDashedTokens(us[1..]);
      var head, tail := Reprint(FlatUnit(us[0])), Reprint(FlatUnits(us[1..]));
      ReprintAppend(FlatUnit(us[0]), FlatUnits(us[1..]));
      UnitAllNegative(us[0]);
      assert AllNegative(head + tail) <==> AllNegative(head) && AllNegative(tail) by { NegativeAppend(head, tail); }
      AllDashedCons(us);
    }
  }

  lemma AllDashedCons(us: seq<Unit>)
    requires us != []
    ensures AllDashed(us) <==> us[0].One? && Dashed(us[0].leaf) && AllDashed(us[1..])
  {
    hide Dashed;
    forall i | 0 <= i < |us| && i > 0 ensures us[i] == us[1..][i - 1] {}
  }

  lemma NegativeAppend(a: seq<Item>, b: seq<Item>)
    ensures AllNegative(a + b) <==> AllNegative(a) && AllNegative(b)
  {
    forall i | 0 <= i < |a| ensures a[i] == (a + b)[i] {}
    forall i | 0 <= i < |b| ensures b[i] == (a + b)[|a| + i] {}
  }

  lemma UnitAllNegative(u: Unit)
    requires UnitUnmarked(u)
    ensures AllNegative(Reprint(FlatUnit(u))) <==> u.One? && Dashed(u.leaf)
  {
    hide CanonItem, Reread, Dashed;
    var first := if u.One? then u.leaf else u.members[0];
    LeafReprint(first);
    assert Reprint(FlatUnit(u))[0] == Reread(CanonItem(LeafItem(first, false)));
    if u.OrGroup? {
      assert FlatUnit(u)[1] == OrItem;
      assert Reprint(FlatUnit(u))[1] == OrItem;
    }
  }

  lemma UnitOrdered(u: Unit, rest: seq<Item>)
    requires UnitUnmarked(u)
    ensures var tokens := Reprint(FlatUnit(u));
      && tokens != [] && (DashFree(u) ==> tokens[0].Positive())
      && (u.One? && Dashed(u.leaf) ==> !tokens[0].Positive())
      && (Ordered(tokens + rest, false) <==>
            if u.One? && Dashed(u.leaf) then AllNegative(rest) else DashFree(u) && Ordered(rest, false))
  {
    hide CanonItem, Reread, Dashed, Ordered, NoneDashed, FlatOr;
    var first, more := if u.One? then u.leaf else u.members[0], if u.One? then [] else FlatOr(u.members[1..]);
    LeafReprint(first);
    var item := Reread(CanonItem(LeafItem(first, false)));
    HeadReprint(first, more, rest);
    assert FlatUnit(u) == [LeafItem(first, false)] + more;
    FirstThen(item, Reprint(more) + rest);
    if u.One? {
      assert Reprint(more) + rest == rest;
    } else {
      OrOrdered(u.members[1..], rest);
      NoneDashedCons(u.members);
      OrFirst(u.members[1..], rest);
    }
  }

  lemma HeadReprint(leaf: Leaf, more: seq<Item>, rest: seq<Item>)
    ensures Reprint([LeafItem(leaf, false)] + more)[0] == Reread(CanonItem(LeafItem(leaf, false)))
    ensures Reprint([LeafItem(leaf, false)] + more) + rest
      == [Reread(CanonItem(LeafItem(leaf, false)))] + (Reprint(more) + rest)
  {
    hide CanonItem, Reread;
    ReprintAppend([LeafItem(leaf, false)], more);
    assert Reprint([LeafItem(leaf, false)]) == [Reread(CanonItem(LeafItem(leaf, false)))];
  }

  lemma OrFirst(members: seq<Leaf>, rest: seq<Item>)
    requires members != []
    ensures !AllNegative(Reprint(FlatOr(members)) + rest)
  {
    hide CanonItem, Reread;
    LeafReprint(members[0]);
    assert FlatOr(members)[0] == OrItem;
    assert (Reprint(FlatOr(members)) + rest)[0] == Reread(CanonItem(OrItem));
  }

  lemma {:induction false} StableOrdered(us: seq<Unit>, negatives: seq<Item>)
    requires forall i :: 0 <= i < |us| ==> UnitUnmarked(us[i])
    requires AllNegative(negatives)
    ensures Ordered(Reprint(FlatUnits(us)) + negatives, false) <==> StableTail(us)
  {
    hide UnitUnmarked, Dashed, CanonItem, Reread, FlatUnit;
    if us == [] {
      assert Reprint(FlatUnits(us)) + negatives == negatives;
    } else {
      StableOrdered(us[1..], negatives);
      var head, tail := Reprint(FlatUnit(us[0])), Reprint(FlatUnits(us[1..]));
      ReprintAppend(FlatUnit(us[0]), FlatUnits(us[1..]));
      assert Reprint(FlatUnits(us)) + negatives == head + (tail + negatives);
      UnitOrdered(us[0], tail + negatives);
      NegativeAppend(tail, negatives);
      AllDashedTokens(us[1..]);
      AllDashedCons(us);
    }
  }

  /** Order of the reprinted tokens, as a condition on the tree. */
  lemma StableIffOrdered(us: seq<Unit>, ns: seq<Leaf>)
    requires us != [] && forall i :: 0 <= i < |us| ==> UnitUnmarked(us[i])
    ensures var items := Reprint(Flatten(us, ns));
      items != [] && (items[0].Positive() && Ordered(items, false) <==> Stable(us))
  {
    hide UnitUnmarked, DashFree, Dashed, FlatUnit, Ordered, StableTail, Reprint;
    var negatives := Reprint(FlatNegatives(ns));
    var head, tail := Reprint(FlatUnit(us[0])), Reprint(FlatUnits(us[1..])) + negatives;
    NegativesReprint(ns);
    SplitReprint(us, ns);
    StableOrdered(us[1..], negatives);
    UnitOrdered(us[0], tail);
    if us[0].One? {
      OneDashFree(us[0]);
    }
  }

  lemma SplitReprint(us: seq<Unit>, ns: seq<Leaf>)
    requires us != []
    ensures Reprint(Flatten(us, ns))
      == Reprint(FlatUnit(us[0])) + (Reprint(FlatUnits(us[1..])) + Reprint(FlatNegatives(ns)))
  {
    hide Reprint, FlatUnit;
    ReprintAppend(FlatUnits(us), FlatNegatives(ns));
    ReprintAppend(FlatUnit(us[0]), FlatUnits(us[1..]));
  }

  lemma OneDashFree(u: Unit)
    requires u.One?
    ensures DashFree(u) <==> !Dashed(u.leaf)
  {}

  lemma {:induction false} NegativesReprint(ns: seq<Leaf>)
    ensures AllNegative(Reprint(FlatNegatives(ns)))
  {
    hide CanonItem, Reread;
    if ns != [] {
      LeafReprint(ns[0]);
      NegativesReprint(ns[1..]);
      ReprintAppend([LeafItem(ns[0], true)], FlatNegatives(ns[1..]));
    }
  }

  // ----- normalizing twice --------------------------------------------------------------------

  /** What `NormalizeGapQuery` returns for the tree assembled from some tokens. */
  function Print(st: Assembly): Option<string> {
    if st.positives == [] then None else Some(JoinItems(CanonItems(Tokens(st))))
  }

  lemma MarksDoNotPrint(us: seq<Unit>, last: Option<Item>, truncated: bool, ns: seq<Leaf>)
    ensures Flatten(WithPrefix(us, last, truncated), ns) == Flatten(us, ns)
    ensures (WithPrefix(us, last, truncated) == []) <==> (us == [])
  {
    hide FlatUnits, FlatNegatives, UnmarkUnits;
    var marked := WithPrefix(us, last, truncated);
    MarkingForgotten(us, last, truncated);
    FlatUnitsUnmarked(marked);
    FlatUnitsUnmarked(us);
  }

  /** The tokens of a parsed query, canonical and as printed. */
  lemma CanonTokens(tokens: seq<Item>)
    requires AllScannable(tokens)
    ensures JoinItems(Reprint(tokens)) == JoinItems(CanonItems(tokens))
    ensures Weight(CanonItems(tokens)) <= Weight(tokens)
    ensures Cost(Reprint(tokens)) == Cost(tokens)
    ensures AllTidy(CanonItems(tokens))
    ensures forall i :: 0 <= i < |tokens| ==> Settled(Reprint(tokens)[i])
  {
    hide CanonItem, Reread, ItemText, Tidy, Scannable, Settled;
    forall i | 0 <= i < |tokens|
      ensures ItemText(Reprint(tokens)[i]) == ItemText(CanonItems(tokens)[i])
      ensures |ItemText(CanonItems(tokens)[i])| <= |ItemText(tokens[i])|
      ensures Settled(Reprint(tokens)[i]) && Tidy(ItemText(CanonItems(tokens)[i]))
      ensures Reprint(tokens)[i].Cost() == tokens[i].Cost()
    {
      CanonReread(tokens[i]);
      SettledTidy(Reprint(tokens)[i]);
    }
    SameTexts(Reprint(tokens), CanonItems(tokens));
    Shorter(CanonItems(tokens), tokens);
    SameCosts(Reprint(tokens), tokens);
  }

  lemma SettledTidy(item: Item)
    requires Settled(item)
    ensures Tidy(ItemText(item))
  {
    TidyItem(item);
  }

  lemma {:induction false} SameTexts(a: seq<Item>, b: seq<Item>)
    requires |a| == |b| && forall i :: 0 <= i < |a| ==> ItemText(a[i]) == ItemText(b[i])
    ensures JoinItems(a) == JoinItems(b)
  {
    hide ItemText;
    if a != [] {
      SameTexts(a[1..], b[1..]);
    }
  }

  lemma {:induction false} Shorter(a: seq<Item>, b: seq<Item>)
    requires |a| == |b| && forall i :: 0 <= i < |a| ==> |ItemText(a[i])| <= |ItemText(b[i])|
    ensures Weight(a) <= Weight(b)
  {
    hide ItemText;
    if a != [] {
      Shorter(a[1..], b[1..]);
    }
  }

  lemma {:induction false} SameCosts(a: seq<Item>, b: seq<Item>)
    requires |a| == |b| && forall i :: 0 <= i < |a| ==> a[i].Cost() == b[i].Cost()
    ensures Cost(a) == Cost(b)
  {
    if a != [] {
      SameCosts(a[1..], b[1..]);
    }
  }

  /** The tokens of any text's tree are scannable, within the cap, and no heavier than those read. */
  lemma TreeOfScan(items: seq<Item>)
    requires AllScannable(items)
    ensures var st := Assemble(items, NOTHING);
      Tree(st) && AllScannable(Tokens(st)) && Cost(Tokens(st)) == Cost(items) && Weight(Tokens(st)) <= Weight(items)
  {
    hide Assemble, Scannable, Weight, Cost, Tokens, Shut;
    var st := Assemble(items, NOTHING);
    TreeTokens(items);
    AssembleMeasures(items, NOTHING);
    ShutScannable(OrItem);
    forall i | 0 <= i < |Tokens(st)| ensures Scannable(Tokens(st)[i]) {
      if Tokens(st)[i] != OrItem {
        var k :| 0 <= k < |items| && Tokens(st)[i] == Shut(items[k]);
        ShutScannable(items[k]);
      }
    }
  }

  lemma ShutScannable(item: Item)
    ensures Scannable(item) ==> Scannable(Shut(item))
    ensures Scannable(OrItem)
  {}

  lemma NonemptyGroups(st: Assembly)
    requires Tree(st)
    ensures forall i :: 0 <= i < |st.positives| ==> (st.positives[i].OrGroup? ==> st.positives[i].members != [])
  {}

  /** `NormalizeGapQuery` through the scanner's tokens. */
  lemma NormalizeIsPrint(raw: string)
    ensures var s := NormalizeSearchText(raw);
      |s| >= MIN_CHARS ==> NormalizeGapQuery(raw) == Print(Assemble(Lex(s, 0).items, NOTHING))
    ensures |NormalizeSearchText(raw)| < MIN_CHARS ==> NormalizeGapQuery(raw) == None
  {
    hide Assemble, Lex, NormalizeSearchText, NormalizeParsedGapQuery, WithPrefix, Flatten, JoinItems, Tree, Scannable, Tidy;
    var s := NormalizeSearchText(raw);
    if |s| >= MIN_CHARS {
      var l := Lex(s, 0);
      var st := Assemble(l.items, NOTHING);
      NormalizedSpaces(raw);
      LexScannable(s, 0);
      TreeOfScan(l.items);
      CanonTokens(Tokens(st));
      FlattenCanon(st.positives, st.negatives);
      PrintMarked(st, LastTerm(l.items), Trim(l.rest) != "", l.operatorFree, s);
    }
  }

  /** Printing the parser's tree is printing the assembler's, prefix marks or not. */
  lemma PrintMarked(st: Assembly, last: Option<Item>, truncated: bool, plain: bool, text: string)
    requires Tree(st) && AllTidy(CanonItems(Tokens(st)))
    ensures NormalizeParsedGapQuery(ParsedSearch(WithPrefix(st.positives, last, truncated), st.negatives, st.hasOr, plain, text))
      == Print(st)
  {
    hide WithPrefix, Flatten, JoinItems, Tidy, CanonItem;
    var marked := WithPrefix(st.positives, last, truncated);
    MarksDoNotPrint(st.positives, last, truncated, st.negatives);
    if marked == [] {
      NoPositives(st.negatives, st.hasOr, plain, text);
    } else {
      MarkedGroups(st, last, truncated);
      FlattenCanon(marked, st.negatives);
      PrintsTokens(marked, st.negatives);
    }
  }

  lemma NoPositives(ns: seq<Leaf>, hasOr: bool, plain: bool, text: string)
    ensures NormalizeParsedGapQuery(ParsedSearch([], ns, hasOr, plain, text)) == None
  {}

  lemma MarkedGroups(st: Assembly, last: Option<Item>, truncated: bool)
    requires Tree(st)
    ensures var marked := WithPrefix(st.positives, last, truncated);
      forall i :: 0 <= i < |marked| ==> (marked[i].OrGroup? ==> marked[i].members != [])
  {
    NonemptyGroups(st);
  }

  lemma {:induction false} OrderedEnds(items: seq<Item>, afterOr: bool)
    requires Ordered(items, afterOr) && items != []
    ensures !items[|items| - 1].OrItem?
  {
    if |items| > 1 && !items[0].Negative() {
      OrderedEnds(items[1..], items[0].OrItem?);
    }
  }

  /** Readable token sequences within the cap that print alike are alike. */
  lemma JoinInjective(a: seq<Item>, b: seq<Item>)
    requires a != [] && AllReadable(a) && !a[|a| - 1].OrItem? && Cost(a) <= MAX_TERMS
    requires b != [] && AllReadable(b) && !b[|b| - 1].OrItem? && Cost(b) <= MAX_TERMS
    requires JoinItems(a) == JoinItems(b)
    ensures a == b
  {
    hide Lex, Readable, JoinItems, Cost;
    var text := JoinItems(a);
    assert text == text + "";
    ItemsRead(a, "", 0, Cost(a), text);
    ItemsRead(b, "", 0, Cost(b), text);
    EmptyLex(Cost(a));
    EmptyLex(Cost(b));
    assert a + [] == a && b + [] == b;
  }

  ghost predicate AllSettled(items: seq<Item>) {
    forall i :: 0 <= i < |items| ==> Settled(items[i])
  }

  lemma SettledFacts(item: Item)
    requires Settled(item)
    ensures Readable(item) && CanonItem(item) == item && Shut(item) == item && Settled(OrItem)
  {}

  /** Settled tokens print again as they are exactly when they are ordered. */
  lemma PrintAgain(items: seq<Item>)
    requires items != [] && AllSettled(items) && !items[|items| - 1].OrItem? && Cost(items) <= MAX_TERMS
    ensures Print(Assemble(items, NOTHING)) == Some(JoinItems(items)) <==> items[0].Positive() && Ordered(items, false)
  {
    hide Assemble, Settled, CanonItem, JoinItems, Ordered, Cost, Shut, Readable, Flatten, Weight, IsSpace, Tidy, ItemText;
    var st := Assemble(items, NOTHING);
    var tokens := Tokens(st);
    TreeTokens(items);
    forall i | 0 <= i < |items| ensures Readable(items[i]) && Shut(items[i]) == items[i] {
      SettledFacts(items[i]);
    }
    forall i | 0 <= i < |tokens| ensures Readable(tokens[i]) && CanonItems(tokens)[i] == tokens[i] {
      SettledFacts(items[0]);
      if tokens[i] != OrItem {
        var k :| 0 <= k < |items| && tokens[i] == Shut(items[k]);
        SettledFacts(items[k]);
      } else {
        SettledFacts(OrItem);
      }
    }
    assert CanonItems(tokens) == tokens;
    OrderedIffAssembled(items);
    if st.positives != [] && JoinItems(tokens) == JoinItems(items) {
      AssembleMeasures(items, NOTHING);
      TreeOrdered(st);
      JoinInjective(tokens, items);
    }
  }

  lemma TreeOrdered(st: Assembly)
    requires Tree(st) && st.positives != []
    ensures var tokens := Tokens(st); tokens != [] && !tokens[|tokens| - 1].OrItem?
  {
    FlattenOrdered(st.positives, st.negatives);
    OrderedEnds(Tokens(st), false);
  }

  // ----- printed texts past the length cap ----------------------------------------------------

  lemma BarePart(w: string, terms: nat)
    requires w != "" && terms < MAX_TERMS && forall i :: 0 <= i < |w| ==> w[i] != ' ' && w[i] != '"'
    ensures |JoinItems(Lex(w, terms).items)| == |w|
  {
    hide JoinItems;
    var neg := StartsExclusion(w);
    var body := if neg then w[1..] else w;
    assert body + "" == body && forall i :: 0 <= i < |body| ==> body[i] == w[if neg then i + 1 else i];
    BareLenOf(body, "");
    assert body[..|body|] == body && body[|body|..] == "";
    var item := NextToken(w).item.value;
    assert |ItemText(item)| == |w|;
    EmptyLex(terms + item.Cost());
    assert Lex(w, terms).items == [item];
    SingleJoin(item);
  }

  lemma SingleJoin(item: Item)
    ensures JoinItems([item]) == ItemText(item) && JoinItems([]) == ""
  {}

  /** A phrase whose closing quote is cut off scans as an open phrase of the words that are left. */
  lemma OpenPart(content: string, neg: bool, terms: nat)
    requires '"' !in content && terms < MAX_TERMS
    ensures Lex(Marked(['"'] + content, neg), terms).items
      == if Words(content) == [] then [] else [PhraseItem(Words(content), neg, false)]
  {
    hide Words;
    var body := ['"'] + content;
    assert body[1..] == content && content + "" == content;
    QuoteLenOf(content, "");
    assert body[1..1 + |content|] == content;
    Dispatch(body, neg);
    EmptyLex(terms);
    EmptyLex(terms + 1);
  }

  /** The first k characters of a token scan to tokens that print in at most k characters, one more
      for a phrase that gets its quote back. */
  lemma PartBound(item: Item, k: nat, terms: nat)
    requires Readable(item) && k <= |ItemText(item)| && terms < MAX_TERMS
    ensures |JoinItems(Lex(ItemText(item)[..k], terms).items)| <= k + (if item.PhraseItem? then 1 else 0)
  {
    hide JoinItems, Lex, Words;
    var text := ItemText(item);
    if k == 0 {
      EmptyLex(terms);
      SingleJoin(item);
    } else if !item.PhraseItem? {
      BarePart(text[..k], terms);
    } else if k == 1 && item.neg {
      assert text[..k] == "-";
      BarePart("-", terms);
    } else if k == |text| {
      assert text[..k] == text + "";
      LexToken(item, "", terms);
      EmptyLex(terms + item.Cost());
      assert [item] + [] == [item];
      SingleJoin(item);
    } else {
      var m := if item.neg then k - 2 else k - 1;
      var content := Join(item.words, " ")[..m];
      assert text[..k] == Marked(['"'] + content, item.neg);
      WordsOfJoin(item.words);
      OpenPart(content, item.neg, terms);
      PartSpaces(item.words, m);
      WordsBare(content);
      SingleJoin(PhraseItem(Words(content), item.neg, false));
    }
  }

  lemma PartSpaces(words: seq<string>, m: nat)
    requires words != [] && (forall i :: 0 <= i < |words| ==> BareWord(words[i])) && m <= |Join(words, " ")|
    ensures OnlySpaces(Join(words, " ")[..m])
  {
    TidyWords(words);
  }

  lemma ConsJoin(item: Item, items: seq<Item>)
    ensures |JoinItems([item] + items)| == |ItemText(item)| + (if items == [] then 0 else 1 + |JoinItems(items)|)
  {
    hide ItemText;
    assert ([item] + items)[1..] == items;
  }

  /** The text of several tokens cut behind the first one. */
  lemma CutTail(items: seq<Item>, k: nat, terms: nat)
    requires |items| > 1 && AllReadable(items) && !items[|items| - 1].OrItem? && terms + Cost(items) <= MAX_TERMS
    requires |ItemText(items[0])| < k <= |JoinItems(items)|
    ensures var k' := k - |ItemText(items[0])| - 1;
      && k' <= |JoinItems(items[1..])|
      && Lex(JoinItems(items)[..k], terms).items
         == [items[0]] + Lex(JoinItems(items[1..])[..k'], terms + items[0].Cost()).items
  {
    hide Lex, ItemText, Readable;
    var head, tail := ItemText(items[0]), JoinItems(items[1..]);
    var k' := k - |head| - 1;
    LastTermCosts(items[1..]);
    assert JoinItems(items) == head + " " + tail;
    assert JoinItems(items)[..k] == head + ([' '] + tail[..k']);
    LexSpaced(items[0], tail[..k'], terms, JoinItems(items)[..k]);
  }

  /** A cut printed text reads as tokens that print at most one character longer than the cut, and
      no longer when the cut takes one character off a last token that is no phrase. */
  lemma {:induction false} CutBound(items: seq<Item>, k: nat, terms: nat)
    requires items != [] && AllReadable(items) && !items[|items| - 1].OrItem? && terms + Cost(items) <= MAX_TERMS
    requires k <= |JoinItems(items)|
    ensures |JoinItems(Lex(JoinItems(items)[..k], terms).items)| <= k + 1
    ensures k == |JoinItems(items)| - 1 && !items[|items| - 1].PhraseItem? ==>
      |JoinItems(Lex(JoinItems(items)[..k], terms).items)| <= k
    decreases |items|
  {
    hide Lex, ItemText, Readable;
    LastTermCosts(items);
    var head := ItemText(items[0]);
    if |items| == 1 {
      PartBound(items[0], k, terms);
    } else if k <= |head| {
      assert JoinItems(items)[..k] == head[..k];
      LastTermCosts(items[1..]);
      PartBound(items[0], k, terms);
      NonemptyText(items[1..]);
    } else {
      CutTail(items, k, terms);
      var k' := k - |head| - 1;
      CutBound(items[1..], k', terms + items[0].Cost());
      ConsJoin(items[0], Lex(JoinItems(items[1..])[..k'], terms + items[0].Cost()).items);
    }
  }

  lemma NonemptyText(items: seq<Item>)
    requires items != [] && AllReadable(items)
    ensures |JoinItems(items)| > 0
  {
    hide Tidy;
    TidyItems(items);
    TidyNonempty(JoinItems(items));
  }

  lemma TidyNonempty(t: string)
    requires Tidy(t)
    ensures t != ""
  {}

  /** Cutting only the closing quote of a last phrase leaves the tokens as they are, that phrase open. */
  lemma {:induction false} CutQuote(items: seq<Item>, terms: nat)
    requires items != [] && AllReadable(items) && items[|items| - 1].PhraseItem? && terms + Cost(items) <= MAX_TERMS
    ensures var n, k := |items| - 1, |JoinItems(items)| - 1;
      k >= 0 && Lex(JoinItems(items)[..k], terms).items == items[..n] + [items[n].(closed := false)]
    decreases |items|
  {
    hide Lex, Readable, ItemText, JoinItems;
    var n, k := |items| - 1, |JoinItems(items)| - 1;
    JoinLengths(items);
    NonemptyText(items);
    LastTermCosts(items);
    if n == 0 {
      CutOnePhrase(items[0], terms);
    } else {
      NonemptyText(items[1..]);
      CutTail(items, k, terms);
      CutQuote(items[1..], terms + items[0].Cost());
      OpenLast(items);
    }
  }

  lemma JoinLengths(items: seq<Item>)
    requires items != []
    ensures |JoinItems(items)| == |ItemText(items[0])| + if |items| == 1 then 0 else 1 + |JoinItems(items[1..])|
    ensures |items| == 1 ==> JoinItems(items) == ItemText(items[0])
  {
    hide ItemText;
  }

  lemma OpenLast(items: seq<Item>)
    requires |items| > 1 && items[|items| - 1].PhraseItem?
    ensures var n, rest := |items| - 1, items[1..];
      [items[0]] + (rest[..n - 1] + [rest[n - 1].(closed := false)]) == items[..n] + [items[n].(closed := false)]
  {
  }

  lemma CutOnePhrase(item: Item, terms: nat)
    requires Readable(item) && item.PhraseItem? && terms < MAX_TERMS
    ensures var text := ItemText(item);
      Lex(text[..|text| - 1], terms).items == [item.(closed := false)]
  {
    hide Lex, Words;
    var text, content := ItemText(item), Join(item.words, " ");
    assert text[..|text| - 1] == Marked(['"'] + content, item.neg);
    WordsOfJoin(item.words);
    OpenPart(content, item.neg, terms);
  }

  lemma {:induction false} AssembleShut(a: seq<Item>, b: seq<Item>, st: Assembly)
    requires |a| == |b| && forall i :: 0 <= i < |a| ==> Shut(a[i]) == Shut(b[i])
    ensures Assemble(a, st) == Assemble(b, st)
    decreases |a|
  {
    if a != [] {
      assert Shut(a[0]) == Shut(b[0]);
      AssembleShut(a[1..], b[1..], Take(st, a[0]));
    }
  }

  /** The part of a tidy text over the cap that the parser keeps. */
  lemma CappedText(text: string) returns (k: nat)
    requires Tidy(text) && |text| > MAX_CHARS
    ensures k == (if text[MAX_CHARS - 1] == ' ' then MAX_CHARS - 1 else MAX_CHARS)
    ensures NormalizeSearchText(text) == text[..k]
  {
    hide IsSpace, Collapse;
    CollapseTidy(text);
    assert Trim(text) == text by { TrimTidy(text); }
    var cut := text[..MAX_CHARS];
    BlankIsSpace();
    k := if text[MAX_CHARS - 1] == ' ' then MAX_CHARS - 1 else MAX_CHARS;
    assert IsSpace(text[MAX_CHARS - 1]) <==> k < MAX_CHARS;
    assert k < MAX_CHARS ==> !IsSpace(text[MAX_CHARS - 2]);
    CoreLenIs(cut, k);
    assert cut[..k] == text[..k];
  }

  lemma BlankIsSpace()
    ensures IsSpace(' ')
  {
  }

  /** The printed length of a tree is at most that of the tokens it was assembled from. */
  lemma PrintBound(items: seq<Item>)
    requires AllScannable(items)
    ensures var printed := Print(Assemble(items, NOTHING));
      printed.Some? ==> |printed.value| <= |JoinItems(items)|
  {
    hide Assemble, Scannable, CanonItem, JoinItems, Weight, Tokens, Cost;
    var st := Assemble(items, NOTHING);
    TreeOfScan(items);
    CanonTokens(Tokens(st));
    WeightOfJoin(CanonItems(Tokens(st)));
    WeightOfJoin(items);
    if items == [] {
      NoItems();
    }
  }

  lemma NoItems()
    ensures Assemble([], NOTHING).positives == []
  {}

  /** The last character of a printed text is a quote exactly when its last token is a phrase. */
  lemma {:induction false} LastChar(items: seq<Item>)
    requires items != [] && AllReadable(items) && !items[|items| - 1].OrItem?
    ensures JoinItems(items) != ""
    ensures JoinItems(items)[|JoinItems(items)| - 1] == '"' <==> items[|items| - 1].PhraseItem?
  {
    NonemptyText(items);
    if |items| > 1 {
      LastChar(items[1..]);
    }
  }

  /** A text keeps its length when parsed: within the limits, or one over, by a closing quote that the
      parser supplies again. */
  predicate KeepsLength(text: string) {
    || MIN_CHARS <= |text| <= MAX_CHARS
    || (|text| == MAX_CHARS + 1 && text[MAX_CHARS] == '"')
  }

  /** Normalizing a printed text: the tree of its own tokens if the length keeps, else a shorter text. */
  lemma NormalizePrinted(items: seq<Item>, text: string)
    requires items != [] && AllReadable(items) && !items[|items| - 1].OrItem? && Cost(items) <= MAX_TERMS
    requires text == JoinItems(items)
    ensures if KeepsLength(text) then NormalizeGapQuery(text) == Print(Assemble(items, NOTHING))
            else NormalizeGapQuery(text) != Some(text)
  {
    hide Assemble, Lex, Readable, Cost, JoinItems, Print, NormalizeGapQuery, Collapse, Tidy, Scannable;
    hide NormalizeSearchText, IsSpace, Shut, OnlySpaces;
    TidyItems(items);
    NormalizeIsPrint(text);
    if |text| <= MAX_CHARS {
      NormalizeTidy(text);
      assert text == text + "";
      ItemsRead(items, "", 0, Cost(items), text);
      EmptyLex(Cost(items));
      assert items + [] == items;
    } else {
      var k := CappedText(text);
      NormalizedSpaces(text);
      LexScannable(text[..k], 0);
      LastChar(items);
      if KeepsLength(text) {
        QuoteBeforeEnd(items, text);
        CutQuote(items, 0);
        var n := |items| - 1;
        var open := items[..n] + [items[n].(closed := false)];
        assert open == Lex(text[..k], 0).items;
        OpenShut(items, open);
        AssembleShut(items, open, NOTHING);
      } else {
        CutBound(items, k, 0);
        PrintBound(Lex(text[..k], 0).items);
      }
    }
  }

  lemma OpenShut(items: seq<Item>, open: seq<Item>)
    requires items != [] && items[|items| - 1].PhraseItem? && AllReadable(items)
    requires open == items[..|items| - 1] + [items[|items| - 1].(closed := false)]
    ensures |open| == |items| && forall i :: 0 <= i < |items| ==> Shut(items[i]) == Shut(open[i])
  {}

  /** The character before a printed text's closing quote is no space. */
  lemma {:induction false} QuoteBeforeEnd(items: seq<Item>, text: string)
    requires items != [] && AllReadable(items) && items[|items| - 1].PhraseItem? && text == JoinItems(items)
    ensures |text| >= 2 && text[|text| - 2] != ' '
  {
    var last := items[|items| - 1];
    if |items| == 1 {
      TidyWords(last.words);
      assert Quoted(last.words)[|Quoted(last.words)| - 2] == Join(last.words, " ")[|Join(last.words, " ")| - 1];
    } else {
      QuoteBeforeEnd(items[1..], JoinItems(items[1..]));
    }
  }

  lemma {:induction false} StableUnmarked(us: seq<Unit>)
    ensures (Stable(UnmarkUnits(us)) <==> Stable(us)) && (StableTail(UnmarkUnits(us)) <==> StableTail(us))
  {
    var unmarked := UnmarkUnits(us);
    forall i | 0 <= i < |us|
      ensures DashFree(unmarked[i]) <==> DashFree(us[i])
      ensures (unmarked[i].One? && Dashed(unmarked[i].leaf)) <==> (us[i].One? && Dashed(us[i].leaf))
    {
      DashedUnmarked(us[i]);
    }
    if us != [] {
      StableUnmarked(us[1..]);
      assert unmarked[1..] == UnmarkUnits(us[1..]);
    }
  }

  lemma DashedUnmarked(u: Unit)
    ensures DashFree(UnmarkUnit(u)) <==> DashFree(u)
    ensures (UnmarkUnit(u).One? && Dashed(UnmarkUnit(u).leaf)) <==> (u.One? && Dashed(u.leaf))
  {
    if u.OrGroup? {
      forall i | 0 <= i < |u.members| ensures Dashed(UnmarkLeaves(u.members)[i]) <==> Dashed(u.members[i]) {}
    }
  }

  /** Normalizing a normalized query changes nothing exactly when its length keeps and its quoted
      "-words" all stand, as plain units, behind some other positive. */
  lemma NormalizesOnce(raw: string)
    requires NormalizeGapQuery(raw).Some?
    ensures var text := NormalizeGapQuery(raw).value;
      && Parse(raw).Some?
      && (NormalizeGapQuery(text) == Some(text) <==> KeepsLength(text) && Stable(Parse(raw).value.positives))
  {
    hide *;
    var text := NormalizeGapQuery(raw).value;
    var items := PrintedTokens(raw);
    AllSettledReadable(items);
    NormalizePrinted(items, text);
    PrintedStable(raw, items);
    var st := Assemble(items, NOTHING);
    PrintAgain(items);
  }

  lemma AllSettledReadable(items: seq<Item>)
    requires AllSettled(items)
    ensures AllReadable(items)
  {
    hide Settled, Readable;
    forall i | 0 <= i < |items| ensures Readable(items[i]) {
      SettledFacts(items[i]);
    }
  }

  /** The assembled tree of a query, before prefix marks. */
  function TreeOf(raw: string): Assembly { Assemble(Lex(NormalizeSearchText(raw), 0).items, NOTHING) }

  /** The tokens a normalized query is printed from, as they read back. */
  lemma PrintedTokens(raw: string) returns (items: seq<Item>)
    requires NormalizeGapQuery(raw).Some?
    ensures items == Reprint(Tokens(TreeOf(raw))) && NormalizeGapQuery(raw).value == JoinItems(items)
    ensures items != [] && AllSettled(items) && !items[|items| - 1].OrItem? && Cost(items) <= MAX_TERMS
    ensures |NormalizeSearchText(raw)| >= MIN_CHARS && TreeOf(raw).positives != []
  {
    hide Assemble, Lex, Reprint, Cost, JoinItems, Scannable, Settled, Flatten, NormalizeGapQuery, NormalizeSearchText, Readable,
      IsSpace, OnlySpaces, Weight, Tree;
    var s := NormalizeSearchText(raw);
    var l := Lex(s, 0);
    NormalizeIsPrint(raw);
    NormalizedSpaces(raw);
    LexScannable(s, 0);
    TreeOfScan(l.items);
    CanonTokens(Tokens(TreeOf(raw)));
    items := Reprint(Tokens(TreeOf(raw)));
    TreeOrdered(TreeOf(raw));
    ReprintEnds(Tokens(TreeOf(raw)));
  }

  /** They are ordered when the tree is stable. */
  lemma PrintedStable(raw: string, items: seq<Item>)
    requires |NormalizeSearchText(raw)| >= MIN_CHARS && TreeOf(raw).positives != [] && items == Reprint(Tokens(TreeOf(raw)))
    ensures Parse(raw).Some? && items != []
    ensures items[0].Positive() && Ordered(items, false) <==> Stable(Parse(raw).value.positives)
  {
    hide Assemble, Lex, Reprint, Stable, Flatten, WithPrefix, Ordered, NormalizeSearchText, UnitUnmarked, UnmarkUnits, Trim, Tree;
    var st, l := TreeOf(raw), Lex(NormalizeSearchText(raw), 0);
    TreeOfUnmarked(l.items);
    assert st == Assemble(l.items, NOTHING);
    assert forall i :: 0 <= i < |st.positives| ==> UnitUnmarked(st.positives[i]);
    StableIffOrdered(st.positives, st.negatives);
    var positives := Parse(raw).value.positives;
    MarkingForgotten(st.positives, LastTerm(l.items), Trim(l.rest) != "");
    StableUnmarked(positives);
    StableUnmarked(st.positives);
  }

  lemma TreeOfUnmarked(items: seq<Item>)
    ensures var st := Assemble(items, NOTHING); forall i :: 0 <= i < |st.positives| ==> UnitUnmarked(st.positives[i])
  {
    hide Assemble, UnitUnmarked;
    TreeTokens(items);
    AssembleMeasures(items, NOTHING);
  }

  lemma ReprintEnds(tokens: seq<Item>)
    requires tokens != [] && !tokens[|tokens| - 1].OrItem?
    ensures Reprint(tokens) != [] && !Reprint(tokens)[|tokens| - 1].OrItem?
  {}

  /** A query whose normal form is not normal: the quoted "-ab" in front of c prints as `-ab c`, which
      reads back as an exclusion. */
  lemma NotAlwaysOnce()
    ensures var raw, text := "\"-ab\" c", "-ab c";
      NormalizeGapQuery(raw) == Some(text) && NormalizeGapQuery(text) != Some(text)
  {
    hide *;
    var raw, text := "\"-ab\" c", "-ab c";
    var us := [One(Phrase(["-ab"], false)), One(Word("c", false))];
    QuotedParses(raw);
    QuotedPrints(us, text, raw);
    NormalizesOnce(raw);
    QuotedIsDashed(us);
  }

  lemma QuotedParses(raw: string)
    requires raw == "\"-ab\" c"
    ensures Parse(raw) == Some(ParsedSearch([One(Phrase(["-ab"], false)), One(Word("c", false))], [], false, false, raw))
  {
    hide Parse, Lex, NormalizeSearchText;
    var phrase, c := PhraseItem(["-ab"], false, true), WordItem("c", false);
    var items := [phrase, c];
    assert items[1..] == [c] && [c][1..] == [];
    assert Join(["-ab"], " ") == "-ab";
    assert raw == ItemText(phrase) + " " + ItemText(c);
    assert Cost([c]) == c.Cost() + Cost([]) && Cost(items) == phrase.Cost() + Cost([c]);
    ReadBack(items, raw);
    var us := [One(Phrase(["-ab"], false)), One(Word("c", false))];
    assert Assemble(items, NOTHING) == Assembly(us, [], false, true, false) by {
      AssembleCons(phrase, [c], NOTHING);
      AssembleCons(c, [], Take(NOTHING, phrase));
    }
    assert WithPrefix(us, LastTerm(items), false) == us;
  }

  lemma QuotedPrints(us: seq<Unit>, text: string, raw: string)
    requires us == [One(Phrase(["-ab"], false)), One(Word("c", false))] && text == "-ab c"
    requires Parse(raw) == Some(ParsedSearch(us, [], false, false, raw))
    ensures NormalizeGapQuery(raw) == Some(text)
  {
    hide Parse, NormalizeParsedGapQuery;
    assert Lower("-ab") == "-ab" && Lower("c") == "c" && LowerAll(["-ab"]) == ["-ab"];
    assert SerializeUnits(us[1..]) == ["c"] by { assert us[1..][1..] == []; }
    assert SerializeUnits(us) == ["-ab", "c"];
    assert ["-ab", "c"] + [] == ["-ab", "c"] && ["-ab", "c"][1..] == ["c"];
    assert Join(["-ab", "c"], " ") == text;
    assert NormalizeParsedGapQuery(ParsedSearch(us, [], false, false, raw)) == Some(text) by { PrintsPlainly(us, text, raw); }
  }

  lemma QuotedIsDashed(us: seq<Unit>)
    requires us == [One(Phrase(["-ab"], false)), One(Word("c", false))]
    ensures !Stable(us)
  {
    assert Lower("-ab") == "-ab" && LowerAll(["-ab"]) == ["-ab"];
    assert Dashed(us[0].leaf);
  }

  lemma PrintsPlainly(us: seq<Unit>, text: string, raw: string)
    requires us != [] && Join(SerializeUnits(us) + [], " ") == text && Tidy(text)
    ensures NormalizeParsedGapQuery(ParsedSearch(us, [], false, false, raw)) == Some(text)
  {
    TrimTidy(text);
  }
}
