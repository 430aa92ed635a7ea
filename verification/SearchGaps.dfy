/**
 The normalized form a search gap is counted under: the canonical printer of
 packages/shared/src/search-gaps.ts for the trees of module SearchQuery.

 Parsing undoes printing on every canonical tree, and printing a query a second time changes nothing
 exactly when the printed text still reads back as the same sequence of tokens.
 */
module SearchGaps {
  import opened Common
  import opened SearchQuery
  import opened TextLines

  // ----- the printer --------------------------------------------------------------------------

  function LowerChar(c: char): char {
    if 'A' <= c <= 'Z' then c - 'A' + 'a' else c
  }

  function Lower(s: string): (r: string)
    ensures |r| == |s|
  {
    seq(|s|, i requires 0 <= i < |s| => LowerChar(s[i]))
  }

  function LowerAll(ws: seq<string>): (r: seq<string>)
    ensures |r| == |ws| && forall i :: 0 <= i < |ws| ==> r[i] == Lower(ws[i])
  {
    if ws == [] then [] else [Lower(ws[0])] + LowerAll(ws[1..])
  }

  function Quoted(words: seq<string>): string {
    ['"'] + Join(words, " ") + ['"']
  }

  function Marked(text: string, neg: bool): string {
    if neg then ['-'] + text else text
  }

  function SerializeTerm(u: Leaf): string {
    match u
    case Word(text, _) => Lower(text)
    case Phrase(words, _) =>
      var ws := LowerAll(words);
      if |ws| == 1 then ws[0] else Quoted(ws)
  }

  function SerializeTerms(us: seq<Leaf>, neg: bool): seq<string> {
    if us == [] then [] else [Marked(SerializeTerm(us[0]), neg)] + SerializeTerms(us[1..], neg)
  }

  function SerializeUnit(u: Unit): string {
    match u
    case One(leaf) => SerializeTerm(leaf)
    case OrGroup(members) => Join(SerializeTerms(members, false), " OR ")
  }

  function SerializeUnits(us: seq<Unit>): seq<string> {
    if us == [] then [] else [SerializeUnit(us[0])] + SerializeUnits(us[1..])
  }

  /** The printed form of a parsed query: positives in order, then the exclusions. */
  function NormalizeParsedGapQuery(p: ParsedSearch): Option<string> {
    if p.positives == [] then None
    else
      var s := Trim(Join(SerializeUnits(p.positives) + SerializeTerms(p.negatives, true), " "));
      if s != "" then Some(s) else None
  }

  function NormalizeGapQuery(raw: string): Option<string> {
    match Parse(raw)
    case None => None
    case Some(p) => NormalizeParsedGapQuery(p)
  }

  // ----- trees as token sequences -------------------------------------------------------------

  function ItemText(item: Item): string {
    match item
    case WordItem(text, neg) => Marked(text, neg)
    case PhraseItem(words, neg, _) => Marked(Quoted(words), neg)
    case OrItem => "OR"
  }

  function ItemTexts(items: seq<Item>): seq<string> {
    if items == [] then [] else [ItemText(items[0])] + ItemTexts(items[1..])
  }

  /** The text of a token sequence, one space between two tokens. */
  function JoinItems(items: seq<Item>): string {
    if items == [] then ""
    else if |items| == 1 then ItemText(items[0])
    else ItemText(items[0]) + " " + JoinItems(items[1..])
  }

  function LeafItem(leaf: Leaf, neg: bool): Item {
    match leaf
    case Word(text, _) => WordItem(text, neg)
    case Phrase(words, _) => PhraseItem(words, neg, true)
  }

  function FlatOr(members: seq<Leaf>): seq<Item> {
    if members == [] then [] else [OrItem, LeafItem(members[0], false)] + FlatOr(members[1..])
  }

  function FlatUnit(u: Unit): seq<Item> {
    match u
    case One(leaf) => [LeafItem(leaf, false)]
    case OrGroup(members) =>
      if members == [] then [] else [LeafItem(members[0], false)] + FlatOr(members[1..])
  }

  function FlatUnits(us: seq<Unit>): seq<Item> {
    if us == [] then [] else FlatUnit(us[0]) + FlatUnits(us[1..])
  }

  function FlatNegatives(ns: seq<Leaf>): seq<Item> {
    if ns == [] then [] else [LeafItem(ns[0], true)] + FlatNegatives(ns[1..])
  }

  /** The tokens a tree prints as. */
  function Flatten(positives: seq<Unit>, negatives: seq<Leaf>): seq<Item> {
    FlatUnits(positives) + FlatNegatives(negatives)
  }

  /** What printing forgets: case, prefix marks, and the quotes of a one-word phrase. */
  function CanonLeaf(leaf: Leaf): Leaf {
    match leaf
    case Word(text, _) => Word(Lower(text), false)
    case Phrase(words, _) => if |words| == 1 then Word(Lower(words[0]), false) else Phrase(LowerAll(words), false)
  }

  function CanonLeaves(ls: seq<Leaf>): (r: seq<Leaf>)
    ensures |r| == |ls| && forall i :: 0 <= i < |ls| ==> r[i] == CanonLeaf(ls[i])
  {
    if ls == [] then [] else [CanonLeaf(ls[0])] + CanonLeaves(ls[1..])
  }

  function CanonUnit(u: Unit): Unit {
    match u
    case One(leaf) => One(CanonLeaf(leaf))
    case OrGroup(members) => OrGroup(CanonLeaves(members))
  }

  function CanonUnits(us: seq<Unit>): (r: seq<Unit>)
    ensures |r| == |us| && forall i :: 0 <= i < |us| ==> r[i] == CanonUnit(us[i])
  {
    if us == [] then [] else [CanonUnit(us[0])] + CanonUnits(us[1..])
  }

  /** The same letter, in capitals or not. */
  predicate SameLetter(c: char, d: char) {
    c == d || ('A' <= c <= 'Z' && d as int == c as int + 32) || ('A' <= d <= 'Z' && c as int == d as int + 32)
  }

  predicate SameUpToCase(w: string, v: string) {
    |w| == |v| && forall i :: 0 <= i < |w| ==> SameLetter(w[i], v[i])
  }

  /** Printing forgets the case of letters and nothing else of a word, and leaves no capital. */
  lemma CaseIsForgotten(w: string, v: string)
    ensures Lower(w) == Lower(v) <==> SameUpToCase(w, v)
    ensures SameUpToCase(w, Lower(w)) && forall i :: 0 <= i < |w| ==> !('A' <= Lower(w)[i] <= 'Z')
  {
    if Lower(w) == Lower(v) {
      forall i | 0 <= i < |w| ensures SameLetter(w[i], v[i]) {
        assert Lower(w)[i] == Lower(v)[i];
      }
    }
  }

  // ----- well-formed tokens and trees ---------------------------------------------------------

  /** A word the scanner can hold: no whitespace and no quote. */
  predicate BareWord(w: string) {
    w != "" && forall i :: 0 <= i < |w| ==> !IsSpace(w[i]) && w[i] != '"'
  }

  /** A bare positive word that the scanner would take for an exclusion. */
  predicate DashWord(w: string) {
    |w| > 1 && w[0] == '-'
  }

  /** A token that its own text reads back as. */
  predicate Readable(item: Item) {
    match item
    case WordItem(text, neg) => BareWord(text) && (!neg ==> text != "OR" && !DashWord(text))
    case PhraseItem(words, _, closed) => closed && words != [] && forall i :: 0 <= i < |words| ==> BareWord(words[i])
    case OrItem => true
  }

  predicate AllReadable(items: seq<Item>) {
    forall i :: 0 <= i < |items| ==> Readable(items[i])
  }

  function Cost(items: seq<Item>): nat {
    if items == [] then 0 else items[0].Cost() + Cost(items[1..])
  }

  /** No quote, exclusion or OR among the tokens. */
  predicate Plain(items: seq<Item>) {
    items == [] || (items[0].WordItem? && !items[0].neg && Plain(items[1..]))
  }

  // ----- printing is joining tokens -----------------------------------------------------------

  lemma TermText(leaf: Leaf, neg: bool)
    ensures Marked(SerializeTerm(leaf), neg) == ItemText(LeafItem(CanonLeaf(leaf), neg))
  {}

  lemma {:induction false} JoinItemsAppend(a: seq<Item>, b: seq<Item>)
    requires a != [] && b != []
    ensures JoinItems(a + b) == JoinItems(a) + " " + JoinItems(b)
  {
    if |a| == 1 {
      assert (a + b)[1..] == b;
    } else {
      assert (a + b)[1..] == a[1..] + b;
      JoinItemsAppend(a[1..], b);
    }
  }

  lemma {:induction false} OrText(members: seq<Leaf>)
    requires members != []
    ensures Join(SerializeTerms(members, false), " OR ")
      == JoinItems([LeafItem(CanonLeaf(members[0]), false)] + FlatOr(CanonLeaves(members[1..])))
  {
    TermText(members[0], false);
    var first, rest := LeafItem(CanonLeaf(members[0]), false), members[1..];
    if rest != [] {
      OrText(rest);
      var tail := [LeafItem(CanonLeaf(rest[0]), false)] + FlatOr(CanonLeaves(rest[1..]));
      assert FlatOr(CanonLeaves(rest)) == [OrItem] + tail by {
        assert CanonLeaves(rest)[1..] == CanonLeaves(rest[1..]);
      }
      JoinItemsAppend([OrItem], tail);
      JoinItemsAppend([first], [OrItem] + tail);
      assert SerializeTerms(members, false)[1..] == SerializeTerms(rest, false);
    } else {
      assert FlatOr(CanonLeaves(rest)) == [];
    }
  }

  lemma UnitText(u: Unit)
    requires u.OrGroup? ==> u.members != []
    ensures SerializeUnit(u) == JoinItems(FlatUnit(CanonUnit(u))) && FlatUnit(CanonUnit(u)) != []
  {
    match u
    case One(leaf) => TermText(leaf, false);
    case OrGroup(members) =>
      OrText(members);
      assert CanonLeaves(members)[1..] == CanonLeaves(members[1..]);
  }

  lemma {:induction false} NegativesText(ns: seq<Leaf>)
    ensures Join(SerializeTerms(ns, true), " ") == JoinItems(FlatNegatives(CanonLeaves(ns)))
    ensures |SerializeTerms(ns, true)| == |FlatNegatives(CanonLeaves(ns))| == |ns|
  {
    if ns != [] {
      TermText(ns[0], true);
      NegativesText(ns[1..]);
      assert CanonLeaves(ns)[1..] == CanonLeaves(ns[1..]);
      assert SerializeTerms(ns, true)[1..] == SerializeTerms(ns[1..], true);
      assert FlatNegatives(CanonLeaves(ns))[1..] == FlatNegatives(CanonLeaves(ns[1..]));
    }
  }

  lemma {:induction false} JoinAppend(a: seq<string>, b: seq<string>, sep: string)
    requires a != [] && b != []
    ensures Join(a + b, sep) == Join(a, sep) + sep + Join(b, sep)
  {
    if |a| == 1 {
      assert (a + b)[1..] == b;
    } else {
      assert (a + b)[1..] == a[1..] + b;
      JoinAppend(a[1..], b, sep);
    }
  }

  lemma {:induction false} PositivesText(us: seq<Unit>)
    requires us != [] && forall i :: 0 <= i < |us| ==> (us[i].OrGroup? ==> us[i].members != [])
    ensures Join(SerializeUnits(us), " ") == JoinItems(FlatUnits(CanonUnits(us)))
    ensures FlatUnits(CanonUnits(us)) != [] && SerializeUnits(us) != []
  {
    var head := FlatUnit(CanonUnit(us[0]));
    UnitText(us[0]);
    assert CanonUnits(us)[1..] == CanonUnits(us[1..]);
    assert FlatUnits(CanonUnits(us)) == head + FlatUnits(CanonUnits(us[1..]));
    if |us| > 1 {
      PositivesText(us[1..]);
      JoinItemsAppend(head, FlatUnits(CanonUnits(us[1..])));
      assert SerializeUnits(us)[1..] == SerializeUnits(us[1..]);
    } else {
      assert head + [] == head;
    }
  }

  /** The printed text of a tree, before trimming, is the text of its canonical tokens. */
  lemma PrintIsJoin(us: seq<Unit>, ns: seq<Leaf>)
    requires us != [] && forall i :: 0 <= i < |us| ==> (us[i].OrGroup? ==> us[i].members != [])
    ensures Join(SerializeUnits(us) + SerializeTerms(ns, true), " ") == JoinItems(Flatten(CanonUnits(us), CanonLeaves(ns)))
    ensures Flatten(CanonUnits(us), CanonLeaves(ns)) != []
  {
    PositivesText(us);
    NegativesText(ns);
    if ns == [] {
      assert SerializeUnits(us) + [] == SerializeUnits(us) && FlatUnits(CanonUnits(us)) + [] == FlatUnits(CanonUnits(us));
    } else {
      JoinAppend(SerializeUnits(us), SerializeTerms(ns, true), " ");
      JoinItemsAppend(FlatUnits(CanonUnits(us)), FlatNegatives(CanonLeaves(ns)));
    }
  }

  // ----- scanning a printed token -------------------------------------------------------------

  lemma {:induction false} BareLenOf(w: string, rest: string)
    requires forall i :: 0 <= i < |w| ==> w[i] != ' ' && w[i] != '"'
    requires rest == "" || rest[0] == ' ' || rest[0] == '"'
    ensures BareLen(w + rest) == |w|
  {
    if w == "" {
      assert w + rest == rest;
    } else {
      assert (w + rest)[1..] == w[1..] + rest;
      BareLenOf(w[1..], rest);
    }
  }

  lemma {:induction false} QuoteLenOf(s: string, rest: string)
    requires '"' !in s && (rest == "" || rest[0] == '"')
    ensures QuoteLen(s + rest) == |s|
  {
    if s == "" {
      assert s + rest == rest;
    } else {
      assert (s + rest)[1..] == s[1..] + rest;
      QuoteLenOf(s[1..], rest);
    }
  }

  lemma {:induction false} WordLenOf(w: string, rest: string)
    requires ' ' !in w && (rest == "" || rest[0] == ' ')
    ensures WordLen(w + rest) == |w|
  {
    if w == "" {
      assert w + rest == rest;
    } else {
      assert (w + rest)[1..] == w[1..] + rest;
      WordLenOf(w[1..], rest);
    }
  }

  /** Splitting joined words gives the words back. */
  lemma {:induction false} WordsOfJoin(ws: seq<string>)
    requires forall i :: 0 <= i < |ws| ==> BareWord(ws[i])
    ensures Words(Join(ws, " ")) == ws
    ensures '"' !in Join(ws, " ")
  {
    if ws != [] {
      var w, rest := ws[0], if |ws| == 1 then "" else " " + Join(ws[1..], " ");
      assert Join(ws, " ") == w + rest;
      assert ' ' !in w && '"' !in w;
      WordLenOf(w, rest);
      assert (w + rest)[..|w|] == w && (w + rest)[|w|..] == rest;
      if |ws| > 1 {
        WordsOfJoin(ws[1..]);
        assert rest[1..] == Join(ws[1..], " ");
        assert Words(rest) == Words(rest[1..]);
      }
    }
  }

  /** A quoted phrase scans as itself, whatever follows it. */
  lemma QuotedReads(words: seq<string>, neg: bool, rest: string)
    requires words != [] && forall i :: 0 <= i < |words| ==> BareWord(words[i])
    ensures QuotedToken(Quoted(words) + rest, neg) == Token(Some(PhraseItem(words, neg, true)), rest, false)
  {
    var content := Join(words, " ");
    var body := Quoted(words) + rest;
    WordsOfJoin(words);
    var tail := ['"'] + rest;
    assert body[1..] == content + tail;
    QuoteLenOf(content, tail);
    assert body[1..1 + |content|] == content;
    assert body[1 + |content| + 1..] == rest;
  }

  /** A bare word scans as one token up to the next space. */
  lemma BareReads(w: string, neg: bool, rest: string)
    requires BareWord(w) && (rest == "" || rest[0] == ' ')
    ensures BareToken(w + rest, neg) ==
      Token(Some(if neg then WordItem(w, true) else if w == "OR" then OrItem else WordItem(w, false)), rest, !neg && w != "OR")
  {
    BareLenOf(w, rest);
    assert (w + rest)[..|w|] == w && (w + rest)[|w|..] == rest;
  }

  /** Dispatch at a token start: a body that does not look like an exclusion, or one behind a dash. */
  lemma Dispatch(body: string, neg: bool)
    requires body != "" && body[0] != ' ' && (!neg ==> !StartsExclusion(body))
    ensures var s := Marked(body, neg);
      s != "" && s[0] != ' ' && NextToken(s) == if body[0] == '"' then QuotedToken(body, neg) else BareToken(body, neg)
  {
    if neg {
      assert Marked(body, neg)[1..] == body;
    }
  }

  lemma MarkedAppend(text: string, neg: bool, rest: string)
    ensures Marked(text, neg) + rest == Marked(text + rest, neg)
  {
    if neg {
      assert ['-'] + text + rest == ['-'] + (text + rest);
    }
  }

  /** A readable token's text scans as that token when a space or the end follows. */
  lemma TokenReads(item: Item, rest: string)
    requires Readable(item) && (rest == "" || rest[0] == ' ')
    ensures var s := ItemText(item) + rest;
      s != "" && s[0] != ' ' && NextToken(s) == Token(Some(item), rest, item.WordItem? && !item.neg)
  {
    match item
    case OrItem =>
      BareReads("OR", false, rest);
      Dispatch("OR" + rest, false);
    case WordItem(text, neg) =>
      BareReads(text, neg, rest);
      MarkedAppend(text, neg, rest);
      Dispatch(text + rest, neg);
    case PhraseItem(words, neg, _) =>
      QuotedReads(words, neg, rest);
      MarkedAppend(Quoted(words), neg, rest);
      Dispatch(Quoted(words) + rest, neg);
  }

  /** One readable token in front of a text. */
  lemma LexToken(item: Item, rest: string, terms: nat)
    requires Readable(item) && (rest == "" || rest[0] == ' ') && terms < MAX_TERMS
    ensures Lex(ItemText(item) + rest, terms) == After([item], item.WordItem? && !item.neg, Lex(rest, terms + item.Cost()))
  {
    TokenReads(item, rest);
  }

  /** One readable token and the space behind it. */
  lemma LexSpaced(item: Item, rest: string, terms: nat, whole: string)
    requires Readable(item) && terms + item.Cost() < MAX_TERMS
    requires whole == ItemText(item) + ([' '] + rest)
    ensures Lex(whole, terms) == After([item], item.WordItem? && !item.neg, Lex(rest, terms + item.Cost()))
  {
    var after := [' '] + rest;
    LexToken(item, after, terms);
    assert after[1..] == rest;
  }

  /** Two scans in a row. */
  lemma Chain(whole: Lexed, item: Item, mid: Lexed, tail: seq<Item>, l: Lexed, items: seq<Item>)
    requires whole == After([item], item.WordItem? && !item.neg, mid) && mid == After(tail, Plain(tail), l)
    requires items != [] && items[0] == item && items[1..] == tail
    ensures whole == After(items, Plain(items), l)
  {
    assert items == [item] + tail;
    assert [item] + (tail + l.items) == [item] + tail + l.items;
  }

  lemma Reassociate(a: string, b: string, c: string, d: string)
    ensures a + b + c + d == a + (b + (c + d))
  {}

  lemma JoinCons(items: seq<Item>, rest: string, text: string)
    requires |items| > 1
    requires text == JoinItems(items) + rest
    ensures text == ItemText(items[0]) + ([' '] + (JoinItems(items[1..]) + rest))
  {
    Reassociate(ItemText(items[0]), " ", JoinItems(items[1..]), rest);
  }

  /** The text of readable tokens scans as those tokens, within the term cap; `end` is the term count
      after them. */
  lemma {:induction false} ItemsRead(items: seq<Item>, rest: string, terms: nat, end: nat, text: string)
    requires AllReadable(items) && (rest == "" || rest[0] == ' ') && text == JoinItems(items) + rest
    requires items != [] && !items[|items| - 1].OrItem? && end == terms + Cost(items) <= MAX_TERMS
    ensures Lex(text, terms) == After(items, Plain(items), Lex(rest, end))
    decreases |items|
  {
    hide Lex, ItemText, Readable;
    var item, tail := items[0], items[1..];
    LastTermCosts(items);
    if tail == [] {
      LexToken(item, rest, terms);
      assert items == [item];
    } else {
      LastTermCosts(tail);
      JoinCons(items, rest, text);
      var text' := JoinItems(tail) + rest;
      LexSpaced(item, text', terms, text);
      ItemsRead(tail, rest, terms + item.Cost(), end, text');
      Chain(Lex(text, terms), item, Lex(text', terms + item.Cost()), tail, Lex(rest, end), items);
    }
  }

  lemma {:induction false} LastTermCosts(items: seq<Item>)
    requires items != [] && !items[|items| - 1].OrItem?
    ensures Cost(items) >= 1
  {
    if |items| > 1 {
      LastTermCosts(items[1..]);
    }
  }

  // ----- assembling printed tokens ------------------------------------------------------------

  predicate Unmarked(leaf: Leaf) { !leaf.prefix }

  predicate UnitUnmarked(u: Unit) {
    match u
    case One(leaf) => Unmarked(leaf)
    case OrGroup(members) => |members| >= 2 && forall i :: 0 <= i < |members| ==> Unmarked(members[i])
  }

  function Extend(u: Unit, members: seq<Leaf>): Unit
    requires members != []
  {
    match u
    case One(first) => OrGroup([first] + members)
    case OrGroup(old_) => OrGroup(old_ + members)
  }

  lemma AssembleCons(item: Item, tail: seq<Item>, st: Assembly)
    ensures Assemble([item] + tail, st) == Assemble(tail, Take(st, item))
  {
    assert ([item] + tail)[1..] == tail;
  }

  /** The state with its last unit extended by an OR's right-hand sides. */
  function Extended(st: Assembly, members: seq<Leaf>): Assembly
    requires st.positives != []
  {
    if members == [] then st
    else
      var last := |st.positives| - 1;
      Assembly(st.positives[..last] + [Extend(st.positives[last], members)], st.negatives, false, true, true)
  }

  lemma ExtendedTwice(st: Assembly, leaf: Leaf, members: seq<Leaf>)
    requires st.positives != []
    ensures Extended(Extended(st, [leaf]), members) == Extended(st, [leaf] + members)
  {
    var last := |st.positives| - 1;
    var u := st.positives[last];
    assert Extended(st, [leaf]).positives[..last] == st.positives[..last];
    if members != [] && u.One? {
      assert [u.leaf] + [leaf] + members == [u.leaf] + ([leaf] + members);
    } else if members != [] {
      assert u.members + [leaf] + members == u.members + ([leaf] + members);
    } else {
      assert [leaf] + members == [leaf];
    }
  }

  lemma TakeOrPair(leaf: Leaf, st: Assembly)
    requires st.lastWasPositive && !st.pendingOr && st.positives != [] && Unmarked(leaf)
    ensures Take(Take(st, OrItem), LeafItem(leaf, false)) == Extended(st, [leaf])
  {
    var u := st.positives[|st.positives| - 1];
    assert LeafOf(LeafItem(leaf, false)) == leaf;
    assert Extend(u, [leaf]) == JoinOr(u, leaf) by {
      if u.One? {
        assert [u.leaf, leaf] == [u.leaf] + [leaf];
      }
    }
  }

  /** `OR x OR y ...` behind a positive unit folds into it. */
  lemma {:induction false} AssembleOr(members: seq<Leaf>, rest: seq<Item>, st: Assembly)
    requires st.lastWasPositive && !st.pendingOr && st.positives != []
    requires forall i :: 0 <= i < |members| ==> Unmarked(members[i])
    ensures Assemble(FlatOr(members) + rest, st) == Assemble(rest, Extended(st, members))
  {
    hide Assemble;
    if members == [] {
      assert FlatOr(members) + rest == rest;
    } else {
      var item, tail := LeafItem(members[0], false), FlatOr(members[1..]) + rest;
      assert FlatOr(members) + rest == [OrItem] + ([item] + tail);
      AssembleCons(OrItem, [item] + tail, st);
      AssembleCons(item, tail, Take(st, OrItem));
      TakeOrPair(members[0], st);
      AssembleOr(members[1..], rest, Extended(st, [members[0]]));
      ExtendedTwice(st, members[0], members[1..]);
      assert [members[0]] + members[1..] == members;
    }
  }

  /** The tokens of one unit assemble to that unit. */
  lemma AssembleUnit(u: Unit, rest: seq<Item>, st: Assembly)
    requires !st.pendingOr && UnitUnmarked(u)
    ensures Assemble(FlatUnit(u) + rest, st)
      == Assemble(rest, Assembly(st.positives + [u], st.negatives, false, true, st.hasOr || u.OrGroup?))
  {
    var first := if u.One? then u.leaf else u.members[0];
    var item, more := LeafItem(first, false), if u.One? then [] else FlatOr(u.members[1..]);
    assert FlatUnit(u) + rest == [item] + (more + rest);
    assert ([item] + (more + rest))[1..] == more + rest;
    var st1 := Take(st, item);
    assert st1 == Assembly(st.positives + [One(first)], st.negatives, false, true, st.hasOr);
    if u.One? {
      assert [] + rest == rest;
    } else {
      AssembleOr(u.members[1..], rest, st1);
      assert st1.positives[..|st.positives|] == st.positives;
      assert [u.members[0]] + u.members[1..] == u.members;
    }
  }

  lemma {:induction false} AssembleUnits(us: seq<Unit>, rest: seq<Item>, st: Assembly)
    requires !st.pendingOr && forall i :: 0 <= i < |us| ==> UnitUnmarked(us[i])
    ensures Assemble(FlatUnits(us) + rest, st) == Assemble(rest,
      Assembly(st.positives + us, st.negatives, false, st.lastWasPositive || us != [], st.hasOr || exists i :: 0 <= i < |us| && us[i].OrGroup?))
  {
    hide Assemble, FlatUnit;
    if us == [] {
      assert FlatUnits(us) + rest == rest && st.positives + us == st.positives;
    } else {
      assert FlatUnits(us) + rest == FlatUnit(us[0]) + (FlatUnits(us[1..]) + rest);
      AssembleUnit(us[0], FlatUnits(us[1..]) + rest, st);
      var st1 := Assembly(st.positives + [us[0]], st.negatives, false, true, st.hasOr || us[0].OrGroup?);
      AssembleUnits(us[1..], rest, st1);
      assert st.positives + [us[0]] + us[1..] == st.positives + us;
      assert (exists i :: 0 <= i < |us| && us[i].OrGroup?)
        <==> us[0].OrGroup? || exists i :: 0 <= i < |us[1..]| && us[1..][i].OrGroup? by {
        if i :| 0 <= i < |us| && us[i].OrGroup? && i > 0 {
          assert us[1..][i - 1].OrGroup?;
        }
        if i :| 0 <= i < |us[1..]| && us[1..][i].OrGroup? {
          assert us[i + 1].OrGroup?;
        }
      }
    }
  }

  lemma {:induction false} AssembleNegatives(ns: seq<Leaf>, st: Assembly)
    requires !st.pendingOr && forall i :: 0 <= i < |ns| ==> Unmarked(ns[i])
    ensures Assemble(FlatNegatives(ns), st)
      == Assembly(st.positives, st.negatives + ns, false, st.lastWasPositive && ns == [], st.hasOr)
  {
    if ns == [] {
      assert st.negatives + ns == st.negatives;
    } else {
      var item, tail := LeafItem(ns[0], true), FlatNegatives(ns[1..]);
      assert ([item] + tail)[1..] == tail;
      AssembleNegatives(ns[1..], Take(st, item));
      assert st.negatives + [ns[0]] + ns[1..] == st.negatives + ns;
    }
  }

  /** The tokens of a tree assemble to that tree. */
  lemma AssembleFlatten(us: seq<Unit>, ns: seq<Leaf>)
    requires forall i :: 0 <= i < |us| ==> UnitUnmarked(us[i])
    requires forall i :: 0 <= i < |ns| ==> Unmarked(ns[i])
    ensures var st := Assemble(Flatten(us, ns), NOTHING);
      && st.positives == us && st.negatives == ns
      && (st.hasOr <==> exists i :: 0 <= i < |us| && us[i].OrGroup?)
  {
    hide Assemble;
    AssembleUnits(us, FlatNegatives(ns), NOTHING);
    assert [] + us == us && [] + ns == ns;
    AssembleNegatives(ns, Assembly([] + us, [], false, false || us != [], false || exists i :: 0 <= i < |us| && us[i].OrGroup?));
  }

  // ----- printed text needs no normalizing ----------------------------------------------------

  /** No outer space, no double space, no other whitespace. */
  predicate Tidy(t: string) {
    && t != "" && !IsSpace(t[0]) && !IsSpace(t[|t| - 1])
    && forall i :: 0 <= i < |t| && IsSpace(t[i]) ==> t[i] == ' ' && i + 1 < |t| && !IsSpace(t[i + 1])
  }

  lemma {:induction false} CollapseTidy(t: string)
    requires forall i :: 0 <= i < |t| && IsSpace(t[i]) ==> t[i] == ' ' && i + 1 < |t| && !IsSpace(t[i + 1])
    ensures Collapse(t) == t
  {
    if t != "" {
      forall i | 0 <= i < |t[1..]| && IsSpace(t[1..][i])
        ensures t[1..][i] == ' ' && i + 1 < |t[1..]| && !IsSpace(t[1..][i + 1])
      {
        assert t[1..][i] == t[i + 1];
      }
      CollapseTidy(t[1..]);
    }
  }

  lemma NormalizeTidy(t: string)
    requires Tidy(t) && |t| <= MAX_CHARS
    ensures NormalizeSearchText(t) == t && Trim(t) == t
  {
    CollapseTidy(t);
  }

  lemma TidyJoin(a: string, b: string)
    requires Tidy(a) && Tidy(b)
    ensures Tidy(a + " " + b)
  {
    var t := a + " " + b;
    forall i | 0 <= i < |t| && IsSpace(t[i]) ensures t[i] == ' ' && i + 1 < |t| && !IsSpace(t[i + 1]) {
      if i < |a| {
        assert t[i] == a[i] && t[i + 1] == a[i + 1];
      } else if i == |a| {
        assert t[i + 1] == b[0];
      } else {
        var k := i - |a| - 1;
        assert t[i] == b[k] && t[i + 1] == b[k + 1];
      }
    }
  }

  lemma TidyWrap(a: string, left: string, right: string)
    requires Tidy(a)
    requires forall i :: 0 <= i < |left| ==> !IsSpace(left[i])
    requires forall i :: 0 <= i < |right| ==> !IsSpace(right[i])
    ensures Tidy(left + a + right)
  {
    var t := left + a + right;
    forall i | 0 <= i < |t| && IsSpace(t[i]) ensures t[i] == ' ' && i + 1 < |t| && !IsSpace(t[i + 1]) {
      assert |left| <= i < |left| + |a|;
      assert t[i] == a[i - |left|] && t[i + 1] == a[i - |left| + 1];
    }
  }

  lemma {:induction false} TidyWords(ws: seq<string>)
    requires ws != [] && forall i :: 0 <= i < |ws| ==> BareWord(ws[i])
    ensures Tidy(Join(ws, " "))
  {
    if |ws| > 1 {
      TidyWords(ws[1..]);
      TidyJoin(ws[0], Join(ws[1..], " "));
    }
  }

  lemma TidyItem(item: Item)
    requires Readable(item)
    ensures Tidy(ItemText(item))
  {
    match item
    case OrItem =>
    case WordItem(text, neg) =>
      TidyWrap(text, if neg then ['-'] else [], []);
      assert Marked(text, neg) == (if neg then ['-'] else []) + text + [];
    case PhraseItem(words, neg, _) =>
      TidyWords(words);
      TidyWrap(Join(words, " "), ['"'], ['"']);
      TidyWrap(Quoted(words), if neg then ['-'] else [], []);
      assert Marked(Quoted(words), neg) == (if neg then ['-'] else []) + Quoted(words) + [];
  }

  predicate AllTidy(items: seq<Item>) {
    forall i :: 0 <= i < |items| ==> Tidy(ItemText(items[i]))
  }

  lemma {:induction false} TidyTexts(items: seq<Item>)
    requires items != [] && AllTidy(items)
    ensures Tidy(JoinItems(items))
  {
    hide Tidy, ItemText;
    if |items| > 1 {
      TidyTexts(items[1..]);
      TidyJoin(ItemText(items[0]), JoinItems(items[1..]));
    }
  }

  lemma TidyItems(items: seq<Item>)
    requires items != [] && AllReadable(items)
    ensures AllTidy(items) && Tidy(JoinItems(items))
  {
    hide Tidy, ItemText, Readable;
    forall i | 0 <= i < |items| ensures Tidy(ItemText(items[i])) {
      TidyItem(items[i]);
    }
    TidyTexts(items);
  }

  /** A printed token sequence parses to what the assembler makes of exactly those tokens. */
  lemma ReadBack(items: seq<Item>, text: string)
    requires items != [] && AllReadable(items) && !items[|items| - 1].OrItem? && Cost(items) <= MAX_TERMS
    requires text == JoinItems(items) && MIN_CHARS <= |text| <= MAX_CHARS
    ensures var st := Assemble(items, NOTHING);
      Parse(text) == Some(ParsedSearch(
        WithPrefix(st.positives, LastTerm(items), false), st.negatives, st.hasOr, Plain(items), text))
  {
    hide Lex, Assemble, WithPrefix, Collapse, JoinItems, Readable;
    TidyItems(items);
    NormalizeTidy(text);
    assert text == JoinItems(items) + "";
    ItemsRead(items, "", 0, Cost(items), text);
    EmptyLex(Cost(items));
    assert items + [] == items;
  }

  lemma EmptyLex(terms: nat)
    ensures Lex("", terms) == Lexed([], "", true)
  {}

  // ----- parsing undoes printing --------------------------------------------------------------

  function UnmarkLeaf(leaf: Leaf): Leaf { leaf.(prefix := false) }

  function UnmarkLeaves(ls: seq<Leaf>): (r: seq<Leaf>)
    ensures |r| == |ls| && forall i :: 0 <= i < |ls| ==> r[i] == UnmarkLeaf(ls[i])
  {
    if ls == [] then [] else [UnmarkLeaf(ls[0])] + UnmarkLeaves(ls[1..])
  }

  function UnmarkUnit(u: Unit): Unit {
    match u
    case One(leaf) => One(UnmarkLeaf(leaf))
    case OrGroup(members) => OrGroup(UnmarkLeaves(members))
  }

  /** A tree up to its prefix marks. */
  function UnmarkUnits(us: seq<Unit>): (r: seq<Unit>)
    ensures |r| == |us| && forall i :: 0 <= i < |us| ==> r[i] == UnmarkUnit(us[i])
  {
    if us == [] then [] else [UnmarkUnit(us[0])] + UnmarkUnits(us[1..])
  }

  predicate LowerCase(w: string) {
    forall i :: 0 <= i < |w| ==> !('A' <= w[i] <= 'Z')
  }

  /** A leaf in the form printing leaves alone: lower case, and quoted only if it has two words. */
  predicate CanonicalLeaf(leaf: Leaf) {
    match leaf
    case Word(text, _) => BareWord(text) && LowerCase(text)
    case Phrase(words, _) =>
      |words| >= 2 && forall i :: 0 <= i < |words| ==> BareWord(words[i]) && LowerCase(words[i])
  }

  /** A canonical positive leaf: not a word that would read as an exclusion. */
  predicate CanonicalPositive(leaf: Leaf) {
    CanonicalLeaf(leaf) && (leaf.Word? ==> !DashWord(leaf.text))
  }

  predicate CanonicalUnit(u: Unit) {
    match u
    case One(leaf) => CanonicalPositive(leaf)
    case OrGroup(members) => |members| >= 2 && forall i :: 0 <= i < |members| ==> CanonicalPositive(members[i])
  }

  predicate Canonical(us: seq<Unit>, ns: seq<Leaf>) {
    && us != []
    && (forall i :: 0 <= i < |us| ==> CanonicalUnit(us[i]))
    && (forall i :: 0 <= i < |ns| ==> CanonicalLeaf(ns[i]))
  }

  lemma LowerKeeps(w: string)
    requires LowerCase(w)
    ensures Lower(w) == w
  {}

  lemma CanonicalLeafCanon(leaf: Leaf)
    requires CanonicalLeaf(leaf)
    ensures CanonLeaf(leaf) == UnmarkLeaf(leaf)
  {
    match leaf
    case Word(text, _) => LowerKeeps(text);
    case Phrase(words, _) =>
      forall i | 0 <= i < |words| ensures LowerAll(words)[i] == words[i] {
        LowerKeeps(words[i]);
      }
  }

  lemma CanonicalCanon(us: seq<Unit>, ns: seq<Leaf>)
    requires Canonical(us, ns)
    ensures CanonUnits(us) == UnmarkUnits(us) && CanonLeaves(ns) == UnmarkLeaves(ns)
  {
    forall i | 0 <= i < |us| ensures CanonUnits(us)[i] == UnmarkUnits(us)[i] {
      match us[i]
      case One(leaf) => CanonicalLeafCanon(leaf);
      case OrGroup(members) =>
        forall k | 0 <= k < |members| ensures CanonLeaves(members)[k] == UnmarkLeaves(members)[k] {
          CanonicalLeafCanon(members[k]);
        }
    }
    forall i | 0 <= i < |ns| ensures CanonLeaves(ns)[i] == UnmarkLeaves(ns)[i] {
      CanonicalLeafCanon(ns[i]);
    }
  }

  lemma UnmarkMarked(u: Unit)
    ensures UnmarkUnit(MarkLastLeaf(u)) == UnmarkUnit(u)
  {
    if u.OrGroup? && u.members != [] {
      var n := |u.members| - 1;
      var marked := MarkLastLeaf(u).members;
      forall k | 0 <= k < |marked| ensures UnmarkLeaves(marked)[k] == UnmarkLeaves(u.members)[k] {
        assert k < n ==> marked[k] == u.members[k];
      }
    }
  }

  /** The prefix marks the parser adds are all that `UnmarkUnits` removes. */
  lemma MarkingForgotten(us: seq<Unit>, last: Option<Item>, truncated: bool)
    ensures UnmarkUnits(WithPrefix(us, last, truncated)) == UnmarkUnits(us)
  {
    var marked := WithPrefix(us, last, truncated);
    if marked != us {
      var n := |us| - 1;
      UnmarkMarked(us[n]);
      forall k | 0 <= k < |marked| ensures UnmarkUnits(marked)[k] == UnmarkUnits(us)[k] {
        assert k < n ==> marked[k] == us[k];
      }
    }
  }

  /** Every token of a canonical tree is readable, and none of its units ends in an OR. */
  lemma {:induction false} FlatOrReadable(members: seq<Leaf>)
    requires forall i :: 0 <= i < |members| ==> CanonicalPositive(members[i])
    ensures AllReadable(FlatOr(UnmarkLeaves(members)))
    ensures members != [] ==> FlatOr(UnmarkLeaves(members)) != [] && !FlatOr(UnmarkLeaves(members))[|FlatOr(UnmarkLeaves(members))| - 1].OrItem?
  {
    if members != [] {
      FlatOrReadable(members[1..]);
      assert UnmarkLeaves(members)[1..] == UnmarkLeaves(members[1..]);
      LowerNotOr(members[0]);
    }
  }

  lemma LowerNotOr(leaf: Leaf)
    requires CanonicalPositive(leaf)
    ensures Readable(LeafItem(UnmarkLeaf(leaf), false))
  {
    assert "OR"[0] == 'O';
  }

  lemma FlatUnitReadable(u: Unit)
    requires CanonicalUnit(u)
    ensures var items := FlatUnit(UnmarkUnit(u)); AllReadable(items) && items != [] && !items[|items| - 1].OrItem?
  {
    match u
    case One(leaf) => LowerNotOr(leaf);
    case OrGroup(members) =>
      LowerNotOr(members[0]);
      FlatOrReadable(members[1..]);
      assert UnmarkLeaves(members)[1..] == UnmarkLeaves(members[1..]);
  }

  lemma {:induction false} FlatUnitsReadable(us: seq<Unit>)
    requires forall i :: 0 <= i < |us| ==> CanonicalUnit(us[i])
    ensures var items := FlatUnits(UnmarkUnits(us));
      AllReadable(items) && (us != [] ==> items != [] && !items[|items| - 1].OrItem?)
  {
    hide FlatUnit, Readable, CanonicalUnit, UnmarkUnit;
    if us != [] {
      FlatUnitReadable(us[0]);
      FlatUnitsReadable(us[1..]);
      assert UnmarkUnits(us)[1..] == UnmarkUnits(us[1..]);
    }
  }

  lemma {:induction false} FlatNegativesReadable(ns: seq<Leaf>)
    requires forall i :: 0 <= i < |ns| ==> CanonicalLeaf(ns[i])
    ensures var items := FlatNegatives(UnmarkLeaves(ns));
      AllReadable(items) && |items| == |ns| && forall i :: 0 <= i < |items| ==> !items[i].OrItem?
  {
    if ns != [] {
      FlatNegativesReadable(ns[1..]);
      assert UnmarkLeaves(ns)[1..] == UnmarkLeaves(ns[1..]);
    }
  }

  lemma FlattenReadable(us: seq<Unit>, ns: seq<Leaf>)
    requires Canonical(us, ns)
    ensures var items := Flatten(UnmarkUnits(us), UnmarkLeaves(ns));
      AllReadable(items) && items != [] && !items[|items| - 1].OrItem?
  {
    FlatUnitsReadable(us);
    FlatNegativesReadable(ns);
  }

  lemma {:induction false} FlatOrUnmarked(members: seq<Leaf>)
    ensures FlatOr(UnmarkLeaves(members)) == FlatOr(members)
  {
    if members != [] {
      FlatOrUnmarked(members[1..]);
      assert UnmarkLeaves(members)[1..] == UnmarkLeaves(members[1..]);
    }
  }

  lemma FlatUnitUnmarked(u: Unit)
    ensures FlatUnit(UnmarkUnit(u)) == FlatUnit(u)
  {
    if u.OrGroup? && u.members != [] {
      FlatOrUnmarked(u.members[1..]);
      assert UnmarkLeaves(u.members)[1..] == UnmarkLeaves(u.members[1..]);
    }
  }

  lemma {:induction false} FlatUnitsUnmarked(us: seq<Unit>)
    ensures FlatUnits(UnmarkUnits(us)) == FlatUnits(us)
  {
    if us != [] {
      FlatUnitUnmarked(us[0]);
      FlatUnitsUnmarked(us[1..]);
      assert UnmarkUnits(us)[1..] == UnmarkUnits(us[1..]);
    }
  }

  lemma {:induction false} FlatNegativesUnmarked(ns: seq<Leaf>)
    ensures FlatNegatives(UnmarkLeaves(ns)) == FlatNegatives(ns)
  {
    if ns != [] {
      FlatNegativesUnmarked(ns[1..]);
      assert UnmarkLeaves(ns)[1..] == UnmarkLeaves(ns[1..]);
    }
  }

  /** Prefix marks do not show in the tokens. */
  lemma FlattenUnmarked(us: seq<Unit>, ns: seq<Leaf>)
    ensures Flatten(UnmarkUnits(us), UnmarkLeaves(ns)) == Flatten(us, ns)
  {
    FlatUnitsUnmarked(us);
    FlatNegativesUnmarked(ns);
  }

  /** A tree whose tokens are readable in canonical form prints as those tokens. */
  lemma PrintsTokens(us: seq<Unit>, ns: seq<Leaf>)
    requires us != [] && forall i :: 0 <= i < |us| ==> (us[i].OrGroup? ==> us[i].members != [])
    requires AllTidy(Flatten(CanonUnits(us), CanonLeaves(ns)))
    ensures forall hasOr, plain, text ::
      NormalizeParsedGapQuery(ParsedSearch(us, ns, hasOr, plain, text)) == Some(JoinItems(Flatten(CanonUnits(us), CanonLeaves(ns))))
  {
    hide Trim;
    var items := Flatten(CanonUnits(us), CanonLeaves(ns));
    PrintIsJoin(us, ns);
    TidyTexts(items);
    TrimTidy(JoinItems(items));
  }

  lemma TrimTidy(t: string)
    requires Tidy(t)
    ensures Trim(t) == t && t != ""
  {}

  /** A canonical tree with at most MAX_TERMS terms whose printed form keeps to the length limits
      parses back to itself, up to the prefix mark of its last term. */
  lemma ParseUndoesPrint(p: ParsedSearch)
    requires Canonical(p.positives, p.negatives)
    requires Cost(Flatten(p.positives, p.negatives)) <= MAX_TERMS
    requires NormalizeParsedGapQuery(p).Some? && MIN_CHARS <= |NormalizeParsedGapQuery(p).value| <= MAX_CHARS
    ensures var text := NormalizeParsedGapQuery(p).value;
      && Parse(text).Some? && var r := Parse(text).value;
      && UnmarkUnits(r.positives) == UnmarkUnits(p.positives)
      && r.negatives == UnmarkLeaves(p.negatives)
      && (r.hasOr <==> exists i :: 0 <= i < |p.positives| && p.positives[i].OrGroup?)
      && (r.operatorFree <==> Plain(Flatten(p.positives, p.negatives))) && r.text == text
  {
    hide Parse, NormalizeParsedGapQuery, WithPrefix, Assemble, Flatten, Cost, Readable, Tidy, JoinItems, CanonicalLeaf;
    var us, ns := UnmarkUnits(p.positives), UnmarkLeaves(p.negatives);
    var items := Flatten(us, ns);
    FlattenReadable(p.positives, p.negatives);
    CanonicalCanon(p.positives, p.negatives);
    TidyItems(items);
    PrintsTokens(p.positives, p.negatives);
    FlattenUnmarked(p.positives, p.negatives);
    var text := NormalizeParsedGapQuery(p).value;
    ReadBack(items, text);
    AssembleFlatten(us, ns);
    MarkingForgotten(us, LastTerm(items), false);
    UnmarkTwice(p.positives);
    assert forall i :: 0 <= i < |us| ==> (us[i].OrGroup? <==> p.positives[i].OrGroup?);
  }

  lemma UnmarkTwice(us: seq<Unit>)
    ensures UnmarkUnits(UnmarkUnits(us)) == UnmarkUnits(us)
  {
    forall i | 0 <= i < |us| ensures UnmarkUnit(UnmarkUnit(us[i])) == UnmarkUnit(us[i]) {
      if us[i].OrGroup? {
        assert UnmarkLeaves(UnmarkLeaves(us[i].members)) == UnmarkLeaves(us[i].members);
      }
    }
  }
}
