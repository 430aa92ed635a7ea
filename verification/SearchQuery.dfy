/**
 The search query language: the parser of packages/shared/src/search.ts. A query is words, "phrases",
 `a OR b` groups and `-exclusions`; every text parses to something.

 The functions are the language's specification; `ParseSearchQuery` is the source's cursor-driven
 scanner and assembler, proved to compute them.
 */
module SearchQuery {
  import opened Common
  import opened TextLines

  const MIN_CHARS := 2
  const MAX_CHARS := 200
  const MAX_TERMS := 12
  const PREFIX_MIN_CHARS := 2

  datatype Leaf =
    | Word(text: string, prefix: bool)
    | Phrase(words: seq<string>, prefix: bool)

  datatype Unit =
    | One(leaf: Leaf)
    | OrGroup(members: seq<Leaf>)

  datatype ParsedSearch = ParsedSearch(
    positives: seq<Unit>, negatives: seq<Leaf>, hasOr: bool, operatorFree: bool, text: string)

  /** What the scanner reads: a token of the query text. */
  datatype Item =
    | WordItem(text: string, neg: bool)
    | PhraseItem(words: seq<string>, neg: bool, closed: bool)
    | OrItem
  {
    predicate Negative() { !OrItem? && neg }
    predicate Positive() { !OrItem? && !neg }

    /** Terms counted against the cap: ORs are free. */
    function Cost(): nat { if OrItem? then 0 else 1 }
  }

  // ----- text normalization -------------------------------------------------------------------

  /** Every whitespace run becomes one space. */
  function Collapse(s: string): string {
    if s == "" then ""
    else if !IsSpace(s[0]) then [s[0]] + Collapse(s[1..])
    else if |s| > 1 && IsSpace(s[1]) then Collapse(s[1..])
    else " " + Collapse(s[1..])
  }

  function NormalizeSearchText(raw: string): string {
    var s := Trim(Collapse(raw));
    if |s| <= MAX_CHARS then s else TrimEnd(s[..MAX_CHARS])
  }

  // ----- the scanner --------------------------------------------------------------------------

  /** The length of the run of characters that are neither space nor quote. */
  function BareLen(s: string): (n: nat)
    ensures n <= |s|
  {
    if s == "" || s[0] == ' ' || s[0] == '"' then 0 else 1 + BareLen(s[1..])
  }

  /** The number of characters before the next quote, or before the end. */
  function QuoteLen(s: string): (n: nat)
    ensures n <= |s|
  {
    if s == "" || s[0] == '"' then 0 else 1 + QuoteLen(s[1..])
  }

  function WordLen(s: string): (n: nat)
    ensures n <= |s|
  {
    if s == "" || s[0] == ' ' then 0 else 1 + WordLen(s[1..])
  }

  /** `s.split(" ").filter(Boolean)`. */
  function Words(s: string): seq<string> {
    if s == "" then []
    else if s[0] == ' ' then Words(s[1..])
    else [s[..WordLen(s)]] + Words(s[WordLen(s)..])
  }

  /** One token: what it adds to the items, the text after it, and whether it uses no operator. */
  datatype Token = Token(item: Option<Item>, rest: string, plain: bool)

  predicate StartsExclusion(s: string) {
    |s| > 1 && s[0] == '-' && s[1] != ' '
  }

  /** A phrase: up to the next quote, or to the end when it is never closed. */
  function QuotedToken(body: string, neg: bool): (t: Token)
    requires body != "" && body[0] == '"'
    ensures |t.rest| < |body|
  {
    var k := QuoteLen(body[1..]);
    var closed := 1 + k < |body|;
    var words := Words(body[1..1 + k]);
    var rest := if closed then body[1 + k + 1..] else "";
    Token(if words != [] then Some(PhraseItem(words, neg, closed)) else None, rest, false)
  }

  /** A bare word, or the OR operator: up to the next space or quote. */
  function BareToken(body: string, neg: bool): (t: Token)
    requires body != "" && body[0] != ' ' && body[0] != '"'
    ensures |t.rest| < |body|
  {
    var text, rest := body[..BareLen(body)], body[BareLen(body)..];
    if neg then Token(Some(WordItem(text, true)), rest, false)
    else if text == "OR" then Token(Some(OrItem), rest, false)
    else Token(Some(WordItem(text, false)), rest, true)
  }

  function NextToken(s: string): (t: Token)
    requires s != "" && s[0] != ' '
    ensures |t.rest| < |s|
  {
    var neg := StartsExclusion(s);
    var body := if neg then s[1..] else s;
    if body[0] == '"' then QuotedToken(body, neg) else BareToken(body, neg)
  }

  datatype Lexed = Lexed(items: seq<Item>, rest: string, operatorFree: bool)

  /** The items of a text, at most MAX_TERMS - terms of them ORs aside, and what the cap left unread. */
  function Lex(s: string, terms: nat): Lexed
    decreases |s|
  {
    if s == "" || terms >= MAX_TERMS then Lexed([], s, true)
    else if s[0] == ' ' then Lex(s[1..], terms)
    else
      var t := NextToken(s);
      match t.item
      case None => Lex(t.rest, terms).(operatorFree := false)
      case Some(item) =>
        var l := Lex(t.rest, terms + item.Cost());
        Lexed([item] + l.items, l.rest, t.plain && l.operatorFree)
  }

  // ----- the assembler ------------------------------------------------------------------------

  function LeafOf(item: Item): Leaf
    requires !item.OrItem?
  {
    match item
    case WordItem(text, _) => Word(text, false)
    case PhraseItem(words, _, _) => Phrase(words, false)
  }

  datatype Assembly = Assembly(
    positives: seq<Unit>, negatives: seq<Leaf>, pendingOr: bool, lastWasPositive: bool, hasOr: bool)

  const NOTHING := Assembly([], [], false, false, false)

  function JoinOr(prev: Unit, leaf: Leaf): Unit {
    match prev
    case One(first) => OrGroup([first, leaf])
    case OrGroup(members) => OrGroup(members + [leaf])
  }

  /** One item joins the tree: an OR only binds two positive neighbours. */
  function Take(st: Assembly, item: Item): Assembly {
    if item.OrItem? then
      if st.lastWasPositive then st.(pendingOr := true) else st
    else if item.neg then
      st.(negatives := st.negatives + [LeafOf(item)], pendingOr := false, lastWasPositive := false)
    else if st.pendingOr && st.positives != [] then
      var last := |st.positives| - 1;
      Assembly(st.positives[..last] + [JoinOr(st.positives[last], LeafOf(item))], st.negatives, false, true, true)
    else
      Assembly(st.positives + [One(LeafOf(item))], st.negatives, false, true, st.hasOr)
  }

  function Assemble(items: seq<Item>, st: Assembly): Assembly
    decreases |items|
  {
    if items == [] then st else Assemble(items[1..], Take(st, items[0]))
  }

  // ----- the last word as a prefix ------------------------------------------------------------

  predicate Alphanumeric(c: char) {
    'a' <= c <= 'z' || 'A' <= c <= 'Z' || '0' <= c <= '9'
  }

  predicate Prefixable(w: string) {
    |w| >= PREFIX_MIN_CHARS && forall k :: 0 <= k < |w| ==> Alphanumeric(w[k])
  }

  function LastTerm(items: seq<Item>): (last: Option<Item>)
    ensures last.Some? ==> !last.value.OrItem?
  {
    if items == [] then None
    else if !items[|items| - 1].OrItem? then Some(items[|items| - 1])
    else LastTerm(items[..|items| - 1])
  }

  function MarkPrefix(leaf: Leaf): Leaf { leaf.(prefix := true) }

  function MarkLastLeaf(u: Unit): Unit {
    match u
    case One(leaf) => One(MarkPrefix(leaf))
    case OrGroup(members) =>
      if members == [] then u else OrGroup(members[..|members| - 1] + [MarkPrefix(members[|members| - 1])])
  }

  /** The query's final term is a positive word or an open phrase that someone may still be typing. */
  predicate EndsInPrefix(positives: seq<Unit>, last: Option<Item>, truncated: bool) {
    && !truncated && last.Some? && last.value.Positive() && positives != []
    && match last.value
       case WordItem(text, _) => positives[|positives| - 1] == One(Word(text, false)) && Prefixable(text)
       case PhraseItem(words, _, closed) => !closed && words != [] && Prefixable(words[|words| - 1])
       case OrItem => false
  }

  function WithPrefix(positives: seq<Unit>, last: Option<Item>, truncated: bool): seq<Unit> {
    if EndsInPrefix(positives, last, truncated) then
      positives[..|positives| - 1] + [MarkLastLeaf(positives[|positives| - 1])]
    else positives
  }

  function Parse(raw: string): Option<ParsedSearch> {
    var s := NormalizeSearchText(raw);
    if |s| < MIN_CHARS then None
    else
      var l := Lex(s, 0);
      var st := Assemble(l.items, NOTHING);
      var positives := WithPrefix(st.positives, LastTerm(l.items), Trim(l.rest) != "");
      Some(ParsedSearch(positives, st.negatives, st.hasOr, l.operatorFree, s))
  }

  // ----- the source's loops -------------------------------------------------------------------

  /** The bare-word branch of the scan: the inner cursor `j` runs to the word's end. */
  method ScanBare(s: string, i: nat, neg: bool) returns (item: Item, j: nat, plain: bool)
    requires i < |s| && s[i] != ' ' && s[i] != '"'
    ensures i < j <= |s|
    ensures BareToken(s[i..], neg) == Token(Some(item), s[j..], plain)
  {
    j := i;
    while j < |s| && s[j] != ' ' && s[j] != '"'
      invariant i <= j <= |s|
      invariant BareLen(s[i..]) == j - i + BareLen(s[j..])
    {
      assert s[j..][1..] == s[j + 1..];
      j := j + 1;
    }
    var text := s[i..j];
    assert text == s[i..][..BareLen(s[i..])] && s[j..] == s[i..][BareLen(s[i..])..];
    item := if neg then WordItem(text, true) else if text == "OR" then OrItem else WordItem(text, false);
    plain := !neg && text != "OR";
  }

  /** The phrase branch of the scan. */
  method ScanQuoted(s: string, i: nat, neg: bool) returns (item: Option<Item>, j: nat)
    requires i < |s| && s[i] == '"'
    ensures i < j <= |s|
    ensures QuotedToken(s[i..], neg) == Token(item, s[j..], false)
  {
    var k := QuoteLen(s[i + 1..]);
    var closed := i + 1 + k < |s|;
    var words := Words(s[i + 1..i + 1 + k]);
    assert s[i..][1..] == s[i + 1..] && s[i..][1..1 + k] == s[i + 1..i + 1 + k];
    j := if closed then i + 1 + k + 1 else |s|;
    assert closed ==> s[i..][1 + k + 1..] == s[j..];
    item := if words != [] then Some(PhraseItem(words, neg, closed)) else None;
  }

  /** One turn of the scan, at a token start: the item read, if any, and the cursor after it. */
  method ScanToken(s: string, from: nat) returns (item: Option<Item>, i: nat, plain: bool)
    requires from < |s| && s[from] != ' '
    ensures from < i <= |s|
    ensures NextToken(s[from..]) == Token(item, s[i..], plain)
  {
    i := from;
    var neg := false;
    if s[i] == '-' && i + 1 < |s| && s[i + 1] != ' ' {
      neg, i := true, i + 1;
    }
    assert s[i..] == (if neg then s[from..][1..] else s[from..]);
    if s[i] == '"' {
      item, i := ScanQuoted(s, i, neg);
      plain := false;
    } else {
      var word;
      word, i, plain := ScanBare(s, i, neg);
      item := Some(word);
    }
  }

  /** A scan result with what was read before it. */
  function After(items: seq<Item>, operatorFree: bool, l: Lexed): Lexed {
    Lexed(items + l.items, l.rest, operatorFree && l.operatorFree)
  }

  /** The scan of `whole` so far: `items` read, `left` still to scan. */
  ghost predicate Scanned(whole: string, left: string, terms: nat, items: seq<Item>, operatorFree: bool) {
    After(items, operatorFree, Lex(left, terms)) == Lex(whole, 0)
  }

  lemma ScanBlank(whole: string, left: string, terms: nat, items: seq<Item>, operatorFree: bool)
    requires Scanned(whole, left, terms, items, operatorFree)
    requires left != "" && left[0] == ' ' && terms < MAX_TERMS
    ensures Scanned(whole, left[1..], terms, items, operatorFree)
  {}

  /** Reading one token moves it from what is still to scan to what has been read. */
  lemma ScanTurn(whole: string, left: string, terms: nat, items: seq<Item>, operatorFree: bool, t: Token)
    requires Scanned(whole, left, terms, items, operatorFree)
    requires left != "" && left[0] != ' ' && terms < MAX_TERMS && t == NextToken(left)
    ensures t.item.None? ==> Scanned(whole, t.rest, terms, items, operatorFree && t.plain)
    ensures t.item.Some? ==>
      Scanned(whole, t.rest, terms + t.item.value.Cost(), items + [t.item.value], operatorFree && t.plain)
  {
    if t.item.Some? {
      var item := t.item.value;
      var later := Lex(t.rest, terms + item.Cost()).items;
      assert items + ([item] + later) == items + [item] + later;
    }
  }

  lemma ScanDone(whole: string, left: string, terms: nat, items: seq<Item>, operatorFree: bool)
    requires Scanned(whole, left, terms, items, operatorFree)
    requires left == "" || terms >= MAX_TERMS
    ensures Lex(whole, 0) == Lexed(items, left, operatorFree)
  {
    assert items + [] == items;
  }

  /** The body of the scan loop: skip a space, or read a token and count its term. */
  method ScanOne(s: string, i: nat, terms: nat, items: seq<Item>, operatorFree: bool)
    returns (i': nat, terms': nat, items': seq<Item>, operatorFree': bool)
    requires i < |s| && terms < MAX_TERMS && Scanned(s, s[i..], terms, items, operatorFree)
    ensures i < i' <= |s| && Scanned(s, s[i'..], terms', items', operatorFree')
  {
    i', terms', items', operatorFree' := i, terms, items, operatorFree;
    if s[i] == ' ' {
      ScanBlank(s, s[i..], terms, items, operatorFree);
      i' := i + 1;
      assert s[i..][1..] == s[i'..];
      return;
    }
    var item, next, plain := ScanToken(s, i);
    ScanTurn(s, s[i..], terms, items, operatorFree, Token(item, s[next..], plain));
    i', operatorFree' := next, operatorFree && plain;
    if item.Some? {
      items', terms' := items + [item.value], terms + item.value.Cost();
    }
  }

  /** The scan of a normalized text: the items, the cursor the cap stopped at and whether no operator
      was seen. */
  method Scan(s: string) returns (items: seq<Item>, i: nat, operatorFree: bool)
    ensures i <= |s| && Lex(s, 0) == Lexed(items, s[i..], operatorFree)
  {
    items, operatorFree, i := [], true, 0;
    var terms: nat := 0;
    assert s[0..] == s;
    while i < |s| && terms < MAX_TERMS
      invariant 0 <= i <= |s|
      invariant Scanned(s, s[i..], terms, items, operatorFree)
    {
      i, terms, items, operatorFree := ScanOne(s, i, terms, items, operatorFree);
    }
    ScanDone(s, s[i..], terms, items, operatorFree);
  }

  /** What the source's `lastPositive` and `lastPositiveIsTopLevelWord` know about the tree. */
  ghost predicate TracksLast(st: Assembly, lastPositive: Option<Leaf>, topLevelWord: bool) {
    && st.lastWasPositive == lastPositive.Some?
    && (lastPositive.Some? ==>
        && st.positives != []
        && topLevelWord == (st.positives[|st.positives| - 1] == One(lastPositive.value) && lastPositive.value.Word?)
        && match st.positives[|st.positives| - 1]
           case One(leaf) => leaf == lastPositive.value
           case OrGroup(members) => members != [] && members[|members| - 1] == lastPositive.value)
  }

  /** The assembly loop, with the source's flags for the last positive unit. */
  method AssembleItems(items: seq<Item>) returns (st: Assembly, lastPositive: Option<Leaf>, topLevelWord: bool)
    ensures st == Assemble(items, NOTHING)
    ensures TracksLast(st, lastPositive, topLevelWord)
    ensures lastPositive.Some? <==> LastTerm(items).Some? && LastTerm(items).value.Positive()
    ensures lastPositive.Some? ==> lastPositive.value == LeafOf(LastTerm(items).value)
  {
    var positives: seq<Unit>, negatives: seq<Leaf> := [], [];
    var pendingOr, lastWasPositive, hasOr := false, false, false;
    lastPositive, topLevelWord := None, false;
    for n := 0 to |items|
      invariant Assemble(items[n..], Assembly(positives, negatives, pendingOr, lastWasPositive, hasOr)) == Assemble(items, NOTHING)
      invariant TracksLast(Assembly(positives, negatives, pendingOr, lastWasPositive, hasOr), lastPositive, topLevelWord)
      invariant lastPositive.Some? <==> LastTerm(items[..n]).Some? && LastTerm(items[..n]).value.Positive()
      invariant lastPositive.Some? ==> lastPositive.value == LeafOf(LastTerm(items[..n]).value)
    {
      var item := items[n];
      assert items[n..][1..] == items[n + 1..] && items[..n + 1][..n] == items[..n];
      if item.OrItem? {
        if lastWasPositive {
          pendingOr := true;
        }
      } else if item.neg {
        negatives := negatives + [LeafOf(item)];
        pendingOr, lastWasPositive, lastPositive := false, false, None;
      } else {
        var leaf := LeafOf(item);
        if pendingOr && positives != [] {
          var prev := positives[|positives| - 1];
          positives := positives[..|positives| - 1] + [JoinOr(prev, leaf)];
          hasOr, topLevelWord := true, false;
        } else {
          positives := positives + [One(leaf)];
          topLevelWord := leaf.Word?;
        }
        pendingOr, lastWasPositive, lastPositive := false, true, Some(leaf);
      }
    }
    st := Assembly(positives, negatives, pendingOr, lastWasPositive, hasOr);
    assert items[|items|..] == [] && items[..|items|] == items;
  }

  /** Parse a query. Never fails: None only below the two-character floor, or without a query. */
  method ParseSearchQuery(raw: Option<string>) returns (r: Option<ParsedSearch>)
    ensures r == if raw.None? then None else Parse(raw.value)
  {
    if raw.None? {
      return None;
    }
    var s := NormalizeSearchText(raw.value);
    if |s| < MIN_CHARS {
      return None;
    }
    var items, i, operatorFree := Scan(s);
    var st, lastPositive, topLevelWord := AssembleItems(items);
    var positives := st.positives;
    var truncated := Trim(s[i..]) != "";
    var last := LastTerm(items);
    if !truncated && last.Some? && !last.value.neg && lastPositive.Some? {
      var leaf := lastPositive.value;
      if (last.value.WordItem? && leaf.Word? && topLevelWord && Prefixable(leaf.text))
         || (last.value.PhraseItem? && !last.value.closed && leaf.Phrase?
             && leaf.words != [] && Prefixable(leaf.words[|leaf.words| - 1])) {
        positives := positives[..|positives| - 1] + [MarkLastLeaf(positives[|positives| - 1])];
      }
    }
    r := Some(ParsedSearch(positives, st.negatives, st.hasOr, operatorFree, s));
  }
}
