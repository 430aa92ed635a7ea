/**
 Nested frontmatter written out and read back: mappings, lists of mappings and scalars, and block scalars
 to any depth, as a skill's author indents them (the subset packages/shared/src/quality.ts:166-263 reads).
 */
module FrontmatterPrint {
  import opened Common
  import opened TextLines
  import opened Frontmatter

  datatype Node =
    | Leaf(text: string)
    | Literal(parts: seq<string>)
    | Mapping(pairs: Pairs)
    | Listing(items: Nodes)

  datatype Pairs = NoPairs | Pair(key: string, value: Node, more: Pairs)

  datatype Nodes = NoNodes | Item(node: Node, more: Nodes)

  // ----- printing -----------------------------------------------------------------------------

  /** What stands behind a key's colon. */
  function After(value: Node): string {
    match value
    case Leaf(text) => " " + text
    case Literal(_) => " " + "|"
    case _ => ""
  }

  function PairText(key: string, value: Node): string { key + ":" + After(value) }

  /** A line of a block scalar; empty ones are not indented. */
  function PartLine(part: string, n: nat): string { if part == "" then "" else Spaces(n) + part }

  function PrintParts(parts: seq<string>, n: nat): (ls: seq<string>)
    ensures |ls| == |parts|
  {
    seq(|parts|, k requires 0 <= k < |parts| => PartLine(parts[k], n))
  }

  /** What stands below a key. */
  function PrintBelow(value: Node, n: nat): seq<string> {
    match value
    case Leaf(_) => []
    case Literal(parts) => PrintParts(parts, n)
    case Mapping(pairs) => PrintPairs(pairs, n)
    case Listing(items) => PrintItems(items, n)
  }

  function PrintPairs(p: Pairs, n: nat): seq<string> {
    match p
    case NoPairs => []
    case Pair(key, value, more) => [Spaces(n) + PairText(key, value)] + PrintBelow(value, n + 2) + PrintPairs(more, n)
  }

  /** A mapping starts on its item's line. Lists and blocks are no items. */
  function PrintItem(node: Node, n: nat): (ls: seq<string>)
    ensures ls != []
  {
    match node
    case Leaf(text) => [Spaces(n) + ("- " + text)]
    case Mapping(Pair(key, value, more)) =>
      [Spaces(n) + ("- " + PairText(key, value))] + PrintBelow(value, n + 4) + PrintPairs(more, n + 2)
    case _ => ["- "]
  }

  function PrintItems(t: Nodes, n: nat): seq<string> {
    match t
    case NoNodes => []
    case Item(node, more) => PrintItem(node, n) + PrintItems(more, n)
  }

  // ----- what it means ------------------------------------------------------------------------

  function Scalar(text: string): Value { Unquote(StripComment(text)) }

  function Meaning(node: Node): Value {
    match node
    case Leaf(text) => Scalar(text)
    case Literal(parts) => Text(Join(parts, "\n"))
    case Mapping(pairs) => Fields(PairsMeaning(pairs))
    case Listing(items) => Items(ItemsMeaning(items))
  }

  function PairsMeaning(p: Pairs): map<string, Value> {
    match p
    case NoPairs => map[]
    case Pair(key, value, more) => map[key := Meaning(value)] + PairsMeaning(more)
  }

  function ItemsMeaning(t: Nodes): seq<Value> {
    match t
    case NoNodes => []
    case Item(node, more) => [Meaning(node)] + ItemsMeaning(more)
  }

  // ----- what can be written so ---------------------------------------------------------------

  /** One line, without white space around it. */
  predicate Tidy(s: string) {
    s != "" && !IsSpace(s[0]) && !IsSpace(s[|s| - 1]) && '\n' !in s
  }

  predicate KeyOk(key: string) {
    Tidy(key) && ':' !in key && key[0] != '#' && !StartsItem(key)
  }

  /** Neither blank lines nor an indent at the start, and no empty line at the end. */
  predicate PartsOk(parts: seq<string>) {
    && parts != [] && parts[0] != "" && parts[0][0] != ' ' && parts[|parts| - 1] != ""
    && forall k :: 0 <= k < |parts| ==> '\n' !in parts[k] && (parts[k] != "" ==> !IsBlank(parts[k]))
  }

  predicate PairsOk(p: Pairs) {
    match p
    case NoPairs => true
    case Pair(key, value, more) => KeyOk(key) && ValueOk(value) && PairsOk(more)
  }

  predicate ValueOk(value: Node) {
    match value
    case Leaf(text) => Tidy(text) && !IsBlockMark(text)
    case Literal(parts) => PartsOk(parts)
    case Mapping(pairs) => pairs.Pair? && PairsOk(pairs)
    case Listing(items) => items.Item? && ItemsOk(items)
  }

  predicate ItemsOk(t: Nodes) {
    match t
    case NoNodes => true
    case Item(node, more) => ItemOk(node) && ItemsOk(more)
  }

  /** An item is a scalar that does not look like a pair, or a mapping whose first pair looks like one. */
  predicate ItemOk(node: Node) {
    match node
    case Leaf(text) => Tidy(text) && !IsPair(text)
    case Mapping(pairs) => pairs.Pair? && PairsOk(pairs) && IsPair(PairText(pairs.key, pairs.value))
    case _ => false
  }

  // ----- single lines -------------------------------------------------------------------------

  /** Indented, it is found again behind its indent. */
  lemma Indented(n: nat, s: string)
    requires Tidy(s)
    ensures IndentOf(Spaces(n) + s) == n && Trim(Spaces(n) + s) == s && Content(Spaces(n) + s) == s
  {
    hide Trim;
    RewrittenIndent(n, s);
    TrimIs(Spaces(n), s, "");
    assert Spaces(n) + s + "" == Spaces(n) + s;
  }

  lemma Trimmed(s: string)
    requires Tidy(s)
    ensures Trim(s) == s && Trim(" " + s) == s
  {
    hide Trim;
    TrimIs("", s, "");
    TrimIs(" ", s, "");
    assert "" + s + "" == s && " " + s + "" == " " + s;
  }

  lemma FirstColon(key: string, after: string)
    requires KeyOk(key)
    ensures ColonOf(key + ":" + after) == |key|
  {
    var t := key + ":" + after;
    assert t[|key|..|key| + 1] == ":";
    forall i | 0 <= i < |key| ensures !At(t, ":", i) {
      assert t[i..i + 1] == [key[i]];
    }
    IndexIs(t, ":", 0, |key|);
  }

  function Rest(value: Node): string {
    if value.Leaf? then value.text else if value.Literal? then "|" else ""
  }

  lemma NothingTrimmed()
    ensures Trim("") == ""
  {
  }

  lemma TextTidy(key: string, value: Node)
    requires KeyOk(key) && ValueOk(value)
    ensures Tidy(PairText(key, value)) && Trim(After(value)) == Rest(value)
  {
    hide Trim, IsSpace, StartsItem, IsBlockMark;
    NothingTrimmed();
    assert !IsSpace(':') && !IsSpace('|') by { NoSpaces(); }
    Trimmed(if value.Leaf? then value.text else "|");
  }

  lemma NoSpaces()
    ensures !IsSpace(':') && !IsSpace('|')
  {
  }

  lemma NoItemMark(key: string, after: string)
    requires KeyOk(key)
    ensures !StartsItem(key + ":" + after) && key + ":" + after != "-"
  {
    var t := key + ":" + after;
    assert t[0] == key[0];
    if |key| >= 2 {
      assert t[..2] == key[..2];
    } else {
      assert t[1] == ':';
    }
  }

  predicate KeyedLine(l: string, n: nat, key: string, rest: string) {
    IndentOf(l) == n && !Skipped(l) && !IsItem(l) && HasKey(l) && KeyOf(l) == key && RestOf(l) == rest
  }

  /** What makes a key's line. */
  lemma KeyedFrom(l: string, t: string, n: nat, key: string, after: string)
    requires IndentOf(l) == n && Trim(l) == t && Content(l) == t && t != "" && t[0] != '#' && t != "-" && !StartsItem(t)
    requires key != "" && ColonOf(t) == |key| && t[..|key|] == key && t[|key| + 1..] == after && Trim(key) == key
    ensures KeyedLine(l, n, key, Trim(after))
  {
    hide Trim, IndentOf, ColonOf, Content, StartsItem;
  }

  /** A key's line. */
  lemma KeyLine(n: nat, key: string, after: string)
    requires KeyOk(key) && Tidy(key + ":" + after)
    ensures KeyedLine(Spaces(n) + (key + ":" + after), n, key, Trim(after))
  {
    hide Trim, IndentOf, ColonOf, Content, StartsItem, KeyedLine;
    var t := key + ":" + after;
    assert t[0] == key[0] != '#' && t[..|key|] == key && t[|key| + 1..] == after;
    Indented(n, t);
    NoItemMark(key, after);
    Trimmed(key);
    FirstColon(key, after);
    KeyedFrom(Spaces(n) + t, t, n, key, after);
  }

  lemma PairLineIs(n: nat, key: string, value: Node)
    requires KeyOk(key) && ValueOk(value)
    ensures KeyedLine(Spaces(n) + PairText(key, value), n, key, Rest(value))
  {
    hide KeyOk, ValueOk, Tidy, KeyedLine, Trim;
    TextTidy(key, value);
    KeyLine(n, key, After(value));
  }

  predicate ItemsLine(l: string, n: nat, rest: string) {
    IndentOf(l) == n && !Skipped(l) && IsItem(l) && ItemRest(l) == rest
  }

  /** What makes an item's line. */
  lemma ItemFrom(l: string, t: string, n: nat, rest: string)
    requires IndentOf(l) == n && Trim(l) == t && StartsItem(t) && t[0] != '#' && Trim(t[1..]) == rest
    ensures ItemsLine(l, n, rest)
  {
    hide Trim, IndentOf;
  }

  lemma ItemLine(n: nat, rest: string)
    requires Tidy(rest)
    ensures ItemsLine(Spaces(n) + ("- " + rest), n, rest)
  {
    hide Trim, IndentOf, Content, ItemsLine;
    var t := "- " + rest;
    assert t[0] == '-' && t[|t| - 1] == rest[|rest| - 1] && t[..2] == "- " && t[1..] == " " + rest;
    Indented(n, t);
    Trimmed(rest);
    ItemFrom(Spaces(n) + t, t, n, rest);
  }

  // ----- where it stands ----------------------------------------------------------------------

  ghost predicate Stands(lines: seq<string>, i: nat, part: seq<string>) {
    i + |part| <= |lines| && forall k :: 0 <= k < |part| ==> lines[i + k] == part[k]
  }

  lemma StandsApart(lines: seq<string>, i: nat, a: seq<string>, b: seq<string>)
    ensures Stands(lines, i, a + b) <==> Stands(lines, i, a) && Stands(lines, i + |a|, b)
  {
    if Stands(lines, i, a + b) {
      forall k | 0 <= k < |a| ensures lines[i + k] == a[k] {
        assert (a + b)[k] == a[k];
      }
      forall k | 0 <= k < |b| ensures lines[i + |a| + k] == b[k] {
        assert (a + b)[|a| + k] == b[k];
      }
    }
  }

  /** The lines end here, or go on less deeply. */
  ghost predicate Below(lines: seq<string>, i: nat, n: nat) {
    i >= |lines| || (!Skipped(lines[i]) && IndentOf(lines[i]) < n)
  }

  /** No item of a list at the indent, and nothing deeper. */
  ghost predicate ListEnds(lines: seq<string>, i: nat, n: nat) {
    Below(lines, i, n + 1) && (i < |lines| ==> !TakesItem(lines[i], n))
  }

  /** What is printed at an indent is less deep than what is nested further. */
  lemma PairsBelow(p: Pairs, lines: seq<string>, i: nat, n: nat)
    requires PairsOk(p) && Stands(lines, i, PrintPairs(p, n)) && Below(lines, i + |PrintPairs(p, n)|, n)
    ensures Below(lines, i, n + 1)
  {
    hide IndentOf, Skipped, ValueOk, KeyOk;
    if p.Pair? {
      assert lines[i + 0] == PrintPairs(p, n)[0];
      PairLineIs(n, p.key, p.value);
    }
  }

  lemma FirstItem(node: Node, n: nat)
    requires ItemOk(node)
    ensures ItemsLine(PrintItem(node, n)[0], n, if node.Leaf? then node.text else PairText(node.pairs.key, node.pairs.value))
  {
    hide Tidy, ItemsLine, KeyOk, ValueOk, IsPair;
    match node
    case Leaf(text) => ItemLine(n, text);
    case Mapping(pairs) =>
      TextTidy(pairs.key, pairs.value);
      ItemLine(n, PairText(pairs.key, pairs.value));
  }

  lemma ItemsBelow(t: Nodes, lines: seq<string>, i: nat, n: nat)
    requires ItemsOk(t) && Stands(lines, i, PrintItems(t, n)) && ListEnds(lines, i + |PrintItems(t, n)|, n)
    ensures Below(lines, i, n + 1)
  {
    hide IndentOf, Skipped, ItemOk, PrintItem;
    if t.Item? {
      assert lines[i + 0] == PrintItems(t, n)[0] == PrintItem(t.node, n)[0];
      FirstItem(t.node, n);
    }
  }

  // ----- blocks -------------------------------------------------------------------------------

  lemma BlankIff(s: string)
    ensures IsBlank(s) <==> forall k :: 0 <= k < |s| ==> IsSpace(s[k])
  {
    var n := SpaceRun(s);
    if n < |s| {
      assert TrimStart(s)[0] == s[n];
    }
  }

  lemma {:induction false} IndentAtLeast(m: nat, s: string)
    ensures IndentOf(Spaces(m) + s) == m + IndentOf(s)
  {
    if m > 0 {
      assert (Spaces(m) + s)[1..] == Spaces(m - 1) + s;
      IndentAtLeast(m - 1, s);
    } else {
      assert Spaces(m) + s == s;
    }
  }

  /** A line of a block scalar, without its indent. */
  lemma PartLineIs(part: string, m: nat)
    requires part != "" ==> !IsBlank(part)
    ensures IsBlank(PartLine(part, m)) <==> part == ""
    ensures part != "" ==> IndentOf(PartLine(part, m)) == m + IndentOf(part)
    ensures BlockLine(PartLine(part, m), m) == part
  {
    if part != "" {
      BlankIff(part);
      var l := Spaces(m) + part;
      BlankIff(l);
      var k :| 0 <= k < |part| && !IsSpace(part[k]);
      assert l[m + k] == part[k];
      IndentAtLeast(m, part);
      assert l[m..] == part;
    }
  }

  /** The first line sets the indent. */
  lemma {:induction false} FirstSetsIndent(lines: seq<string>, i: nat, to: nat)
    requires i < to <= |lines| && !IsBlank(lines[i])
    ensures BlockIndent(lines, i, to) == IndentOf(lines[i])
  {
    hide IsBlank, IndentOf;
    if i + 1 < to {
      FirstSetsIndent(lines, i, to - 1);
    } else {
      assert BlockIndent(lines, i, i) == -1;
    }
  }

  lemma ReadsParts(parts: seq<string>, lines: seq<string>, i: nat, n: nat)
    requires PartsOk(parts) && Stands(lines, i, PrintParts(parts, n + 2)) && Below(lines, i + |parts|, n + 1)
    ensures BlockEnd(lines, i, n) == i + |parts| && BlockText(lines, i, i + |parts|, false) == Join(parts, "\n")
  {
    hide IsBlank, IndentOf, BlockLine, Join, BlockIndent, PartLine, PrintParts;
    var to := i + |parts|;
    PartsDeeper(parts, lines, i, n);
    EndStays(lines, i, to, n);
    PartsIndent(parts, lines, i, n);
    assert to < |lines| ==> !IsBlank(lines[to]);
    assert BlockLines(lines, i, to) == parts;
    assert Chomped(parts) == parts;
  }

  lemma PartsIndent(parts: seq<string>, lines: seq<string>, i: nat, n: nat)
    requires PartsOk(parts) && Stands(lines, i, PrintParts(parts, n + 2))
    ensures BlockIndent(lines, i, i + |parts|) == n + 2
  {
    hide IsBlank, BlockIndent, BlockLine;
    assert lines[i + 0] == PrintParts(parts, n + 2)[0];
    PartLineIs(parts[0], n + 2);
    IndentIs(parts[0], 0);
    FirstSetsIndent(lines, i, i + |parts|);
  }

  lemma PartsDeeper(parts: seq<string>, lines: seq<string>, i: nat, n: nat)
    requires PartsOk(parts) && Stands(lines, i, PrintParts(parts, n + 2))
    ensures forall k :: i <= k < i + |parts| ==>
      (IsBlank(lines[k]) || IndentOf(lines[k]) > n) && BlockLine(lines[k], n + 2) == parts[k - i]
  {
    hide IsBlank, IndentOf, BlockLine;
    forall k | i <= k < i + |parts|
      ensures (IsBlank(lines[k]) || IndentOf(lines[k]) > n) && BlockLine(lines[k], n + 2) == parts[k - i]
    {
      assert lines[i + (k - i)] == PrintParts(parts, n + 2)[k - i];
      PartLineIs(parts[k - i], n + 2);
    }
  }

  // ----- reading back -------------------------------------------------------------------------

  /** A line of a nested block is what a key without a value goes on with. */
  lemma NestedIs(lines: seq<string>, i: nat, n: nat)
    requires i < |lines| && IndentOf(lines[i]) == n + 2 && !Skipped(lines[i])
    ensures !IsItem(lines[i]) ==>
      var fields := MappingOf(lines, i, n + 2); NestedOf(lines, i, n) == Read(Fields(fields.value), fields.next)
    ensures IsItem(lines[i]) ==>
      var list := ListOf(lines, i, n + 2); NestedOf(lines, i, n) == Read(Items(list.value), list.next)
  {
    hide IndentOf, MappingOf, ListOf, IsItem;
    assert FirstNonBlank(lines, i) == i;
  }

  lemma {:induction false} ReadsPairs(p: Pairs, lines: seq<string>, i: nat, n: nat)
    requires PairsOk(p) && Stands(lines, i, PrintPairs(p, n)) && Below(lines, i + |PrintPairs(p, n)|, n)
    ensures MappingOf(lines, i, n) == Read(PairsMeaning(p), i + |PrintPairs(p, n)|)
    decreases p
  {
    hide MappingOf, KeyedLine, KeyOk, ValueOk, ValueOf, Skipped, IndentOf, PrintPairs, PrintBelow, Stands, PairText, Below;
    if p.Pair? {
      var next := i + 1 + |PrintBelow(p.value, n + 2)|;
      PairsApart(p, lines, i, n);
      PairsBelow(p.more, lines, next, n);
      ReadsPairs(p.more, lines, next, n);
      PairLineIs(n, p.key, p.value);
      ReadsValue(p.value, lines, i + 1, n);
      KeyIsRead(lines, i, n, p.key, Rest(p.value));
    } else {
      NothingPrinted(n);
      EndsHere(lines, i, n);
    }
  }

  lemma NothingPrinted(n: nat)
    ensures PrintPairs(NoPairs, n) == []
  {
  }

  /** Where the first pair and the others stand. */
  lemma PairsApart(p: Pairs, lines: seq<string>, i: nat, n: nat)
    requires p.Pair? && Stands(lines, i, PrintPairs(p, n))
    ensures var below, rest := PrintBelow(p.value, n + 2), PrintPairs(p.more, n);
      && |PrintPairs(p, n)| == 1 + |below| + |rest| && i + 1 + |below| + |rest| <= |lines|
      && lines[i] == Spaces(n) + PairText(p.key, p.value)
      && Stands(lines, i + 1, below) && Stands(lines, i + 1 + |below|, rest)
  {
    hide PrintBelow, PairText;
    var line, below, rest := [Spaces(n) + PairText(p.key, p.value)], PrintBelow(p.value, n + 2), PrintPairs(p.more, n);
    assert PrintPairs(p, n) == line + below + rest;
    StandsApart(lines, i, line + below, rest);
    StandsApart(lines, i, line, below);
    assert lines[i + 0] == line[0];
  }

  /** A key's line adds its field in front of what follows its value. */
  lemma KeyIsRead(lines: seq<string>, i: nat, n: nat, key: string, rest: string)
    requires i < |lines| && KeyedLine(lines[i], n, key, rest)
    ensures var value := ValueOf(lines, i + 1, n, rest);
      var more := MappingOf(lines, value.next, n);
      MappingOf(lines, i, n) == Read(map[key := value.value] + more.value, more.next)
  {
    hide IndentOf, Skipped, HasKey, KeyOf, RestOf, ValueOf, IsItem;
  }

  lemma EndsHere(lines: seq<string>, i: nat, n: nat)
    requires Stands(lines, i, []) && Below(lines, i, n)
    ensures MappingOf(lines, i, n) == Read(map[], i)
  {
    hide IndentOf, Skipped;
  }

  lemma {:induction false} ReadsValue(value: Node, lines: seq<string>, i: nat, n: nat)
    requires ValueOk(value) && Stands(lines, i, PrintBelow(value, n + 2)) && Below(lines, i + |PrintBelow(value, n + 2)|, n + 1)
    ensures ValueOf(lines, i, n, Rest(value)) == Read(Meaning(value), i + |PrintBelow(value, n + 2)|)
    decreases value
  {
    hide IndentOf, Skipped, IsItem, Tidy, KeyOk, MappingOf, ListOf, NestedOf, PartsOk, BlockText, BlockEnd, ItemOk, HasKey;
    match value
    case Leaf(text) =>
      TidyIsText(text);
    case Literal(parts) =>
      ReadsParts(parts, lines, i, n);
    case Mapping(pairs) =>
      ReadsPairs(pairs, lines, i, n + 2);
      FirstPairNested(pairs, lines, i, n);
    case Listing(items) =>
      ReadsItems(items, lines, i, n + 2);
      FirstItemNested(items, lines, i, n);
  }

  lemma FirstPairNested(pairs: Pairs, lines: seq<string>, i: nat, n: nat)
    requires pairs.Pair? && PairsOk(pairs) && Stands(lines, i, PrintPairs(pairs, n + 2))
    ensures var fields := MappingOf(lines, i, n + 2); NestedOf(lines, i, n) == Read(Fields(fields.value), fields.next)
  {
    hide IndentOf, Skipped, IsItem, KeyOk, ValueOk, MappingOf, NestedOf, HasKey;
    assert lines[i + 0] == PrintPairs(pairs, n + 2)[0];
    PairLineIs(n + 2, pairs.key, pairs.value);
    NestedIs(lines, i, n);
  }

  lemma FirstItemNested(items: Nodes, lines: seq<string>, i: nat, n: nat)
    requires items.Item? && ItemsOk(items) && Stands(lines, i, PrintItems(items, n + 2))
    ensures var list := ListOf(lines, i, n + 2); NestedOf(lines, i, n) == Read(Items(list.value), list.next)
  {
    hide IndentOf, Skipped, IsItem, ItemOk, ListOf, NestedOf, PrintItem;
    assert lines[i + 0] == PrintItems(items, n + 2)[0] == PrintItem(items.node, n + 2)[0];
    FirstItem(items.node, n + 2);
    NestedIs(lines, i, n);
  }

  lemma {:induction false} ReadsItems(t: Nodes, lines: seq<string>, i: nat, n: nat)
    requires ItemsOk(t) && Stands(lines, i, PrintItems(t, n)) && ListEnds(lines, i + |PrintItems(t, n)|, n)
    ensures ListOf(lines, i, n) == Read(ItemsMeaning(t), i + |PrintItems(t, n)|)
    decreases t
  {
    hide IndentOf, Skipped, IsItem, ItemOk, PrintItem, ItemOf, ItemRest;
    if t.Item? {
      var own, rest := PrintItem(t.node, n), PrintItems(t.more, n);
      StandsApart(lines, i, own, rest);
      ItemsBelow(t.more, lines, i + |own|, n);
      ReadsItems(t.more, lines, i + |own|, n);
      assert lines[i + 0] == own[0];
      FirstItem(t.node, n);
      ReadsItem(t.node, lines, i, n);
    }
  }

  /** A mapping stands below a key however much deeper, blank lines between them aside. */
  lemma NestedPairsAreRead(pairs: Pairs, lines: seq<string>, i: nat, j: nat, n: nat, m: nat)
    requires pairs.Pair? && PairsOk(pairs) && n < m && i <= j && Stands(lines, j, PrintPairs(pairs, m))
    requires (forall k :: i <= k < j && k < |lines| ==> IsBlank(lines[k])) && Below(lines, j + |PrintPairs(pairs, m)|, m)
    ensures NestedOf(lines, i, n) == Read(Fields(PairsMeaning(pairs)), j + |PrintPairs(pairs, m)|)
  {
    hide IndentOf, Skipped, IsItem, IsBlank, KeyOk, ValueOk, MappingOf, HasKey;
    ReadsPairs(pairs, lines, j, m);
    assert lines[j + 0] == PrintPairs(pairs, m)[0];
    PairLineIs(m, pairs.key, pairs.value);
    NotBlank(lines[j]);
    FirstIs(lines, i, j);
  }

  /** So does a list, which may also stand as deep as its key. */
  lemma NestedItemsAreRead(items: Nodes, lines: seq<string>, i: nat, j: nat, n: nat, m: nat)
    requires items.Item? && ItemsOk(items) && n <= m && i <= j && Stands(lines, j, PrintItems(items, m))
    requires (forall k :: i <= k < j && k < |lines| ==> IsBlank(lines[k])) && ListEnds(lines, j + |PrintItems(items, m)|, m)
    ensures NestedOf(lines, i, n) == Read(Items(ItemsMeaning(items)), j + |PrintItems(items, m)|)
  {
    hide IndentOf, Skipped, IsItem, IsBlank, ItemOk, ListOf, PrintItem;
    ReadsItems(items, lines, j, m);
    assert lines[j + 0] == PrintItems(items, m)[0] == PrintItem(items.node, m)[0];
    FirstItem(items.node, m);
    NotBlank(lines[j]);
    FirstIs(lines, i, j);
  }

  lemma {:induction false} FirstIs(lines: seq<string>, i: nat, j: nat)
    requires i <= j < |lines| && (forall k :: i <= k < j ==> IsBlank(lines[k])) && !IsBlank(lines[j])
    ensures FirstNonBlank(lines, i) == j
    decreases j - i
  {
    hide IsBlank;
    if i < j {
      FirstIs(lines, i + 1, j);
    }
  }

  lemma NotBlank(l: string)
    requires !Skipped(l)
    ensures !IsBlank(l)
  {
  }

  lemma {:induction false} ReadsItem(node: Node, lines: seq<string>, i: nat, n: nat)
    requires ItemOk(node) && Stands(lines, i, PrintItem(node, n)) && Below(lines, i + |PrintItem(node, n)|, n + 1)
    requires i < |lines| && TakesItem(lines[i], n)
    ensures ItemOf(lines, i, n) == Read(Meaning(node), i + |PrintItem(node, n)|)
    decreases node
  {
    hide IndentOf, Skipped, IsItem, ItemRest, ItemOf, Tidy, KeyOk, ValueOk, MappingOf, IsPair, PairText;
    assert lines[i + 0] == PrintItem(node, n)[0];
    FirstItem(node, n);
    match node
    case Leaf(text) =>
      TidyIsText(text);
      ItemIs(lines, i, n, text);
    case Mapping(pairs) =>
      var text := PairText(pairs.key, pairs.value);
      TextTidy(pairs.key, pairs.value);
      TidyIsText(text);
      ItemIs(lines, i, n, text);
      PairMoved(pairs, lines, i, n);
      ReadsPairs(pairs, lines[i := PairLine(n + 2, text)], i, n + 2);
  }

  /** An item with text: a mapping from its pair on, or a scalar. */
  lemma ItemIs(lines: seq<string>, i: nat, n: nat, text: string)
    requires i < |lines| && TakesItem(lines[i], n) && ItemRest(lines[i]) == text && text != "" && text[0] != ' '
    ensures var fields := MappingOf(lines[i := PairLine(n + 2, text)], i, n + 2);
      ItemOf(lines, i, n) == if IsPair(text) then Read(Fields(fields.value), fields.next) else Read(Scalar(text), i + 1)
  {
    hide IndentOf, Skipped, IsItem, ItemRest, MappingOf, IsPair, Unquote, StripComment, PairLine;
  }

  /** With its first line at the mapping's indent, the item is the mapping as it is printed there. */
  lemma PairMoved(pairs: Pairs, lines: seq<string>, i: nat, n: nat)
    requires pairs.Pair? && Stands(lines, i, PrintItem(Mapping(pairs), n))
    ensures |PrintItem(Mapping(pairs), n)| == |PrintPairs(pairs, n + 2)|
    ensures Stands(lines[i := Spaces(n + 2) + PairText(pairs.key, pairs.value)], i, PrintPairs(pairs, n + 2))
  {
    hide PrintBelow, PairText;
    var own, more := PrintItem(Mapping(pairs), n), PrintPairs(pairs, n + 2);
    var tail := PrintBelow(pairs.value, n + 4) + PrintPairs(pairs.more, n + 2);
    assert own == [own[0]] + tail && more == [more[0]] + tail;
    forall k | 0 < k < |more| ensures lines[i + k] == more[k] {
      assert lines[i + k] == own[k] == tail[k - 1];
    }
  }

  lemma TidyIsText(s: string)
    requires Tidy(s)
    ensures s != "" && s[0] != ' '
  {
  }

  // ----- the first pair of an item ------------------------------------------------------------

  lemma PairTextIsPair(key: string, value: Node)
    requires KeyOk(key) && ValueOk(value)
    ensures IsPair(PairText(key, value)) <==> (value.Leaf? || value.Literal?) && key[0] != '"' && key[0] != '\''
  {
    hide IsSpace, IsBlockMark, StartsItem;
    var t := PairText(key, value);
    if value.Leaf? || value.Literal? {
      assert t[|key|..|key| + 2] == ": ";
      assert At(t, ": ", |key|);
    } else {
      forall i ensures !At(t, ": ", i) {
        if 0 <= i && i + 2 <= |t| {
          assert t[i..i + 2][0] == t[i] == key[i];
        }
      }
    }
  }

  lemma ScalarIsNoMapping(text: string)
    ensures !Scalar(text).Fields?
  {
  }

  /** A mapping written as an item is read back if and only if its first key has a scalar or a block behind
      it and does not start with a quote; else its first line is read as a scalar. */
  lemma MappingItemIff(pairs: Pairs, lines: seq<string>, i: nat, n: nat)
    requires pairs.Pair? && PairsOk(pairs)
    requires Stands(lines, i, PrintItem(Mapping(pairs), n)) && Below(lines, i + |PrintItem(Mapping(pairs), n)|, n + 1)
    ensures i < |lines| && TakesItem(lines[i], n)
    ensures ItemOf(lines, i, n).value == Fields(PairsMeaning(pairs)) <==>
      (pairs.value.Leaf? || pairs.value.Literal?) && pairs.key[0] != '"' && pairs.key[0] != '\''
  {
    hide IndentOf, Skipped, IsItem, ItemRest, ItemOf, Tidy, KeyOk, ValueOk, MappingOf, IsPair, PairText;
    var node, text := Mapping(pairs), PairText(pairs.key, pairs.value);
    assert lines[i + 0] == PrintItem(node, n)[0];
    TextTidy(pairs.key, pairs.value);
    TidyIsText(text);
    ItemLine(n, text);
    PairTextIsPair(pairs.key, pairs.value);
    if IsPair(text) {
      ReadsItem(node, lines, i, n);
    } else {
      ItemIs(lines, i, n, text);
      ScalarIsNoMapping(text);
    }
  }

  // ----- the whole text -----------------------------------------------------------------------

  predicate OneLine(l: string) { '\n' !in l }

  predicate OneLines(ls: seq<string>) { forall k :: 0 <= k < |ls| ==> OneLine(ls[k]) }

  lemma {:induction false} PairsOneLines(p: Pairs, n: nat)
    requires PairsOk(p)
    ensures OneLines(PrintPairs(p, n))
    decreases p
  {
    hide OneLine, ValueOk, KeyOk;
    if p.Pair? {
      TextOneLine(n, p.key, p.value);
      BelowOneLines(p.value, n + 2);
      PairsOneLines(p.more, n);
    }
  }

  lemma TextOneLine(n: nat, key: string, value: Node)
    requires KeyOk(key) && ValueOk(value)
    ensures OneLine(Spaces(n) + PairText(key, value)) && OneLine(Spaces(n) + ("- " + PairText(key, value)))
  {
  }

  lemma {:induction false} BelowOneLines(value: Node, n: nat)
    requires ValueOk(value)
    ensures OneLines(PrintBelow(value, n))
    decreases value
  {
    match value
    case Leaf(_) =>
    case Literal(parts) =>
      forall k | 0 <= k < |parts| ensures OneLine(PartLine(parts[k], n)) {
      }
    case Mapping(pairs) => PairsOneLines(pairs, n);
    case Listing(items) => ItemsOneLines(items, n);
  }

  lemma {:induction false} ItemsOneLines(t: Nodes, n: nat)
    requires ItemsOk(t)
    ensures OneLines(PrintItems(t, n))
    decreases t
  {
    hide OneLine, ItemOk, PrintItem;
    if t.Item? {
      ItemOneLines(t.node, n);
      ItemsOneLines(t.more, n);
    }
  }

  lemma {:induction false} ItemOneLines(node: Node, n: nat)
    requires ItemOk(node)
    ensures OneLines(PrintItem(node, n))
    decreases node
  {
    hide OneLine, ValueOk, KeyOk, IsPair, Tidy;
    match node
    case Leaf(text) =>
      LeafOneLine(n, text);
    case Mapping(pairs) =>
      TextOneLine(n, pairs.key, pairs.value);
      BelowOneLines(pairs.value, n + 4);
      PairsOneLines(pairs.more, n + 2);
  }

  lemma LeafOneLine(n: nat, text: string)
    requires Tidy(text)
    ensures OneLine(Spaces(n) + ("- " + text))
  {
  }

  lemma LinesSplit(ls: seq<string>)
    requires ls != [] && OneLines(ls)
    ensures SplitOn(Join(ls, "\n"), '\n') == ls
  {
    forall k | 0 <= k < |ls| ensures '\n' !in ls[k] {
      assert OneLine(ls[k]);
    }
    SplitJoined(ls, '\n');
  }

  /** A frontmatter written out is read back: to any depth, every key has its value, and all lines are read. */
  lemma PrintedIsRead(p: Pairs)
    requires PairsOk(p) && p.Pair?
    ensures var lines := SplitOn(Join(PrintPairs(p, 0), "\n"), '\n');
      lines == PrintPairs(p, 0) && MappingOf(lines, 0, 0) == Read(PairsMeaning(p), |lines|)
  {
    hide OneLines, PairsOk, MappingOf, Join, SplitOn;
    var lines := PrintPairs(p, 0);
    PairsOneLines(p, 0);
    LinesSplit(lines);
    ReadsPairs(p, lines, 0, 0);
  }
}
