/**
 What the query parser (packages/shared/src/search.ts) makes of a text, said of the text and its tokens alone:
 how white space is normalized, what the term cap leaves unread, which positives an OR joins, and which term
 is taken for one still being typed.
 */
module SearchReading {
  import opened Common
  import opened TextLines
  import opened SearchQuery
  import opened SearchGaps

  // ----- which positives are joined -----------------------------------------------------------

  /** The items end with a positive one, ORs behind it aside. */
  ghost predicate EndsPositive(items: seq<Item>) {
    exists p :: 0 <= p < |items| && items[p].Positive() && forall r :: p < r < |items| ==> items[r].OrItem?
  }

  /** The items end with a positive one and at least one OR behind it. */
  ghost predicate EndsWithOr(items: seq<Item>) {
    EndsPositive(items) && items[|items| - 1].OrItem?
  }

  /** The positive items as leaves, in order. */
  function PositiveLeaves(items: seq<Item>): seq<Leaf> {
    if items == [] then []
    else
      var last := items[|items| - 1];
      PositiveLeaves(items[..|items| - 1]) + if last.Positive() then [LeafOf(last)] else []
  }

  function NegativeLeaves(items: seq<Item>): seq<Leaf> {
    if items == [] then []
    else
      var last := items[|items| - 1];
      NegativeLeaves(items[..|items| - 1]) + if last.Negative() then [LeafOf(last)] else []
  }

  /** For each positive item whether only ORs stand between it and the positive one before it. */
  ghost function PositiveJoins(items: seq<Item>): seq<bool> {
    if items == [] then []
    else
      var before := items[..|items| - 1];
      PositiveJoins(before) + if items[|items| - 1].Positive() then [EndsWithOr(before)] else []
  }

  function UnitLeaves(u: Unit): seq<Leaf> {
    match u
    case One(leaf) => [leaf]
    case OrGroup(members) => members
  }

  /** The leaves of a tree, in order. */
  function Leaves(us: seq<Unit>): seq<Leaf> {
    if us == [] then [] else Leaves(us[..|us| - 1]) + UnitLeaves(us[|us| - 1])
  }

  /** For each leaf whether it is in a group with the leaf before it. */
  function Joins(us: seq<Unit>): seq<bool> {
    if us == [] then [] else Joins(us[..|us| - 1]) + UnitJoins(us[|us| - 1])
  }

  function UnitJoins(u: Unit): seq<bool> {
    seq(|UnitLeaves(u)|, k => k > 0)
  }

  lemma {:induction false} AssembleLast(items: seq<Item>, st: Assembly)
    requires items != []
    ensures Assemble(items, st) == Take(Assemble(items[..|items| - 1], st), items[|items| - 1])
    decreases |items|
  {
    hide Take;
    var n := |items| - 1;
    if n > 0 {
      AssembleLast(items[1..], Take(st, items[0]));
      assert items[1..][..n - 1] == items[..n][1..];
    } else {
      assert items[..0] == [] && items[1..] == [];
    }
  }

  /** One more item ends as it does. */
  lemma EndsNext(items: seq<Item>)
    requires items != []
    ensures var before, last := items[..|items| - 1], items[|items| - 1];
      && (EndsPositive(items) <==> last.Positive() || (last.OrItem? && EndsPositive(before)))
      && (EndsWithOr(items) <==> last.OrItem? && EndsPositive(before))
  {
    var before, last := items[..|items| - 1], items[|items| - 1];
    if p :| 0 <= p < |before| && before[p].Positive() && forall r :: p < r < |before| ==> before[r].OrItem? {
      if last.OrItem? {
        assert items[p].Positive() && forall r :: p < r < |items| ==> items[r].OrItem?;
      }
    }
    if p :| 0 <= p < |items| && items[p].Positive() && forall r :: p < r < |items| ==> items[r].OrItem? {
      if p < |before| {
        assert before[p].Positive() && forall r :: p < r < |before| ==> before[r].OrItem?;
      }
    }
    if last.Positive() {
      assert items[|before|].Positive();
    }
  }

  lemma LastUnit(us: seq<Unit>, u: Unit)
    ensures Leaves(us + [u]) == Leaves(us) + UnitLeaves(u) && Joins(us + [u]) == Joins(us) + UnitJoins(u)
  {
    assert (us + [u])[..|us|] == us;
  }

  /** A unit with one more member has one more leaf, joined to those before it. */
  lemma JoinedLeaf(u: Unit, leaf: Leaf)
    requires u.OrGroup? ==> |u.members| >= 2
    ensures UnitLeaves(JoinOr(u, leaf)) == UnitLeaves(u) + [leaf] && UnitJoins(JoinOr(u, leaf)) == UnitJoins(u) + [true]
  {
  }

  /** Groups have two members or more. */
  ghost predicate RealGroups(us: seq<Unit>) {
    forall k :: 0 <= k < |us| ==> us[k].OrGroup? ==> |us[k].members| >= 2
  }

  /** What one more item changes. */
  lemma TakeReads(st: Assembly, item: Item)
    requires RealGroups(st.positives)
    ensures var st', joins := Take(st, item), st.pendingOr && st.positives != [];
      && RealGroups(st'.positives)
      && Leaves(st'.positives) == Leaves(st.positives) + (if item.Positive() then [LeafOf(item)] else [])
      && Joins(st'.positives) == Joins(st.positives) + (if item.Positive() then [joins] else [])
  {
    hide UnitLeaves, UnitJoins, Leaves, Joins;
    var us := st.positives;
    if item.Positive() {
      var leaf := LeafOf(item);
      OneLeaf(leaf);
      if st.pendingOr && us != [] {
        var n := |us| - 1;
        assert us == us[..n] + [us[n]];
        LastUnit(us[..n], us[n]);
        LastUnit(us[..n], JoinOr(us[n], leaf));
        JoinedLeaf(us[n], leaf);
        assert Leaves(us[..n]) + (UnitLeaves(us[n]) + [leaf]) == Leaves(us[..n]) + UnitLeaves(us[n]) + [leaf];
        assert Joins(us[..n]) + (UnitJoins(us[n]) + [true]) == Joins(us[..n]) + UnitJoins(us[n]) + [true];
      } else {
        LastUnit(us, One(leaf));
      }
    } else {
      assert Leaves(us) + [] == Leaves(us) && Joins(us) + [] == Joins(us);
    }
  }

  lemma OneLeaf(leaf: Leaf)
    ensures UnitLeaves(One(leaf)) == [leaf] && UnitJoins(One(leaf)) == [false]
  {
  }

  /** The tree of any items has the positive ones as its leaves, in order; two neighbours are in one group if and
      only if ORs and nothing else stand between them. Exclusions are the negative items, in order. */
  lemma {:induction false} AssembleJoins(items: seq<Item>)
    ensures var st := Assemble(items, NOTHING);
      && Leaves(st.positives) == PositiveLeaves(items) && Joins(st.positives) == PositiveJoins(items)
      && st.negatives == NegativeLeaves(items) && RealGroups(st.positives)
      && st.lastWasPositive == EndsPositive(items) && st.pendingOr == EndsWithOr(items)
      && (st.pendingOr ==> st.positives != [])
      && (st.hasOr <==> true in PositiveJoins(items))
    decreases |items|
  {
    hide EndsPositive, Leaves, Joins, Assemble;
    if items == [] {
      NothingEnds();
    } else {
      var before, last := items[..|items| - 1], items[|items| - 1];
      AssembleJoins(before);
      AssembleLast(items, NOTHING);
      var st := Assemble(before, NOTHING);
      TakeReads(st, last);
      EndsNext(items);
      if last.Positive() || EndsPositive(before) {
        SomeUnit(before);
      }
    }
  }

  lemma NothingEnds()
    ensures !EndsPositive([]) && Assemble([], NOTHING) == NOTHING && Leaves([]) == [] && Joins([]) == []
  {
  }

  /** Behind a positive item there is a unit. */
  lemma {:induction false} SomeUnit(items: seq<Item>)
    ensures EndsPositive(items) ==> Assemble(items, NOTHING).positives != []
    decreases |items|
  {
    hide EndsPositive, Assemble;
    if items == [] {
      NothingEnds();
    } else {
      var before := items[..|items| - 1];
      SomeUnit(before);
      AssembleLast(items, NOTHING);
      EndsNext(items);
    }
  }

  // ----- the term still being typed -----------------------------------------------------------

  /** Two letters or digits at least, and nothing else. */
  predicate Typable(w: string) {
    |w| >= 2 && forall k :: 0 <= k < |w| ==> 'a' <= w[k] <= 'z' || 'A' <= w[k] <= 'Z' || '0' <= w[k] <= '9'
  }

  /** The item at q may be unfinished: a word that no OR joins to another, or a phrase without its closing quote,
      whose last word is typable. */
  ghost predicate Unfinished(items: seq<Item>, q: nat)
    requires q < |items|
  {
    match items[q]
    case WordItem(text, neg) => !neg && !EndsWithOr(items[..q]) && Typable(text)
    case PhraseItem(words, neg, closed) => !neg && !closed && words != [] && Typable(words[|words| - 1])
    case OrItem => false
  }

  /** The last item, ORs aside, may be unfinished. */
  ghost predicate StillTyped(items: seq<Item>) {
    exists q :: 0 <= q < |items| && Unfinished(items, q) && forall r :: q < r < |items| ==> items[r].OrItem?
  }

  /** The item at q is the last one, ORs aside. */
  ghost predicate LastAt(items: seq<Item>, q: nat) {
    q < |items| && !items[q].OrItem? && forall r :: q < r < |items| ==> items[r].OrItem?
  }

  lemma {:induction false} LastTermAt(items: seq<Item>)
    ensures LastTerm(items).Some? ==> exists q :: 0 <= q < |items| && LastAt(items, q) && LastTerm(items).value == items[q]
    ensures LastTerm(items).None? ==> forall q :: 0 <= q < |items| ==> items[q].OrItem?
    decreases |items|
  {
    if items != [] {
      var before := items[..|items| - 1];
      LastTermAt(before);
      if !items[|items| - 1].OrItem? {
        assert LastAt(items, |items| - 1);
      } else if LastTerm(items).Some? {
        var q :| 0 <= q < |before| && LastAt(before, q) && LastTerm(before).value == before[q];
        assert LastAt(items, q);
      }
    }
  }

  lemma {:induction false} OrsChangeNoUnit(items: seq<Item>, q: nat)
    requires q < |items| && forall r :: q < r < |items| ==> items[r].OrItem?
    ensures Assemble(items, NOTHING).positives == Assemble(items[..q + 1], NOTHING).positives
    decreases |items|
  {
    hide Assemble;
    if q + 1 == |items| {
      assert items[..q + 1] == items;
    } else {
      var before := items[..|items| - 1];
      OrsChangeNoUnit(before, q);
      assert before[..q + 1] == items[..q + 1];
      AssembleLast(items, NOTHING);
    }
  }

  /** Where the last positive item went. */
  lemma LastPositiveUnit(items: seq<Item>, q: nat)
    requires LastAt(items, q) && items[q].Positive()
    ensures var us := Assemble(items, NOTHING).positives;
      && us != [] && UnitLeaves(us[|us| - 1]) != []
      && UnitLeaves(us[|us| - 1])[|UnitLeaves(us[|us| - 1])| - 1] == LeafOf(items[q])
      && (us[|us| - 1] == One(LeafOf(items[q])) <==> !EndsWithOr(items[..q]))
  {
    hide Assemble, EndsWithOr;
    OrsChangeNoUnit(items, q);
    var upTo := items[..q + 1];
    AssembleLast(upTo, NOTHING);
    assert upTo[..q] == items[..q] && upTo[q] == items[q];
    AssembleJoins(items[..q]);
  }

  /** The parser marks the last positive exactly when the last item may be unfinished and nothing is unread. */
  lemma EndsInPrefixIff(items: seq<Item>, truncated: bool)
    ensures EndsInPrefix(Assemble(items, NOTHING).positives, LastTerm(items), truncated) <==> !truncated && StillTyped(items)
  {
    hide Assemble, EndsWithOr, LastTerm;
    LastTermAt(items);
    var us := Assemble(items, NOTHING).positives;
    if LastTerm(items).Some? {
      var q :| 0 <= q < |items| && LastAt(items, q) && LastTerm(items).value == items[q];
      forall r | 0 <= r < |items| && Unfinished(items, r) && (forall k :: r < k < |items| ==> items[k].OrItem?) ensures r == q {
      }
      assert StillTyped(items) <==> Unfinished(items, q);
      if items[q].Positive() {
        LastPositiveUnit(items, q);
        assert items[q].WordItem? ==> (Prefixable(items[q].text) <==> Typable(items[q].text));
      }
    }
  }

  ghost predicate NoMarks(leaves: seq<Leaf>) {
    forall k :: 0 <= k < |leaves| ==> !leaves[k].prefix
  }

  /** At most the last leaf is marked, and it is if and only if `marked`. */
  ghost predicate MarksLast(leaves: seq<Leaf>, marked: bool) {
    if leaves == [] then !marked
    else NoMarks(leaves[..|leaves| - 1]) && leaves[|leaves| - 1].prefix == marked
  }

  lemma {:induction false} ItemLeavesUnmarked(items: seq<Item>)
    ensures NoMarks(PositiveLeaves(items)) && NoMarks(NegativeLeaves(items))
    decreases |items|
  {
    if items != [] {
      ItemLeavesUnmarked(items[..|items| - 1]);
    }
  }

  lemma MarkedLeaves(us: seq<Unit>)
    requires us != [] && UnitLeaves(us[|us| - 1]) != []
    ensures var marked := us[..|us| - 1] + [MarkLastLeaf(us[|us| - 1])];
      && Leaves(us) != [] && |Leaves(marked)| == |Leaves(us)| && Joins(marked) == Joins(us)
      && Leaves(marked)[..|Leaves(us)| - 1] == Leaves(us)[..|Leaves(us)| - 1]
      && Leaves(marked)[|Leaves(us)| - 1] == MarkPrefix(Leaves(us)[|Leaves(us)| - 1])
      && (RealGroups(us) ==> RealGroups(marked))
  {
    hide Leaves, Joins, MarkLastLeaf, UnitLeaves, UnitJoins;
    var n := |us| - 1;
    var u := us[n];
    LastUnit(us[..n], u);
    LastUnit(us[..n], MarkLastLeaf(u));
    assert us == us[..n] + [u];
    MarkedUnit(u);
    var a, b, c := Leaves(us[..n]), UnitLeaves(u), UnitLeaves(MarkLastLeaf(u));
    LastOfTwo(a, b, c);
  }

  lemma MarkedUnit(u: Unit)
    requires UnitLeaves(u) != []
    ensures var a, b := UnitLeaves(u), UnitLeaves(MarkLastLeaf(u));
      && |b| == |a| && b[..|a| - 1] == a[..|a| - 1] && b[|a| - 1] == MarkPrefix(a[|a| - 1])
      && UnitJoins(MarkLastLeaf(u)) == UnitJoins(u)
      && (MarkLastLeaf(u).OrGroup? <==> u.OrGroup?) && (u.OrGroup? ==> |MarkLastLeaf(u).members| == |u.members|)
  {
  }

  lemma LastOfTwo(a: seq<Leaf>, b: seq<Leaf>, c: seq<Leaf>)
    requires b != [] && |c| == |b| && c[..|b| - 1] == b[..|b| - 1]
    ensures |a + c| == |a + b| && (a + c)[..|a + b| - 1] == (a + b)[..|a + b| - 1]
    ensures (a + c)[|a + b| - 1] == c[|b| - 1] && (a + b)[|a + b| - 1] == b[|b| - 1]
  {
    assert (a + c)[..|a + b| - 1] == a + c[..|b| - 1] && (a + b)[..|a + b| - 1] == a + b[..|b| - 1];
  }

  /** Every text of two characters or more parses, to a tree that its items determine: their positives as leaves,
      joined as the ORs say, and their exclusions. It takes exactly one term, the last positive one, for one still
      being typed if the query was read to its end and ends with a word that no OR joins to another, or a phrase
      without its closing quote, whose last word is two letters or digits at least; and none otherwise. */
  lemma ParseReads(raw: string)
    ensures Parse(raw).None? <==> |NormalizeSearchText(raw)| < 2
    ensures Parse(raw).Some? ==>
      var p := Parse(raw).value; var l := Lex(p.text, 0);
      && p.text == NormalizeSearchText(raw) && p.operatorFree == l.operatorFree
      && UnmarkLeaves(Leaves(p.positives)) == PositiveLeaves(l.items) && Joins(p.positives) == PositiveJoins(l.items)
      && RealGroups(p.positives) && p.negatives == NegativeLeaves(l.items) && NoMarks(p.negatives)
      && (p.hasOr <==> true in PositiveJoins(l.items))
      && MarksLast(Leaves(p.positives), Trim(l.rest) == "" && StillTyped(l.items))
  {
    hide Lex, Assemble, Leaves, Joins, WithPrefix, NormalizeSearchText, StillTyped, PositiveJoins, NoMarks, MarksLast, RealGroups;
    var l := Lex(NormalizeSearchText(raw), 0);
    AssembleJoins(l.items);
    ItemLeavesUnmarked(l.items);
    TreeMarks(l.items, Trim(l.rest) != "");
  }

  /** What marking does to the tree of some items. */
  lemma TreeMarks(items: seq<Item>, truncated: bool)
    ensures var us := Assemble(items, NOTHING).positives; var marked := WithPrefix(us, LastTerm(items), truncated);
      && UnmarkLeaves(Leaves(marked)) == PositiveLeaves(items) && Joins(marked) == Joins(us) && RealGroups(marked)
      && MarksLast(Leaves(marked), !truncated && StillTyped(items))
  {
    hide Assemble, Leaves, Joins, EndsInPrefix, MarkLastLeaf, StillTyped, PositiveLeaves, PositiveJoins, LastTerm, NoMarks, MarksLast, UnitLeaves, RealGroups;
    AssembleJoins(items);
    ItemLeavesUnmarked(items);
    EndsInPrefixIff(items, truncated);
    var us := Assemble(items, NOTHING).positives;
    if !truncated && StillTyped(items) {
      SomethingTyped(items);
      MarkedLeaves(us);
      OneMark(PositiveLeaves(items), Leaves(WithPrefix(us, LastTerm(items), truncated)));
    } else {
      NoMark(PositiveLeaves(items));
    }
  }

  lemma OneMark(leaves: seq<Leaf>, marked: seq<Leaf>)
    requires NoMarks(leaves) && leaves != [] && |marked| == |leaves| && marked[..|leaves| - 1] == leaves[..|leaves| - 1]
    requires marked[|leaves| - 1] == MarkPrefix(leaves[|leaves| - 1])
    ensures UnmarkLeaves(marked) == leaves && MarksLast(marked, true)
  {
    forall k | 0 <= k < |leaves| ensures UnmarkLeaf(marked[k]) == leaves[k] {
      assert k < |leaves| - 1 ==> marked[k] == marked[..|leaves| - 1][k] == leaves[k];
    }
  }

  lemma NoMark(leaves: seq<Leaf>)
    requires NoMarks(leaves)
    ensures UnmarkLeaves(leaves) == leaves && MarksLast(leaves, false)
  {
  }

  lemma SomethingTyped(items: seq<Item>)
    requires StillTyped(items)
    ensures var us := Assemble(items, NOTHING).positives; us != [] && UnitLeaves(us[|us| - 1]) != []
  {
    hide Assemble, EndsWithOr;
    var q :| 0 <= q < |items| && Unfinished(items, q) && forall r :: q < r < |items| ==> items[r].OrItem?;
    assert LastAt(items, q);
    LastPositiveUnit(items, q);
  }

  // ----- tokens -------------------------------------------------------------------------------

  function NonEmptyParts(parts: seq<string>): seq<string> {
    if parts == [] then [] else (if parts[0] == "" then [] else [parts[0]]) + NonEmptyParts(parts[1..])
  }

  /** The words of a phrase are its parts between blanks, without the empty ones. */
  lemma {:induction false} WordsAreParts(s: string)
    ensures Words(s) == NonEmptyParts(SplitOn(s, ' '))
    decreases |s|
  {
    hide SplitOn;
    if s == "" {
      SplitOne("", ' ');
    } else if s[0] == ' ' {
      WordsAreParts(s[1..]);
      SplitFirst("", s[1..], ' ');
      assert "" + [' '] + s[1..] == s;
      assert ([""] + SplitOn(s[1..], ' '))[1..] == SplitOn(s[1..], ' ');
    } else {
      WordRun(s);
      var n := WordLen(s);
      var w, rest := s[..n], s[n..];
      if rest == "" {
        SplitOne(s, ' ');
        assert s[..n] == s && [w][1..] == [] && Words(rest) == [];
      } else {
        WordsAreParts(rest[1..]);
        SplitFirst(w, rest[1..], ' ');
        assert w + [' '] + rest[1..] == s;
        assert ([w] + SplitOn(rest[1..], ' '))[1..] == SplitOn(rest[1..], ' ');
        assert Words(rest) == Words(rest[1..]);
      }
    }
  }

  lemma {:induction false} WordRun(s: string)
    ensures ' ' !in s[..WordLen(s)] && (WordLen(s) < |s| ==> s[WordLen(s)] == ' ')
    ensures s != "" && s[0] != ' ' ==> WordLen(s) > 0
  {
    if s != "" && s[0] != ' ' {
      WordRun(s[1..]);
      assert s[..WordLen(s)] == [s[0]] + s[1..][..WordLen(s[1..])];
    }
  }

  /** A bare token: the k characters up to the next blank or quote. */
  ghost predicate IsBare(body: string, neg: bool, t: Token, k: nat) {
    && 0 < k <= |body| && ' ' !in body[..k] && '"' !in body[..k] && (k < |body| ==> body[k] == ' ' || body[k] == '"')
    && t.rest == body[k..]
    && t.item == Some(if neg then WordItem(body[..k], true) else if body[..k] == "OR" then OrItem else WordItem(body[..k], false))
    && (t.plain <==> !neg && body[..k] != "OR")
  }

  /** A quoted one: the characters up to the next quote, at k, or to the end. It is no token without a word. */
  ghost predicate IsQuoted(body: string, neg: bool, t: Token, k: nat) {
    && 1 <= k <= |body| && '"' !in body[1..k] && (k < |body| ==> body[k] == '"')
    && t.rest == (if k < |body| then body[k + 1..] else "") && !t.plain
    && var words := NonEmptyParts(SplitOn(body[1..k], ' '));
       t.item == if words == [] then None else Some(PhraseItem(words, neg, k < |body|))
  }

  /** What a token is. A dash in front of anything but a blank excludes. */
  lemma TokenShape(s: string) returns (neg: bool, body: string, k: nat)
    requires s != "" && s[0] != ' '
    ensures neg <==> |s| > 1 && s[0] == '-' && s[1] != ' '
    ensures body == (if neg then s[1..] else s) && body != ""
    ensures if body[0] == '"' then IsQuoted(body, neg, NextToken(s), k) else IsBare(body, neg, NextToken(s), k)
  {
    neg := StartsExclusion(s);
    body := if neg then s[1..] else s;
    if body[0] == '"' {
      var n := QuoteLen(body[1..]);
      QuoteRun(body[1..]);
      k := 1 + n;
      assert body[1..k] == body[1..][..n];
      WordsAreParts(body[1..k]);
    } else {
      k := BareLen(body);
      BareRun(body);
    }
  }

  lemma {:induction false} QuoteRun(s: string)
    ensures '"' !in s[..QuoteLen(s)] && (QuoteLen(s) < |s| ==> s[QuoteLen(s)] == '"')
  {
    if s != "" && s[0] != '"' {
      QuoteRun(s[1..]);
      assert s[..QuoteLen(s)] == [s[0]] + s[1..][..QuoteLen(s[1..])];
    }
  }

  lemma {:induction false} BareRun(s: string)
    ensures ' ' !in s[..BareLen(s)] && '"' !in s[..BareLen(s)]
    ensures BareLen(s) < |s| ==> s[BareLen(s)] == ' ' || s[BareLen(s)] == '"'
    ensures s != "" && s[0] != ' ' && s[0] != '"' ==> BareLen(s) > 0
  {
    if s != "" && s[0] != ' ' && s[0] != '"' {
      BareRun(s[1..]);
      assert s[..BareLen(s)] == [s[0]] + s[1..][..BareLen(s[1..])];
    }
  }

  // ----- what is read -------------------------------------------------------------------------

  /** The part of a text in front of what is left of it. */
  function ReadPart(s: string, rest: string): string
    requires |rest| <= |s|
  {
    s[..|s| - |rest|]
  }

  /** At most 12 terms are read, ORs aside, and the rest is left only behind the twelfth; and the query is free of
      operators if and only if all that was read is positive words and no quote. */
  lemma {:induction false} LexReads(s: string, terms: nat)
    requires terms <= 12
    ensures Reads(s, terms, Lex(s, terms))
    decreases |s|
  {
    hide NextToken, Reads;
    if s == "" || terms >= 12 {
      NothingRead(s, terms);
    } else if s[0] == ' ' {
      LexReads(s[1..], terms);
      BlankRead(s, terms, Lex(s[1..], terms));
    } else {
      var t := NextToken(s);
      LexReads(t.rest, if t.item.None? then terms else terms + t.item.value.Cost());
      TokenRead(s, terms, Lex(t.rest, if t.item.None? then terms else terms + t.item.value.Cost()));
    }
  }

  ghost predicate Reads(s: string, terms: nat, l: Lexed) {
    && |l.rest| <= |s| && s == ReadPart(s, l.rest) + l.rest
    && terms + Cost(l.items) <= 12 && (l.rest != "" ==> terms + Cost(l.items) == 12)
    && (l.operatorFree <==> Plain(l.items) && '"' !in ReadPart(s, l.rest))
  }

  lemma NothingRead(s: string, terms: nat)
    requires terms <= 12 && (s == "" || terms == 12)
    ensures Reads(s, terms, Lexed([], s, true))
  {
    assert ReadPart(s, s) == "";
  }

  lemma BlankRead(s: string, terms: nat, l: Lexed)
    requires s != "" && s[0] == ' ' && Reads(s[1..], terms, l)
    ensures Reads(s, terms, l)
  {
    assert ReadPart(s, l.rest) == [s[0]] + ReadPart(s[1..], l.rest);
  }

  lemma TokenRead(s: string, terms: nat, l: Lexed)
    requires s != "" && s[0] != ' ' && terms < 12
    requires var t := NextToken(s); Reads(t.rest, if t.item.None? then terms else terms + t.item.value.Cost(), l)
    ensures var t := NextToken(s);
      Reads(s, terms, match t.item
        case None => l.(operatorFree := false)
        case Some(item) => Lexed([item] + l.items, l.rest, t.plain && l.operatorFree))
  {
    hide NextToken;
    var t := NextToken(s);
    var n := TokenPart(s);
    assert ReadPart(s, l.rest) == s[..n] + ReadPart(t.rest, l.rest);
    if t.item.Some? {
      var items := [t.item.value] + l.items;
      assert items[1..] == l.items;
      assert Cost(items) == t.item.value.Cost() + Cost(l.items);
    }
  }

  /** The length of a token with its dash and quotes. */
  lemma TokenPart(s: string) returns (n: nat)
    requires s != "" && s[0] != ' '
    ensures var t := NextToken(s);
      && 0 < n <= |s| && t.rest == s[n..]
      && (t.plain <==> t.item.Some? && t.item.value.WordItem? && !t.item.value.neg && '"' !in s[..n])
      && (t.item.None? ==> !t.plain && '"' in s[..n])
      && (t.item.Some? && t.item.value.WordItem? && !t.item.value.neg ==> t.plain)
  {
    var neg, body, k := TokenShape(s);
    var d := if neg then 1 else 0;
    if body[0] == '"' {
      n := d + if k < |body| then k + 1 else k;
      assert s[d] == '"' && s[d] in s[..n];
    } else {
      n := d + k;
      assert body[k..] == s[n..];
      assert !neg ==> s[..n] == body[..k];
    }
  }

  // ----- white space --------------------------------------------------------------------------

  /** The text with a blank for every character of white space. */
  function Blanked(s: string): (r: string)
    ensures |r| == |s|
  {
    seq(|s|, i requires 0 <= i < |s| => if IsSpace(s[i]) then ' ' else s[i])
  }

  /** Its parts between white space. */
  function SpaceWords(s: string): seq<string> { NonEmptyParts(SplitOn(Blanked(s), ' ')) }

  lemma SpaceWordsNext(s: string)
    requires s != ""
    ensures IsSpace(s[0]) ==> SpaceWords(s) == SpaceWords(s[1..])
    ensures !IsSpace(s[0]) ==>
      SpaceWords(s) ==
        if s[1..] == "" || IsSpace(s[1]) then [[s[0]]] + SpaceWords(s[1..])
        else [[s[0]] + SpaceWords(s[1..])[0]] + SpaceWords(s[1..])[1..]
    ensures s[1..] != "" && !IsSpace(s[1]) ==> SpaceWords(s[1..]) != []
  {
    var b, rest := Blanked(s), s[1..];
    assert b[1..] == Blanked(rest);
    var parts := SplitOn(b[1..], ' ');
    FirstPart(b[1..]);
    assert SplitOn(b, ' ') == if b[0] == ' ' then [""] + parts else [[b[0]] + parts[0]] + parts[1..];
    BlankSpace();
    hide SplitOn, IsSpace;
    var more := NonEmptyParts(parts[1..]);
    assert NonEmptyParts(parts) == (if parts[0] == "" then [] else [parts[0]]) + more;
    if b[0] == ' ' {
      assert ([""] + parts)[1..] == parts;
    } else {
      var longer := [[b[0]] + parts[0]] + parts[1..];
      assert longer[1..] == parts[1..];
      assert NonEmptyParts(longer) == [[b[0]] + parts[0]] + more;
      assert parts[0] == "" ==> [b[0]] + parts[0] == [b[0]];
      assert parts[0] != "" ==> ([parts[0]] + more)[1..] == more;
    }
  }

  lemma BlankSpace()
    ensures IsSpace(' ')
  {
  }

  lemma FirstPart(b: string)
    ensures SplitOn(b, ' ')[0] == "" <==> b == "" || b[0] == ' '
  {
  }

  /** Words without white space, none of them empty. */
  predicate SolidWords(ws: seq<string>) {
    forall k :: 0 <= k < |ws| ==> ws[k] != "" && forall c :: c in ws[k] ==> !IsSpace(c)
  }

  predicate SpaceFirst(s: string) { s != "" && IsSpace(s[0]) }

  predicate SpaceLast(s: string) { s != "" && IsSpace(s[|s| - 1]) }

  /** Collapsed, a text is its parts one blank apart, with a blank at each end that had white space. */
  ghost predicate CollapsesTo(s: string, ws: seq<string>) {
    && Collapse(s) == (if SpaceFirst(s) then " " else "") + Join(ws, " ") + (if ws != [] && SpaceLast(s) then " " else "")
    && (ws == [] ==> s == "" || (SpaceFirst(s) && SpaceLast(s)))
  }

  lemma {:induction false} CollapseIs(s: string)
    ensures CollapsesTo(s, SpaceWords(s)) && SolidWords(SpaceWords(s))
  {
    hide SpaceWords, IsSpace, CollapsesTo, SolidWords;
    NoWords();
    if s == "" {
      EmptyCollapses();
    } else {
      var ws := SpaceWords(s[1..]);
      CollapseIs(s[1..]);
      SpaceWordsNext(s);
      if !IsSpace(s[0]) {
        SolidNext(s[0], ws);
      }
      if IsSpace(s[0]) {
        SpaceCollapses(s, ws);
      } else if s[1..] == "" || IsSpace(s[1]) {
        WordCollapses(s, ws);
      } else {
        LongerCollapses(s, ws);
      }
    }
  }

  lemma EmptyCollapses()
    ensures CollapsesTo("", []) && SolidWords([])
  {
  }

  lemma SolidNext(c: char, ws: seq<string>)
    requires SolidWords(ws) && !IsSpace(c)
    ensures SolidWords([[c]] + ws) && (ws != [] ==> SolidWords([[c] + ws[0]] + ws[1..]))
  {
    hide IsSpace;
    if ws != [] {
      forall d | d in [c] + ws[0] ensures !IsSpace(d) {
        assert d == c || d in ws[0];
      }
    }
  }

  lemma CollapseNext(s: string)
    requires s != ""
    ensures Collapse(s) ==
      if !IsSpace(s[0]) then [s[0]] + Collapse(s[1..])
      else if |s| > 1 && IsSpace(s[1]) then Collapse(s[1..])
      else " " + Collapse(s[1..])
  {
  }

  /** Behind the first character. */
  lemma RestEnds(s: string)
    requires |s| > 1
    ensures s[1..] != "" && (SpaceFirst(s[1..]) <==> IsSpace(s[1])) && (SpaceLast(s[1..]) <==> SpaceLast(s))
  {
    assert s[1..][0] == s[1] && s[1..][|s| - 2] == s[|s| - 1];
  }

  lemma SpaceCollapses(s: string, ws: seq<string>)
    requires s != "" && IsSpace(s[0]) && CollapsesTo(s[1..], ws)
    requires s[1..] == "" ==> ws == []
    ensures CollapsesTo(s, ws)
  {
    CollapseNext(s);
    NoWords();
    hide IsSpace, Join, Collapse;
    if |s| > 1 {
      RestEnds(s);
    } else {
      assert Collapse(s[1..]) == "";
    }
  }

  lemma WordCollapses(s: string, ws: seq<string>)
    requires s != "" && !IsSpace(s[0]) && CollapsesTo(s[1..], ws)
    requires if s[1..] == "" then ws == [] else IsSpace(s[1])
    ensures CollapsesTo(s, [[s[0]]] + ws)
  {
    CollapseNext(s);
    JoinFirst(s[0], ws);
    if |s| == 1 {
      WordAlone(s);
    } else {
      RestEnds(s);
      NoWords();
      WordThenSpace(s, ws, Collapse(s[1..]), Join(ws, " "));
    }
  }

  lemma WordAlone(s: string)
    requires |s| == 1 && !IsSpace(s[0])
    ensures CollapsesTo(s, [[s[0]]] + [])
  {
    hide IsSpace;
    CollapseNext(s);
    JoinFirst(s[0], []);
    assert s[1..] == "" && Collapse("") == "" && s[|s| - 1] == s[0];
  }

  lemma WordThenSpace(s: string, ws: seq<string>, rest: string, joined: string)
    requires |s| > 1 && !IsSpace(s[0]) && IsSpace(s[1]) && Collapse(s) == [s[0]] + rest
    requires rest == " " + joined + (if ws != [] && SpaceLast(s) then " " else "")
    requires (ws == [] ==> joined == "" && SpaceLast(s))
    requires Join([[s[0]]] + ws, " ") == if ws == [] then [s[0]] else [s[0]] + " " + joined
    ensures CollapsesTo(s, [[s[0]]] + ws)
  {
    hide IsSpace, Join, Collapse;
    assert !SpaceFirst(s);
    hide SpaceFirst, SpaceLast;
    if ws == [] {
      assert rest == " ";
    } else {
      var trail := if SpaceLast(s) then " " else "";
      assert [s[0]] + (" " + joined + trail) == [s[0]] + " " + joined + trail;
    }
  }

  lemma JoinFirst(c: char, ws: seq<string>)
    ensures Join([[c]] + ws, " ") == if ws == [] then [c] else [c] + " " + Join(ws, " ")
  {
    assert ([[c]] + ws)[1..] == ws;
  }

  lemma LongerCollapses(s: string, ws: seq<string>)
    requires |s| > 1 && !IsSpace(s[0]) && !IsSpace(s[1]) && CollapsesTo(s[1..], ws) && ws != []
    ensures CollapsesTo(s, [[s[0]] + ws[0]] + ws[1..])
  {
    CollapseNext(s);
    RestEnds(s);
    JoinLonger(s[0], ws, " ");
    hide IsSpace, Join, Collapse;
  }

  lemma NoWords()
    ensures SpaceWords("") == [] && Join([], " ") == ""
  {
  }

  lemma {:induction false} JoinEnds(ws: seq<string>)
    requires ws != [] && SolidWords(ws)
    ensures var t := Join(ws, " "); t != "" && !IsSpace(t[0]) && !IsSpace(t[|t| - 1])
  {
    hide IsSpace;
    var t := Join(ws, " ");
    assert ws[0][0] in ws[0] && ws[0][|ws[0]| - 1] in ws[0];
    if |ws| > 1 {
      JoinEnds(ws[1..]);
      var u := Join(ws[1..], " ");
      assert t[|t| - 1] == u[|u| - 1] && t[0] == ws[0][0];
    }
  }

  /** A query is normalized to its parts between white space, one blank apart, cut behind 200 characters and
      trimmed again there. */
  lemma NormalizedText(raw: string)
    ensures var t := Join(SpaceWords(raw), " "); NormalizeSearchText(raw) == if |t| <= 200 then t else TrimEnd(t[..200])
  {
    hide SpaceWords, IsSpace, TrimEnd, TrimStart;
    var ws := SpaceWords(raw);
    CollapseIs(raw);
    BlankSpace();
    var lead := if raw != "" && IsSpace(raw[0]) then " " else "";
    var trail := if ws != [] && IsSpace(raw[|raw| - 1]) then " " else "";
    if ws == [] {
      TrimBlank(lead);
      assert Collapse(raw) == lead;
    } else {
      JoinEnds(ws);
      TrimIs(lead, Join(ws, " "), trail);
    }
  }

  lemma TrimBlank(s: string)
    requires s == "" || s == " "
    ensures Trim(s) == ""
  {
  }

  // ----- whole texts --------------------------------------------------------------------------

  /** A printed text reads as its tokens, and nothing is left. */
  lemma TextReads(items: seq<Item>, text: string)
    requires items != [] && AllReadable(items) && !items[|items| - 1].OrItem? && Cost(items) <= 12
    requires text == JoinItems(items) && |text| <= 200
    ensures NormalizeSearchText(text) == text && Lex(text, 0) == Lexed(items, "", Plain(items))
  {
    hide Lex, NormalizeSearchText, Readable, JoinItems;
    TidyItems(items);
    NormalizeTidy(text);
    assert text == JoinItems(items) + "";
    ItemsRead(items, "", 0, Cost(items), text);
    EmptyLex(Cost(items));
    assert items + [] == items;
  }

  /** A word typed behind other tokens is taken for unfinished unless an OR joins it to them. */
  lemma TypedWord(items: seq<Item>, w: string, text: string)
    requires AllReadable(items + [WordItem(w, false)]) && Cost(items + [WordItem(w, false)]) <= 12
    requires text == JoinItems(items + [WordItem(w, false)]) && 2 <= |text| <= 200
    ensures Parse(text).Some? && Leaves(Parse(text).value.positives) != []
    ensures var leaves := Leaves(Parse(text).value.positives);
      leaves[|leaves| - 1] == Word(w, Typable(w) && !EndsWithOr(items)) && NoMarks(leaves[..|leaves| - 1])
  {
    hide Lex, Parse, Readable, JoinItems, Joins, EndsWithOr, Typable;
    var all := items + [WordItem(w, false)];
    TextReads(all, text);
    LastOf(all, items, text);
  }

  /** The last leaf of a text that is read whole and ends with a positive token. */
  lemma LastOf(all: seq<Item>, items: seq<Item>, text: string)
    requires all != [] && all[..|all| - 1] == items && all[|all| - 1].Positive()
    requires NormalizeSearchText(text) == text && |text| >= 2 && Lex(text, 0).items == all && Lex(text, 0).rest == ""
    ensures Parse(text).Some? && Leaves(Parse(text).value.positives) != []
    ensures var leaves := Leaves(Parse(text).value.positives);
      leaves[|leaves| - 1] == LeafOf(all[|all| - 1]).(prefix := Unfinished(all, |all| - 1)) && NoMarks(leaves[..|leaves| - 1])
  {
    hide Lex, Parse, Joins, EndsWithOr, Typable, Leaves;
    ParseReads(text);
    TrimBlank("");
    forall q | 0 <= q < |all| && Unfinished(all, q) && (forall r :: q < r < |all| ==> all[r].OrItem?) ensures q == |all| - 1 {
    }
    var leaves := Leaves(Parse(text).value.positives);
    var last := |PositiveLeaves(all)| - 1;
    assert UnmarkLeaves(leaves)[last] == LeafOf(all[|all| - 1]);
  }

  /** A phrase at the end without its closing quote is taken for unfinished. */
  lemma OpenPhrase(items: seq<Item>, words: seq<string>, text: string)
    requires items != [] && AllReadable(items) && !items[|items| - 1].OrItem? && Cost(items) < 12
    requires words != [] && forall k :: 0 <= k < |words| ==> BareWord(words[k])
    requires text == JoinItems(items) + (" " + (['"'] + Join(words, " "))) && |text| <= 200
    ensures Parse(text).Some? && Leaves(Parse(text).value.positives) != []
    ensures var leaves := Leaves(Parse(text).value.positives);
      leaves[|leaves| - 1] == Phrase(words, Typable(words[|words| - 1])) && NoMarks(leaves[..|leaves| - 1])
  {
    hide Lex, Parse, Readable, JoinItems, Joins, Typable, NormalizeSearchText, Leaves, Tidy, Unfinished;
    var open := ['"'] + Join(words, " ");
    TidyOpen(words);
    PartsRead(items, open, text);
    OpenReads(words, Cost(items));
    var item := PhraseItem(words, false, false);
    assert (items + [item])[..|items|] == items && (items + [item])[|items|] == item;
    LastOf(items + [item], items, text);
    OpenUnfinished(items, words);
  }

  lemma OpenUnfinished(items: seq<Item>, words: seq<string>)
    requires words != []
    ensures Unfinished(items + [PhraseItem(words, false, false)], |items|) == Typable(words[|words| - 1])
  {
  }

  lemma TidyOpen(words: seq<string>)
    requires words != [] && forall k :: 0 <= k < |words| ==> BareWord(words[k])
    ensures Tidy(['"'] + Join(words, " "))
  {
    hide Tidy;
    TidyWords(words);
    TidyWrap(Join(words, " "), ['"'], []);
    assert ['"'] + Join(words, " ") == ['"'] + Join(words, " ") + [];
  }

  /** Printed tokens, a blank and a text behind them. */
  lemma PartsRead(items: seq<Item>, tail: string, text: string)
    requires items != [] && AllReadable(items) && !items[|items| - 1].OrItem? && Cost(items) <= 12
    requires Tidy(tail) && text == JoinItems(items) + (" " + tail) && |text| <= 200
    ensures NormalizeSearchText(text) == text && |text| >= 2
    ensures Lex(text, 0) == After(items, Plain(items), Lex(" " + tail, Cost(items)))
  {
    hide Lex, NormalizeSearchText, Readable, JoinItems, Tidy, ItemText;
    TidyItems(items);
    TidyParts(JoinItems(items), tail);
    NormalizeTidy(text);
    LastTermCosts(items);
    var rest := " " + tail;
    assert rest[0] == ' ';
    ItemsRead(items, rest, 0, Cost(items), text);
  }

  lemma TidyParts(a: string, b: string)
    requires Tidy(a) && Tidy(b)
    ensures Tidy(a + (" " + b)) && |a + (" " + b)| >= 2
  {
    TidyJoin(a, b);
    assert a + " " + b == a + (" " + b);
  }

  lemma OpenReads(words: seq<string>, terms: nat)
    requires words != [] && (forall k :: 0 <= k < |words| ==> BareWord(words[k])) && terms < 12
    ensures Lex(" " + (['"'] + Join(words, " ")), terms) == Lexed([PhraseItem(words, false, false)], "", false)
  {
    hide Words;
    var content := Join(words, " ");
    var body := ['"'] + content;
    WordsOfJoin(words);
    assert body[1..] == content && content + "" == content;
    QuoteLenOf(content, "");
    assert body[1..1 + |content|] == content;
    Dispatch(body, false);
    EmptyLex(terms + 1);
    assert (" " + body)[1..] == body;
    assert NextToken(body) == Token(Some(PhraseItem(words, false, false)), "", false);
    assert [PhraseItem(words, false, false)] + [] == [PhraseItem(words, false, false)];
  }

  /** A query that the term cap cuts short has no unfinished term. */
  lemma CutQuery(items: seq<Item>, more: string, text: string)
    requires items != [] && AllReadable(items) && !items[|items| - 1].OrItem? && Cost(items) == 12
    requires Tidy(more) && text == JoinItems(items) + (" " + more) && |text| <= 200
    ensures Parse(text).Some? && UnmarkLeaves(Leaves(Parse(text).value.positives)) == PositiveLeaves(items)
    ensures NoMarks(Leaves(Parse(text).value.positives))
  {
    hide Lex, Parse, Readable, JoinItems, Joins, NormalizeSearchText, Leaves, PositiveLeaves, Tidy, NoMarks, Trim;
    PartsRead(items, more, text);
    FullLex(" " + more);
    assert items + [] == items;
    NotBlank(more);
    ParseReads(text);
    NoneMarked(Leaves(Parse(text).value.positives));
  }

  lemma NoneMarked(leaves: seq<Leaf>)
    requires MarksLast(leaves, false)
    ensures NoMarks(leaves)
  {
  }

  lemma FullLex(s: string)
    ensures Lex(s, 12) == Lexed([], s, true)
  {
  }

  lemma NotBlank(more: string)
    requires Tidy(more)
    ensures Trim(" " + more) != "" && |more| >= 1
  {
    TrimIs(" ", more, "");
    assert " " + more + "" == " " + more;
  }
}
