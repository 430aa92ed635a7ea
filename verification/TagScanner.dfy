/**
 The wrapper sanitizer (packages/shared/src/email-template.ts): a linear scanner that must do what a
 global regular-expression replacement does, and the loop that runs the whole pass to a fixpoint.
 */
module TagScanner {
  import opened TextLines

  const MAX_PASSES := 25

  type Rewriter = string -> string

  // ----- the replacement it stands for --------------------------------------------------------

  datatype Token = Nothing | Comment(end: nat) | Tag(end: nat)

  /** The match of `<!--[\s\S]*?-->|<[^>]+>` at p: a comment through its first terminator, or else a tag
      through the first `>`, with at least one character inside. */
  function TokenAt(html: string, p: nat): (t: Token)
    ensures t.Comment? ==> p < t.end <= |html|
    ensures t.Tag? ==> p < t.end <= |html|
  {
    var close := IndexOf(html, "-->", p + 4);
    var gt := IndexOf(html, ">", p + 1);
    if At(html, "<!--", p) && close >= 0 then Comment(close + 3)
    else if At(html, "<", p) && gt > p + 1 then Tag(gt + 1)
    else Nothing
  }

  /** The leftmost global replacement from i on: comments stay, tags are rewritten. */
  function Replaced(html: string, i: nat, f: Rewriter): string
    decreases |html| - i
  {
    if i >= |html| then ""
    else
      match TokenAt(html, i)
      case Nothing => [html[i]] + Replaced(html, i + 1, f)
      case Comment(end) => html[i..end] + Replaced(html, end, f)
      case Tag(end) => f(html[i..end]) + Replaced(html, end, f)
  }

  /** What a token is: it starts with `<`; a comment ends with the first terminator behind its opener; a
      tag ends with the first `>` and is not empty; and a comment goes before a tag. */
  lemma TokenIs(html: string, p: nat)
    ensures TokenAt(html, p).Comment? <==> At(html, "<!--", p) && exists c :: c >= p + 4 && At(html, "-->", c)
    ensures TokenAt(html, p).Comment? ==>
      var e := TokenAt(html, p).end; At(html, "-->", e - 3) && forall c :: p + 4 <= c < e - 3 ==> !At(html, "-->", c)
    ensures TokenAt(html, p).Tag? ==>
      && html[p] == '<' && html[TokenAt(html, p).end - 1] == '>' && TokenAt(html, p).end >= p + 3
      && forall k :: p < k < TokenAt(html, p).end - 1 ==> html[k] != '>'
    ensures TokenAt(html, p) != Nothing ==> p < |html| && html[p] == '<'
  {
    if TokenAt(html, p).Tag? {
      var gt := TokenAt(html, p).end - 1;
      forall k | p < k < gt ensures html[k] != '>' {
        AtOne(html, '>', k);
      }
      AtOne(html, '<', p);
      AtOne(html, '>', gt);
    }
    if At(html, "<!--", p) {
      AtChar(html, "<!--", p, 0);
    }
  }

  lemma AtOne(s: string, c: char, i: int)
    ensures At(s, [c], i) <==> 0 <= i < |s| && s[i] == c
  {
    if 0 <= i < |s| {
      assert s[i..i + 1] == [s[i]];
    }
  }

  // ----- what the scanner may skip ------------------------------------------------------------

  /** Up to the next `<` nothing matches. */
  lemma {:induction false} SkipsText(html: string, i: nat, lt: nat, f: Rewriter)
    requires i <= lt <= |html| && forall k :: i <= k < lt ==> !At(html, "<", k)
    ensures Replaced(html, i, f) == html[i..lt] + Replaced(html, lt, f)
    decreases lt - i
  {
    hide At;
    if i < lt {
      SkipsText(html, i + 1, lt, f);
      TokenIs(html, i);
      AtOne(html, '<', i);
      Regroup([html[i]], html[i + 1..lt], Replaced(html, lt, f));
      assert html[i..lt] == [html[i]] + html[i + 1..lt];
    } else {
      assert html[i..lt] == "";
    }
  }

  /** Past the last `>` nothing matches. */
  lemma {:induction false} NothingMatches(html: string, i: nat, f: Rewriter)
    requires i <= |html| && forall k :: i < k ==> !At(html, ">", k)
    ensures Replaced(html, i, f) == html[i..]
    decreases |html| - i
  {
    hide At;
    if i < |html| {
      TokenIs(html, i);
      var t := TokenAt(html, i);
      if t.Comment? {
        TerminatorEnds(html, t.end - 3);
      }
      NothingMatches(html, i + 1, f);
      assert html[i..] == [html[i]] + html[i + 1..];
    } else {
      assert html[i..] == "";
    }
  }

  lemma TerminatorEnds(html: string, c: int)
    requires At(html, "-->", c)
    ensures At(html, ">", c + 2)
  {
    AtChar(html, "-->", c, 2);
    AtOne(html, '>', c + 2);
  }

  // ----- the scanner --------------------------------------------------------------------------

  /** The positions an `indexOf` from `from` tries. */
  function Tried(html: string, from: nat, found: int): nat
    requires -1 <= found <= |html| && (found >= 0 ==> from <= found)
  {
    if found >= 0 then found - from + 1 else if from <= |html| then |html| - from + 1 else 0
  }

  /** No comment ends at or after k. */
  ghost predicate NoTerminatorFrom(html: string, k: nat) {
    forall c :: c >= k ==> !At(html, "-->", c)
  }

  /** Take what starts at a `<`: a comment, a tag, a lone `<`, or, where no `>` follows, the rest. */
  method ScanToken(html: string, lt: nat, commentsExhausted: bool, f: Rewriter)
    returns (piece: string, next: nat, exhausted: bool, ghost work: nat)
    requires At(html, "<", lt) && (commentsExhausted ==> NoTerminatorFrom(html, lt + 4))
    ensures lt < next <= |html| && Replaced(html, lt, f) == piece + Replaced(html, next, f)
    ensures exhausted ==> NoTerminatorFrom(html, next + 3)
    ensures commentsExhausted ==> exhausted
    ensures work <= next - lt + 1 + (if exhausted && !commentsExhausted then |html| + 1 else 0)
  {
    hide Replaced, TokenAt, At, IndexOf;
    work, exhausted := 0, commentsExhausted;
    assert lt < |html| by { AtOne(html, '<', lt); }
    if !exhausted && At(html, "<!--", lt) {
      var close := IndexOf(html, "-->", lt + 4);
      work := Tried(html, lt + 4, close);
      if close != -1 {
        CommentHere(html, lt, close, f);
        return html[lt..close + 3], close + 3, exhausted, work;
      }
      exhausted := true;
    }
    assert At(html, "<!--", lt) ==> IndexOf(html, "-->", lt + 4) < 0;
    var gt := IndexOf(html, ">", lt + 1);
    work := work + Tried(html, lt + 1, gt);
    if gt == -1 {
      NothingMatches(html, lt, f);
      EndsHere(html, f);
      assert html[lt..] + "" == html[lt..];
      return html[lt..], |html|, exhausted, work;
    }
    TagHere(html, lt, gt, f);
    if gt > lt + 1 {
      return f(html[lt..gt + 1]), gt + 1, exhausted, work;
    }
    return [html[lt]], lt + 1, exhausted, work;
  }

  /** Rewrite every tag and leave comments alone. All searches together try a number of positions linear
      in the length of the text. */
  method RewriteTagsAndComments(html: string, f: Rewriter) returns (out: string, ghost work: nat)
    ensures out == Replaced(html, 0, f)
    ensures work <= 4 * |html| + 2
  {
    hide Replaced, At, IndexOf, NoTerminatorFrom;
    out, work := "", 0;
    var i := 0;
    var commentsExhausted := false;
    while i < |html|
      invariant i <= |html| && out + Replaced(html, i, f) == Replaced(html, 0, f)
      invariant commentsExhausted ==> NoTerminatorFrom(html, i + 3)
      invariant work <= 3 * i + (if commentsExhausted then |html| + 1 else 0)
    {
      var lt := IndexOf(html, "<", i);
      work := work + Tried(html, i, lt);
      if lt == -1 {
        SkipsText(html, i, |html|, f);
        EndsHere(html, f);
        assert html[i..|html|] == html[i..] && html[i..] + "" == html[i..];
        out := out + html[i..];
        return;
      }
      SkipsText(html, i, lt, f);
      Fewer(html, i + 3, lt + 4);
      ghost var before := commentsExhausted;
      var piece, next, exhausted, w := ScanToken(html, lt, commentsExhausted, f);
      Rejoin(out, html[i..lt], piece, Replaced(html, next, f));
      out, i, commentsExhausted, work := out + html[i..lt] + piece, next, exhausted, work + w;
    }
    EndsHere(html, f);
    assert out + "" == out;
  }

  lemma Rejoin(a: string, b: string, c: string, d: string)
    ensures a + (b + (c + d)) == a + b + c + d
  {
  }

  lemma Fewer(html: string, k: nat, m: nat)
    ensures k <= m && NoTerminatorFrom(html, k) ==> NoTerminatorFrom(html, m)
  {
  }

  lemma EndsHere(html: string, f: Rewriter)
    ensures Replaced(html, |html|, f) == ""
  {
  }

  lemma CommentHere(html: string, lt: nat, close: nat, f: Rewriter)
    requires At(html, "<!--", lt) && IndexOf(html, "-->", lt + 4) == close
    ensures lt < |html| && close + 3 <= |html| && Replaced(html, lt, f) == html[lt..close + 3] + Replaced(html, close + 3, f)
  {
    hide At, IndexOf;
    assert TokenAt(html, lt) == Comment(close + 3);
  }

  lemma TagHere(html: string, lt: nat, gt: nat, f: Rewriter)
    requires At(html, "<", lt) && IndexOf(html, ">", lt + 1) == gt
    requires At(html, "<!--", lt) ==> IndexOf(html, "-->", lt + 4) < 0
    ensures lt < gt < |html|
    ensures gt > lt + 1 ==> Replaced(html, lt, f) == f(html[lt..gt + 1]) + Replaced(html, gt + 1, f)
    ensures gt == lt + 1 ==> Replaced(html, lt, f) == [html[lt]] + Replaced(html, lt + 1, f)
  {
    hide At, IndexOf;
    assert TokenAt(html, lt) == if gt > lt + 1 then Tag(gt + 1) else Nothing;
  }

  /** A rewriter that changes no tag changes nothing. */
  lemma {:induction false} NothingRewritten(html: string, i: nat)
    requires i <= |html|
    ensures Replaced(html, i, t => t) == html[i..]
    decreases |html| - i
  {
    if i < |html| {
      var t := TokenAt(html, i);
      var end := if t == Nothing then i + 1 else t.end;
      NothingRewritten(html, end);
      assert html[i..] == html[i..end] + html[end..];
    }
  }

  // ----- to a fixpoint ------------------------------------------------------------------------

  /** At most n passes: the first text the pass leaves alone, or nothing. */
  function Settled(pass: Rewriter, html: string, n: nat): string
    decreases n
  {
    if n == 0 then "" else if pass(html) == html then html else Settled(pass, pass(html), n - 1)
  }

  method SanitizeWrapperHtml(pass: Rewriter, html: string) returns (out: string)
    ensures out == Settled(pass, html, MAX_PASSES)
    ensures out == "" || pass(out) == out
  {
    out := html;
    for i := 0 to MAX_PASSES
      invariant Settled(pass, out, MAX_PASSES - i) == Settled(pass, html, MAX_PASSES)
    {
      var next := pass(out);
      if next == out {
        return;
      }
      out := next;
    }
    out := "";
  }

  lemma {:induction false} SettledIsFixed(pass: Rewriter, html: string, n: nat)
    ensures var r := Settled(pass, html, n); r == "" || pass(r) == r
    decreases n
  {
    if n > 0 && pass(html) != html {
      SettledIsFixed(pass, pass(html), n - 1);
    }
  }

  /** With a pass that leaves the empty text alone, sanitizing is idempotent, and changes nothing exactly
      when one pass changes nothing. */
  lemma SanitizingTwice(pass: Rewriter, html: string)
    requires pass("") == ""
    ensures Settled(pass, Settled(pass, html, MAX_PASSES), MAX_PASSES) == Settled(pass, html, MAX_PASSES)
    ensures Settled(pass, html, MAX_PASSES) == html <==> pass(html) == html
  {
    SettledIsFixed(pass, html, MAX_PASSES);
  }

  /** The pass: elements dropped, then tags rewritten. One that drops nothing from the empty text leaves
      the empty text alone. */
  function Pass(drop: Rewriter, f: Rewriter, html: string): string {
    Replaced(drop(html), 0, f)
  }

  lemma PassOnNothing(drop: Rewriter, f: Rewriter, html: string)
    requires drop("") == ""
    ensures var pass := (h: string) => Pass(drop, f, h);
      Settled(pass, Settled(pass, html, MAX_PASSES), MAX_PASSES) == Settled(pass, html, MAX_PASSES)
  {
    var pass := (h: string) => Pass(drop, f, h);
    assert pass("") == "";
    SanitizingTwice(pass, html);
  }

  /** The text after a number of passes. */
  function Passed(pass: Rewriter, html: string, k: nat): string
    decreases k
  {
    if k == 0 then html else Passed(pass, pass(html), k - 1)
  }

  /** The k-th text is the first that a pass leaves alone. */
  ghost predicate SettlesAt(pass: Rewriter, html: string, k: nat) {
    && pass(Passed(pass, html, k)) == Passed(pass, html, k)
    && forall j: nat :: j < k ==> pass(Passed(pass, html, j)) != Passed(pass, html, j)
  }

  lemma {:induction false} SettledAfter(pass: Rewriter, html: string, n: nat)
    ensures forall k: nat :: SettlesAt(pass, html, k) ==> Settled(pass, html, n) == if k < n then Passed(pass, html, k) else ""
    ensures (forall k: nat :: k < n ==> !SettlesAt(pass, html, k)) ==> Settled(pass, html, n) == ""
    decreases n
  {
    forall k: nat ensures Passed(pass, html, k + 1) == Passed(pass, pass(html), k) {
    }
    if n > 0 && pass(html) != html {
      SettledAfter(pass, pass(html), n - 1);
      forall k: nat ensures SettlesAt(pass, html, k) <==> k > 0 && SettlesAt(pass, pass(html), k - 1) {
        OnePassLater(pass, html, k);
      }
      forall k: nat | SettlesAt(pass, html, k)
        ensures Settled(pass, html, n) == if k < n then Passed(pass, html, k) else ""
      {
        assert SettlesAt(pass, pass(html), k - 1);
      }
      if forall k: nat :: k < n ==> !SettlesAt(pass, html, k) {
        forall k: nat | k < n - 1 ensures !SettlesAt(pass, pass(html), k) {
          assert !SettlesAt(pass, html, k + 1);
        }
      }
    } else if n > 0 {
      assert Passed(pass, html, 0) == html;
      assert SettlesAt(pass, html, 0);
    }
  }

  lemma OnePassLater(pass: Rewriter, html: string, k: nat)
    requires pass(html) != html
    ensures SettlesAt(pass, html, k) <==> k > 0 && SettlesAt(pass, pass(html), k - 1)
  {
    assert Passed(pass, html, 0) == html;
    if k > 0 {
      assert Passed(pass, html, k) == Passed(pass, pass(html), k - 1);
      if SettlesAt(pass, pass(html), k - 1) {
        forall j: nat | j < k ensures pass(Passed(pass, html, j)) != Passed(pass, html, j) {
          assert j > 0 ==> Passed(pass, html, j) == Passed(pass, pass(html), j - 1);
        }
      }
      if SettlesAt(pass, html, k) {
        forall j: nat | j < k - 1 ensures pass(Passed(pass, pass(html), j)) != Passed(pass, pass(html), j) {
          assert Passed(pass, html, j + 1) == Passed(pass, pass(html), j);
        }
      }
    }
  }

  /** What settles within 25 passes is returned as it settled; anything else gives the empty text. */
  lemma SettlesWithin(pass: Rewriter, html: string, k: nat)
    requires SettlesAt(pass, html, k)
    ensures Settled(pass, html, MAX_PASSES) == if k < 25 then Passed(pass, html, k) else ""
  {
    SettledAfter(pass, html, MAX_PASSES);
  }
}
