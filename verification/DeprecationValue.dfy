/**
 Prefixing a description value a second time (`prefixInlineDescription` of
 packages/shared/src/deprecation.ts): the second prefix replaces the first exactly when the value is
 stable.
 */
module DeprecationValue {
  import opened Common
  import opened TextLines
  import opened Deprecation

  // ----- the inputs ---------------------------------------------------------------------------

  /** The characters of `<ns>/<slug>`. */
  predicate RefChar(c: char) {
    'a' <= c <= 'z' || '0' <= c <= '9' || c == '-' || c == '/'
  }

  predicate ValidRef(ref: Option<string>) {
    ref.Some? ==> forall i :: 0 <= i < |ref.value| ==> RefChar(ref.value[i])
  }

  /** What the callers pass: a reference to a skill, a note normalized to LF, a URL. */
  predicate ValidInput(input: HintInput) {
    && ValidRef(input.successor)
    && (input.note.Some? ==> '\r' !in input.note.value)
    && (input.successorUrl.Some? ==>
      forall i :: 0 <= i < |input.successorUrl.value| ==>
        !IsSpace(input.successorUrl.value[i]) && input.successorUrl.value[i] != '<')
  }

  // ----- an old prefix is recognized ----------------------------------------------------------

  /** The prefix without its last blank. */
  function Core(ref: Option<string>): (s: string)
    ensures s + " " == Prefix(ref) && s != "" && s[0] == 'D' && s[|s| - 1] == '.'
  {
    if Given(ref) then USE + ref.value + INSTEAD else PLAIN
  }

  lemma {:induction false} WordRunOf(w: string, rest: string)
    requires (forall i :: 0 <= i < |w| ==> !IsSpace(w[i])) && rest != "" && IsSpace(rest[0])
    ensures WordRun(w + rest) == |w|
  {
    hide IsSpace;
    if w == "" {
      assert w + rest == rest;
    } else {
      assert (w + rest)[1..] == w[1..] + rest;
      WordRunOf(w[1..], rest);
    }
  }

  lemma AtStart(a: string, b: string)
    ensures At(a + b, a, 0) && (a + b)[|a|..] == b
  {
  }

  lemma UseFound(s: string, t: string)
    requires s != "" && (forall i :: 0 <= i < |s| ==> !IsSpace(s[i]))
    ensures PrefixLen(USE + (s + (INSTEAD + t))) == |USE| + |s| + |INSTEAD| + SpaceRun(t)
  {
    hide SpaceRun, WordRun, At, IsSpace;
    var r := s + (INSTEAD + t);
    var v := USE + r;
    AtStart(USE, r);
    NotPlain(v);
    assert IsSpace(' ') by { BlankIsSpace(); }
    WordRunOf(s, INSTEAD + t);
    AtStart(INSTEAD, t);
    AtRight(s, INSTEAD + t, INSTEAD, 0);
    assert r[|s| + |INSTEAD|..] == t;
  }

  lemma BlankIsSpace()
    ensures IsSpace(' ')
  {
  }

  /** The prefix the rewrite writes is the prefix it looks for. */
  lemma CoreFound(ref: Option<string>, t: string)
    requires ValidRef(ref)
    ensures PrefixLen(Core(ref) + t) == |Core(ref)| + SpaceRun(t)
  {
    hide PrefixLen, SpaceRun, IsSpace;
    if Given(ref) {
      RefsAreWords(ref);
      UseFound(ref.value, t);
      CoreParts(USE, ref.value, INSTEAD, t);
    } else {
      PlainFound(t);
    }
  }

  lemma CoreParts(a: string, b: string, c: string, t: string)
    ensures a + b + c + t == a + (b + (c + t))
  {
  }

  lemma RefsAreWords(ref: Option<string>)
    requires Given(ref) && ValidRef(ref)
    ensures forall i :: 0 <= i < |ref.value| ==> !IsSpace(ref.value[i])
  {
  }

  lemma PlainFound(t: string)
    ensures PrefixLen(PLAIN + t) == |PLAIN| + SpaceRun(t)
  {
    hide SpaceRun, WordRun, At;
    AtStart(PLAIN, t);
  }

  lemma NotPlain(v: string)
    requires At(v, USE, 0)
    ensures !At(v, PLAIN, 0)
  {
    AtChar(v, USE, 0, 10);
    if At(v, PLAIN, 0) {
      AtChar(v, PLAIN, 0, 10);
    }
  }

  /** Stripping the prefix from a prefixed text leaves the text without its leading white space. */
  lemma StripPrefixed(ref: Option<string>, x: string)
    requires ValidRef(ref)
    ensures StripPrefix(Prefix(ref) + x) == TrimStart(x)
  {
    hide PrefixLen, Core, Prefix;
    assert Prefix(ref) + x == Core(ref) + (" " + x);
    CoreFound(ref, " " + x);
    assert (" " + x)[1..] == x;
    assert SpaceRun(" " + x) == 1 + SpaceRun(x);
  }

  /** Stripping drops a front part, and when it drops something no white space is left in front. */
  lemma StripShape(v: string) returns (n: nat)
    ensures n <= |v| && StripPrefix(v) == v[n..]
    ensures n > 0 ==> v[n..] == "" || !IsSpace(v[n])
  {
    n := if PrefixLen(v) < 0 then 0 else PrefixLen(v);
    if At(v, PLAIN, 0) {
      assert v[|PLAIN|..][SpaceRun(v[|PLAIN|..])..] == v[n..];
    } else if At(v, USE, 0) {
      var r := v[|USE|..];
      var k := WordRun(r);
      if k > 0 && At(r, INSTEAD, k) {
        var w := r[k + |INSTEAD|..];
        assert w == v[|USE| + k + |INSTEAD|..];
        assert w[SpaceRun(w)..] == v[n..];
      }
    }
  }

  // ----- one value ----------------------------------------------------------------------------

  predicate StartsBare(v: string) { v == "" || !IsSpace(v[0]) }

  /** A quoted description keeps no white space in front, and another one is not empty, once an old
      prefix is gone. */
  predicate StableValue(v: string) {
    if IsQuoted(v) then StartsBare(StripPrefix(v[1..ClosingQuote(v, 1)]))
    else StripPrefix(TrimEnd(v)) != ""
  }

  predicate NoQuotes(p: string) { forall i :: 0 <= i < |p| ==> !IsQuote(p[i]) }

  /** Changing the front of a quoted text, inside its quotes, does not move its closing quote. */
  lemma ClosingMoves(v: string, n: nat, p: string)
    requires IsQuoted(v) && 1 <= n <= ClosingQuote(v, 1) && NoQuotes(p)
    ensures var w := v[..1] + p + v[n..];
      IsQuoted(w) && ClosingQuote(w, 1) == ClosingQuote(v, 1) - n + 1 + |p|
  {
    hide IsTrailer;
    var w := v[..1] + p + v[n..];
    var r := ClosingQuote(v, 1);
    var r' := r - n + 1 + |p|;
    assert w[0] == v[0];
    forall i | 1 <= i < r' ensures !Closes(w, i) {
      if i < 1 + |p| {
        assert w[i] == p[i - 1];
      } else {
        var j := i - 1 - |p| + n;
        assert w[i] == v[j] && w[i + 1..] == v[j + 1..];
        assert !Closes(v, j);
      }
    }
    assert w[r'] == v[r] && w[r' + 1..] == v[r + 1..];
    assert Closes(w, r');
  }

  lemma PrefixHasNoQuotes(ref: Option<string>)
    requires ValidRef(ref)
    ensures NoQuotes(Prefix(ref))
  {
  }

  lemma CutSlices(v: string, n: nat, r: nat, p: string)
    requires 1 <= n <= r < |v|
    ensures var w, r' := v[..1] + p + v[n..], r - n + 1 + |p|;
      && w == v[..1] + p + v[n..r] + v[r..]
      && w[..1] == v[..1] && w[1..r'] == p + v[n..r] && w[r'..] == v[r..]
  {
    assert v[n..] == v[n..r] + v[r..];
  }

  lemma QuotedTwice(v: string, a: Option<string>, pb: string)
    requires IsQuoted(v) && ValidRef(a)
    ensures var r := ClosingQuote(v, 1);
      PrefixValue(PrefixValue(v, Prefix(a)), pb) == v[..1] + pb + TrimStart(StripPrefix(v[1..r])) + v[r..]
  {
    hide PrefixLen, StripPrefix, ClosingQuote, IsTrailer, Closes, Prefix, CoreLen, TrimStart, TrimEnd;
    var r, pa := ClosingQuote(v, 1), Prefix(a);
    var k := StripShape(v[1..r]);
    var n := 1 + k;
    assert v[1..r][k..] == v[n..r];
    var w := v[..1] + pa + v[n..];
    CutSlices(v, n, r, pa);
    assert PrefixValue(v, pa) == w;
    PrefixHasNoQuotes(a);
    ClosingMoves(v, n, pa);
    StripPrefixed(a, v[n..r]);
  }

  lemma StartsWithD(ref: Option<string>, x: string)
    ensures !IsQuoted(Prefix(ref) + x) && !IsSpace((Prefix(ref) + x)[0])
  {
    hide Core;
    assert (Prefix(ref) + x)[0] == Core(ref)[0];
  }

  /** An empty description grows by a blank. */
  lemma EmptyTwice(v: string, a: Option<string>, pb: string)
    requires !IsQuoted(v) && StripPrefix(TrimEnd(v)) == "" && ValidRef(a)
    ensures PrefixValue(PrefixValue(v, Prefix(a)), pb) == pb + " " + v[CoreLen(v)..]
  {
    hide PrefixLen, StripPrefix, ClosingQuote, IsTrailer, Closes, Prefix, CoreLen, SpaceRun, Core, TrimEnd;
    var t := v[CoreLen(v)..];
    var w := PrefixValue(v, Prefix(a));
    BlankMoves(Core(a), Prefix(a), t);
    BlankMoves(pb, pb + " ", t);
    StartsWithD(a, t);
    assert IsSpace(' ') by { BlankIsSpace(); }
    assert !IsSpace('.') by { DotIsNoSpace(); }
    hide IsSpace;
    SplitsAt(w, Core(a), " " + t);
    StripsAll(a);
  }

  lemma DotIsNoSpace()
    ensures !IsSpace('.')
  {
  }

  lemma BlankMoves(core: string, p: string, t: string)
    requires p == core + " "
    ensures p + "" + t == core + (" " + t) == p + t && core + "" + (" " + t) == core + " " + t
  {
  }

  /** Another one keeps what follows its prefix. */
  lemma PlainTwice(v: string, a: Option<string>, pb: string)
    requires !IsQuoted(v) && StartsBare(v) && StripPrefix(TrimEnd(v)) != "" && ValidRef(a)
    ensures PrefixValue(PrefixValue(v, Prefix(a)), pb) == pb + StripPrefix(TrimEnd(v)) + v[CoreLen(v)..]
  {
    hide PrefixLen, StripPrefix, ClosingQuote, IsTrailer, Closes, Prefix, CoreLen, SpaceRun, Core, IsSpace;
    var core := TrimEnd(v);
    var n := StripShape(core);
    var c, t, pa := core[n..], v[CoreLen(v)..], Prefix(a);
    assert !IsSpace(c[0]);
    assert c[|c| - 1] == core[|core| - 1];
    var w := pa + c + t;
    assert w == pa + (c + t);
    StartsWithD(a, c + t);
    SplitsAt(w, pa + c, t);
    StripPrefixed(a, c);
    SpaceRunIs(c, 0);
  }

  lemma StripsAll(ref: Option<string>)
    requires ValidRef(ref)
    ensures StripPrefix(Core(ref)) == ""
  {
    hide PrefixLen;
    CoreFound(ref, "");
    assert Core(ref) + "" == Core(ref);
  }

  /** Where the core of a text ends. */
  lemma SplitsAt(w: string, x: string, t: string)
    requires w == x + t && x != "" && !IsSpace(x[|x| - 1]) && forall i :: 0 <= i < |t| ==> IsSpace(t[i])
    ensures CoreLen(w) == |x| && TrimEnd(w) == x && w[CoreLen(w)..] == t
  {
    hide IsSpace;
    CoreLenIs(w, |x|);
  }

  /** The second write of a value is what it would have been alone exactly when the value is stable. */
  lemma ValueTwice(v: string, a: Option<string>, b: Option<string>)
    requires StartsBare(v) && ValidRef(a)
    ensures PrefixValue(PrefixValue(v, Prefix(a)), Prefix(b)) == PrefixValue(v, Prefix(b)) <==> StableValue(v)
  {
    hide PrefixLen, StripPrefix, ClosingQuote, IsTrailer, Closes, Prefix, CoreLen, IsSpace;
    var pb := Prefix(b);
    if IsQuoted(v) {
      var r := ClosingQuote(v, 1);
      var inner := StripPrefix(v[1..r]);
      QuotedTwice(v, a, pb);
      assert StartsBare(inner) ==> SpaceRun(inner) == 0;
      assert !StartsBare(inner) ==> |TrimStart(inner)| < |inner|;
      assert SpaceRun(inner) == 0 ==> TrimStart(inner) == inner;
      assert |v[..1] + pb + TrimStart(inner) + v[r..]| == |v[..1] + pb + inner + v[r..]| - |inner| + |TrimStart(inner)|;
    } else {
      var c, t := StripPrefix(TrimEnd(v)), v[CoreLen(v)..];
      if c == "" {
        EmptyTwice(v, a, pb);
        assert |pb + " " + t| == |pb + c + t| + 1;
      } else {
        PlainTwice(v, a, pb);
      }
    }
  }
}
