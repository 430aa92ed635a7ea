/**
 Running the deprecation rewrite again (packages/shared/src/deprecation.ts): the last write wins
 exactly when the description is stable.

 First one description line, then a block scalar, then the frontmatter as a whole; at the end, that a
 prefixed frontmatter still splits into the same lines, none of which is a rule, a banner marker or one
 of the two keys the rewrite inserts.
 */
module DeprecationRerun {
  import opened Common
  import opened TextLines
  import opened Deprecation
  import opened DeprecationValue

  // ----- one description line -----------------------------------------------------------------

  lemma AtColon(l: string, i: int)
    ensures At(l, ":", i) <==> 0 <= i < |l| && l[i] == ':'
  {
    if 0 <= i < |l| {
      assert l[i..i + 1] == [l[i]];
    }
  }

  /** A description line's first colon ends its key. */
  lemma DescriptionColon(l: string) returns (c: nat)
    requires IsDescription(l)
    ensures Colon(l) == c && 11 <= c < |l| && l[c] == ':' && l[..11] == "description"
    ensures forall i :: 11 <= i < c ==> IsSpace(l[i])
  {
    var r := l[11..];
    c := 11 + SpaceRun(r);
    assert l[..11] == "description";
    forall i | 11 <= i < c ensures IsSpace(l[i]) {
      assert l[i] == r[i - 11];
    }
    forall i | 0 <= i < c ensures !At(l, ":", i) {
      AtColon(l, i);
      assert i < 11 ==> l[i] == l[..11][i];
    }
    AtColon(l, c);
    IndexIs(l, ":", 0, c);
  }

  /** The key part decides the key. */
  lemma SameKeyPart(l: string, w: string)
    requires IsDescription(l) && w != "" && !IsSpace(w[0])
    ensures var l' := KeyPart(l) + w;
      IsDescription(l') && Colon(l') == Colon(l) && KeyPart(l') == KeyPart(l) && ValuePart(l') == w
  {
    hide IsSpace;
    var c := DescriptionColon(l);
    var k := SpaceRun(l[c + 1..]);
    var m := c + 1 + k;
    var l' := KeyPart(l) + w;
    assert l'[..m] == l[..m] && l'[m..] == w;
    assert l'[..11] == l[..11];
    forall i | 0 <= i < c - 11 ensures IsSpace(l'[11..][i]) {
      assert l'[11..][i] == l[11 + i];
    }
    assert l'[11..][c - 11] == l[c] == ':';
    assert !IsSpace(':') by { ColonIsNoSpace(); }
    SpaceRunIs(l'[11..], c - 11);
    assert At(l', "description", 0);
    var c' := DescriptionColon(l');
    var r, r' := l[c + 1..], l'[c + 1..];
    forall i | 0 <= i < k ensures IsSpace(r'[i]) {
      assert r'[i] == r[i];
    }
    assert r'[k] == w[0];
    SpaceRunIs(r', k);
    assert r'[k..] == l'[m..];
  }

  lemma ColonIsNoSpace()
    ensures !IsSpace(':')
  {
  }

  /** The prefixed value starts with a quote or with the prefix. */
  lemma ValueStart(v: string, ref: Option<string>)
    ensures var w := PrefixValue(v, Prefix(ref)); w != "" && (IsQuote(w[0]) || w[0] == 'D')
  {
    hide ClosingQuote, StripPrefix, CoreLen, TrimEnd, Prefix, Core;
    assert Prefix(ref) == Core(ref) + " ";
  }

  lemma NotBlock(l: string)
    requires IsDescription(l) && ValuePart(l) != "" && (IsQuote(ValuePart(l)[0]) || ValuePart(l)[0] == 'D')
    ensures !IsBlock(l)
  {
    var v := ValuePart(l);
    assert CoreLen(v) > 0;
    assert Trim(l[Colon(l) + 1..]) == TrimEnd(v);
  }

  lemma SameHead(head: string, a: string, b: string)
    ensures head + a == head + b <==> a == b
  {
    if head + a == head + b {
      assert a == (head + a)[|head|..] == b;
    }
  }

  predicate StableLine(l: string) {
    IsBlock(l) || StableValue(ValuePart(l))
  }

  /** An inline description twice. */
  lemma InlineTwice(l: string, a: Option<string>, b: Option<string>)
    requires IsDescription(l) && ValidRef(a)
    ensures var l' := PrefixInline(l, Prefix(a));
      IsDescription(l') && !IsBlock(l')
      && (PrefixInline(l', Prefix(b)) == PrefixInline(l, Prefix(b)) <==> StableValue(ValuePart(l)))
  {
    hide PrefixValue, KeyPart, ValuePart, IsDescription, Prefix, StableValue, IsBlock;
    var v := ValuePart(l);
    var w := PrefixValue(v, Prefix(a));
    assert StartsBare(v) by { TrimmedStartsBare(l[Colon(l) + 1..]); ValueIs(l); }
    ValueStart(v, a);
    LetterIsNoSpace();
    SameKeyPart(l, w);
    var l' := KeyPart(l) + w;
    NotBlock(l');
    ValueTwice(v, a, b);
    SameHead(KeyPart(l), PrefixValue(w, Prefix(b)), PrefixValue(v, Prefix(b)));
  }

  lemma ValueIs(l: string)
    ensures ValuePart(l) == TrimStart(l[Colon(l) + 1..])
  {
  }

  lemma TrimmedStartsBare(s: string)
    ensures StartsBare(TrimStart(s))
  {
  }

  lemma LetterIsNoSpace()
    ensures !IsSpace('D') && !IsSpace('"') && !IsSpace('\'') && !IsSpace('.')
  {
  }

  // ----- a block scalar -----------------------------------------------------------------------

  lemma IndentedCore(indent: string, ref: Option<string>)
    requires (forall i :: 0 <= i < |indent| ==> IsSpace(indent[i])) && ValidRef(ref)
    ensures var l := indent + TrimEnd(Prefix(ref)); !IsBlank(l) && IsPrefixLine(l) && Indent(l) == indent
  {
    hide PrefixLen, Prefix, Core, IsSpace, StripPrefix;
    var core := Core(ref);
    assert Prefix(ref) == core + " ";
    LetterIsNoSpace();
    assert IsSpace(' ') by { BlankIsSpace(); }
    SplitsAt(core + " ", core, " ");
    var l := indent + core;
    assert l == indent + core + "";
    TrimIs(indent, core, "");
    assert l[|indent|] == core[0];
    SpaceRunIs(l, |indent|);
    StripsAll(ref);
    CoreFound(ref, "");
    assert core + "" == core;
  }

  /** A block scalar twice: the second prefix line replaces the first. */
  lemma BlockTwice(rest: seq<string>, a: Option<string>, b: Option<string>)
    requires ValidRef(a)
    ensures PrefixBlock(PrefixBlock(rest, Prefix(a)), Prefix(b)) == PrefixBlock(rest, Prefix(b))
  {
    hide Prefix, TrimEnd, IsBlank, IsPrefixLine;
    var j := Blanks(rest);
    var indent := if j < |rest| then Indent(rest[j]) else "  ";
    BlankIsSpace();
    IndentedCore(indent, a);
    var line := indent + TrimEnd(Prefix(a));
    var once := PrefixBlock(rest, Prefix(a));
    assert once[0] == line && Blanks(once) == 0;
    assert once[..0] == [];
  }

  // ----- the frontmatter ----------------------------------------------------------------------

  /** The description the rewrite would prefix is stable. */
  predicate StableFm(fm: seq<string>) {
    if fm == [] then true
    else if IsDescription(fm[0]) then StableLine(fm[0])
    else StableFm(fm[1..])
  }

  lemma {:induction false} DescribeTwice(fm: seq<string>, a: Option<string>, b: Option<string>)
    requires ValidRef(a)
    ensures Describe(Describe(fm, Prefix(a)), Prefix(b)) == Describe(fm, Prefix(b)) <==> StableFm(fm)
  {
    hide Prefix, IsDescription, IsBlock, PrefixInline, PrefixBlock, StableValue;
    if fm == [] {
    } else if !IsDescription(fm[0]) {
      DescribeTwice(fm[1..], a, b);
      var once := Describe(fm, Prefix(a));
      assert once[0] == fm[0] && once[1..] == Describe(fm[1..], Prefix(a));
      SameTail(fm[0], Describe(once[1..], Prefix(b)), Describe(fm[1..], Prefix(b)));
    } else if IsBlock(fm[0]) {
      var once := Describe(fm, Prefix(a));
      assert once[1..] == PrefixBlock(fm[1..], Prefix(a));
      BlockTwice(fm[1..], a, b);
    } else {
      InlineTwice(fm[0], a, b);
      var once := Describe(fm, Prefix(a));
      assert once[1..] == fm[1..];
      SameFirst(PrefixInline(once[0], Prefix(b)), PrefixInline(fm[0], Prefix(b)), fm[1..]);
    }
  }

  lemma SameTail(x: string, a: seq<string>, b: seq<string>)
    ensures [x] + a == [x] + b <==> a == b
  {
    if [x] + a == [x] + b {
      assert a == ([x] + a)[1..] == b;
    }
  }

  lemma SameFirst(x: string, y: string, rest: seq<string>)
    ensures [x] + rest == [y] + rest <==> x == y
  {
    if [x] + rest == [y] + rest {
      assert x == ([x] + rest)[0] == y;
    }
  }

  // ----- the rewritten frontmatter is read back -----------------------------------------------

  /** A frontmatter line that the rewrite leaves in the frontmatter, whole and without a marker. */
  ghost predicate Fine(l: string, nl: string) {
    Splits(l, nl) && Free(l, OPEN) && Trim(l) != RULE && KeepsKey(l)
  }

  ghost predicate AllFine(fm: seq<string>, nl: string) {
    forall l :: l in fm ==> Fine(l, nl)
  }

  /** The prefixed value is the old value with something in its middle replaced. */
  lemma ValueShape(v: string, p: string) returns (m: nat, n: nat)
    ensures m <= n <= |v| && PrefixValue(v, p) == v[..m] + p + v[n..]
  {
    hide PrefixLen, StripPrefix, ClosingQuote, IsTrailer, Closes, CoreLen, SpaceRun, TrimEnd;
    if IsQuoted(v) {
      var r := ClosingQuote(v, 1);
      var d := StripShape(v[1..r]);
      m, n := 1, 1 + d;
      assert v[1..r][d..] == v[n..r];
      CutSlices(v, n, r, p);
    } else {
      n := StripShape(TrimEnd(v));
      m := 0;
      TrimEndIs(v);
      PlainSlices(v, p, CoreLen(v), n);
    }
  }

  lemma TrimEndIs(v: string)
    ensures TrimEnd(v) == v[..CoreLen(v)]
  {
  }

  lemma PlainSlices(v: string, p: string, k: nat, n: nat)
    requires n <= k <= |v| && TrimEnd(v) == v[..k]
    ensures p + TrimEnd(v)[n..] + v[k..] == v[..0] + p + v[n..]
  {
    hide TrimEnd;
    assert v[n..] == v[..k][n..] + v[k..];
  }

  /** So is the prefixed line, past its key. */
  lemma InlineShape(l: string, p: string) returns (m: nat, n: nat)
    ensures |KeyPart(l)| <= m <= n <= |l| && PrefixInline(l, p) == l[..m] + p + l[n..]
  {
    hide PrefixValue, Colon;
    var k, v := KeyPart(l), ValuePart(l);
    assert l == k + v;
    var x, y := ValueShape(v, p);
    m, n := |k| + x, |k| + y;
    assert l[..m] == k + v[..x] && l[n..] == v[y..];
    CoreParts(k, v[..x], p, v[y..]);
  }

  /** The characters of a prefix. */
  lemma PrefixChars(ref: Option<string>)
    requires ValidRef(ref)
    ensures '<' !in Prefix(ref) && '\n' !in Prefix(ref) && '\r' !in Prefix(ref)
  {
    if Given(ref) {
      assert forall c :: c in ref.value ==> RefChar(c);
    }
  }

  /** A marker does not reach into or out of the prefix. */
  lemma FreeAround(x: string, p: string, y: string)
    requires Free(x, OPEN) && Free(y, OPEN) && p != "" && p[0] == 'D' && '<' !in p
    ensures Free(x + p + y, OPEN)
  {
    var w := x + p + y;
    assert w == x + (p + y);
    forall i ensures !At(w, OPEN, i) {
      InMiddle(x, p, y, i);
      if At(w, OPEN, i) {
        AtChar(w, OPEN, i, 0);
        if i >= |x| + |p| {
          AtRight(x + p, y, OPEN, i - |x| - |p|);
        } else if i + |OPEN| <= |x| {
          AtLeft(x, p + y, OPEN, i);
        } else if i <= |x| {
          AtChar(w, OPEN, i, |x| - i);
        }
      }
    }
  }

  lemma InMiddle(x: string, p: string, y: string, i: int)
    ensures |x| <= i < |x| + |p| ==> (x + p + y)[i] in p
  {
    if |x| <= i < |x| + |p| {
      assert (x + p + y)[i] == p[i - |x|];
    }
  }

  /** A prefixed description stays where it was. */
  lemma InlineFine(l: string, ref: Option<string>, nl: string)
    requires IsDescription(l) && Fine(l, nl) && ValidRef(ref) && IsBreak(nl)
    ensures Fine(PrefixInline(l, Prefix(ref)), nl)
  {
    hide PrefixValue, Prefix, Free, IsDescription, IsSpace, KeyPart, ValuePart, Core;
    var p, l' := Prefix(ref), PrefixInline(l, Prefix(ref));
    var m, n := InlineShape(l, p);
    PrefixChars(ref);
    assert p == Core(ref) + " ";
    FreeTail(l, OPEN, m);
    FreeTail(l, OPEN, n);
    FreeAround(l[..m], p, l[n..]);
    MiddleSplits(l, m, p, n, nl);
    ValueStart(ValuePart(l), ref);
    LetterIsNoSpace();
    SameKeyPart(l, PrefixValue(ValuePart(l), p));
    DescriptionFine(l');
  }

  lemma MiddleSplits(l: string, m: nat, p: string, n: nat, nl: string)
    requires m <= n <= |l| && Splits(l, nl) && '\n' !in p && p != "" && p[|p| - 1] == ' '
    ensures Splits(l[..m] + p + l[n..], nl)
  {
    var w := l[..m] + p + l[n..];
    forall c | c in w ensures c != '\n' {
      var i :| 0 <= i < |w| && w[i] == c;
      if i < m {
        assert c == l[i] && l[i] in l;
      } else if i < m + |p| {
        assert c == p[i - m];
      } else {
        assert c == l[i - m - |p| + n];
      }
    }
    assert w[|w| - 1] == if n == |l| then ' ' else l[|l| - 1];
  }

  /** A description line is no rule, and none of the keys the rewrite inserts. */
  lemma DescriptionFine(l: string)
    requires IsDescription(l)
    ensures Trim(l) != RULE && KeepsKey(l)
  {
    hide IsSpace, IsDescription;
    var c := DescriptionColon(l);
    assert l[0] == l[..11][0] == 'd' && l[10] == l[..11][10] == 'n';
    assert !IsSpace('d') && !IsSpace('n') by { LettersAreNoSpace(); }
    SpaceRunIs(l, 0);
    assert TrimStart(l) == l;
    assert CoreLen(l) > 0;
    assert Trim(l)[0] == 'd';
    SpaceRunIs(l[..c], 0);
    CoreLenIs(l[..c], 11);
    assert l[..c][0..] == l[..c];
    assert Trim(l[..c]) == l[..11];
    assert "description" != "deprecated" && "description" != "superseded_by";
  }

  lemma LettersAreNoSpace()
    ensures !IsSpace('d') && !IsSpace('n') && !IsSpace('s')
  {
  }

  /** The content line a block scalar gets. */
  lemma CoreFine(indent: string, ref: Option<string>, nl: string)
    requires (forall i :: 0 <= i < |indent| ==> IsSpace(indent[i])) && '\n' !in indent && ValidRef(ref)
    ensures Fine(indent + TrimEnd(Prefix(ref)), nl)
  {
    hide Prefix, Core, IsSpace, Trim, KeepsKey, Free;
    var core := Core(ref);
    assert Prefix(ref) == core + " ";
    PrefixChars(ref);
    assert forall c :: c in core ==> c in Prefix(ref);
    var l := indent + core;
    CoreTrims(indent, ref);
    NoBreakJoined(indent, core);
    assert l[|l| - 1] == '.';
    NoMarker(l, indent, core);
    assert KeepsKey(l) by { NoColon(indent, ref); NoKey(l); }
  }

  lemma NoKey(l: string)
    requires Colon(l) == -1
    ensures KeepsKey(l)
  {
  }

  lemma NoBreakJoined(a: string, b: string)
    requires '\n' !in a && '\n' !in b
    ensures '\n' !in a + b
  {
  }

  lemma CoreTrims(indent: string, ref: Option<string>)
    requires forall i :: 0 <= i < |indent| ==> IsSpace(indent[i])
    ensures TrimEnd(Prefix(ref)) == Core(ref) && Trim(indent + Core(ref)) == Core(ref) && Core(ref) != RULE
  {
    hide Prefix, Core, IsSpace;
    var core := Core(ref);
    assert Prefix(ref) == core + " ";
    LetterIsNoSpace();
    assert IsSpace(' ') by { BlankIsSpace(); }
    SplitsAt(core + " ", core, " ");
    assert indent + core == indent + core + "";
    TrimIs(indent, core, "");
  }

  lemma NoMarker(l: string, indent: string, core: string)
    requires l == indent + core && '<' !in core && (forall i :: 0 <= i < |indent| ==> IsSpace(indent[i]))
    ensures Free(l, OPEN)
  {
    forall k | 0 <= k < |l| ensures l[k] != '<' {
      assert l[k] == if k < |indent| then indent[k] else core[k - |indent|];
    }
    forall i ensures !At(l, OPEN, i) {
      if At(l, OPEN, i) {
        AtChar(l, OPEN, i, 0);
      }
    }
  }

  /** The content line has no colon. */
  lemma NoColon(indent: string, ref: Option<string>)
    requires (forall i :: 0 <= i < |indent| ==> IsSpace(indent[i])) && ValidRef(ref)
    ensures Colon(indent + Core(ref)) == -1
  {
    hide IsSpace;
    var l := indent + Core(ref);
    assert ':' !in Core(ref) by { CoreHasNoColon(ref); }
    ColonIsNoSpace();
    forall i ensures !At(l, ":", i) {
      AtColon(l, i);
      if 0 <= i < |indent| {
        assert l[i] == indent[i];
      } else if |indent| <= i < |l| {
        assert l[i] == Core(ref)[i - |indent|];
      }
    }
    assert Colon(l) >= 0 ==> At(l, ":", Colon(l));
  }

  lemma CoreHasNoColon(ref: Option<string>)
    requires ValidRef(ref)
    ensures ':' !in Core(ref)
  {
    if Given(ref) {
      assert forall c :: c in ref.value ==> RefChar(c);
    }
  }

  lemma BlockFine(rest: seq<string>, ref: Option<string>, nl: string)
    requires AllFine(rest, nl) && ValidRef(ref)
    ensures AllFine(PrefixBlock(rest, Prefix(ref)), nl)
  {
    hide Fine, Prefix, TrimEnd, IsBlank, IsPrefixLine;
    var j := Blanks(rest);
    var indent := if j < |rest| then Indent(rest[j]) else "  ";
    BlankIsSpace();
    assert '\n' !in indent by {
      if j < |rest| {
        assert Fine(rest[j], nl);
        FineHasNoBreak(rest[j], nl);
        assert forall c :: c in indent ==> c in rest[j];
      }
    }
    CoreFine(indent, ref, nl);
  }

  lemma FineHasNoBreak(l: string, nl: string)
    requires Fine(l, nl)
    ensures '\n' !in l && Splits(l, nl)
  {
  }

  lemma {:induction false} DescribeFine(fm: seq<string>, ref: Option<string>, nl: string)
    requires AllFine(fm, nl) && ValidRef(ref) && IsBreak(nl)
    ensures AllFine(Describe(fm, Prefix(ref)), nl)
  {
    hide Fine, Prefix, IsDescription, IsBlock, PrefixInline, PrefixBlock;
    if fm != [] {
      assert Fine(fm[0], nl);
      assert AllFine(fm[1..], nl);
      if !IsDescription(fm[0]) {
        DescribeFine(fm[1..], ref, nl);
      } else if IsBlock(fm[0]) {
        BlockFine(fm[1..], ref, nl);
      } else {
        InlineFine(fm[0], ref, nl);
      }
    }
  }
}
