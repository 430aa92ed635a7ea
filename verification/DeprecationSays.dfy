/**
 What the rewrite of a SKILL.md (`buildDeprecationHint` of packages/shared/src/deprecation.ts) does to a
 description and writes into the banner, said of the lines before and after.
 */
module DeprecationSays {
  import opened Common
  import opened TextLines
  import opened Deprecation
  import opened DeprecationValue
  import opened DeprecationRerun
  import Frontmatter

  /** The prefix for a successor, or for none. */
  function Notice(successor: Option<string>): string {
    if successor.Some? && successor.value != "" then "DEPRECATED \U{2014} use " + successor.value + " instead. " else "DEPRECATED. "
  }

  lemma PrefixIs(successor: Option<string>)
    ensures Prefix(successor) == Notice(successor)
  {
  }

  // ----- old prefixes -------------------------------------------------------------------------

  predicate AllSpace(s: string) { forall k :: 0 <= k < |s| ==> IsSpace(s[k]) }

  predicate NoSpace(s: string) { forall k :: 0 <= k < |s| ==> !IsSpace(s[k]) }

  /** A prefix as some rewrite wrote it, with the white space behind it. */
  ghost predicate IsOldPrefix(s: string) {
    exists core, blank :: s == core + blank && AllSpace(blank) && IsOldCore(core)
  }

  ghost predicate IsOldCore(core: string) {
    core == "DEPRECATED." ||
    exists ref :: ref != "" && NoSpace(ref) && core == "DEPRECATED \U{2014} use " + ref + " instead."
  }

  /** The old prefix in front of a value is its first k characters, if it has one. */
  ghost predicate OldPrefixLength(v: string, k: nat) {
    k <= |v| &&
    if k > 0 then IsOldPrefix(v[..k]) && (k < |v| ==> !IsSpace(v[k]))
    else forall j :: 0 < j <= |v| ==> !IsOldPrefix(v[..j])
  }

  lemma Stripped(v: string) returns (k: nat)
    ensures k <= |v| && OldPrefixLength(v, k) && StripPrefix(v) == v[k..]
    ensures k > 0 <==> PrefixLen(v) >= 0
  {
    hide At, WordRun, SpaceRun, IsSpace;
    if PrefixLen(v) < 0 {
      k := 0;
      forall j | 0 < j <= |v| ensures !IsOldPrefix(v[..j]) {
        NoOldPrefix(v, j);
      }
    } else {
      k := PrefixLen(v);
      FoundPrefix(v);
    }
  }

  lemma FoundPrefix(v: string)
    requires PrefixLen(v) >= 0
    ensures var k := PrefixLen(v); k > 0 && IsOldPrefix(v[..k]) && (k < |v| ==> !IsSpace(v[k]))
  {
    hide SpaceRun, WordRun, IsSpace;
    var k := PrefixLen(v);
    if At(v, PLAIN, 0) {
      FoundCore(v, |PLAIN|, k);
    } else {
      var r := v[|USE|..];
      var n := WordRun(r);
      var w := r[..n];
      WordChars(r);
      assert v[..|USE|] == USE && r[n..n + |INSTEAD|] == INSTEAD;
      var m := |USE| + n + |INSTEAD|;
      assert v[..m] == v[..|USE|] + r[..n] + r[n..n + |INSTEAD|];
      assert r[n + |INSTEAD|..] == v[m..];
      assert v[..m] == "DEPRECATED \U{2014} use " + w + " instead.";
      FoundCore(v, m, k);
    }
  }

  lemma FoundCore(v: string, m: nat, k: nat)
    requires 0 < m <= |v| && k == m + SpaceRun(v[m..]) && IsOldCore(v[..m])
    ensures 0 < k <= |v| && IsOldPrefix(v[..k]) && (k < |v| ==> !IsSpace(v[k]))
  {
    hide IsOldCore, IsSpace;
    Blank(v[m..]);
    assert v[..k] == v[..m] + v[m..][..k - m];
    assert k < |v| ==> v[k] == v[m..][k - m];
  }

  lemma Blank(rest: string)
    ensures AllSpace(rest[..SpaceRun(rest)])
  {
  }

  lemma {:induction false} WordChars(r: string)
    ensures NoSpace(r[..WordRun(r)]) && (WordRun(r) < |r| ==> IsSpace(r[WordRun(r)]))
  {
    hide IsSpace;
    if r != "" && !IsSpace(r[0]) {
      WordChars(r[1..]);
      assert r[..WordRun(r)] == [r[0]] + r[1..][..WordRun(r[1..])];
    }
  }

  lemma NoOldPrefix(v: string, j: nat)
    requires PrefixLen(v) < 0 && 0 < j <= |v|
    ensures !IsOldPrefix(v[..j])
  {
    hide IsOldCore, PrefixLen;
    forall core, blank | v[..j] == core + blank && AllSpace(blank) ensures !IsOldCore(core) {
      assert v == v[..j] + v[j..];
      CoreParts(core, "", blank, v[j..]);
      assert v == core + (blank + v[j..]);
      if IsOldCore(core) {
        CoreLength(core, blank + v[j..]);
      }
    }
  }

  /** An old prefix is found as long as it is. */
  lemma CoreLength(core: string, rest: string)
    requires IsOldCore(core)
    ensures PrefixLen(core + rest) == |core| + SpaceRun(rest)
  {
    hide PrefixLen, SpaceRun, IsSpace;
    if core == "DEPRECATED." {
      PlainFound(rest);
    } else {
      var ref :| ref != "" && NoSpace(ref) && core == "DEPRECATED \U{2014} use " + ref + " instead.";
      UseFound(ref, rest);
      CoreParts(USE, ref, INSTEAD, rest);
    }
  }

  // ----- one description line -----------------------------------------------------------------

  /** `description`, white space and a colon, at the first column. */
  predicate IsDescriptionLine(l: string) {
    |l| > 11 && l[..11] == "description" && exists k :: 11 <= k < |l| && l[k] == ':' && AllSpace(l[11..k])
  }

  lemma DescriptionLineIs(l: string)
    ensures IsDescription(l) <==> IsDescriptionLine(l)
  {
    if At(l, "description", 0) {
      var r := l[11..];
      var n := SpaceRun(r);
      if n < |r| && r[n] == ':' {
        assert l[11..11 + n] == r[..n];
        assert l[11 + n] == ':' && AllSpace(l[11..11 + n]);
      }
      if k :| 11 <= k < |l| && l[k] == ':' && AllSpace(l[11..k]) {
        assert forall i :: 0 <= i < k - 11 ==> r[i] == l[11..k][i];
        NoSpaceColon();
        SpaceRunIs(r, k - 11);
      }
    }
  }

  lemma NoSpaceColon()
    ensures !IsSpace(':')
  {
  }

  /** The value is a text between two equal quotes, the first and the one at r, with white space and perhaps a
      comment behind them, up to the line's end; and r is the first such place. */
  ghost predicate QuotedTo(v: string, r: nat) {
    QuoteEnds(v, r) && forall i :: 0 < i < r ==> !QuoteEnds(v, i)
  }

  ghost predicate QuoteEnds(v: string, r: nat) {
    0 < r < |v| && (v[0] == '"' || v[0] == '\'') && v[r] == v[0] &&
    exists k :: r < k <= |v| && AllSpace(v[r + 1..k]) && IsComment(v[k..])
  }

  predicate IsComment(s: string) {
    s == "" || (s[0] == '#' && forall i :: 0 <= i < |s| ==> s[i] != '\n' && s[i] != '\r' && s[i] != '\U{2028}' && s[i] != '\U{2029}')
  }

  lemma TrailerIs(t: string)
    ensures IsTrailer(t) <==> exists k :: 0 <= k <= |t| && AllSpace(t[..k]) && IsComment(t[k..])
  {
    var n := SpaceRun(t);
    assert AllSpace(t[..n]);
    if IsTrailer(t) {
      forall i | 0 <= i < |t[n..]| ensures !EndsLine(t[n..][i]) {
        assert t[n..][i] == t[n + i];
      }
      assert IsComment(t[n..]);
    }
    if k :| 0 <= k <= |t| && AllSpace(t[..k]) && IsComment(t[k..]) {
      assert forall i :: 0 <= i < k ==> IsSpace(t[i]) by { assert forall i :: 0 <= i < k ==> t[..k][i] == t[i]; }
      if k < |t| {
        assert t[k..][0] == '#' == t[k];
        HashIsNoSpace();
        SpaceRunIs(t, k);
        forall i | k <= i < |t| ensures !EndsLine(t[i]) {
          assert t[k..][i - k] == t[i];
        }
      } else {
        SpaceRunIs(t, k);
      }
    }
  }

  lemma HashIsNoSpace()
    ensures !IsSpace('#')
  {
  }

  lemma EndsIs(v: string, r: nat)
    requires v != "" && IsQuote(v[0])
    ensures Closes(v, r) <==> QuoteEnds(v, r)
  {
    hide IsTrailer, IsComment, AllSpace;
    if 0 < r < |v| {
      var t := v[r + 1..];
      TrailerIs(t);
      if k :| 0 <= k <= |t| && AllSpace(t[..k]) && IsComment(t[k..]) {
        assert v[r + 1..r + 1 + k] == t[..k] && v[r + 1 + k..] == t[k..];
      }
      if k :| r < k <= |v| && AllSpace(v[r + 1..k]) && IsComment(v[k..]) {
        assert t[..k - r - 1] == v[r + 1..k] && t[k - r - 1..] == v[k..];
      }
    }
  }

  /** Where the text of a value starts and ends: inside its quotes, or before the white space at its end. */
  ghost predicate TextOf(v: string, from: nat, to: nat) {
    from <= to <= |v| &&
    if exists r :: QuotedTo(v, r) then from == 1 && QuotedTo(v, to)
    else from == 0 && AllSpace(v[to..]) && (to > 0 ==> !IsSpace(v[to - 1]))
  }

  /** The value with the prefix in front of its text, in place of an old one. */
  ghost predicate PrefixedAs(v: string, prefix: string, w: string) {
    exists from: nat, to: nat, k: nat :: TextOf(v, from, to) && OldPrefixLength(v[from..to], k) && w == v[..from] + prefix + v[from + k..]
  }

  lemma ValuePrefixed(v: string, prefix: string)
    ensures PrefixedAs(v, prefix, PrefixValue(v, prefix))
  {
    hide StripPrefix, OldPrefixLength, PrefixValue, TextOf;
    var from, to := TextBounds(v, prefix);
    var k := Stripped(v[from..to]);
    KeptEnd(v, from, to, k);
    CoreParts(v[..from], prefix, v[from..to][k..], v[to..]);
  }

  lemma TextBounds(v: string, prefix: string) returns (from: nat, to: nat)
    ensures from <= to <= |v| && TextOf(v, from, to)
    ensures PrefixValue(v, prefix) == v[..from] + prefix + StripPrefix(v[from..to]) + v[to..]
  {
    hide StripPrefix, QuoteEnds, Closes;
    if v != "" && IsQuote(v[0]) {
      forall r: nat ensures Closes(v, r) <==> QuoteEnds(v, r) {
        EndsIs(v, r);
      }
    }
    if IsQuoted(v) {
      from, to := 1, ClosingQuote(v, 1);
      assert QuotedTo(v, to);
    } else {
      NoneQuoted(v);
      from, to := 0, CoreLen(v);
      assert TrimEnd(v) == v[..to] == v[0..to];
      assert v[..0] + prefix == prefix;
    }
  }

  lemma KeptEnd(v: string, from: nat, to: nat, k: nat)
    requires from <= to <= |v| && k <= to - from
    ensures v[from..to][k..] + v[to..] == v[from + k..]
  {
  }

  lemma NoneQuoted(v: string)
    requires !IsQuoted(v) && (v != "" && IsQuote(v[0]) ==> forall r: nat :: Closes(v, r) <==> QuoteEnds(v, r))
    ensures forall r :: !QuotedTo(v, r)
  {
    forall r: nat ensures !QuoteEnds(v, r) {
      if v != "" && IsQuote(v[0]) && 0 < r < |v| {
        assert ClosingQuote(v, 1) == |v|;
        assert !Closes(v, r);
      }
    }
  }

  /** A description line: what stands behind its colon and the white space there is prefixed. */
  ghost predicate LinePrefixed(l: string, prefix: string, x: string) {
    exists at, w :: 0 < at <= |l| && ValueAt(l, at) && PrefixedAs(l[at..], prefix, w) && x == l[..at] + w
  }

  /** The value starts behind the first colon and the white space behind it. */
  ghost predicate ValueAt(l: string, at: nat) {
    at <= |l| && (at < |l| ==> !IsSpace(l[at])) && exists c :: 0 <= c < at && l[c] == ':' && ':' !in l[..c] && AllSpace(l[c + 1..at])
  }

  lemma InlinePrefixed(l: string, prefix: string)
    requires ':' in l
    ensures LinePrefixed(l, prefix, PrefixInline(l, prefix))
  {
    hide PrefixValue, PrefixedAs, IsSpace;
    var c := FirstColon(l);
    var at := c + 1 + SpaceRun(l[c + 1..]);
    ValuePrefixed(ValuePart(l), prefix);
    assert ValuePart(l) == l[at..];
    Blank(l[c + 1..]);
    assert l[c + 1..at] == l[c + 1..][..SpaceRun(l[c + 1..])];
    assert at < |l| ==> l[at] == l[c + 1..][SpaceRun(l[c + 1..])];
    assert ValueAt(l, at);
  }

  lemma FirstColon(l: string) returns (c: nat)
    requires ':' in l
    ensures c < |l| && Colon(l) == c && l[c] == ':' && ':' !in l[..c]
  {
    var k :| 0 <= k < |l| && l[k] == ':';
    AtColon(l, k);
    c := Colon(l);
    AtColon(l, c);
    forall i | 0 <= i < c ensures l[i] != ':' {
      AtColon(l, i);
    }
  }

  // ----- block scalars ------------------------------------------------------------------------

  /** The line announces a block scalar: a block mark as the frontmatter reader knows it, and perhaps digits. */
  ghost predicate StartsBlock(l: string) {
    exists c :: 0 <= c < |l| && l[c] == ':' && ':' !in l[..c] && MarksBlock(Trim(l[c + 1..]))
  }

  ghost predicate MarksBlock(v: string) {
    exists k :: 0 < k <= |v| && Frontmatter.IsBlockMark(v[..k]) && forall i :: k <= i < |v| ==> '0' <= v[i] <= '9'
  }

  lemma BlockMarkIs(v: string)
    ensures IsBlockMark(v) <==> MarksBlock(v)
  {
    if IsBlockMark(v) {
      var k := if |v| > 1 && (v[1] == '+' || v[1] == '-') then 2 else 1;
      assert v[..k] == if k == 1 then [v[0]] else [v[0], v[1]];
      assert Frontmatter.IsBlockMark(v[..k]);
    }
    if k :| 0 < k <= |v| && Frontmatter.IsBlockMark(v[..k]) && forall i :: k <= i < |v| ==> '0' <= v[i] <= '9' {
      assert v[..k][0] == v[0] && |v[..k]| == k;
      assert k == 2 ==> v[..k][1] == v[1];
    }
  }

  lemma BlockIs(l: string)
    requires ':' in l
    ensures IsBlock(l) <==> StartsBlock(l)
  {
    hide Trim;
    var c := FirstColon(l);
    BlockMarkIs(Trim(l[c + 1..]));
    if d :| 0 <= d < |l| && l[d] == ':' && ':' !in l[..d] && MarksBlock(Trim(l[d + 1..])) {
      SameColon(l, c, d);
    }
  }

  lemma SameColon(l: string, c: int, d: int)
    requires 0 <= c < |l| && l[c] == ':' && ':' !in l[..c]
    requires 0 <= d < |l| && l[d] == ':' && ':' !in l[..d]
    ensures c == d
  {
    forall k | 0 <= k < c ensures l[k] != ':' {
      assert l[..c][k] == l[k];
    }
    forall k | 0 <= k < d ensures l[k] != ':' {
      assert l[..d][k] == l[k];
    }
  }

  /** The block's first line that is not blank is the j-th behind its key; the prefix without its last blank stands in
      front of the block, indented like that line, or by two blanks when there is none, and an old prefix that fills
      that line is gone. */
  ghost predicate BlockPrefixed(rest: seq<string>, prefix: string, out: seq<string>) {
    exists j: nat, indent :: BlockPrefixedAt(rest, prefix, out, j, indent)
  }

  ghost predicate BlockPrefixedAt(rest: seq<string>, prefix: string, out: seq<string>, j: nat, indent: string) {
    && prefix != "" && j <= |rest| && (forall k :: 0 <= k < j ==> Trim(rest[k]) == "") && (j < |rest| ==> Trim(rest[j]) != "")
    && (if j == |rest| then indent == "  " else IndentIs(rest[j], indent))
    && out == [indent + prefix[..|prefix| - 1]]
         + if j < |rest| && IsOldPrefix(Trim(rest[j])) then rest[..j] + rest[j + 1..] else rest
  }

  /** The white space in front of a line. */
  ghost predicate IndentIs(l: string, indent: string) {
    |indent| <= |l| && l[..|indent|] == indent && AllSpace(indent) && (|indent| < |l| ==> !IsSpace(l[|indent|]))
  }

  lemma {:induction false} BlanksAre(ls: seq<string>)
    ensures forall k :: 0 <= k < Blanks(ls) ==> Trim(ls[k]) == ""
  {
    hide Trim;
    if ls != [] && IsBlank(ls[0]) {
      BlanksAre(ls[1..]);
      forall k | 0 <= k < Blanks(ls) ensures Trim(ls[k]) == "" {
        assert k > 0 ==> ls[k] == ls[1..][k - 1];
      }
    }
  }

  lemma PrefixLineIs(l: string)
    ensures IsPrefixLine(l) <==> IsOldPrefix(Trim(l))
  {
    hide Trim, IsOldPrefix;
    var v := Trim(l);
    var k := Stripped(v);
    assert v[..|v|] == v;
    if IsOldPrefix(v) {
      assert v != "" by { OldPrefixText(v); }
      assert OldPrefixLength(v, k);
      assert k > 0;
      if k < |v| {
        LongerPrefix(v, k);
      }
    }
  }

  lemma OldPrefixText(v: string)
    requires IsOldPrefix(v)
    ensures v != ""
  {
    var core, blank :| v == core + blank && AllSpace(blank) && IsOldCore(core);
    assert core != "";
  }

  /** An old prefix of the whole text leaves nothing behind it. */
  lemma LongerPrefix(v: string, k: nat)
    requires IsOldPrefix(v) && k <= |v| && StripPrefix(v) == v[k..]
    ensures k == |v|
  {
    hide PrefixLen, SpaceRun, IsSpace, IsOldCore;
    var core, blank :| v == core + blank && AllSpace(blank) && IsOldCore(core);
    SpaceRunOf(blank);
    CoreLength(core, blank);
    assert |v[k..]| == |v| - k;
  }

  lemma SpaceRunOf(blank: string)
    requires AllSpace(blank)
    ensures SpaceRun(blank) == |blank|
  {
    SpaceRunIs(blank, |blank|);
  }

  lemma BlockGets(rest: seq<string>, successor: Option<string>)
    ensures BlockPrefixed(rest, Notice(successor), PrefixBlock(rest, Prefix(successor)))
  {
    hide IsOldPrefix, IsPrefixLine, Trim, IsSpace, IndentIs, Notice, Prefix;
    var j := Blanks(rest);
    BlanksAre(rest);
    PrefixIs(successor);
    NoticeTrimmed(successor);
    var indent := if j < |rest| then Indent(rest[j]) else "  ";
    if j < |rest| {
      PrefixLineIs(rest[j]);
      IndentFound(rest[j]);
    }
    var prefix := Notice(successor);
    assert PrefixBlock(rest, prefix) == [indent + prefix[..|prefix| - 1]]
      + if j < |rest| && IsOldPrefix(Trim(rest[j])) then rest[..j] + rest[j + 1..] else rest;
    assert BlockPrefixedAt(rest, prefix, PrefixBlock(rest, prefix), j, indent);
  }

  lemma IndentFound(l: string)
    ensures IndentIs(l, Indent(l))
  {
    Blank(l);
  }

  lemma NoticeTrimmed(successor: Option<string>)
    ensures var p := Notice(successor); p != "" && TrimEnd(p) == p[..|p| - 1]
  {
    var p := Notice(successor);
    var n := |p| - 1;
    assert p[n] == ' ' && p[n - 1] == '.';
    BlankIsSpace();
    DotIsNoSpace();
    CoreLenIs(p, n);
  }

  /** The frontmatter reader takes the inserted line for the block's first one if and only if the line it is indented like
      starts with a blank, or there is none. */
  lemma PrefixInBlockIff(rest: seq<string>, successor: Option<string>)
    ensures var out := PrefixBlock(rest, Prefix(successor));
      && out != []
      && (Frontmatter.BlockEnd(out, 0, 0) > 0 <==> Blanks(rest) == |rest| || rest[Blanks(rest)][0] == ' ')
  {
    hide IsBlank, IsPrefixLine, Indent, TrimEnd, Notice, Prefix;
    var out, j := PrefixBlock(rest, Prefix(successor)), Blanks(rest);
    var indent := if j < |rest| then Indent(rest[j]) else "  ";
    var text := TrimEnd(Prefix(successor));
    assert out[0] == indent + text;
    PrefixStarts(successor);
    IndentBlank(rest, j, indent);
    InsertedLine(indent, text);
    FirstInBlock(out);
  }

  lemma PrefixStarts(successor: Option<string>)
    ensures var text := TrimEnd(Prefix(successor)); text != "" && text[0] == 'D'
  {
    PrefixIs(successor);
    NoticeTrimmed(successor);
  }

  lemma IndentBlank(rest: seq<string>, j: nat, indent: string)
    requires j == Blanks(rest) && indent == if j < |rest| then Indent(rest[j]) else "  "
    ensures AllSpace(indent) && (j < |rest| ==> rest[j] != "")
    ensures indent != "" && indent[0] == ' ' <==> j == |rest| || rest[j][0] == ' '
  {
    BlankIsSpace();
    if j < |rest| {
      NotEmpty(rest[j]);
      Blank(rest[j]);
    }
  }

  lemma FirstInBlock(lines: seq<string>)
    requires lines != []
    ensures Frontmatter.BlockEnd(lines, 0, 0) > 0 <==> Frontmatter.IsBlank(lines[0]) || Frontmatter.IndentOf(lines[0]) > 0
  {
    hide Frontmatter.IsBlank, Frontmatter.IndentOf;
  }

  lemma NotEmpty(l: string)
    requires !IsBlank(l)
    ensures l != "" && (Indent(l) != "" <==> IsSpace(l[0])) && (Indent(l) != "" ==> Indent(l)[0] == l[0])
  {
    assert Trim("") == "";
  }

  lemma InsertedLine(indent: string, text: string)
    requires AllSpace(indent) && text != "" && text[0] == 'D'
    ensures var l := indent + text;
      !Frontmatter.IsBlank(l) && (Frontmatter.IndentOf(l) > 0 <==> indent != "" && indent[0] == ' ')
  {
    var l := indent + text;
    LetterD();
    SpaceRunIs(l, |indent|);
    assert TrimStart(l) == text;
    assert CoreLen(text) > 0;
  }

  lemma LetterD()
    ensures !IsSpace('D') && 'D' != ' '
  {
  }

  /** An empty block in front of another key is left empty: the prefix stands behind it, at the first column. */
  lemma EmptyBlockLosesPrefix()
    ensures var out := Describe(["description: |", "name: x"], Prefix(None));
      out == ["description: |", "DEPRECATED.", "name: x"] && Frontmatter.BlockEnd(out[1..], 0, 0) == 0
  {
    hide IsDescription, IsBlock, Prefix, PrefixBlock;
    var fm := ["description: |", "name: x"];
    EmptyBlockLine();
    assert fm[1..] == ["name: x"];
    NameBlock();
    assert Describe(fm, Prefix(None)) == ["description: |"] + ["DEPRECATED.", "name: x"];
    assert (["description: |"] + ["DEPRECATED.", "name: x"])[1..] == ["DEPRECATED.", "name: x"];
  }

  lemma NameBlock()
    ensures PrefixBlock(["name: x"], Prefix(None)) == ["DEPRECATED.", "name: x"]
    ensures Frontmatter.BlockEnd(["DEPRECATED.", "name: x"], 0, 0) == 0
  {
    hide IsBlank, IsPrefixLine, Indent, Prefix;
    NameLine();
    NameIsNoPrefix();
    PrefixInBlockIff(["name: x"], None);
    assert TrimEnd(Prefix(None)) == "DEPRECATED." by {
      PrefixIs(None);
      NoticeTrimmed(None);
    }
    hide TrimEnd;
    assert "" + "DEPRECATED." == "DEPRECATED.";
    assert PrefixBlock(["name: x"], Prefix(None)) == ["DEPRECATED."] + ["name: x"];
  }

  lemma EmptyBlockLine()
    ensures IsDescription("description: |") && IsBlock("description: |")
  {
    var l := "description: |";
    BarLine();
    assert IsDescription(l) by {
      assert l[0..11] == "description" && l[11..] == ": |";
      NoSpaceColon();
      SpaceRunIs(": |", 0);
    }
    assert IsBlockMark("|");
    hide Trim;
  }

  lemma BarLine()
    ensures Colon("description: |") == 11 && Trim("description: |"[12..]) == "|"
  {
    var l := "description: |";
    assert l[12..] == " |";
    AtColon(l, 11);
    forall i | 0 <= i < 11 ensures !At(l, ":", i) {
      AtColon(l, i);
    }
    IndexIs(l, ":", 0, 11);
    NoSpaceBar();
    TrimIs(" ", "|", "");
    assert " " + "|" + "" == " |";
  }

  lemma NoSpaceBar()
    ensures !IsSpace('|') && IsSpace(' ') && !IsSpace('n') && !IsSpace('x')
  {
  }

  lemma NameLine()
    ensures !IsBlank("name: x") && Blanks(["name: x"]) == 0 && Indent("name: x") == "" && Trim("name: x") == "name: x"
  {
    NoSpaceBar();
    TrimIs("", "name: x", "");
    assert "" + "name: x" + "" == "name: x";
    SpaceRunIs("name: x", 0);
  }

  lemma NameIsNoPrefix()
    ensures !IsPrefixLine("name: x")
  {
    NameLine();
    hide Trim;
    assert "name: x"[0] != 'D';
  }

  // ----- the description ----------------------------------------------------------------------

  /** The first description gets the prefix, and no other line is touched. */
  ghost predicate Described(fm: seq<string>, prefix: string, out: seq<string>) {
    (out == fm && forall k :: 0 <= k < |fm| ==> !IsDescriptionLine(fm[k])) ||
    exists i :: 0 <= i < |fm| && DescribedAt(fm, i, prefix, out)
  }

  ghost predicate DescribedAt(fm: seq<string>, i: nat, prefix: string, out: seq<string>)
    requires i < |fm|
  {
    && IsDescriptionLine(fm[i]) && (forall k :: 0 <= k < i ==> !IsDescriptionLine(fm[k]))
    && if StartsBlock(fm[i]) then |out| > i && out[..i + 1] == fm[..i + 1] && BlockPrefixed(fm[i + 1..], prefix, out[i + 1..])
       else |out| == |fm| && out == fm[i := out[i]] && LinePrefixed(fm[i], prefix, out[i])
  }

  lemma {:induction false} DescribeSays(fm: seq<string>, successor: Option<string>)
    ensures Described(fm, Notice(successor), Describe(fm, Prefix(successor)))
  {
    hide IsDescription, IsDescriptionLine, IsBlock, StartsBlock, PrefixBlock, PrefixInline, BlockPrefixed, LinePrefixed;
    if fm != [] {
      DescriptionLineIs(fm[0]);
      if IsDescription(fm[0]) {
        HasColon(fm[0]);
        BlockIs(fm[0]);
        PrefixIs(successor);
        var out := Describe(fm, Prefix(successor));
        if IsBlock(fm[0]) {
          BlockGets(fm[1..], successor);
          assert out[1..] == PrefixBlock(fm[1..], Prefix(successor)) && out[..1] == fm[..1];
        } else {
          InlinePrefixed(fm[0], Prefix(successor));
        }
        assert DescribedAt(fm, 0, Notice(successor), out);
      } else {
        DescribeSays(fm[1..], successor);
        OneMoreLine(fm, Notice(successor), Describe(fm[1..], Prefix(successor)));
      }
    }
  }

  lemma HasColon(l: string)
    requires IsDescription(l)
    ensures ':' in l
  {
    var r := l[|"description"|..];
    assert l[|"description"| + SpaceRun(r)] == ':';
  }

  lemma OneMoreLine(fm: seq<string>, prefix: string, out: seq<string>)
    requires fm != [] && !IsDescriptionLine(fm[0]) && Described(fm[1..], prefix, out)
    ensures Described(fm, prefix, [fm[0]] + out)
  {
    hide IsDescriptionLine, StartsBlock, BlockPrefixed, LinePrefixed;
    var more := [fm[0]] + out;
    if i :| 0 <= i < |fm[1..]| && DescribedAt(fm[1..], i, prefix, out) {
      assert fm[1..][i] == fm[i + 1] && fm[1..][i + 1..] == fm[i + 2..];
      forall k | 0 <= k < i + 1 ensures !IsDescriptionLine(fm[k]) {
        assert k > 0 ==> fm[k] == fm[1..][k - 1];
      }
      assert more[i + 2..] == out[i + 1..] && more[i + 1..] == out[i..];
      if StartsBlock(fm[i + 1]) {
        assert more[..i + 2] == [fm[0]] + out[..i + 1] == fm[..i + 2];
      }
      assert DescribedAt(fm, i + 1, prefix, more);
    } else {
      forall k | 0 <= k < |fm| ensures !IsDescriptionLine(fm[k]) {
        assert k > 0 ==> fm[k] == fm[1..][k - 1];
      }
      assert more == fm;
    }
  }
}
