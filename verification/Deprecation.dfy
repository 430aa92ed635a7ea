/**
 The SKILL.md deprecation rewrite (`buildDeprecationHint` of packages/shared/src/deprecation.ts): the
 rewrite as the code does it, with splices and loops, proved equal to a specification function.
 */
module Deprecation {
  import opened Common
  import opened TextLines

  const OPEN := "<!-- skilly:deprecation -->"
  const CLOSE := "<!-- /skilly:deprecation -->"
  const RULE := "---"
  const PLAIN := "DEPRECATED."
  const USE := "DEPRECATED \U{2014} use "
  const INSTEAD := " instead."

  datatype HintInput = HintInput(successor: Option<string>, note: Option<string>, successorUrl: Option<string>)

  /** Neither null nor the empty string. */
  predicate Given(text: Option<string>) {
    text.Some? && text.value != ""
  }

  // ----- the description prefix ---------------------------------------------------------------

  function Prefix(successor: Option<string>): string {
    if Given(successor) then USE + successor.value + INSTEAD + " " else PLAIN + " "
  }

  /** The length of the leading run without white space. */
  function WordRun(s: string): (n: nat)
    ensures n <= |s|
  {
    if s == "" || IsSpace(s[0]) then 0 else 1 + WordRun(s[1..])
  }

  /** How much of the text an old prefix takes, with the white space after it; -1 when there is none. */
  function PrefixLen(v: string): (n: int)
    ensures -1 <= n <= |v|
  {
    if At(v, PLAIN, 0) then |PLAIN| + SpaceRun(v[|PLAIN|..])
    else if At(v, USE, 0) then
      var r := v[|USE|..];
      var k := WordRun(r);
      if k > 0 && At(r, INSTEAD, k) then |USE| + k + |INSTEAD| + SpaceRun(r[k + |INSTEAD|..]) else -1
    else -1
  }

  function StripPrefix(v: string): string {
    if PrefixLen(v) < 0 then v else v[PrefixLen(v)..]
  }

  // ----- one description line -----------------------------------------------------------------

  predicate IsQuote(c: char) { c == '"' || c == '\'' }

  /** What may follow the closing quote: white space and a comment. */
  predicate IsTrailer(t: string) {
    var k := SpaceRun(t);
    k == |t| || (t[k] == '#' && forall i :: k <= i < |t| ==> !EndsLine(t[i]))
  }

  predicate Closes(v: string, k: nat) {
    0 < k < |v| && v[k] == v[0] && IsTrailer(v[k + 1..])
  }

  /** The first closing quote from k on; |v| when there is none. */
  function ClosingQuote(v: string, k: nat): (r: nat)
    requires k <= |v|
    ensures k <= r <= |v|
    ensures r < |v| ==> Closes(v, r)
    ensures forall i :: k <= i < r ==> !Closes(v, i)
    decreases |v| - k
  {
    if k == |v| || Closes(v, k) then k else ClosingQuote(v, k + 1)
  }

  predicate IsQuoted(v: string) {
    v != "" && IsQuote(v[0]) && ClosingQuote(v, 1) < |v|
  }

  /** The value with the prefix, in place of an old one. */
  function PrefixValue(v: string, prefix: string): string {
    if IsQuoted(v) then
      var r := ClosingQuote(v, 1);
      v[..1] + prefix + StripPrefix(v[1..r]) + v[r..]
    else
      prefix + StripPrefix(TrimEnd(v)) + v[CoreLen(v)..]
  }

  function Colon(l: string): (c: int)
    ensures -1 <= c < |l|
  {
    IndexOf(l, ":", 0)
  }

  /** A description line up to its value. */
  function KeyPart(l: string): string {
    l[..Colon(l) + 1 + SpaceRun(l[Colon(l) + 1..])]
  }

  function ValuePart(l: string): string {
    TrimStart(l[Colon(l) + 1..])
  }

  function PrefixInline(l: string, prefix: string): string {
    KeyPart(l) + PrefixValue(ValuePart(l), prefix)
  }

  // ----- the frontmatter ----------------------------------------------------------------------

  /** The first line from i on that is a rule; -1 when there is none. */
  function FirstRule(lines: seq<string>, i: nat): (r: int)
    ensures -1 <= r < |lines| && (r >= 0 ==> i <= r && Trim(lines[r]) == RULE)
    ensures forall k :: i <= k < (if r < 0 then |lines| else r) ==> Trim(lines[k]) != RULE
    decreases |lines| - i
  {
    if i >= |lines| then -1
    else if Trim(lines[i]) == RULE then i
    else FirstRule(lines, i + 1)
  }

  /** The index of the rule that closes the frontmatter; -1 without frontmatter. */
  function FmEnd(lines: seq<string>): (r: int)
    ensures -1 <= r < |lines| && r != 0
  {
    if lines != [] && Trim(lines[0]) == RULE then FirstRule(lines, 1) else -1
  }

  /** The frontmatter ends at the first rule behind a rule on the first line; without both there is none. */
  lemma FmEndExactly(lines: seq<string>)
    ensures FmEnd(lines) > 0 <==>
      lines != [] && Trim(lines[0]) == RULE && exists k :: 1 <= k < |lines| && Trim(lines[k]) == RULE
    ensures FmEnd(lines) > 0 ==>
      Trim(lines[FmEnd(lines)]) == RULE && forall k :: 1 <= k < FmEnd(lines) ==> Trim(lines[k]) != RULE
  {
    hide Trim;
  }

  /** Not an earlier copy of a key the rewrite inserts. */
  predicate KeepsKey(l: string) {
    var c := Colon(l);
    !(c > 0 && (Trim(l[..c]) == "deprecated" || Trim(l[..c]) == "superseded_by"))
  }

  function KeptKeys(fm: seq<string>): (r: seq<string>)
    ensures forall l :: l in r <==> l in fm && KeepsKey(l)
  {
    if fm == [] then [] else (if KeepsKey(fm[0]) then [fm[0]] else []) + KeptKeys(fm[1..])
  }

  predicate IsDescription(l: string) {
    && At(l, "description", 0)
    && var r := l[|"description"|..];
       SpaceRun(r) < |r| && r[SpaceRun(r)] == ':'
  }

  /** A block scalar's mark. */
  predicate IsBlockMark(v: string) {
    && v != "" && (v[0] == '|' || v[0] == '>')
    && var k := if |v| > 1 && (v[1] == '+' || v[1] == '-') then 2 else 1;
       forall i :: k <= i < |v| ==> '0' <= v[i] <= '9'
  }

  predicate IsBlock(l: string) {
    IsBlockMark(Trim(l[Colon(l) + 1..]))
  }

  predicate IsBlank(l: string) { Trim(l) == "" }

  /** How many lines at the front are blank. */
  function Blanks(ls: seq<string>): (n: nat)
    ensures n <= |ls| && (n < |ls| ==> !IsBlank(ls[n]))
  {
    if ls == [] || !IsBlank(ls[0]) then 0 else 1 + Blanks(ls[1..])
  }

  /** A content line that is an old prefix and nothing else. */
  predicate IsPrefixLine(l: string) {
    PrefixLen(Trim(l)) >= 0 && StripPrefix(Trim(l)) == ""
  }

  function Indent(l: string): string { l[..SpaceRun(l)] }

  /** What follows a block scalar's line, with the prefix as the block's first content line. */
  function PrefixBlock(rest: seq<string>, prefix: string): seq<string> {
    var j := Blanks(rest);
    var indent := if j < |rest| then Indent(rest[j]) else "  ";
    [indent + TrimEnd(prefix)] + if j < |rest| && IsPrefixLine(rest[j]) then rest[..j] + rest[j + 1..] else rest
  }

  /** Only the first description is prefixed. */
  function Describe(fm: seq<string>, prefix: string): seq<string> {
    if fm == [] then []
    else if !IsDescription(fm[0]) then [fm[0]] + Describe(fm[1..], prefix)
    else if IsBlock(fm[0]) then [fm[0]] + PrefixBlock(fm[1..], prefix)
    else [PrefixInline(fm[0], prefix)] + fm[1..]
  }

  function Header(successor: Option<string>): seq<string> {
    ["deprecated: true"] + if Given(successor) then ["superseded_by: \"" + successor.value + "\""] else []
  }

  // ----- the banner ---------------------------------------------------------------------------

  /** Comment openers and terminators broken apart, left to right. */
  function Neutralize(s: string): string {
    if s == "" then ""
    else if At(s, "<!--", 0) then "<!- -" + Neutralize(s[4..])
    else if At(s, "-->", 0) then "- ->" + Neutralize(s[3..])
    else if At(s, "--!>", 0) then "- -!>" + Neutralize(s[4..])
    else [s[0]] + Neutralize(s[1..])
  }

  function QuoteLine(l: string): string { if l == "" then ">" else "> " + l }

  function QuoteLines(ls: seq<string>): (r: seq<string>)
    ensures |r| == |ls| && forall i :: 0 <= i < |r| ==> r[i] == QuoteLine(ls[i])
  {
    if ls == [] then [] else [QuoteLine(ls[0])] + QuoteLines(ls[1..])
  }

  function Notice(input: HintInput): string {
    if Given(input.successor) then
      "> **Deprecated.** Use `" + input.successor.value + "` instead"
      + if Given(input.successorUrl) then " \U{2014} " + input.successorUrl.value else ""
    else "> **Deprecated.**"
  }

  /** The banner up to its closing marker. */
  function BannerHead(input: HintInput): seq<string> {
    [OPEN, Notice(input)]
    + if Given(input.note) then [">"] + QuoteLines(Lines(Neutralize(input.note.value))) else []
  }

  function Banner(input: HintInput): seq<string> {
    BannerHead(input) + [CLOSE]
  }

  /** One blank line before the body, unless it has one. */
  function Separate(body: seq<string>): (r: seq<string>)
    ensures r != [] && IsBlank(r[0])
  {
    if body == [] || !IsBlank(body[0]) then [""] + body else body
  }

  /** The body is kept, and separating again adds nothing. */
  lemma SeparateKeeps(body: seq<string>)
    ensures |body| <= |Separate(body)| <= |body| + 1 && Separate(body)[|Separate(body)| - |body|..] == body
    ensures Separate(Separate(body)) == Separate(body)
  {
    assert Trim("") == "";
    hide Trim;
    assert ([""] + body)[1..] == body;
  }

  // ----- the rewrite --------------------------------------------------------------------------

  /** The length of the line break at a position, if there is one. */
  function BreakLen(md: string, at: nat): (n: nat)
    ensures at <= |md| ==> at + n <= |md|
  {
    if At(md, "\r\n", at) then 2 else if At(md, "\n", at) then 1 else 0
  }

  /** Without the first text from one mark through the next other mark, and the line break behind it. */
  function RemoveSpan(md: string, open: string, close: string): string {
    var start := IndexOf(md, open, 0);
    if start < 0 then md
    else
      var end := IndexOf(md, close, start);
      if end < 0 then md
      else
        var after := end + |close|;
        md[..start] + md[after + BreakLen(md, after)..]
  }

  function StripBanner(md: string): string {
    RemoveSpan(md, OPEN, CLOSE)
  }

  function NewlineOf(md: string): (nl: string)
    ensures IsBreak(nl)
  {
    if IndexOf(md, "\r\n", 0) >= 0 then "\r\n" else "\n"
  }

  /** The rewritten frontmatter; empty without frontmatter. */
  function Top(lines: seq<string>, input: HintInput): seq<string> {
    if FmEnd(lines) < 0 then []
    else [RULE] + Header(input.successor) + Describe(KeptKeys(lines[1..FmEnd(lines)]), Prefix(input.successor)) + [RULE]
  }

  /** What follows the banner. */
  function Rest(lines: seq<string>): (r: seq<string>)
    ensures r != [] && IsBlank(r[0])
  {
    Separate(if FmEnd(lines) < 0 then lines else lines[FmEnd(lines) + 1..])
  }

  /** The rewritten SKILL.md. */
  function Hint(md: string, input: HintInput): string {
    var lines := Lines(StripBanner(md));
    Join(Top(lines, input) + Banner(input) + Rest(lines), NewlineOf(md))
  }

  // ----- as the code does it ------------------------------------------------------------------

  lemma {:induction false} DescribeAt(fm: seq<string>, i: nat, prefix: string)
    requires i <= |fm| && forall k :: 0 <= k < i ==> !IsDescription(fm[k])
    ensures Describe(fm, prefix) == fm[..i] + Describe(fm[i..], prefix)
  {
    hide IsDescription, IsBlock, PrefixBlock, PrefixInline;
    if i == 0 {
      assert fm[0..] == fm && fm[..0] == [];
    } else {
      assert !IsDescription(fm[0]);
      DescribeAt(fm[1..], i - 1, prefix);
      assert fm[1..][i - 1..] == fm[i..];
      assert fm[..i] == [fm[0]] + fm[1..][..i - 1];
    }
  }

  /** Past the blank lines from i on. */
  method SkipBlanks(fm: seq<string>, i: nat) returns (j: nat)
    requires i <= |fm|
    ensures j == i + Blanks(fm[i..])
  {
    hide IsBlank;
    j := i;
    while j < |fm| && IsBlank(fm[j])
      invariant i <= j <= |fm|
      invariant i + Blanks(fm[i..]) == j + Blanks(fm[j..])
    {
      assert fm[j..][0] == fm[j] && fm[j..][1..] == fm[j + 1..];
      j := j + 1;
    }
    assert j < |fm| ==> fm[j..][0] == fm[j];
  }

  /** Prefix a block scalar: skip its blank lines, drop an old prefix line, splice the new one in. */
  method SpliceBlock(fm: seq<string>, i: nat, prefix: string) returns (r: seq<string>)
    requires i < |fm|
    ensures r == fm[..i + 1] + PrefixBlock(fm[i + 1..], prefix)
  {
    hide IsBlank, IsPrefixLine, Indent, Blanks;
    var j := SkipBlanks(fm, i + 1);
    ghost var rest, n := fm[i + 1..], j - i - 1;
    assert j < |fm| ==> rest[n] == fm[j];
    var indent := if j < |fm| then Indent(fm[j]) else "  ";
    r := fm;
    if j < |fm| && IsPrefixLine(fm[j]) {
      r := r[..j] + r[j + 1..];
      assert r[i + 1..] == rest[..n] + rest[n + 1..];
      assert r[..i + 1] == fm[..i + 1];
    }
    ghost var dropped := r;
    r := r[..i + 1] + [indent + TrimEnd(prefix)] + r[i + 1..];
    Regroup(dropped[..i + 1], [indent + TrimEnd(prefix)], dropped[i + 1..]);
  }

  /** Prefix the first description of the frontmatter. */
  method DescribeLines(fm: seq<string>, prefix: string) returns (r: seq<string>)
    ensures r == Describe(fm, prefix)
  {
    hide IsDescription, IsBlock, PrefixBlock, PrefixInline;
    r := fm;
    var i := 0;
    while i < |r|
      invariant 0 <= i <= |r| && r == fm
      invariant forall k :: 0 <= k < i ==> !IsDescription(fm[k])
    {
      var l := r[i];
      if !IsDescription(l) {
        i := i + 1;
        continue;
      }
      DescribeAt(fm, i, prefix);
      assert fm[i..][0] == l && fm[i..][1..] == fm[i + 1..];
      if IsBlock(l) {
        r := SpliceBlock(r, i, prefix);
        assert fm[..i + 1] == fm[..i] + [l];
        Regroup(fm[..i], [l], PrefixBlock(fm[i + 1..], prefix));
      } else {
        r := r[i := PrefixInline(l, prefix)];
        assert r == fm[..i] + ([PrefixInline(l, prefix)] + fm[i + 1..]);
      }
      return;
    }
    DescribeAt(fm, |fm|, prefix);
    assert fm[|fm|..] == [] && fm[..|fm|] == fm;
  }

  /** The lines of the frontmatter that stay. */
  method FilterKeys(fm: seq<string>) returns (r: seq<string>)
    ensures r == KeptKeys(fm)
  {
    hide KeepsKey;
    r := [];
    for i := 0 to |fm|
      invariant r + KeptKeys(fm[i..]) == KeptKeys(fm)
    {
      KeptStep(fm, i, r);
      if KeepsKey(fm[i]) {
        r := r + [fm[i]];
      }
    }
    assert fm[|fm|..] == [] && r + [] == r;
  }

  lemma KeptStep(fm: seq<string>, i: nat, r: seq<string>)
    requires i < |fm|
    ensures r + KeptKeys(fm[i..]) == (if KeepsKey(fm[i]) then r + [fm[i]] else r) + KeptKeys(fm[i + 1..])
  {
    hide KeepsKey;
    assert fm[i..][0] == fm[i] && fm[i..][1..] == fm[i + 1..];
    Regroup(r, if KeepsKey(fm[i]) then [fm[i]] else [], KeptKeys(fm[i + 1..]));
    assert r + [] == r;
  }

  method FindFmEnd(lines: seq<string>) returns (fmEnd: int)
    ensures fmEnd == FmEnd(lines)
  {
    fmEnd := -1;
    if lines != [] && Trim(lines[0]) == RULE {
      var i := 1;
      while i < |lines|
        invariant 1 <= i && fmEnd == -1 && FirstRule(lines, 1) == FirstRule(lines, i)
      {
        if Trim(lines[i]) == RULE {
          return i;
        }
        i := i + 1;
      }
    }
  }

  method PushQuoted(before: seq<string>, ls: seq<string>) returns (out: seq<string>)
    ensures out == before + QuoteLines(ls)
  {
    hide QuoteLine;
    out := before;
    for k := 0 to |ls|
      invariant |out| == |before| + k && out[..|before|] == before
      invariant forall j :: 0 <= j < k ==> out[|before| + j] == QuoteLine(ls[j])
    {
      out := out + [QuoteLine(ls[k])];
    }
    assert out == before + QuoteLines(ls);
  }

  method BuildBanner(input: HintInput) returns (out: seq<string>)
    ensures out == Banner(input)
  {
    hide Neutralize, Lines, QuoteLines;
    out := [OPEN];
    if Given(input.successor) {
      var url := if Given(input.successorUrl) then " \U{2014} " + input.successorUrl.value else "";
      var line := "> **Deprecated.** Use `" + input.successor.value + "` instead" + url;
      assert line == Notice(input);
      out := out + [line];
    } else {
      out := out + ["> **Deprecated.**"];
    }
    assert out == [OPEN, Notice(input)];
    if Given(input.note) {
      out := out + [">"];
      out := PushQuoted(out, Lines(Neutralize(input.note.value)));
    }
    hide Notice;
    assert out == BannerHead(input);
    out := out + [CLOSE];
  }

  /** Rewrite a SKILL.md so that agents see the deprecation. */
  method BuildDeprecationHint(skillMd: string, input: HintInput) returns (out: string)
    ensures out == Hint(skillMd, input)
  {
    hide Describe, KeptKeys, FmEnd, StripBanner, Lines, Banner, Separate, Prefix, Join;
    var nl := NewlineOf(skillMd);
    var lines := Lines(StripBanner(skillMd));
    var prefix := Prefix(input.successor);
    var fmEnd := FindFmEnd(lines);
    var banner := BuildBanner(input);
    if fmEnd < 0 {
      assert [] + banner + Separate(lines) == banner + Separate(lines);
      return Join(banner + Separate(lines), nl);
    }
    var fm := FilterKeys(lines[1..fmEnd]);
    fm := DescribeLines(fm, prefix);
    var header := ["deprecated: true"];
    if Given(input.successor) {
      header := header + ["superseded_by: \"" + input.successor.value + "\""];
    }
    var body := lines[fmEnd + 1..];
    assert Top(lines, input) == [RULE] + header + fm + [RULE];
    assert Rest(lines) == Separate(body);
    out := Join([RULE] + header + fm + [RULE] + banner + Separate(body), nl);
  }
}
