/**
 What a rewritten SKILL.md says (`buildDeprecationHint` of packages/shared/src/deprecation.ts), read off its
 lines: the keys that stand in its frontmatter and what they hold, what was kept, and what the banner says.
 */
module DeprecationOutput {
  import opened Common
  import opened TextLines
  import opened Deprecation
  import opened DeprecationNotes
  import opened DeprecationValue
  import opened DeprecationRerun
  import opened DeprecationHint
  import Says = DeprecationSays

  // ----- reading a line -----------------------------------------------------------------------

  /** The key of a line: what stands in front of its first colon. */
  function KeyOf(l: string): string {
    var c := IndexOf(l, ":", 0);
    if c > 0 then Trim(l[..c]) else ""
  }

  /** What stands behind the colon. */
  function ValueOf(l: string): string {
    var c := IndexOf(l, ":", 0);
    if c >= 0 then Trim(l[c + 1..]) else ""
  }

  /** The lines with other keys. */
  function OtherLines(ls: seq<string>): seq<string> {
    if ls == [] then []
    else (if KeyOf(ls[0]) == "deprecated" || KeyOf(ls[0]) == "superseded_by" then [] else [ls[0]]) + OtherLines(ls[1..])
  }

  lemma {:induction false} OthersAreKept(fm: seq<string>)
    ensures KeptKeys(fm) == OtherLines(fm)
  {
    if fm != [] {
      OthersAreKept(fm[1..]);
      KeepsOthers(fm[0]);
    }
  }

  lemma KeepsOthers(l: string)
    ensures KeepsKey(l) <==> KeyOf(l) != "deprecated" && KeyOf(l) != "superseded_by"
  {
    hide Trim, IndexOf;
  }

  /** A key, a colon, a blank and a value. */
  lemma KeyValue(key: string, value: string)
    requires key != "" && (forall c :: c in key ==> !IsSpace(c) && c != ':')
    requires value != "" && !IsSpace(value[0]) && !IsSpace(value[|value| - 1])
    ensures KeyOf(key + ": " + value) == key && ValueOf(key + ": " + value) == value
  {
    hide Trim, IsSpace, IndexOf;
    var l := key + ": " + value;
    ColonBehind(key, ": " + value);
    assert l == key + (": " + value);
    assert l[..|key|] == key && l[|key| + 1..] == " " + value;
    assert key[0] in key && key[|key| - 1] in key;
    TrimmedBack(key);
    TrimmedBack(value);
  }

  lemma TrimmedBack(s: string)
    requires s != "" && !IsSpace(s[0]) && !IsSpace(s[|s| - 1])
    ensures Trim(s) == s && Trim(" " + s) == s
  {
    hide Trim, IsSpace;
    BlankIsSpace();
    TrimIs("", s, "");
    TrimIs(" ", s, "");
    assert "" + s + "" == s && " " + s + "" == " " + s;
  }

  lemma ColonBehind(key: string, rest: string)
    requires ':' !in key && rest != "" && rest[0] == ':'
    ensures IndexOf(key + rest, ":", 0) == |key|
  {
    var l := key + rest;
    AtColon(l, |key|);
    forall i | 0 <= i < |key| ensures !At(l, ":", i) {
      AtColon(l, i);
      assert l[i] == key[i];
    }
    IndexIs(l, ":", 0, |key|);
  }

  // ----- the lines written --------------------------------------------------------------------

  lemma OutputLines(md: string, input: HintInput)
    requires Settled(md) && ValidInput(input)
    ensures var lines := Lines(StripBanner(md)); Lines(Hint(md, input)) == Top(lines, input) + Banner(input) + Rest(lines)
  {
    hide Top, Rest, Banner, StripBanner, Lines, FmEnd, CleanLines, NewlineOf, Join, Free;
    var lines, nl := Lines(StripBanner(md)), NewlineOf(md);
    ReadsBack(lines, input, nl);
    RestIsClean(lines, nl);
    WrittenClean(Top(lines, input), input, Rest(lines), nl);
    CleanLinesOfJoin(Top(lines, input) + Banner(input) + Rest(lines), nl);
  }

  /** Two lines at the front of the frontmatter, or one: `deprecated: true`, and the successor in quotes if there
      is one. */
  ghost predicate HeaderSays(head: seq<string>, successor: Option<string>) {
    && |head| == (if successor.Some? && successor.value != "" then 2 else 1)
    && KeyOf(head[0]) == "deprecated" && ValueOf(head[0]) == "true"
    && (|head| == 2 ==> KeyOf(head[1]) == "superseded_by" && ValueOf(head[1]) == ['"'] + successor.value + ['"'])
  }

  lemma HeaderIs(successor: Option<string>)
    requires ValidRef(successor)
    ensures HeaderSays(Header(successor), successor)
  {
    hide KeyOf, ValueOf;
    FlagSays();
    if Given(successor) {
      SupersededSays(successor.value);
    }
  }

  lemma FlagSays()
    ensures KeyOf("deprecated: true") == "deprecated" && ValueOf("deprecated: true") == "true"
  {
    hide IsSpace, KeyOf, ValueOf;
    LettersBare();
    assert "deprecated: true" == "deprecated" + ": " + "true";
    KeyValue("deprecated", "true");
  }

  lemma SupersededSays(ref: string)
    ensures var l := "superseded_by: \"" + ref + "\""; KeyOf(l) == "superseded_by" && ValueOf(l) == ['"'] + ref + ['"']
  {
    hide IsSpace, KeyOf, ValueOf;
    LettersBare();
    var value := ['"'] + ref + ['"'];
    assert "superseded_by: \"" + ref + "\"" == "superseded_by" + ": " + value;
    KeyValue("superseded_by", value);
  }

  lemma LettersBare()
    ensures !IsSpace('"')
    ensures forall c :: c in "deprecated" || c in "superseded_by" || c in "true" ==> !IsSpace(c) && c != ':'
  {
  }

  /** The text ends lines with CRLF if the file it was made from has one, and with LF otherwise. */
  ghost predicate BreaksLike(md: string, out: string, lines: seq<string>) {
    out == Join(lines, if exists i :: At(md, "\r\n", i) then "\r\n" else "\n")
  }

  /** A file with a frontmatter, rewritten, has one that holds `deprecated: true` and names the successor if and only
      if there is one; all other lines of it but the description are kept, in order; and behind it stand the banner,
      a blank line and the body. */
  lemma FrontmatterSays(md: string, input: HintInput)
    requires Settled(md) && ValidInput(input) && FmEnd(Lines(StripBanner(md))) > 0
    ensures var src, out, n := Lines(StripBanner(md)), Lines(Hint(md, input)), if Given(input.successor) then 3 else 2;
      var e, f := FmEnd(src), FmEnd(out);
      && n <= f && out[0] == "---" && out[f] == "---"
      && HeaderSays(out[1..n], input.successor)
      && (forall k :: n <= k < f ==> KeyOf(out[k]) != "deprecated" && KeyOf(out[k]) != "superseded_by")
      && Says.Described(OtherLines(src[1..e]), Says.Notice(input.successor), out[n..f])
      && BannerThen(out[f + 1..], input, Separated(src[e + 1..]))
      && BreaksLike(md, Hint(md, input), out)
  {
    hide *;
    var src, nl := Lines(StripBanner(md)), NewlineOf(md);
    ValidIs(input);
    Says.DescribeSays(OtherLines(src[1..FmEnd(src)]), input.successor);
    BannerIs(input, Separated(src[FmEnd(src) + 1..]));
    OutputLines(md, input);
    SettledIs(md);
    HeaderIs(input.successor);
    TopParts(src, input, nl);
    SeparatedIs(src[FmEnd(src) + 1..]);
    BreaksAs(md, input);
  }

  function Separated(body: seq<string>): seq<string> {
    if body != [] && Trim(body[0]) == "" then body else [""] + body
  }

  lemma SeparatedIs(body: seq<string>)
    ensures Separate(body) == Separated(body)
  {
  }

  lemma SettledIs(md: string)
    requires Settled(md)
    ensures var lines := Lines(StripBanner(md));
      CleanLines(lines, NewlineOf(md)) && IsBreak(NewlineOf(md)) && forall i :: 1 <= i < FmEnd(lines) ==> Free(lines[i], OPEN)
  {
  }

  lemma BreaksAs(md: string, input: HintInput)
    requires Settled(md) && ValidInput(input)
    ensures BreaksLike(md, Hint(md, input), Lines(Hint(md, input)))
  {
    hide Top, Rest, Banner, StripBanner, Lines, Join, Settled, ValidInput;
    OutputLines(md, input);
    var c := IndexOf(md, "\r\n", 0);
    if i :| At(md, "\r\n", i) {
      assert c >= 0;
    }
  }

  lemma TopParts(src: seq<string>, input: HintInput, nl: string)
    requires ValidInput(input) && IsBreak(nl) && CleanLines(src, nl) && FmEnd(src) > 0
    requires forall i :: 1 <= i < FmEnd(src) ==> Free(src[i], OPEN)
    requires HeaderSays(Header(input.successor), input.successor)
    ensures var n := if Given(input.successor) then 3 else 2;
      var out := Top(src, input) + Banner(input) + Rest(src);
      var f := FmEnd(out);
      && n <= f && out[0] == "---" && out[f] == "---" && out[1..n] == Header(input.successor)
      && out[n..f] == Describe(OtherLines(src[1..FmEnd(src)]), Prefix(input.successor))
      && (forall k :: n <= k < f ==> KeyOf(out[k]) != "deprecated" && KeyOf(out[k]) != "superseded_by")
      && out[f + 1..] == Banner(input) + Separate(src[FmEnd(src) + 1..])
  {
    hide Describe, KeptKeys, Free, Header, Prefix, Splits, Trim, KeepsKey, KeyOf, OtherLines, CleanLines, HeaderSays, Separate, Banner;
    var fm := KeptKeys(src[1..FmEnd(src)]);
    OthersAreKept(src[1..FmEnd(src)]);
    var h, d := Header(input.successor), Describe(fm, Prefix(input.successor));
    KeptFine(src, nl);
    DescribeFine(fm, input.successor, nl);
    HeaderLines(input.successor, nl);
    assert |h| == if Given(input.successor) then 2 else 1 by { HeaderLength(input.successor); }
    MidRules(h, d, nl);
    var rest := Banner(input) + Rest(src);
    FmEndIs(h + d, rest);
    var out := Top(src, input) + Banner(input) + Rest(src);
    assert out == [RULE] + (h + d) + [RULE] + rest;
    var n := |h| + 1;
    InnerSlices(RULE, h, d, [RULE] + rest);
    assert out == [RULE] + (h + d) + ([RULE] + rest);
    forall k | n <= k < |h + d| + 1 ensures KeyOf(out[k]) != "deprecated" && KeyOf(out[k]) != "superseded_by" {
      assert out[k] == d[k - n] && d[k - n] in d;
      KeepsOthers(out[k]);
    }
  }

  lemma InnerSlices(first: string, h: seq<string>, d: seq<string>, rest: seq<string>)
    ensures var out := [first] + (h + d) + rest; out[1..|h| + 1] == h && out[|h| + 1..|h + d| + 1] == d
  {
  }

  lemma HeaderLength(successor: Option<string>)
    ensures |Header(successor)| == if Given(successor) then 2 else 1
  {
  }

  lemma MidRules(h: seq<string>, d: seq<string>, nl: string)
    requires (forall l :: l in h ==> Splits(l, nl) && Free(l, OPEN) && Trim(l) != RULE && !KeepsKey(l)) && AllFine(d, nl)
    ensures (forall l :: l in h + d ==> Trim(l) != RULE) && forall l :: l in d ==> KeepsKey(l)
  {
    hide Splits, Free, Trim, KeepsKey;
    assert forall l :: l in h + d ==> l in h || l in d;
    assert forall l :: l in d ==> Fine(l, nl);
  }

  /** A file without a frontmatter gets the banner, a blank line and its own lines. */
  lemma BodySays(md: string, input: HintInput)
    requires Settled(md) && ValidInput(input) && FmEnd(Lines(StripBanner(md))) < 0
    ensures var src, out := Lines(StripBanner(md)), Lines(Hint(md, input));
      BannerThen(out, input, Separated(src)) && BreaksLike(md, Hint(md, input), out)
  {
    hide *;
    BannerIs(input, Separated(Lines(StripBanner(md))));
    OutputLines(md, input);
    SeparatedIs(Lines(StripBanner(md)));
    NoTop(Lines(StripBanner(md)), input);
    BreaksAs(md, input);
  }

  lemma NoTop(src: seq<string>, input: HintInput)
    requires FmEnd(src) < 0
    ensures Top(src, input) + Banner(input) + Rest(src) == Banner(input) + Separate(src)
  {
    assert [] + Banner(input) == Banner(input);
  }

  lemma ValidIs(input: HintInput)
    requires ValidInput(input)
    ensures ValidRef(input.successor)
  {
  }

  // ----- the banner ---------------------------------------------------------------------------

  /** The lines are a banner for the input, and these behind it. */
  ghost predicate BannerThen(lines: seq<string>, input: HintInput, rest: seq<string>) {
    exists n: nat :: n <= |lines| && lines[n..] == rest && BannerSays(lines[..n], input)
  }

  /** Between its two marks the banner names the successor in backquotes, with its URL if there is one, and quotes
      the note behind an empty line. */
  ghost predicate BannerSays(b: seq<string>, input: HintInput) {
    && |b| >= 3 && b[0] == "<!-- skilly:deprecation -->" && b[|b| - 1] == "<!-- /skilly:deprecation -->"
    && (if input.successor.Some? && input.successor.value != "" then
          b[1] == "> **Deprecated.** Use `" + input.successor.value + "` instead"
            + if input.successorUrl.Some? && input.successorUrl.value != "" then " \U{2014} " + input.successorUrl.value else ""
        else b[1] == "> **Deprecated.**")
    && if input.note.Some? && input.note.value != "" then
         |b| > 3 && b[2] == ">" && Quotes(b[3..|b| - 1]) && Broken(input.note.value, Join(Unquoted(b[3..|b| - 1]), "\n"))
       else |b| == 3
  }

  predicate Quotes(ls: seq<string>) {
    forall k :: 0 <= k < |ls| ==> ls[k] == ">" || (|ls[k]| > 2 && ls[k][..2] == "> ")
  }

  function Unquoted(ls: seq<string>): (r: seq<string>)
    requires Quotes(ls)
    ensures |r| == |ls|
  {
    seq(|ls|, k requires 0 <= k < |ls| => if ls[k] == ">" then "" else ls[k][2..])
  }

  /** The text with blanks added between dashes, and with no comment opener. A text without comment marks is kept as
      it is. */
  ghost predicate Broken(note: string, text: string) {
    && BlanksAdded(note, text) && Free(text, "<!--")
    && (Free(note, "<!--") && Free(note, "-->") && Free(note, "--!>") ==> text == note)
  }

  predicate BlanksAdded(s: string, t: string) {
    if s == "" then t == ""
    else
      && t != "" && t[0] == s[0]
      && (BlanksAdded(s[1..], t[1..])
          || (s[0] == '-' && |s| > 1 && s[1] == '-' && |t| > 1 && t[1] == ' ' && BlanksAdded(s[1..], t[2..])))
  }

  lemma {:induction false} AddedApart(a: string, b: string, s: string, t: string)
    requires BlanksAdded(a, b) && BlanksAdded(s, t)
    ensures BlanksAdded(a + s, b + t)
  {
    if a == "" {
      assert a + s == s && b + t == t;
    } else {
      assert (a + s)[1..] == a[1..] + s && (b + t)[1..] == b[1..] + t;
      if BlanksAdded(a[1..], b[1..]) {
        AddedApart(a[1..], b[1..], s, t);
      } else {
        AddedApart(a[1..], b[2..], s, t);
        assert (b + t)[2..] == b[2..] + t;
      }
    }
  }

  lemma MarksBroken(c: char)
    ensures BlanksAdded("<!--", "<!- -") && BlanksAdded("-->", "- ->") && BlanksAdded("--!>", "- -!>") && BlanksAdded([c], [c])
  {
    assert "<!--"[1..] == "!--" && "!--"[1..] == "--" && "--"[1..] == "-" && "-"[1..] == "";
    assert "<!- -"[1..] == "!- -" && "!- -"[1..] == "- -" && "- -"[2..] == "-";
    assert "-->"[1..] == "->" && "->"[1..] == ">" && ">"[1..] == "" && "- ->"[2..] == "->";
    assert "--!>"[1..] == "-!>" && "-!>"[1..] == "!>" && "!>"[1..] == ">" && "- -!>"[2..] == "-!>";
    assert [c][1..] == "";
    SameAdded("-");
    SameAdded("->");
    SameAdded("-!>");
  }

  lemma {:induction false} SameAdded(s: string)
    ensures BlanksAdded(s, s)
  {
    if s != "" {
      SameAdded(s[1..]);
    }
  }

  lemma {:induction false} NoteBroken(s: string)
    ensures BlanksAdded(s, Neutralize(s))
    ensures Free(s, "<!--") && Free(s, "-->") && Free(s, "--!>") ==> Neutralize(s) == s
    decreases |s|
  {
    hide BlanksAdded;
    if s == "" {
      NothingBroken();
    } else {
      MarksBroken(s[0]);
      if At(s, "<!--", 0) {
        NoteBroken(s[4..]);
        assert s == "<!--" + s[4..];
        AddedApart("<!--", "<!- -", s[4..], Neutralize(s[4..]));
      } else if At(s, "-->", 0) {
        NoteBroken(s[3..]);
        assert s == "-->" + s[3..];
        AddedApart("-->", "- ->", s[3..], Neutralize(s[3..]));
      } else if At(s, "--!>", 0) {
        NoteBroken(s[4..]);
        assert s == "--!>" + s[4..];
        AddedApart("--!>", "- -!>", s[4..], Neutralize(s[4..]));
      } else {
        NoteBroken(s[1..]);
        AddedApart([s[0]], [s[0]], s[1..], Neutralize(s[1..]));
        assert s == [s[0]] + s[1..];
        if Free(s, "<!--") && Free(s, "-->") && Free(s, "--!>") {
          FreeBehind(s, "<!--");
          FreeBehind(s, "-->");
          FreeBehind(s, "--!>");
        }
      }
    }
  }

  lemma NothingBroken()
    ensures Neutralize("") == "" && BlanksAdded("", "")
  {
  }

  lemma FreeBehind(s: string, pat: string)
    requires s != "" && Free(s, pat)
    ensures Free(s[1..], pat)
  {
    assert s == [s[0]] + s[1..];
    forall i ensures !At(s[1..], pat, i) {
      if At(s[1..], pat, i) {
        AtRight([s[0]], s[1..], pat, i);
      }
    }
  }

  /** Joined again, the lines of a text without CR are the text. */
  lemma {:induction false} LinesJoined(s: string)
    requires '\r' !in s
    ensures Join(Lines(s), "\n") == s
  {
    hide Lines, Join;
    LinesNext(s);
    if s != "" {
      var rest := Lines(s[1..]);
      assert forall c :: c in s[1..] ==> c in s;
      LinesJoined(s[1..]);
      if s[0] == '\n' {
        JoinEmptyFirst(rest);
        assert s == "\n" + s[1..];
      } else {
        JoinLonger(s[0], rest, "\n");
        assert s == [s[0]] + s[1..];
      }
    } else {
      JoinSingle("", "\n");
    }
  }

  lemma LinesNext(s: string)
    requires '\r' !in s
    ensures Lines(s) != [] && (s == "" ==> Lines(s) == [""])
    ensures s != "" ==>
      var rest := Lines(s[1..]); Lines(s) == if s[0] == '\n' then [""] + rest else [[s[0]] + rest[0]] + rest[1..]
  {
    assert s != "" ==> s[0] in s;
  }

  lemma JoinEmptyFirst(rest: seq<string>)
    requires rest != []
    ensures Join([""] + rest, "\n") == "\n" + Join(rest, "\n")
  {
    assert ([""] + rest)[1..] == rest;
    assert "" + "\n" == "\n";
  }

  lemma QuotedBack(ls: seq<string>)
    ensures Quotes(QuoteLines(ls)) && Unquoted(QuoteLines(ls)) == ls
  {
    forall k | 0 <= k < |ls| ensures QuoteLines(ls)[k] == ">" || (|QuoteLines(ls)[k]| > 2 && QuoteLines(ls)[k][..2] == "> ") {
      if ls[k] != "" {
        assert QuoteLine(ls[k])[..2] == "> ";
      }
    }
    forall k | 0 <= k < |ls| ensures Unquoted(QuoteLines(ls))[k] == ls[k] {
      assert ls[k] != "" ==> QuoteLine(ls[k])[2..] == ls[k];
    }
  }

  lemma BannerIs(input: HintInput, rest: seq<string>)
    requires ValidInput(input)
    ensures BannerThen(Banner(input) + rest, input, rest)
  {
    hide Banner, BannerSays;
    var b := Banner(input);
    BannerReads(input);
    assert (b + rest)[..|b|] == b && (b + rest)[|b|..] == rest;
  }

  lemma BannerReads(input: HintInput)
    requires ValidInput(input)
    ensures BannerSays(Banner(input), input)
  {
    hide Neutralize, Lines, QuoteLines, Unquoted, Quotes, Join, Broken, Notice, ValidInput;
    var b := Banner(input);
    NoticeIs(input);
    if Given(input.note) {
      var ls := Lines(Neutralize(input.note.value));
      NoteLines(input, ls);
      assert b == [OPEN, Notice(input), ">"] + QuoteLines(ls) + [CLOSE];
      assert b[3..|b| - 1] == QuoteLines(ls);
    }
  }

  lemma NoteLines(input: HintInput, ls: seq<string>)
    requires ValidInput(input) && Given(input.note) && ls == Lines(Neutralize(input.note.value))
    ensures Quotes(QuoteLines(ls)) && Broken(input.note.value, Join(Unquoted(QuoteLines(ls)), "\n"))
  {
    hide Neutralize, Lines, QuoteLines, Unquoted, Quotes, Join, Broken;
    QuotedBack(ls);
    NoteSaid(input.note.value);
  }

  lemma NoticeIs(input: HintInput)
    ensures Notice(input) ==
      if input.successor.Some? && input.successor.value != "" then
        "> **Deprecated.** Use `" + input.successor.value + "` instead"
          + if input.successorUrl.Some? && input.successorUrl.value != "" then " \U{2014} " + input.successorUrl.value else ""
      else "> **Deprecated.**"
  {
  }

  lemma NoteSaid(note: string)
    requires '\r' !in note
    ensures Broken(note, Join(Lines(Neutralize(note)), "\n"))
  {
    hide Neutralize, Lines, Join, BlanksAdded, Free;
    NeutralizeAddsNoCr(note);
    LinesJoined(Neutralize(note));
    NoteBroken(note);
    NoteHasNoOpener(note);
  }
}
