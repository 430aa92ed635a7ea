/**
 What single values of the frontmatter (packages/shared/src/quality.ts:132-197) are read as: quoted texts, words,
 numbers, inline lists, comments behind a value, and folded blocks.
 */
module FrontmatterScalars {
  import opened Common
  import opened TextLines
  import opened Frontmatter

  function Read(text: string): Value { Unquote(StripComment(text)) }

  /** No white space at its ends. */
  predicate Bare(s: string) { s != "" && !IsSpace(s[0]) && !IsSpace(s[|s| - 1]) }

  lemma BareTrims(s: string)
    requires Bare(s)
    ensures Trim(s) == s
  {
    TrimIs("", s, "");
    assert "" + s + "" == s;
  }

  // ----- quoted -------------------------------------------------------------------------------

  lemma QuotesBare(q: char, s: string)
    requires q == '"' || q == '\''
    ensures Bare([q] + s + [q])
  {
    var t := [q] + s + [q];
    assert t[|t| - 1] == q;
  }

  /** Whatever stands between two equal quotes is read as it is. */
  lemma QuotedIsRead(q: char, s: string)
    requires q == '"' || q == '\''
    ensures Read([q] + s + [q]) == Text(s)
  {
    var t := [q] + s + [q];
    QuotesBare(q, s);
    BareTrims(t);
    assert t[0] == q && t[|t| - 1] == q && t[1..|t| - 1] == s;
    hide Trim, IsNumber;
    assert t != "~" && t != "null";
  }

  // ----- comments -----------------------------------------------------------------------------

  /** Neither quoted nor with a comment behind it. */
  ghost predicate Uncommented(s: string) { Bare(s) && s[0] != '"' && s[0] != '\'' && Free(s, " #") }

  /** What stands behind a blank and a hash is no part of a value. */
  lemma CommentIsDropped(s: string, c: string)
    requires Uncommented(s)
    ensures StripComment(s + " #" + c) == s && StripComment(s) == s
    ensures Read(s + " #" + c) == Read(s) == Unquote(s)
  {
    hide Unquote;
    BareTrims(s);
    NoComment(s);
    CommentedTrims(s, c);
    var t := Trim(s + " #" + c);
    FirstComment(s, t);
    assert t[..|s|] == s && t[0] == s[0];
  }

  lemma NoComment(s: string)
    requires Free(s, " #")
    ensures IndexOf(s, " #", 0) < 0
  {
  }

  lemma CommentedTrims(s: string, c: string)
    requires Bare(s)
    ensures var t := Trim(s + " #" + c); |t| >= |s| + 2 && t[..|s| + 2] == s + " #"
  {
    hide IsSpace;
    var whole := s + " #" + c;
    assert whole[0] == s[0];
    SpaceRunIs(whole, 0);
    assert TrimStart(whole) == whole;
    var n := CoreLen(whole);
    HashIsNoSpace();
    assert whole[|s| + 1] == '#';
    assert n >= |s| + 2;
    assert whole[..n][..|s| + 2] == s + " #";
  }

  lemma HashIsNoSpace()
    ensures !IsSpace('#')
  {
  }

  lemma CoreParts(a: string, b: string, c: string)
    ensures a + b + c == a + (b + c)
  {
  }

  lemma FirstComment(s: string, t: string)
    requires Free(s, " #") && s != "" && |t| >= |s| + 2 && t[..|s| + 2] == s + " #"
    ensures IndexOf(t, " #", 0) == |s|
  {
    var rest := t[|s| + 2..];
    assert t == t[..|s| + 2] + rest == s + " #" + rest;
    CoreParts(s, " #", rest);
    forall i | 0 <= i < |s| ensures !At(t, " #", i) {
      if i + 2 <= |s| {
        AtLeft(s, " #" + rest, " #", i);
      } else if At(t, " #", i) {
        AtChar(t, " #", i, 1);
      }
    }
    AtRight(s, " #" + rest, " #", 0);
    IndexIs(t, " #", 0, |s|);
  }

  // ----- words and numbers --------------------------------------------------------------------

  predicate Digits(s: string) { s != "" && forall i :: 0 <= i < |s| ==> '0' <= s[i] <= '9' }

  /** An optional minus, digits, and perhaps a point and digits. */
  ghost predicate NumberText(s: string) {
    Unsigned(s) || (s != "" && s[0] == '-' && Unsigned(s[1..]))
  }

  ghost predicate Unsigned(s: string) {
    exists n: nat :: n <= |s| && Digits(s[..n]) && (n == |s| || (s[n] == '.' && Digits(s[n + 1..])))
  }

  lemma UnsignedIs(t: string)
    ensures DigitParts(SplitOn(t, '.')) <==> Unsigned(t)
  {
    hide SplitOn;
    if DigitParts(SplitOn(t, '.')) {
      PartsUnsigned(t);
    }
    if n: nat :| n <= |t| && Digits(t[..n]) && (n == |t| || (t[n] == '.' && Digits(t[n + 1..]))) {
      NoPoint(t[..n]);
      if n == |t| {
        assert t[..n] == t;
        SplitOne(t, '.');
      } else {
        NoPoint(t[n + 1..]);
        assert t == t[..n] + ['.'] + t[n + 1..];
        SplitFirst(t[..n], t[n + 1..], '.');
        SplitOne(t[n + 1..], '.');
      }
    }
  }

  lemma PartsUnsigned(t: string)
    requires DigitParts(SplitOn(t, '.'))
    ensures Unsigned(t)
  {
    hide SplitOn;
    var parts := SplitOn(t, '.');
    SplitBack(t, '.');
    var n := |parts[0]|;
    assert Digits(parts[0]);
    if |parts| == 1 {
      assert t == parts[0] == t[..n];
    } else {
      assert t == parts[0] + ['.'] + parts[1];
      assert t[..n] == parts[0] && t[n + 1..] == parts[1] && Digits(parts[1]);
    }
  }

  lemma NoPoint(s: string)
    requires Digits(s)
    ensures '.' !in s && '-' !in s
  {
  }

  /** Joining undoes splitting. */
  lemma {:induction false} SplitBack(s: string, c: char)
    ensures Join(SplitOn(s, c), [c]) == s
  {
    if s != "" {
      var rest := SplitOn(s[1..], c);
      SplitBack(s[1..], c);
      if s[0] == c {
        assert ([""] + rest)[1..] == rest;
        assert Join([""] + rest, [c]) == "" + [c] + Join(rest, [c]);
      } else {
        JoinLonger(s[0], rest, [c]);
      }
    }
  }

  lemma NumberIs(s: string)
    ensures IsNumber(s) <==> NumberText(s)
  {
    hide SplitOn, Unsigned, DigitParts;
    var t := if s != "" && s[0] == '-' then s[1..] else s;
    UnsignedIs(t);
    NoDigitMinus(s);
  }

  /** An unsigned number has a digit in front. */
  lemma NoDigitMinus(s: string)
    ensures Unsigned(s) ==> s != "" && '0' <= s[0] <= '9'
  {
    if n: nat :| n <= |s| && Digits(s[..n]) && (n == |s| || (s[n] == '.' && Digits(s[n + 1..]))) {
      assert s[..n][0] == s[0];
    }
  }

  predicate Bracketed(s: string) { |s| >= 2 && s[0] == '[' && s[|s| - 1] == ']' }

  /** A plain value: null, a truth value or a number where it is written as one, and else its own text. */
  lemma PlainIsRead(s: string)
    requires Uncommented(s) && !Bracketed(s)
    ensures Read(s) ==
      if s == "~" || s == "null" then Null
      else if s == "true" then Flag(true)
      else if s == "false" then Flag(false)
      else if NumberText(s) then Number(s)
      else Text(s)
  {
    hide IsNumber, NumberText;
    CommentIsDropped(s, "");
    BareTrims(s);
    NumberIs(s);
    hide Trim;
  }

  // ----- inline lists -------------------------------------------------------------------------

  /** The items of an inline list, each read by itself. */
  lemma {:induction false} ItemsRead(parts: seq<string>, bound: nat)
    requires forall i :: 0 <= i < |parts| ==> |parts[i]| <= bound
    ensures |UnquoteAll(parts, bound)| == |parts|
    ensures forall i :: 0 <= i < |parts| ==> UnquoteAll(parts, bound)[i] == Unquote(parts[i])
    decreases |parts|
  {
    hide Unquote;
    if parts != [] {
      ItemsRead(parts[1..], bound);
    }
  }

  /** A list in brackets, its items without a comma and with a comma between them, is read item by item. */
  lemma ListIsRead(parts: seq<string>)
    requires parts != [] && forall i :: 0 <= i < |parts| ==> ',' !in parts[i]
    requires var s := Join(parts, ","); Bare(s) && Free("[" + s + "]", " #")
    ensures var v := Read("[" + Join(parts, ",") + "]");
      v.Items? && |v.items| == |parts| && forall i :: 0 <= i < |parts| ==> v.items[i] == Unquote(parts[i])
  {
    var s := Join(parts, ",");
    var t := "[" + s + "]";
    assert t[0] == '[' && t[|t| - 1] == ']' && t[1..|t| - 1] == s;
    BracketsBare(t);
    CommentIsDropped(t, "");
    BareTrims(t);
    BareTrims(s);
    SplitJoined(parts, ',');
    ListUnquoted(t, s);
    ItemsRead(SplitOn(s, ','), |s|);
  }

  lemma BracketsBare(t: string)
    requires Bracketed(t)
    ensures Bare(t)
  {
  }

  lemma ListUnquoted(t: string, s: string)
    requires Bracketed(t) && t[1..|t| - 1] == s && Trim(t) == t && Trim(s) == s && s != ""
    ensures Unquote(t) == Items(UnquoteAll(SplitOn(s, ','), |s|))
  {
    hide Trim, SplitOn;
    assert !IsNumber(t) by { NumberIs(t); BracketNoNumber(t); }
  }

  lemma BracketNoNumber(t: string)
    requires Bracketed(t)
    ensures !NumberText(t)
  {
    hide Unsigned;
    NoDigitMinus(t);
  }

  /** An empty one is read as the empty list. */
  lemma EmptyListIsRead()
    ensures Read("[]") == Items([])
  {
    var t := "[]";
    BracketsBare(t);
    NoHash(t);
    CommentIsDropped(t, "");
    BareTrims(t);
    EmptyUnquoted(t);
  }

  lemma EmptyUnquoted(t: string)
    requires t == "[]" && Trim(t) == t
    ensures Unquote(t) == Items([])
  {
    assert !IsNumber(t) by { NumberIs(t); BracketNoNumber(t); }
    assert t[1..|t| - 1] == "" && Trim("") == "";
    hide Trim, IsNumber;
  }

  lemma NoHash(t: string)
    requires '#' !in t
    ensures Free(t, " #")
  {
    forall i ensures !At(t, " #", i) {
      if 0 <= i && i + 2 <= |t| {
        assert t[i..i + 2][1] == t[i + 1] && t[i + 1] in t;
      }
    }
  }

  // ----- folded blocks ------------------------------------------------------------------------

  /** Lines without an empty one among them fold into one, a blank apart. */
  lemma {:induction false} FoldsToOneLine(parts: seq<string>)
    requires parts != [] && forall i :: 0 <= i < |parts| ==> parts[i] != "" && '\n' !in parts[i]
    ensures FoldedText(parts) == Join(parts, " ") && '\n' !in FoldedText(parts) && FoldedText(parts) != ""
  {
    var n := |parts| - 1;
    if n == 0 {
      assert parts == [parts[0]];
    } else {
      FoldsToOneLine(parts[..n]);
      JoinedLast(parts[..n], parts[n], " ");
      assert parts == parts[..n] + [parts[n]];
      var before := FoldedText(parts[..n]);
      assert before[|before| - 1] in before;
    }
  }

  lemma {:induction false} JoinedLast(parts: seq<string>, last: string, sep: string)
    requires parts != []
    ensures Join(parts + [last], sep) == Join(parts, sep) + sep + last
  {
    if |parts| == 1 {
      assert (parts + [last])[1..] == [last];
    } else {
      assert (parts + [last])[1..] == parts[1..] + [last];
      JoinedLast(parts[1..], last, sep);
    }
  }

  /** An empty line between two paragraphs folds into a line break between them. */
  lemma {:induction false} FoldsParagraphs(a: seq<string>, b: seq<string>)
    requires a != [] && b != [] && b[0] != ""
    ensures FoldedText(a + [""] + b) == FoldedText(a) + "\n" + FoldedText(b)
    ensures FoldedText(b) != ""
    decreases |b|
  {
    hide FoldedText;
    var n := |b| - 1;
    assert b == b[..n] + [b[n]];
    var open := a + [""];
    if n == 0 {
      LastFolded(a, "");
      LastFolded(open, b[0]);
      OneFolded(b[0]);
      assert b == [b[0]];
    } else {
      FoldsParagraphs(a, b[..n]);
      var before := open + b[..n];
      LastFolded(before, b[n]);
      LastFolded(b[..n], b[n]);
      assert open + b == before + [b[n]];
      SameEnd(FoldedText(a) + "\n", FoldedText(b[..n]), b[n]);
    }
  }

  lemma SameEnd(x: string, y: string, last: string)
    requires y != ""
    ensures (x + y)[|x + y| - 1] == y[|y| - 1]
    ensures x + y + last == x + (y + last) && x + y + "\n" == x + (y + "\n") && x + y + " " + last == x + (y + " " + last)
  {
  }

  lemma OneFolded(line: string)
    ensures FoldedText([line]) == line
  {
  }

  lemma LastFolded(parts: seq<string>, last: string)
    requires parts != []
    ensures var before := FoldedText(parts);
      FoldedText(parts + [last]) ==
        if last == "" then before + "\n"
        else if before != "" && before[|before| - 1] == '\n' then before + last
        else before + " " + last
  {
    hide FoldedText;
    var all := parts + [last];
    OneMoreFolded(all, |parts|);
    assert all[..|parts| + 1] == all && all[..|parts|] == parts;
  }

  // ----- marks and remarks --------------------------------------------------------------------

  lemma BlockMarks(r: string)
    ensures IsBlockMark(r) <==> r == "|" || r == ">" || r == "|+" || r == "|-" || r == ">+" || r == ">-"
  {
  }

  /** A blank line and a line that starts with a hash are no part of a mapping or a list. */
  lemma RemarksAreSkipped(lines: seq<string>, i: nat, n: nat)
    requires i < |lines| && (Trim(lines[i]) == "" || Trim(lines[i])[0] == '#')
    ensures MappingOf(lines, i, n) == MappingOf(lines, i + 1, n) && ListOf(lines, i, n) == ListOf(lines, i + 1, n)
  {
    hide Trim, IndentOf;
  }

  /** A line that is deeper than the mapping's keys, has none, or is a list's item is passed over. */
  lemma StraysAreSkipped(lines: seq<string>, i: nat, n: nat)
    requires i < |lines| && (forall k :: 0 <= k < n ==> k < |lines[i]| && lines[i][k] == ' ')
    requires n < |lines[i]| && (lines[i][n] == ' ' || lines[i][n] == ':' || ':' !in lines[i] || StartsItem(lines[i][n..]))
    ensures MappingOf(lines, i, n) == MappingOf(lines, i + 1, n)
  {
    var l := lines[i];
    DeepEnough(l, n);
    if IndentOf(l) == n {
      var t := l[n..];
      assert Content(l) == t;
      if !StartsItem(t) {
        NoKeyIn(t);
      }
    }
    hide IndentOf, ValueOf, KeyOf, RestOf;
  }

  lemma {:induction false} DeepEnough(l: string, n: nat)
    requires n < |l| && forall k :: 0 <= k < n ==> l[k] == ' '
    ensures IndentOf(l) >= n && (l[n] == ' ' ==> IndentOf(l) > n)
  {
  }

  lemma NoKeyIn(t: string)
    requires t != "" && (t[0] == ':' || ':' !in t)
    ensures ColonOf(t) <= 0
  {
    if t[0] == ':' {
      assert t[0..1] == ":";
      IndexIs(t, ":", 0, 0);
    } else {
      forall i ensures !At(t, ":", i) {
        if 0 <= i < |t| {
          assert t[i..i + 1] == [t[i]] && t[i] in t;
        }
      }
    }
  }
}
