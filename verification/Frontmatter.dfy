/**
 The frontmatter parser (`parseFrontmatterYaml` of packages/shared/src/quality.ts): mutually recursive
 descent over one cursor. The list reader steps the cursor back and rewrites a line before it recurses;
 the parser still ends, reads what its lines hold, and finds every top-level key.
 */
module Frontmatter {
  import opened Common
  import opened TextLines

  datatype Value =
    | Null
    | Text(text: string)
    | Flag(flag: bool)
    | Number(digits: string)
    | Items(items: seq<Value>)
    | Fields(fields: map<string, Value>)

  // ----- scalars ------------------------------------------------------------------------------

  predicate IsDigits(s: string) {
    s != "" && forall i :: 0 <= i < |s| ==> '0' <= s[i] <= '9'
  }

  /** An optional sign, digits, and perhaps a point and digits. */
  predicate IsNumber(s: string) {
    DigitParts(SplitOn(if s != "" && s[0] == '-' then s[1..] else s, '.'))
  }

  predicate DigitParts(parts: seq<string>) {
    |parts| <= 2 && forall i :: 0 <= i < |parts| ==> IsDigits(parts[i])
  }

  predicate Wrapped(t: string, open: char, close: char) {
    |t| >= 2 && t[0] == open && t[|t| - 1] == close
  }

  lemma TrimShortens(s: string)
    ensures |Trim(s)| <= |s|
  {
  }

  function Unquote(s: string): Value
    decreases |s|, 0
  {
    TrimShortens(s);
    var t := Trim(s);
    if t == "" || t == "~" || t == "null" then Null
    else if Wrapped(t, '"', '"') || Wrapped(t, '\'', '\'') then Text(t[1..|t| - 1])
    else if t == "true" then Flag(true)
    else if t == "false" then Flag(false)
    else if IsNumber(t) then Number(t)
    else if Wrapped(t, '[', ']') then
      TrimShortens(t[1..|t| - 1]);
      var inner := Trim(t[1..|t| - 1]);
      Items(if inner == "" then [] else UnquoteAll(SplitOn(inner, ','), |inner|))
    else Text(t)
  }

  function UnquoteAll(parts: seq<string>, bound: nat): seq<Value>
    requires forall i :: 0 <= i < |parts| ==> |parts[i]| <= bound
    decreases bound, |parts| + 1
  {
    if parts == [] then [] else [Unquote(parts[0])] + UnquoteAll(parts[1..], bound)
  }

  /** Without a trailing ` # comment`, unless quoted. */
  function StripComment(s: string): string {
    var t := Trim(s);
    if t != "" && (t[0] == '"' || t[0] == '\'') then t
    else
      var i := IndexOf(t, " #", 0);
      if i >= 0 then Trim(t[..i]) else t
  }

  // ----- lines --------------------------------------------------------------------------------

  function IndentOf(l: string): (n: nat)
    ensures n <= |l| && (forall i :: 0 <= i < n ==> l[i] == ' ') && (n < |l| ==> l[n] != ' ')
  {
    if l == "" || l[0] != ' ' then 0 else 1 + IndentOf(l[1..])
  }

  predicate IsBlank(l: string) { Trim(l) == "" }

  predicate IsComment(l: string) { Trim(l) != "" && Trim(l)[0] == '#' }

  predicate Skipped(l: string) { IsBlank(l) || IsComment(l) }

  predicate StartsItem(t: string) { |t| >= 2 && t[..2] == "- " }

  /** A list item, white space aside. */
  predicate IsItem(l: string) { StartsItem(Trim(l)) || Trim(l) == "-" }

  /** What follows the indent. */
  function Content(l: string): string { l[IndentOf(l)..] }

  function ColonOf(t: string): (c: int)
    ensures -1 <= c < |t|
  {
    IndexOf(t, ":", 0)
  }

  /** A mapping reads a key from this line. */
  predicate HasKey(l: string) {
    !Skipped(l) && ColonOf(Content(l)) > 0 && !StartsItem(Content(l))
  }

  function KeyOf(l: string): string
    requires HasKey(l)
  {
    Trim(Content(l)[..ColonOf(Content(l))])
  }

  /** A line at indent 0 with a key. */
  predicate TopKey(l: string) { IndentOf(l) == 0 && HasKey(l) }

  /** One that no list takes for an item. */
  predicate PlainKey(l: string) { TopKey(l) && !IsItem(l) }

  function Spaces(n: nat): (s: string)
    ensures |s| == n && forall i :: 0 <= i < n ==> s[i] == ' '
  {
    if n == 0 then "" else " " + Spaces(n - 1)
  }

  lemma {:induction false} IndentIs(l: string, n: nat)
    requires n <= |l| && (forall i :: 0 <= i < n ==> l[i] == ' ') && (n < |l| ==> l[n] != ' ')
    ensures IndentOf(l) == n
  {
    if n > 0 {
      IndentIs(l[1..], n - 1);
    }
  }

  /** An item's text, put at a deeper indent. */
  lemma RewrittenIndent(n: nat, rest: string)
    requires rest != "" && rest[0] != ' '
    ensures IndentOf(Spaces(n) + rest) == n
  {
    IndentIs(Spaces(n) + rest, n);
  }

  lemma TrimmedStart(s: string)
    ensures Trim(s) != "" ==> Trim(s)[0] != ' '
  {
  }

  // ----- what is found ------------------------------------------------------------------------

  /** From index i on, nothing was rewritten. */
  ghost predicate SameFrom(lines: seq<string>, raw: seq<string>, i: nat) {
    |lines| == |raw| && forall k :: i <= k < |raw| ==> lines[k] == raw[k]
  }

  /** No key of the top level from lo up to hi. */
  ghost predicate NoPlainKey(raw: seq<string>, lo: nat, hi: nat) {
    forall k :: lo <= k < hi && k < |raw| ==> !PlainKey(raw[k])
  }

  /** Every recorded line holds its key at indent 0. */
  ghost predicate Sound(keyLines: map<string, nat>, raw: seq<string>, hi: nat) {
    forall key :: key in keyLines ==>
      0 < keyLines[key] <= hi && keyLines[key] <= |raw| && TopKey(raw[keyLines[key] - 1]) && KeyOf(raw[keyLines[key] - 1]) == key
  }

  /** Every plain key before hi is recorded, at its own line or a later one. */
  ghost predicate Complete(keyLines: map<string, nat>, raw: seq<string>, hi: nat) {
    forall k :: 0 <= k < hi && k < |raw| && PlainKey(raw[k]) ==>
      KeyOf(raw[k]) in keyLines && keyLines[KeyOf(raw[k])] >= k + 1
  }

  lemma NothingFound(raw: seq<string>)
    ensures Sound(map[], raw, 0) && Complete(map[], raw, 0)
  {
  }

  /** Lines without a plain key change nothing. */
  lemma NothingMore(keyLines: map<string, nat>, raw: seq<string>, lo: nat, hi: nat)
    requires Sound(keyLines, raw, lo) && Complete(keyLines, raw, lo) && lo <= hi && NoPlainKey(raw, lo, hi)
    ensures Sound(keyLines, raw, hi) && Complete(keyLines, raw, hi)
  {
    hide PlainKey, TopKey, HasKey;
    forall k | 0 <= k < hi && k < |raw| && PlainKey(raw[k])
      ensures PlainIsTop(raw[k]) && HasKey(raw[k]) && KeyOf(raw[k]) in keyLines && keyLines[KeyOf(raw[k])] >= k + 1
    {
      assert k < lo;
      assert PlainIsTop(raw[k]) by { PlainHasKey(raw[k]); }
    }
  }

  predicate PlainIsTop(l: string) { PlainKey(l) ==> HasKey(l) }

  lemma PlainHasKey(l: string)
    ensures PlainIsTop(l) && (TopKey(l) ==> HasKey(l))
  {
  }

  /** Recording a key's line. */
  lemma OneMoreKey(keyLines: map<string, nat>, raw: seq<string>, at: nat)
    requires Sound(keyLines, raw, at) && Complete(keyLines, raw, at) && at < |raw| && TopKey(raw[at])
    ensures Sound(keyLines[KeyOf(raw[at]) := at + 1], raw, at + 1) && Complete(keyLines[KeyOf(raw[at]) := at + 1], raw, at + 1)
  {
    hide HasKey, IsItem, IndentOf, TopKey, KeyOf;
    PlainHasKey(raw[at]);
    var more := keyLines[KeyOf(raw[at]) := at + 1];
    assert Sound(more, raw, at + 1) by { hide Complete; }
    hide Sound;
  }

  lemma SkippedHasNoKey(l: string)
    requires Skipped(l)
    ensures !TopKey(l) && !PlainKey(l)
  {
  }

  lemma DeepHasNoKey(l: string)
    requires IndentOf(l) > 0
    ensures !TopKey(l) && !PlainKey(l)
  {
  }

  lemma KeylessHasNoKey(l: string)
    requires !HasKey(l)
    ensures !TopKey(l) && !PlainKey(l)
  {
  }

  lemma ItemIsNoPlainKey(l: string)
    requires IsItem(l)
    ensures !PlainKey(l)
  {
  }

  lemma BlankIsSkipped(l: string)
    requires IsBlank(l)
    ensures !PlainKey(l) && Skipped(l)
  {
  }

  /** An item's text. */
  function ItemRest(l: string): (r: string)
    requires IsItem(l)
    ensures r != "" ==> r[0] != ' '
  {
    TrimmedStart(Trim(l)[1..]);
    Trim(Trim(l)[1..])
  }

  predicate IsBlockMark(r: string) {
    || r == "|" || r == ">"
    || (|r| == 2 && (r[0] == '|' || r[0] == '>') && (r[1] == '+' || r[1] == '-'))
  }

  // ----- what a key holds ---------------------------------------------------------------------

  /** Where a block scalar under an indent ends: at the first line that is neither blank nor deeper. */
  function BlockEnd(lines: seq<string>, from: nat, indent: nat): (to: nat)
    requires from <= |lines|
    ensures from <= to <= |lines|
    decreases |lines| - from
  {
    if from < |lines| && (IsBlank(lines[from]) || IndentOf(lines[from]) > indent) then BlockEnd(lines, from + 1, indent)
    else from
  }

  /** The indent of the first line that is not blank; -1 when all are. */
  function BlockIndent(lines: seq<string>, from: nat, to: nat): (n: int)
    requires from <= to <= |lines|
    ensures n >= -1
  {
    if from == to then -1
    else
      var before := BlockIndent(lines, from, to - 1);
      if before >= 0 || IsBlank(lines[to - 1]) then before else IndentOf(lines[to - 1])
  }

  /** A line of the block without the block's indent, or without its own when that is less. */
  function BlockLine(l: string, blockIndent: int): string {
    if IsBlank(l) || blockIndent < 0 then "" else l[if blockIndent < IndentOf(l) then blockIndent else IndentOf(l)..]
  }

  function BlockLines(lines: seq<string>, from: nat, to: nat): (parts: seq<string>)
    requires from <= to <= |lines|
    ensures |parts| == to - from
    ensures forall k :: 0 <= k < |parts| ==> parts[k] == BlockLine(lines[from + k], BlockIndent(lines, from, to))
  {
    var n := BlockIndent(lines, from, to);
    seq(to - from, k requires 0 <= k < to - from => BlockLine(lines[from + k], n))
  }

  /** Without the empty lines at the end. */
  function Chomped(parts: seq<string>): seq<string> {
    if parts != [] && parts[|parts| - 1] == "" then Chomped(parts[..|parts| - 1]) else parts
  }

  /** Single line breaks become blanks, empty lines become line breaks. */
  function FoldedText(parts: seq<string>): string {
    if parts == [] then ""
    else
      var before, last := FoldedText(parts[..|parts| - 1]), parts[|parts| - 1];
      if |parts| == 1 then last
      else if last == "" then before + "\n"
      else if before != "" && before[|before| - 1] == '\n' then before + last
      else before + " " + last
  }

  function BlockText(lines: seq<string>, from: nat, to: nat, folded: bool): string
    requires from <= to <= |lines|
  {
    var parts := Chomped(BlockLines(lines, from, to));
    if folded then FoldedText(parts) else Join(parts, "\n")
  }

  /** What stands behind a line's key. */
  function RestOf(l: string): string
    requires HasKey(l)
  {
    Trim(Content(l)[ColonOf(Content(l)) + 1..])
  }

  /** A list item that is the first pair of a mapping. */
  predicate IsPair(rest: string) {
    rest != "" && IndexOf(rest, ": ", 0) >= 0 && rest[0] != '"' && rest[0] != '\''
  }

  /** The item's pair as a mapping's line, at the mapping's indent. */
  function PairLine(indent: nat, rest: string): (l: string)
    requires rest != "" && rest[0] != ' '
    ensures IndentOf(l) == indent
  {
    RewrittenIndent(indent, rest);
    Spaces(indent) + rest
  }

  function FirstNonBlank(lines: seq<string>, i: nat): (j: nat)
    requires i <= |lines|
    ensures i <= j <= |lines| && (forall k :: i <= k < j ==> IsBlank(lines[k])) && (j < |lines| ==> !IsBlank(lines[j]))
    decreases |lines| - i
  {
    if i < |lines| && IsBlank(lines[i]) then FirstNonBlank(lines, i + 1) else i
  }

  /** What is read from a line on, and the line at which reading stops. */
  datatype Read<T> = Read(value: T, next: nat)

  predicate TakesItem(l: string, indent: nat) { !Skipped(l) && IndentOf(l) == indent && IsItem(l) }

  /** The item on a line, with the mapping it starts. */
  function ItemOf(lines: seq<string>, i: nat, indent: nat): (r: Read<Value>)
    requires i < |lines| && TakesItem(lines[i], indent)
    ensures i < r.next <= |lines|
    decreases |lines| - i, 1
  {
    var rest := ItemRest(lines[i]);
    if rest == "" then
      var fields := MappingOf(lines, i + 1, indent + 2);
      Read(Fields(fields.value), fields.next)
    else if IsPair(rest) then
      var fields := MappingOf(lines[i := PairLine(indent + 2, rest)], i, indent + 2);
      Read(Fields(fields.value), fields.next)
    else Read(Unquote(StripComment(rest)), i + 1)
  }

  /** The items of a list at an indent. */
  function ListOf(lines: seq<string>, i: nat, indent: nat): (r: Read<seq<Value>>)
    requires i <= |lines|
    ensures i <= r.next <= |lines|
    decreases |lines| - i, 2
  {
    if i < |lines| && Skipped(lines[i]) then ListOf(lines, i + 1, indent)
    else if i < |lines| && TakesItem(lines[i], indent) then
      var item := ItemOf(lines, i, indent);
      var more := ListOf(lines, item.next, indent);
      Read([item.value] + more.value, more.next)
    else Read([], i)
  }

  /** What is nested below a key of a mapping at an indent. */
  function NestedOf(lines: seq<string>, i: nat, indent: nat): (r: Read<Value>)
    requires i <= |lines|
    ensures i <= r.next <= |lines|
    decreases |lines| - i, 3
  {
    var j := FirstNonBlank(lines, i);
    if j < |lines| && IndentOf(lines[j]) > indent then
      if IsItem(lines[j]) then
        var items := ListOf(lines, j, IndentOf(lines[j]));
        Read(Items(items.value), items.next)
      else
        var fields := MappingOf(lines, j, IndentOf(lines[j]));
        Read(Fields(fields.value), fields.next)
    else if j < |lines| && IndentOf(lines[j]) == indent && IsItem(lines[j]) then
      var items := ListOf(lines, j, indent);
      Read(Items(items.value), items.next)
    else Read(Null, i)
  }

  /** The value of a key with this text behind it and the lines from `i` on below. */
  function ValueOf(lines: seq<string>, i: nat, indent: nat, text: string): (r: Read<Value>)
    requires i <= |lines|
    ensures i <= r.next <= |lines|
    decreases |lines| - i, 4
  {
    if text == "" then NestedOf(lines, i, indent)
    else if IsBlockMark(text) then
      var to := BlockEnd(lines, i, indent);
      Read(Text(BlockText(lines, i, to, text[0] == '>')), to)
    else Read(Unquote(StripComment(text)), i)
  }

  /** The fields of a mapping at an indent: deeper lines and lines without a key are passed over, and the
      last line of a key counts. */
  function MappingOf(lines: seq<string>, i: nat, indent: nat): (r: Read<map<string, Value>>)
    requires i <= |lines|
    ensures i <= r.next <= |lines| && (i < |lines| && IndentOf(lines[i]) >= indent ==> i < r.next)
    decreases |lines| - i, 0
  {
    if i == |lines| then Read(map[], i)
    else if !Skipped(lines[i]) && IndentOf(lines[i]) < indent then Read(map[], i)
    else if IndentOf(lines[i]) > indent || !HasKey(lines[i]) then MappingOf(lines, i + 1, indent)
    else
      var value := ValueOf(lines, i + 1, indent, RestOf(lines[i]));
      var more := MappingOf(lines, value.next, indent);
      Read(map[KeyOf(lines[i]) := value.value] + more.value, more.next)
  }

  /** Every key holds the value at its recorded line. */
  ghost predicate Valued(out: map<string, Value>, keyLines: map<string, nat>, raw: seq<string>) {
    forall key :: key in out ==> key in keyLines && ValueAt(raw, keyLines[key], out[key])
  }

  predicate ValueAt(raw: seq<string>, line: nat, value: Value) {
    0 < line <= |raw| && HasKey(raw[line - 1]) && value == ValueOf(raw, line, 0, RestOf(raw[line - 1])).value
  }

  lemma {:induction false} SameEnd(lines: seq<string>, raw: seq<string>, from: nat, indent: nat)
    requires from <= |lines| && SameFrom(lines, raw, from)
    ensures BlockEnd(lines, from, indent) == BlockEnd(raw, from, indent)
    decreases |lines| - from
  {
    hide IsBlank, IndentOf;
    if from < |lines| {
      SameEnd(lines, raw, from + 1, indent);
    }
  }

  lemma {:induction false} SameIndent(lines: seq<string>, raw: seq<string>, from: nat, to: nat)
    requires from <= to <= |lines| && SameFrom(lines, raw, from)
    ensures BlockIndent(lines, from, to) == BlockIndent(raw, from, to)
  {
    hide IsBlank, IndentOf;
    if from < to {
      SameIndent(lines, raw, from, to - 1);
    }
  }

  /** What is read does not depend on the lines above: those may have been rewritten. */
  lemma {:induction false} SameList(lines: seq<string>, raw: seq<string>, i: nat, indent: nat)
    requires i <= |lines| && SameFrom(lines, raw, i)
    ensures ListOf(lines, i, indent) == ListOf(raw, i, indent)
    decreases |lines| - i, 2
  {
    hide Skipped, TakesItem, ItemOf;
    if i < |lines| {
      if Skipped(lines[i]) {
        SameList(lines, raw, i + 1, indent);
      } else if TakesItem(lines[i], indent) {
        SameItem(lines, raw, i, indent);
        SameList(lines, raw, ItemOf(lines, i, indent).next, indent);
      }
    }
  }

  lemma {:induction false} SameItem(lines: seq<string>, raw: seq<string>, i: nat, indent: nat)
    requires i < |lines| && SameFrom(lines, raw, i) && TakesItem(lines[i], indent)
    ensures ItemOf(lines, i, indent) == ItemOf(raw, i, indent)
    decreases |lines| - i, 1
  {
    hide Skipped, IndentOf, IsItem, ItemRest, IsPair, PairLine, Unquote, StripComment, MappingOf;
    var rest := ItemRest(lines[i]);
    SameMapping(lines, raw, i + 1, indent + 2);
    if rest != "" && IsPair(rest) {
      var l := PairLine(indent + 2, rest);
      SameMapping(lines[i := l], raw[i := l], i, indent + 2);
    }
  }

  lemma {:induction false} SameFirst(lines: seq<string>, raw: seq<string>, i: nat)
    requires i <= |lines| && SameFrom(lines, raw, i)
    ensures FirstNonBlank(lines, i) == FirstNonBlank(raw, i)
    decreases |lines| - i
  {
    hide IsBlank;
    if i < |lines| {
      SameFirst(lines, raw, i + 1);
    }
  }

  lemma {:induction false} SameValue(lines: seq<string>, raw: seq<string>, i: nat, indent: nat, text: string)
    requires i <= |lines| && SameFrom(lines, raw, i)
    ensures ValueOf(lines, i, indent, text) == ValueOf(raw, i, indent, text)
    decreases |lines| - i, 4
  {
    hide IsBlank, IndentOf, IsItem, Chomped, FoldedText, Unquote, StripComment, BlockLine, IsBlockMark;
    if text == "" {
      SameFirst(lines, raw, i);
      var j := FirstNonBlank(lines, i);
      if j < |lines| {
        SameList(lines, raw, j, IndentOf(lines[j]));
        SameMapping(lines, raw, j, IndentOf(lines[j]));
      }
    } else if IsBlockMark(text) {
      SameEnd(lines, raw, i, indent);
      var to := BlockEnd(lines, i, indent);
      SameIndent(lines, raw, i, to);
      assert BlockLines(lines, i, to) == BlockLines(raw, i, to);
    }
  }

  lemma {:induction false} SameMapping(lines: seq<string>, raw: seq<string>, i: nat, indent: nat)
    requires i <= |lines| && SameFrom(lines, raw, i)
    ensures MappingOf(lines, i, indent) == MappingOf(raw, i, indent)
    decreases |lines| - i, 0
  {
    hide Skipped, IndentOf, HasKey, RestOf, KeyOf, ValueOf;
    if i < |lines| && (Skipped(lines[i]) || IndentOf(lines[i]) >= indent) {
      if IndentOf(lines[i]) > indent || !HasKey(lines[i]) {
        SameMapping(lines, raw, i + 1, indent);
      } else {
        SameValue(lines, raw, i + 1, indent, RestOf(lines[i]));
        SameMapping(lines, raw, ValueOf(lines, i + 1, indent, RestOf(lines[i])).next, indent);
      }
    }
  }

  /** One more line of a block. */
  lemma OneMoreBlockLine(lines: seq<string>, from: nat, i: nat)
    requires from <= i < |lines|
    ensures BlockLines(lines, from, i + 1) == BlockLines(lines, from, i) + [BlockLine(lines[i], BlockIndent(lines, from, i + 1))]
  {
    hide IsBlank, IndentOf;
    var a, b := BlockLines(lines, from, i), BlockLines(lines, from, i + 1);
    forall k | 0 <= k < i - from ensures b[k] == a[k] {
      if BlockIndent(lines, from, i) < 0 {
        AllBlank(lines, from, i, from + k);
      }
    }
  }

  lemma {:induction false} AllBlank(lines: seq<string>, from: nat, to: nat, k: nat)
    requires from <= k < to <= |lines| && BlockIndent(lines, from, to) < 0
    ensures IsBlank(lines[k])
  {
    hide IsBlank, IndentOf;
    if k < to - 1 {
      AllBlank(lines, from, to - 1, k);
    }
  }

  lemma {:induction false} EndStays(lines: seq<string>, from: nat, i: nat, indent: nat)
    requires from <= i <= |lines| && forall k :: from <= k < i ==> IsBlank(lines[k]) || IndentOf(lines[k]) > indent
    ensures BlockEnd(lines, from, indent) == BlockEnd(lines, i, indent)
    decreases i - from
  {
    hide IsBlank, IndentOf;
    if from < i {
      EndStays(lines, from + 1, i, indent);
    }
  }

  // ----- the parser ---------------------------------------------------------------------------

  class Parser {
    var lines: seq<string>
    var i: nat
    var keyLines: map<string, nat>

    constructor (raw: seq<string>)
      ensures lines == raw && i == 0 && keyLines == map[]
    {
      lines, i, keyLines := raw, 0, map[];
    }

    method ReadBlockScalar(indent: nat, folded: bool) returns (text: string)
      requires i <= |lines|
      modifies `i
      ensures i == BlockEnd(lines, old(i), indent) && text == BlockText(lines, old(i), i, folded)
      ensures forall k :: old(i) <= k < i ==> IsBlank(lines[k]) || IndentOf(lines[k]) > indent
    {
      hide IsBlank, IndentOf, BlockLine, FoldedText, BlockLines, BlockIndent, Chomped;
      var parts: seq<string> := [];
      var blockIndent := -1;
      ghost var from := i;
      NoBlockLines(lines, from);
      while i < |lines|
        invariant from <= i <= |lines| && parts == BlockLines(lines, from, i) && blockIndent == BlockIndent(lines, from, i)
        invariant forall k :: from <= k < i ==> IsBlank(lines[k]) || IndentOf(lines[k]) > indent
      {
        var l := lines[i];
        OneMoreBlockLine(lines, from, i);
        NextIndent(lines, from, i);
        if IsBlank(l) {
          parts := parts + [""];
          i := i + 1;
          continue;
        }
        if IndentOf(l) <= indent {
          break;
        }
        if blockIndent < 0 {
          blockIndent := IndentOf(l);
        }
        parts := parts + [l[if blockIndent < IndentOf(l) then blockIndent else IndentOf(l)..]];
        i := i + 1;
      }
      EndStays(lines, from, i, indent);
      assert BlockEnd(lines, i, indent) == i;
      ghost var to := i;
      assert to == BlockEnd(lines, from, indent);
      ghost var all := parts;
      while parts != [] && parts[|parts| - 1] == ""
        invariant i == to && Chomped(parts) == Chomped(all)
      {
        LastChomped(parts);
        parts := parts[..|parts| - 1];
      }
      LastChomped(parts);
      if !folded {
        return Join(parts, "\n");
      }
      text := "";
      NothingFolded();
      for k := 0 to |parts|
        invariant i == to && text == FoldedText(parts[..k])
      {
        OneMoreFolded(parts, k);
        if k == 0 {
          text := parts[0];
        } else if parts[k] == "" {
          text := text + "\n";
        } else if text != "" && text[|text| - 1] == '\n' {
          text := text + parts[k];
        } else {
          text := text + " " + parts[k];
        }
      }
      assert parts[..|parts|] == parts;
    }

    /** A block list at an indent. It takes at least the item it is called on. */
    method ReadList(indent: nat) returns (out: seq<Value>)
      requires i <= |lines|
      modifies `i, `lines, `keyLines
      ensures Read(out, i) == ListOf(old(lines), old(i), indent)
      ensures |lines| == |old(lines)| && SameFrom(lines, old(lines), i) && keyLines == old(keyLines)
      ensures NoPlainKey(old(lines), old(i), i)
      decreases |lines| - i, 2
    {
      hide Skipped, IndentOf, Trim, PlainKey, IsItem, NoPlainKey, ListOf, ListSoFar, ItemOf;
      ghost var raw, from := lines, i;
      out := [];
      NoLines(raw, from);
      ListStarts(raw, from, indent);
      while i < |lines|
        invariant from <= i <= |lines| == |raw| && SameFrom(lines, raw, i) && keyLines == old(keyLines)
        invariant NoPlainKey(raw, from, i) && ListSoFar(raw, from, indent, out, i)
        decreases |lines| - i
      {
        ghost var at := i;
        assert lines[i] == raw[at];
        if Skipped(lines[i]) {
          SkippedHasNoKey(lines[i]);
          Passed(keyLines, raw, from, at, at + 1, false);
          ListPasses(raw, from, indent, out, at);
          i := i + 1;
          continue;
        }
        if IndentOf(lines[i]) != indent || !IsItem(lines[i]) {
          break;
        }
        ghost var mid := lines;
        var item := ReadItem(indent);
        SameItem(mid, raw, at, indent);
        SameGaps(mid, raw, at, at, i);
        Passed(keyLines, raw, from, at, i, false);
        ListTakes(raw, from, indent, out, at);
        out := out + [item];
      }
      ListStops(raw, from, indent, out, i);
    }

    /** One item: a mapping below or from its pair on, or a scalar. */
    method ReadItem(indent: nat) returns (item: Value)
      requires i < |lines| && TakesItem(lines[i], indent)
      modifies `i, `lines, `keyLines
      ensures Read(item, i) == ItemOf(old(lines), old(i), indent)
      ensures |lines| == |old(lines)| && SameFrom(lines, old(lines), i) && keyLines == old(keyLines)
      ensures NoPlainKey(old(lines), old(i), i)
      decreases |lines| - i, 1
    {
      hide Skipped, IndentOf, Trim, PlainKey, IsItem, StripComment, Unquote, NoPlainKey, MappingOf;
      ghost var raw, at := lines, i;
      var rest := ItemRest(lines[i]);
      ItemIsNoPlainKey(lines[i]);
      NoLines(raw, at);
      Passed(keyLines, raw, at, at, at + 1, false);
      i := i + 1;
      if rest == "" {
        var fields := ReadMapping(indent + 2, false);
        SameGaps(raw, raw, at + 1, at + 1, i);
        Passed(keyLines, raw, at, at + 1, i, false);
        item := Fields(fields);
      } else if IsPair(rest) {
        lines := lines[i - 1 := PairLine(indent + 2, rest)];
        i := i - 1;
        ghost var mid := lines;
        var fields := ReadMapping(indent + 2, false);
        SameGaps(mid, raw, at, at + 1, i);
        Passed(keyLines, raw, at, at + 1, i, false);
        item := Fields(fields);
      } else {
        item := Unquote(StripComment(rest));
      }
    }

    /** What belongs to a key without a value: a deeper mapping or list, a list at the same indent, or
        nothing. */
    method ReadNested(indent: nat) returns (value: Value)
      requires i <= |lines|
      modifies `i, `lines, `keyLines
      ensures Read(value, i) == NestedOf(old(lines), old(i), indent)
      ensures |lines| == |old(lines)| && SameFrom(lines, old(lines), i) && keyLines == old(keyLines)
      ensures NoPlainKey(old(lines), old(i), i)
      decreases |lines| - i, 3
    {
      hide IndentOf, Trim, PlainKey, IsItem, IsBlank, Skipped;
      var j := i;
      while j < |lines| && IsBlank(lines[j])
        invariant i == old(i) && lines == old(lines) && keyLines == old(keyLines)
        invariant i <= j <= |lines| && NoPlainKey(lines, i, j) && FirstNonBlank(lines, i) == FirstNonBlank(lines, j)
      {
        BlankIsSkipped(lines[j]);
        j := j + 1;
      }
      if j < |lines| && IndentOf(lines[j]) > indent {
        i := j;
        if IsItem(lines[j]) {
          var items := ReadList(IndentOf(lines[j]));
          value := Items(items);
        } else {
          var fields := ReadMapping(IndentOf(lines[j]), false);
          value := Fields(fields);
        }
      } else if j < |lines| && IndentOf(lines[j]) == indent && IsItem(lines[j]) {
        i := j;
        var items := ReadList(indent);
        value := Items(items);
      } else {
        value := Null;
      }
    }

    /** The value behind a key. */
    method ReadValue(indent: nat, r: string) returns (value: Value)
      requires i <= |lines|
      modifies `i, `lines, `keyLines
      ensures Read(value, i) == ValueOf(old(lines), old(i), indent, r)
      ensures |lines| == |old(lines)| && SameFrom(lines, old(lines), i) && keyLines == old(keyLines)
      ensures NoPlainKey(old(lines), old(i), i)
      decreases |lines| - i, 4
    {
      hide BlockText, BlockEnd, Unquote, StripComment;
      if r == "" {
        value := ReadNested(indent);
      } else if IsBlockMark(r) {
        ghost var raw, lo := lines, i;
        var text := ReadBlockScalar(indent, r[0] == '>');
        forall k | lo <= k < i && k < |raw| ensures !PlainKey(raw[k]) {
          if IsBlank(raw[k]) {
            BlankIsSkipped(raw[k]);
          } else {
            DeepHasNoKey(raw[k]);
          }
        }
        value := Text(text);
      } else {
        value := Unquote(StripComment(r));
      }
    }

    /** A mapping at an indent; the top one records where its keys are. It takes the line it is called
        on, if that is indented this far. */
    method ReadMapping(indent: nat, top: bool) returns (out: map<string, Value>)
      requires i <= |lines| && (top <==> indent == 0)
      requires top ==> i == 0 && keyLines == map[]
      modifies `i, `lines, `keyLines
      ensures Read(out, i) == MappingOf(old(lines), old(i), indent)
      ensures |lines| == |old(lines)| && SameFrom(lines, old(lines), i)
      ensures !top ==> keyLines == old(keyLines) && NoPlainKey(old(lines), old(i), i)
      ensures top ==> i == |lines| && keyLines.Keys == out.Keys
      ensures top ==> Sound(keyLines, old(lines), i) && Complete(keyLines, old(lines), i) && Valued(out, keyLines, old(lines))
      decreases |lines| - i, 0
    {
      hide Skipped, IndentOf, Trim, PlainKey, TopKey, HasKey, IsItem, Sound, Complete, Content, ColonOf, NoPlainKey, ValueOf, Valued, RestOf, KeyOf, MappingOf, MapSoFar;
      ghost var raw, from := lines, i;
      out := map[];
      NothingFound(raw);
      NothingHeld(raw);
      NoLines(raw, from);
      MapStarts(raw, from, indent);
      while i < |lines|
        invariant from <= i <= |lines| == |raw| && SameFrom(lines, raw, i) && MapSoFar(raw, from, indent, out, i)
        invariant !top ==> keyLines == old(keyLines) && NoPlainKey(raw, from, i)
        invariant top ==> keyLines.Keys == out.Keys && Sound(keyLines, raw, i) && Complete(keyLines, raw, i) && Valued(out, keyLines, raw)
        decreases |lines| - i
      {
        var l, at := lines[i], i;
        assert l == raw[at];
        var ind := IndentOf(l);
        if Skipped(l) {
          SkippedHasNoKey(l);
          Passed(keyLines, raw, from, at, at + 1, top);
          MapPasses(raw, from, indent, out, at);
          i := i + 1;
          continue;
        }
        if ind < indent {
          break;
        }
        if ind > indent || !HasKey(l) {
          if ind > indent {
            DeepHasNoKey(l);
          } else {
            KeylessHasNoKey(l);
          }
          Passed(keyLines, raw, from, at, at + 1, top);
          MapPasses(raw, from, indent, out, at);
          i := i + 1;
          continue;
        }
        var key := KeyOf(l);
        ghost var before := keyLines;
        if top {
          OneMoreKey(keyLines, raw, at) by { TopHasKey(l); }
          keyLines := keyLines[key := i + 1];
        } else {
          DeepHasNoKey(l);
          Passed(keyLines, raw, from, at, at + 1, top);
        }
        i := i + 1;
        ghost var mid := lines;
        var value := ReadValue(indent, RestOf(l));
        SameValue(mid, raw, at + 1, indent, RestOf(l));
        SameGaps(mid, raw, at + 1, at + 1, i);
        Passed(keyLines, raw, from, at + 1, i, top);
        if top {
          OneMoreValue(out, before, raw, key, at, value);
        }
        MapTakes(raw, from, indent, out, at);
        out := out[key := value];
      }
      MapStops(raw, from, indent, out, i);
    }
  }

  // ----- the readers' loops -------------------------------------------------------------------

  /** What was taken so far, and what the list goes on with, is the list. */
  ghost predicate ListSoFar(lines: seq<string>, from: nat, indent: nat, out: seq<Value>, i: nat)
    requires from <= i <= |lines|
  {
    var more := ListOf(lines, i, indent);
    ListOf(lines, from, indent) == Read(out + more.value, more.next)
  }

  lemma ListStarts(lines: seq<string>, from: nat, indent: nat)
    requires from <= |lines|
    ensures ListSoFar(lines, from, indent, [], from)
  {
    assert [] + ListOf(lines, from, indent).value == ListOf(lines, from, indent).value;
  }

  lemma ListPasses(lines: seq<string>, from: nat, indent: nat, out: seq<Value>, i: nat)
    requires from <= i < |lines| && Skipped(lines[i]) && ListSoFar(lines, from, indent, out, i)
    ensures ListSoFar(lines, from, indent, out, i + 1)
  {
  }

  lemma ListTakes(lines: seq<string>, from: nat, indent: nat, out: seq<Value>, i: nat)
    requires from <= i < |lines| && TakesItem(lines[i], indent) && ListSoFar(lines, from, indent, out, i)
    ensures var item := ItemOf(lines, i, indent); ListSoFar(lines, from, indent, out + [item.value], item.next)
  {
    hide Skipped, IndentOf, IsItem, ItemOf;
    var item := ItemOf(lines, i, indent);
    var more := ListOf(lines, item.next, indent);
    assert ListOf(lines, i, indent) == Read([item.value] + more.value, more.next);
    assert out + ([item.value] + more.value) == out + [item.value] + more.value;
  }

  lemma ListStops(lines: seq<string>, from: nat, indent: nat, out: seq<Value>, i: nat)
    requires from <= i <= |lines| && ListSoFar(lines, from, indent, out, i)
    requires i < |lines| ==> !Skipped(lines[i]) && !TakesItem(lines[i], indent)
    ensures Read(out, i) == ListOf(lines, from, indent)
  {
    assert out + [] == out;
  }

  /** The same for a mapping. */
  ghost predicate MapSoFar(lines: seq<string>, from: nat, indent: nat, out: map<string, Value>, i: nat)
    requires from <= i <= |lines|
  {
    var more := MappingOf(lines, i, indent);
    MappingOf(lines, from, indent) == Read(out + more.value, more.next)
  }

  lemma MapStarts(lines: seq<string>, from: nat, indent: nat)
    requires from <= |lines|
    ensures MapSoFar(lines, from, indent, map[], from)
  {
    assert map[] + MappingOf(lines, from, indent).value == MappingOf(lines, from, indent).value;
  }

  lemma MapPasses(lines: seq<string>, from: nat, indent: nat, out: map<string, Value>, i: nat)
    requires from <= i < |lines| && MapSoFar(lines, from, indent, out, i)
    requires Skipped(lines[i]) || (IndentOf(lines[i]) >= indent && (IndentOf(lines[i]) > indent || !HasKey(lines[i])))
    ensures MapSoFar(lines, from, indent, out, i + 1)
  {
    assert Skipped(lines[i]) ==> !HasKey(lines[i]);
    hide Skipped, IndentOf, HasKey, ValueOf;
  }

  lemma MapTakes(lines: seq<string>, from: nat, indent: nat, out: map<string, Value>, i: nat)
    requires from <= i < |lines| && IndentOf(lines[i]) == indent && HasKey(lines[i]) && MapSoFar(lines, from, indent, out, i)
    ensures var value := ValueOf(lines, i + 1, indent, RestOf(lines[i]));
      MapSoFar(lines, from, indent, out[KeyOf(lines[i]) := value.value], value.next)
  {
    hide Skipped, IndentOf, HasKey, ValueOf, KeyOf, RestOf;
    var key, value := KeyOf(lines[i]), ValueOf(lines, i + 1, indent, RestOf(lines[i]));
    var more := MappingOf(lines, value.next, indent);
    assert MappingOf(lines, i, indent) == Read(map[key := value.value] + more.value, more.next);
    assert out + (map[key := value.value] + more.value) == out[key := value.value] + more.value;
  }

  lemma MapStops(lines: seq<string>, from: nat, indent: nat, out: map<string, Value>, i: nat)
    requires from <= i <= |lines| && MapSoFar(lines, from, indent, out, i)
    requires i < |lines| ==> !Skipped(lines[i]) && IndentOf(lines[i]) < indent
    ensures Read(out, i) == MappingOf(lines, from, indent)
  {
    assert out + map[] == out;
  }

  lemma NoBlockLines(lines: seq<string>, from: nat)
    requires from <= |lines|
    ensures BlockLines(lines, from, from) == [] && BlockIndent(lines, from, from) == -1
  {
  }

  /** How one more line changes the block's indent, and what it adds. */
  lemma NextIndent(lines: seq<string>, from: nat, i: nat)
    requires from <= i < |lines|
    ensures var n, next, l := BlockIndent(lines, from, i), BlockIndent(lines, from, i + 1), lines[i];
      && next == (if n >= 0 || IsBlank(l) then n else IndentOf(l))
      && BlockLine(l, next) == if IsBlank(l) then "" else l[if next < IndentOf(l) then next else IndentOf(l)..]
  {
    hide IsBlank, IndentOf;
  }

  lemma LastChomped(parts: seq<string>)
    ensures Chomped(parts) == if parts != [] && parts[|parts| - 1] == "" then Chomped(parts[..|parts| - 1]) else parts
  {
  }

  lemma NothingFolded()
    ensures FoldedText([]) == ""
  {
  }

  lemma OneMoreFolded(parts: seq<string>, k: nat)
    requires k < |parts|
    ensures var before, last := FoldedText(parts[..k]), parts[k];
      FoldedText(parts[..k + 1]) ==
        if k == 0 then last
        else if last == "" then before + "\n"
        else if before != "" && before[|before| - 1] == '\n' then before + last
        else before + " " + last
  {
    assert parts[..k + 1][..k] == parts[..k];
  }

  lemma NoLines(raw: seq<string>, from: nat)
    ensures NoPlainKey(raw, from, from)
  {
  }

  lemma OneMoreValue(out: map<string, Value>, keyLines: map<string, nat>, raw: seq<string>, key: string, at: nat, value: Value)
    requires Valued(out, keyLines, raw) && at < |raw| && HasKey(raw[at]) && value == ValueOf(raw, at + 1, 0, RestOf(raw[at])).value
    ensures Valued(out[key := value], keyLines[key := at + 1], raw)
  {
    hide HasKey, RestOf, ValueOf;
  }

  lemma NothingHeld(raw: seq<string>)
    ensures Valued(map[], map[], raw)
  {
  }

  lemma TopHasKey(l: string)
    requires HasKey(l) && IndentOf(l) == 0
    ensures TopKey(l)
  {
  }

  /** Going past lines without a plain key keeps what is known. */
  lemma Passed(keyLines: map<string, nat>, raw: seq<string>, from: nat, lo: nat, hi: nat, top: bool)
    requires lo <= hi && forall k :: lo <= k < hi && k < |raw| ==> !PlainKey(raw[k])
    ensures !top && NoPlainKey(raw, from, lo) ==> NoPlainKey(raw, from, hi)
    ensures top && Sound(keyLines, raw, lo) && Complete(keyLines, raw, lo) ==>
      Sound(keyLines, raw, hi) && Complete(keyLines, raw, hi)
  {
    hide PlainKey, Sound, Complete;
    if top && Sound(keyLines, raw, lo) && Complete(keyLines, raw, lo) {
      NothingMore(keyLines, raw, lo, hi);
    }
  }

  lemma SameGaps(mid: seq<string>, raw: seq<string>, from: nat, lo: nat, hi: nat)
    requires from <= lo && SameFrom(mid, raw, lo) && NoPlainKey(mid, from, hi)
    ensures forall k :: lo <= k < hi && k < |raw| ==> !PlainKey(raw[k])
  {
    hide PlainKey;
    forall k | lo <= k < hi && k < |raw| ensures !PlainKey(raw[k]) {
      assert mid[k] == raw[k];
    }
  }

  // ----- the parse ----------------------------------------------------------------------------

  /** Parse a frontmatter: every recorded line holds its key at indent 0, the recorded keys are the keys
      of the result, and every line at indent 0 with a key is recorded, unless a list may take it for an
      item or a later line repeats the key. Every key holds the value at its line, nested ones included. */
  method ParseFrontmatterYaml(raw: string) returns (value: map<string, Value>, keyLines: map<string, nat>)
    ensures keyLines.Keys == value.Keys
    ensures var lines := SplitOn(raw, '\n'); Sound(keyLines, lines, |lines|) && Complete(keyLines, lines, |lines|)
    ensures Valued(value, keyLines, SplitOn(raw, '\n')) && value == MappingOf(SplitOn(raw, '\n'), 0, 0).value
  {
    var p := new Parser(SplitOn(raw, '\n'));
    value := p.ReadMapping(0, true);
    keyLines := p.keyLines;
  }

  // ----- as one scan --------------------------------------------------------------------------

  /** The last line of each top-level key, found line by line without regard to nesting. */
  function TopKeys(lines: seq<string>): map<string, nat> {
    if lines == [] then map[]
    else
      var n := |lines| - 1;
      if TopKey(lines[n]) then TopKeys(lines[..n])[KeyOf(lines[n]) := n + 1] else TopKeys(lines[..n])
  }

  /** No line is read as a key by a mapping and as an item by a list. */
  predicate Unambiguous(lines: seq<string>) {
    forall k :: 0 <= k < |lines| && TopKey(lines[k]) ==> !IsItem(lines[k])
  }

  /** The scan finds what `Sound` and `Complete` say, so of unambiguous lines the parser's recursion
      records exactly what the scan does. */
  lemma {:induction false} ScanExact(lines: seq<string>, keyLines: map<string, nat>)
    requires Unambiguous(lines) && Sound(keyLines, lines, |lines|) && Complete(keyLines, lines, |lines|)
    ensures keyLines == TopKeys(lines)
  {
    hide TopKey, HasKey, IsItem, KeyOf;
    ScanSound(lines);
    var scan := TopKeys(lines);
    forall key | key in keyLines ensures key in scan && scan[key] >= keyLines[key] {
      var k := keyLines[key] - 1;
      assert TopKey(lines[k]);
      ScanLast(lines, k);
    }
    forall key | key in scan ensures key in keyLines && keyLines[key] >= scan[key] {
      var k := scan[key] - 1;
      assert TopKey(lines[k]) && !IsItem(lines[k]);
      assert PlainKey(lines[k]);
    }
  }

  lemma {:induction false} ScanSound(lines: seq<string>)
    ensures Sound(TopKeys(lines), lines, |lines|)
  {
    hide TopKey, HasKey, KeyOf;
    if lines != [] {
      ScanSound(lines[..|lines| - 1]);
    }
  }

  lemma {:induction false} ScanLast(lines: seq<string>, k: nat)
    requires k < |lines| && TopKey(lines[k])
    ensures KeyOf(lines[k]) in TopKeys(lines) && TopKeys(lines)[KeyOf(lines[k])] >= k + 1
  {
    hide HasKey, KeyOf, IndentOf;
    var n := |lines| - 1;
    if k < n {
      ScanLast(lines[..n], k);
    }
  }
}
