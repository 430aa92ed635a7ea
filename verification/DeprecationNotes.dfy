/**
 The neutralized note (`neutralizeComments` of packages/shared/src/deprecation.ts): it never contains
 a comment opener, so it cannot forge a banner marker, but a terminator can survive.
 */
module DeprecationNotes {
  import opened TextLines
  import opened Deprecation

  // ----- openers ------------------------------------------------------------------------------

  /** The character at k, a blank past the end. */
  function CharAt(s: string, k: nat): char {
    if k < |s| then s[k] else ' '
  }

  lemma AtChars(s: string, pat: string, i: nat)
    requires ' ' !in pat && 2 <= |pat| <= 4
    ensures At(s, pat, i) <==>
      && CharAt(s, i) == pat[0] && CharAt(s, i + 1) == pat[1]
      && (|pat| > 2 ==> CharAt(s, i + 2) == pat[2]) && (|pat| > 3 ==> CharAt(s, i + 3) == pat[3])
  {
    assert forall k :: 0 <= k < |pat| ==> pat[k] in pat;
    if At(s, pat, i) {
      forall k: nat | k < |pat| ensures CharAt(s, i + k) == pat[k] {
        AtChar(s, pat, i, k);
      }
    }
  }

  /** The tokens at the front, by their characters. */
  lemma Tokens(s: string)
    ensures At(s, "<!--", 0) <==> CharAt(s, 0) == '<' && CharAt(s, 1) == '!' && CharAt(s, 2) == '-' && CharAt(s, 3) == '-'
    ensures At(s, "-->", 0) <==> CharAt(s, 0) == '-' && CharAt(s, 1) == '-' && CharAt(s, 2) == '>'
    ensures At(s, "--!>", 0) <==> CharAt(s, 0) == '-' && CharAt(s, 1) == '-' && CharAt(s, 2) == '!' && CharAt(s, 3) == '>'
  {
    AtChars(s, "<!--", 0);
    AtChars(s, "-->", 0);
    AtChars(s, "--!>", 0);
  }

  predicate IsToken(s: string) {
    At(s, "<!--", 0) || At(s, "-->", 0) || At(s, "--!>", 0)
  }

  /** A character that starts no token is emitted as it is. */
  lemma Raw(s: string)
    requires s != "" && !IsToken(s)
    ensures Neutralize(s) == [s[0]] + Neutralize(s[1..])
    ensures forall k: nat :: CharAt(Neutralize(s), k + 1) == CharAt(Neutralize(s[1..]), k)
    ensures forall k: nat :: CharAt(s, k + 1) == CharAt(s[1..], k)
  {
  }

  /** Emitted text starts as its source does. */
  lemma SameStart(s: string)
    ensures CharAt(Neutralize(s), 0) == CharAt(s, 0)
  {
  }

  lemma TokenSecond(s: string)
    requires IsToken(s)
    ensures s[0] == '-' ==> CharAt(Neutralize(s), 1) == ' '
    ensures s[0] == '<' ==> CharAt(Neutralize(s), 3) == ' '
    ensures s[0] == '-' || s[0] == '<'
  {
    Tokens(s);
  }

  lemma DashesStart(s: string)
    requires CharAt(Neutralize(s), 0) == '-' && CharAt(Neutralize(s), 1) == '-'
    ensures CharAt(s, 0) == '-' && CharAt(s, 1) == '-'
  {
    hide Neutralize;
    EmptyNote();
    SameStart(s);
    if s != "" && IsToken(s) {
      Tokens(s);
      TokenSecond(s);
    } else if s != "" {
      Raw(s);
      assert CharAt(Neutralize(s), 0 + 1) == CharAt(Neutralize(s[1..]), 0);
      SameStart(s[1..]);
      assert CharAt(s, 0 + 1) == CharAt(s[1..], 0);
    }
  }

  /** No emitted text starts with an opener. */
  lemma NoOpenerStart(s: string)
    ensures !At(Neutralize(s), "<!--", 0)
  {
    hide Neutralize;
    var n := Neutralize(s);
    if At(n, "<!--", 0) {
      Tokens(n);
      SameStart(s);
      Tokens(s);
      if IsToken(s) {
        TokenSecond(s);
      } else {
        Raw(s);
        var t := s[1..];
        assert CharAt(n, 0 + 1) == CharAt(Neutralize(t), 0) && CharAt(n, 1 + 1) == CharAt(Neutralize(t), 1)
          && CharAt(n, 2 + 1) == CharAt(Neutralize(t), 2);
        SameStart(t);
        Tokens(t);
        Raw(t);
        assert CharAt(Neutralize(t), 0 + 1) == CharAt(Neutralize(t[1..]), 0);
        assert CharAt(Neutralize(t), 1 + 1) == CharAt(Neutralize(t[1..]), 1);
        DashesStart(t[1..]);
      }
    }
  }

  /** The first token of the text as it is emitted, and the text after it. */
  lemma Cut(s: string) returns (token: string, rest: string)
    requires s != ""
    ensures |rest| < |s| && Neutralize(s) == token + Neutralize(rest)
    ensures token != "" && forall i :: 1 <= i < |token| ==> token[i] != '<'
  {
    if At(s, "<!--", 0) {
      token, rest := "<!- -", s[4..];
    } else if At(s, "-->", 0) {
      token, rest := "- ->", s[3..];
    } else if At(s, "--!>", 0) {
      token, rest := "- -!>", s[4..];
    } else {
      token, rest := [s[0]], s[1..];
    }
  }

  /** No neutralized note contains a comment opener. */
  lemma {:induction false} NoteHasNoOpener(s: string)
    ensures Free(Neutralize(s), "<!--")
    decreases |s|
  {
    hide Neutralize;
    if s == "" {
      assert Neutralize("") == "" by { SameStart(""); EmptyNote(); }
    } else {
      var token, rest := Cut(s);
      NoteHasNoOpener(rest);
      NoOpenerStart(s);
      forall i ensures !At(Neutralize(s), "<!--", i) {
        if At(Neutralize(s), "<!--", i) {
          AtChar(Neutralize(s), "<!--", i, 0);
          if i >= |token| {
            AtRight(token, Neutralize(rest), "<!--", i - |token|);
          }
        }
      }
    }
  }

  lemma EmptyNote()
    ensures Neutralize("") == ""
  {
  }

  // ----- terminators --------------------------------------------------------------------------

  /** A comment terminator, in either form, starts at i. */
  predicate EndsAt(s: string, i: int) {
    At(s, "-->", i) || At(s, "--!>", i)
  }

  /** A comment opener with the tail of a terminator right behind it starts at i. */
  predicate OverlapAt(s: string, i: int) {
    At(s, "<!--", i) && (At(s, "->", i + 4) || At(s, "-!>", i + 4))
  }

  ghost predicate HasEnd(s: string) { exists i :: EndsAt(s, i) }

  ghost predicate HasOverlap(s: string) { exists i :: OverlapAt(s, i) }

  lemma EndsShift(a: string, b: string, i: nat)
    ensures EndsAt(a + b, |a| + i) <==> EndsAt(b, i)
    ensures OverlapAt(a + b, |a| + i) <==> OverlapAt(b, i)
  {
    AtRight(a, b, "-->", i);
    AtRight(a, b, "--!>", i);
    AtRight(a, b, "<!--", i);
    AtRight(a, b, "->", i + 4);
    AtRight(a, b, "-!>", i + 4);
  }

  /** A text has what its second part has, and what starts in its first part. */
  lemma CutEnds(a: string, b: string)
    ensures HasEnd(a + b) <==> HasEnd(b) || exists i :: 0 <= i < |a| && EndsAt(a + b, i)
    ensures HasOverlap(a + b) <==> HasOverlap(b) || exists i :: 0 <= i < |a| && OverlapAt(a + b, i)
  {
    hide EndsAt, OverlapAt;
    if i :| EndsAt(b, i) {
      assert i >= 0 by { NotBefore(b, i); }
      EndsShift(a, b, i);
    }
    if i :| OverlapAt(b, i) {
      assert i >= 0 by { NotBefore(b, i); }
      EndsShift(a, b, i);
    }
    if i :| EndsAt(a + b, i) {
      assert i >= 0 by { NotBefore(a + b, i); }
      if i >= |a| { EndsShift(a, b, i - |a|); }
    }
    if i :| OverlapAt(a + b, i) {
      assert i >= 0 by { NotBefore(a + b, i); }
      if i >= |a| { EndsShift(a, b, i - |a|); }
    }
  }

  lemma NotBefore(s: string, i: int)
    ensures EndsAt(s, i) || OverlapAt(s, i) ==> i >= 0
  {
  }

  /** Both by their characters. */
  lemma EndsChars(s: string, i: nat)
    ensures EndsAt(s, i) <==>
      && CharAt(s, i) == '-' && CharAt(s, i + 1) == '-'
      && (CharAt(s, i + 2) == '>' || (CharAt(s, i + 2) == '!' && CharAt(s, i + 3) == '>'))
    ensures OverlapAt(s, i) ==> CharAt(s, i) == '<' && At(s, "<!--", i)
    ensures OverlapAt(s, i) <==> At(s, "<!--", i) && TailAt(s, i + 4)
  {
    AtChars(s, "-->", i);
    AtChars(s, "--!>", i);
    AtChars(s, "<!--", i);
    AtChars(s, "->", i + 4);
    AtChars(s, "-!>", i + 4);
  }

  /** A terminator's tail. */
  predicate TailAt(s: string, i: nat) {
    CharAt(s, i) == '-' && (CharAt(s, i + 1) == '>' || (CharAt(s, i + 1) == '!' && CharAt(s, i + 2) == '>'))
  }

  /** Emitted text starts with a terminator's tail exactly when its source does. */
  lemma TailStarts(s: string)
    ensures TailAt(Neutralize(s), 0) <==> TailAt(s, 0)
  {
    hide Neutralize, CharAt;
    SameStart(s);
    EmptyNote();
    if s != "" && IsToken(s) {
      Tokens(s);
      TokenSecond(s);
    } else if s != "" {
      Raw(s);
      var t, n := s[1..], Neutralize(s);
      SameStart(t);
      assert CharAt(n, 0 + 1) == CharAt(Neutralize(t), 0) && CharAt(n, 1 + 1) == CharAt(Neutralize(t), 1);
      assert CharAt(s, 0 + 1) == CharAt(t, 0) && CharAt(s, 1 + 1) == CharAt(t, 1);
      Bang(t);
    }
  }

  lemma Bang(t: string)
    ensures CharAt(t, 0) == '!' ==> CharAt(Neutralize(t), 1) == CharAt(t, 1)
  {
    if CharAt(t, 0) == '!' {
      Tokens(t);
      Raw(t);
      assert CharAt(Neutralize(t), 0 + 1) == CharAt(Neutralize(t[1..]), 0);
      assert CharAt(t, 0 + 1) == CharAt(t[1..], 0);
      SameStart(t[1..]);
    }
  }

  /** The documented promise that both comment terminators are broken fails: the opener is broken, and
      what is left of it completes a terminator. */
  lemma TerminatorSurvives()
    ensures HasOverlap("<!--->") && HasEnd(Neutralize("<!--->"))
  {
    assert OverlapAt("<!--->", 0) by { EndsChars("<!--->", 0); AtChars("<!--->", "<!--", 0); }
    TerminatorsBroken("<!--->");
  }

  /** A note's terminators are all broken if and only if no opener in it overlaps one. */
  lemma {:induction false} TerminatorsBroken(s: string)
    ensures HasEnd(Neutralize(s)) <==> HasOverlap(s)
    decreases |s|
  {
    hide Neutralize, EndsAt, OverlapAt, HasEnd, HasOverlap;
    if s == "" {
      EmptyNote();
      NothingInEmpty();
    } else {
      var k := if At(s, "<!--", 0) then 4 else if At(s, "-->", 0) then 3 else if At(s, "--!>", 0) then 4 else 1;
      var rest := s[k..];
      TerminatorsBroken(rest);
      assert s == s[..k] + rest;
      CutEnds(s[..k], rest);
      OverlapInFront(s, k);
      TokenEnds(s, k);
    }
  }

  lemma NothingInEmpty()
    ensures !HasEnd("") && !HasOverlap("")
  {
  }

  /** Within the first token of s an overlap can only start at its first character. */
  lemma OverlapInFront(s: string, k: nat)
    requires s != "" && k == if At(s, "<!--", 0) then 4 else if At(s, "-->", 0) then 3 else if At(s, "--!>", 0) then 4 else 1
    ensures (exists i :: 0 <= i < k && OverlapAt(s, i)) <==> At(s, "<!--", 0) && TailAt(s, 4)
  {
    Tokens(s);
    EndsChars(s, 0);
    if At(s, "<!--", 0) && TailAt(s, 4) {
      assert OverlapAt(s, 0);
    }
    if i :| 0 <= i < k && OverlapAt(s, i) {
      EndsChars(s, i);
      assert i == 0;
    }
  }

  /** The emitted token is followed by what the rest emits. */
  lemma CharsBehind(a: string, b: string, k: nat)
    ensures CharAt(a + b, |a| + k) == CharAt(b, k)
    ensures k < |a| ==> CharAt(a + b, k) == a[k]
  {
  }

  /** Within a broken token a terminator can only start at its last character. */
  lemma BrokenToken(token: string, n: string)
    requires token == "<!- -" || token == "- ->" || token == "- -!>"
    ensures (exists i :: 0 <= i < |token| && EndsAt(token + n, i)) <==> token == "<!- -" && TailAt(n, 0)
  {
    hide CharAt;
    var e := token + n;
    forall i: nat | i < |token| ensures EndsAt(e, i) <==> i == 4 && token == "<!- -" && TailAt(n, 0) {
      EndsChars(e, i);
      CharsBehind(token, n, i);
      CharsBehind(token, n, i + 1);
      CharsBehind(token, n, i + 2);
      if i == |token| - 1 {
        CharsBehind(token, n, 0);
        CharsBehind(token, n, 1);
        CharsBehind(token, n, 2);
      }
    }
    if token == "<!- -" && TailAt(n, 0) {
      assert EndsAt(e, 4);
    }
  }

  /** Within the first emitted token a terminator starts exactly when a broken opener meets a tail. */
  lemma TokenEnds(s: string, k: nat)
    requires s != "" && k == if At(s, "<!--", 0) then 4 else if At(s, "-->", 0) then 3 else if At(s, "--!>", 0) then 4 else 1
    ensures HasEnd(Neutralize(s)) <==> HasEnd(Neutralize(s[k..])) || (At(s, "<!--", 0) && TailAt(s, 4))
  {
    hide HasEnd, HasOverlap, EndsAt, TailAt;
    var rest := s[k..];
    var n := Neutralize(rest);
    Tokens(s);
    TailStarts(rest);
    if IsToken(s) {
      var token := if At(s, "<!--", 0) then "<!- -" else if At(s, "-->", 0) then "- ->" else "- -!>";
      assert Neutralize(s) == token + n;
      CutEnds(token, n);
      BrokenToken(token, n);
      TailAfter(s, k);
    } else {
      CutEnds([s[0]], n);
      RawEnds(s);
    }
  }

  lemma TailAfter(s: string, k: nat)
    requires k <= |s|
    ensures TailAt(s[k..], 0) <==> TailAt(s, k)
  {
  }

  /** No terminator starts at a character that starts no token. */
  lemma RawEnds(s: string)
    requires s != "" && !IsToken(s)
    ensures Neutralize(s) == [s[0]] + Neutralize(s[1..]) && !EndsAt(Neutralize(s), 0)
  {
    hide Neutralize;
    Raw(s);
    var n := Neutralize(s);
    EndsChars(n, 0);
    EndsChars(s, 0);
    TailStarts(s[1..]);
    assert CharAt(n, 0 + 1) == CharAt(Neutralize(s[1..]), 0);
    assert CharAt(n, 1 + 1) == CharAt(Neutralize(s[1..]), 1);
    assert CharAt(n, 2 + 1) == CharAt(Neutralize(s[1..]), 2);
    assert EndsAt(n, 0) ==> TailAt(s[1..], 0);
    TailAfter(s, 1);
  }
}
