/**
 Version precedence (packages/shared/src/semver.ts): the comparison, proved to be the order of section
 11 of Semantic Versioning 2.0.0, and the selections that rely on its being one. Versions are taken as
 parsed; an entry that does not parse is `None`.
 */
module Semver {
  import opened Common

  /** A version as its grammar splits it. Pre-release and build are dot-separated identifiers. */
  datatype Version = Version(major: nat, minor: nat, patch: nat, prerelease: seq<string>, build: seq<string>)

  // ----- identifiers --------------------------------------------------------------------------

  predicate IsDigit(c: char) { '0' <= c <= '9' }

  /** `^\d+$` */
  predicate IsNumeric(s: string) { s != "" && forall i :: 0 <= i < |s| ==> IsDigit(s[i]) }

  predicate IsIdentifierChar(c: char) { IsDigit(c) || 'A' <= c <= 'Z' || 'a' <= c <= 'z' || c == '-' }

  /** A pre-release identifier: not empty, and without leading zeros when numeric. */
  predicate IsIdentifier(s: string) {
    && s != "" && (forall i :: 0 <= i < |s| ==> IsIdentifierChar(s[i]))
    && (IsNumeric(s) && |s| > 1 ==> s[0] != '0')
  }

  predicate IsValid(v: Version) {
    forall i :: 0 <= i < |v.prerelease| ==> IsIdentifier(v.prerelease[i])
  }

  /** `Number(s)` of digits. */
  function ValueOf(s: string): nat
    requires forall i :: 0 <= i < |s| ==> IsDigit(s[i])
  {
    if s == "" then 0
    else
      assert IsDigit(s[|s| - 1]);
      ValueOf(s[..|s| - 1]) * 10 + (s[|s| - 1] as int - '0' as int)
  }

  function PowerOfTen(n: nat): nat { if n == 0 then 1 else 10 * PowerOfTen(n - 1) }

  /** Digits without a leading zero say how many they are. */
  lemma {:induction false} ValueBounds(s: string)
    requires IsNumeric(s)
    ensures ValueOf(s) < PowerOfTen(|s|)
    ensures s[0] != '0' ==> ValueOf(s) >= PowerOfTen(|s| - 1)
  {
    if |s| > 1 {
      ValueBounds(s[..|s| - 1]);
    } else {
      assert s[..0] == "";
      assert PowerOfTen(1) == 10 * PowerOfTen(0);
    }
  }

  lemma {:induction false} PowersGrow(m: nat, n: nat)
    ensures m <= n ==> PowerOfTen(m) <= PowerOfTen(n)
  {
    if m < n {
      PowersGrow(m, n - 1);
    }
  }

  /** Of equally many digits, different ones have different values. */
  lemma {:induction false} SameLengthInjective(a: string, b: string)
    requires |a| == |b| && (forall i :: 0 <= i < |a| ==> IsDigit(a[i]) && IsDigit(b[i])) && ValueOf(a) == ValueOf(b)
    ensures a == b
  {
    if a != "" {
      var n := |a| - 1;
      SameLengthInjective(a[..n], b[..n]);
      assert a == a[..n] + [a[n]] && b == b[..n] + [b[n]];
    }
  }

  /** Numeric identifiers without leading zeros are equal when their values are. */
  lemma NumberInjective(a: string, b: string)
    requires IsIdentifier(a) && IsIdentifier(b) && IsNumeric(a) && IsNumeric(b) && ValueOf(a) == ValueOf(b)
    ensures a == b
  {
    ValueBounds(a);
    ValueBounds(b);
    PowersGrow(|a|, |b| - 1);
    PowersGrow(|b|, |a| - 1);
    if |a| == |b| {
      SameLengthInjective(a, b);
    }
  }

  /** Strings compared by their characters. */
  function Lexical(a: string, b: string): int {
    if a == "" && b == "" then 0
    else if a == "" then -1
    else if b == "" then 1
    else if a[0] != b[0] then (if a[0] < b[0] then -1 else 1)
    else Lexical(a[1..], b[1..])
  }

  function Sign(n: int): int { if n < 0 then -1 else if n > 0 then 1 else 0 }

  /** Two identifiers: numeric ones by value and below the others, the others by their characters. */
  function CompareIdentifiers(x: string, y: string): int {
    if IsNumeric(x) && IsNumeric(y) then Sign(ValueOf(x) - ValueOf(y))
    else if IsNumeric(x) then -1
    else if IsNumeric(y) then 1
    else Lexical(x, y)
  }

  function ComparePrereleases(xs: seq<string>, ys: seq<string>): int {
    if xs == [] && ys == [] then 0
    else if xs == [] then -1
    else if ys == [] then 1
    else if CompareIdentifiers(xs[0], ys[0]) != 0 then CompareIdentifiers(xs[0], ys[0])
    else ComparePrereleases(xs[1..], ys[1..])
  }

  /** -1, 0 or 1. */
  function Compare(a: Version, b: Version): int {
    if a.major != b.major then Sign(a.major - b.major)
    else if a.minor != b.minor then Sign(a.minor - b.minor)
    else if a.patch != b.patch then Sign(a.patch - b.patch)
    else if a.prerelease == [] && b.prerelease == [] then 0
    else if a.prerelease == [] then 1
    else if b.prerelease == [] then -1
    else ComparePrereleases(a.prerelease, b.prerelease)
  }

  /** The comparison as the code loops over the identifiers. */
  method CompareSemver(a: Version, b: Version) returns (c: int)
    ensures c == Compare(a, b)
  {
    if a.major != b.major { return if a.major < b.major then -1 else 1; }
    if a.minor != b.minor { return if a.minor < b.minor then -1 else 1; }
    if a.patch != b.patch { return if a.patch < b.patch then -1 else 1; }
    var xs, ys := a.prerelease, b.prerelease;
    if xs == [] && ys == [] { return 0; }
    if xs == [] { return 1; }
    if ys == [] { return -1; }
    var n := Max(|xs|, |ys|);
    var i := 0;
    while i < n
      invariant 0 <= i <= n && i <= |xs| && i <= |ys|
      invariant ComparePrereleases(xs, ys) == ComparePrereleases(xs[i..], ys[i..])
    {
      hide CompareIdentifiers;
      if i >= |xs| { return -1; }
      if i >= |ys| { return 1; }
      assert xs[i..][0] == xs[i] && ys[i..][0] == ys[i];
      assert xs[i..][1..] == xs[i + 1..] && ys[i..][1..] == ys[i + 1..];
      var d := CompareIdentifiers(xs[i], ys[i]);
      if d != 0 { return d; }
      i := i + 1;
    }
    c := 0;
  }

  // ----- section 11 ---------------------------------------------------------------------------

  /** Decided at the first difference; of two that agree as far as the shorter goes, the longer is
      higher. */
  ghost predicate Precedes<T(!new)>(a: seq<T>, b: seq<T>, less: (T, T) -> bool) {
    exists n ::
      && 0 <= n <= |a| && n <= |b| && a[..n] == b[..n]
      && (if n == |a| then n < |b| else n < |b| && less(a[n], b[n]))
  }

  lemma PrecedesEmpty<T(!new)>(a: seq<T>, b: seq<T>, less: (T, T) -> bool)
    ensures a == [] ==> (Precedes(a, b, less) <==> b != [])
    ensures b == [] ==> !Precedes(a, b, less)
  {
    assert a == [] ==> a[..0] == b[..0];
  }

  lemma PrecedesHead<T(!new)>(a: seq<T>, b: seq<T>, less: (T, T) -> bool)
    requires a != [] && b != [] && a[0] != b[0]
    ensures Precedes(a, b, less) <==> less(a[0], b[0])
  {
    assert a[..0] == b[..0];
    forall n | 0 < n <= |a| && n <= |b| ensures a[..n] != b[..n] {
      assert a[..n][0] != b[..n][0];
    }
  }

  lemma PrecedesTail<T(!new)>(a: seq<T>, b: seq<T>, less: (T, T) -> bool)
    requires a != [] && b != [] && a[0] == b[0] && !less(a[0], b[0])
    ensures Precedes(a, b, less) <==> Precedes(a[1..], b[1..], less)
  {
    var s, t := a[1..], b[1..];
    if Precedes(s, t, less) {
      var n :| 0 <= n <= |s| && n <= |t| && s[..n] == t[..n] && (if n == |s| then n < |t| else n < |t| && less(s[n], t[n]));
      assert a[..n + 1] == [a[0]] + s[..n] && b[..n + 1] == [b[0]] + t[..n];
    }
    if Precedes(a, b, less) {
      var n :| 0 <= n <= |a| && n <= |b| && a[..n] == b[..n] && (if n == |a| then n < |b| else n < |b| && less(a[n], b[n]));
      assert s[..n - 1] == a[..n][1..] && t[..n - 1] == b[..n][1..];
    }
  }

  function CharLess(): (char, char) -> bool { (x: char, y: char) => x < y }

  /** Section 11.4: digits compare numerically, others lexically, and digits are lower than others. */
  ghost predicate IdentifierLower(x: string, y: string) {
    if IsNumeric(x) then (if IsNumeric(y) then ValueOf(x) < ValueOf(y) else true)
    else !IsNumeric(y) && Precedes(x, y, CharLess())
  }

  ghost function IdentifierLess(): (string, string) -> bool { (x: string, y: string) => IdentifierLower(x, y) }

  /** Section 11.4: decided by the first different identifier; of equal ones more are higher. */
  ghost predicate PrereleaseLower(xs: seq<string>, ys: seq<string>) {
    Precedes(xs, ys, IdentifierLess())
  }

  /** Section 11: major, minor and patch numerically, then a pre-release below its release, then
      pre-releases among each other; build metadata does not count. */
  ghost predicate Lower(a: Version, b: Version) {
    || a.major < b.major
    || (a.major == b.major && a.minor < b.minor)
    || (a.major == b.major && a.minor == b.minor && a.patch < b.patch)
    || (a.major == b.major && a.minor == b.minor && a.patch == b.patch && a.prerelease != []
        && (b.prerelease == [] || PrereleaseLower(a.prerelease, b.prerelease)))
  }

  lemma {:induction false} LexicalIs(a: string, b: string)
    ensures Lexical(a, b) < 0 <==> Precedes(a, b, CharLess())
    ensures Lexical(a, b) == 0 <==> a == b
    ensures Lexical(b, a) == -Lexical(a, b)
    ensures -1 <= Lexical(a, b) <= 1
  {
    hide Precedes;
    var less := CharLess();
    PrecedesEmpty(a, b, less);
    if a != "" && b != "" {
      if a[0] != b[0] {
        PrecedesHead(a, b, less);
      } else {
        LexicalIs(a[1..], b[1..]);
        PrecedesTail(a, b, less);
        assert a == [a[0]] + a[1..] && b == [b[0]] + b[1..];
      }
    }
  }

  lemma IdentifiersIs(x: string, y: string)
    requires IsIdentifier(x) && IsIdentifier(y)
    ensures CompareIdentifiers(x, y) < 0 <==> IdentifierLower(x, y)
    ensures CompareIdentifiers(x, y) == 0 <==> x == y
    ensures CompareIdentifiers(y, x) == -CompareIdentifiers(x, y)
    ensures -1 <= CompareIdentifiers(x, y) <= 1
  {
    LexicalIs(x, y);
    if IsNumeric(x) && IsNumeric(y) && ValueOf(x) == ValueOf(y) {
      NumberInjective(x, y);
    }
  }

  predicate AllIdentifiers(xs: seq<string>) { forall i :: 0 <= i < |xs| ==> IsIdentifier(xs[i]) }

  lemma {:induction false} PrereleasesIs(xs: seq<string>, ys: seq<string>)
    requires AllIdentifiers(xs) && AllIdentifiers(ys)
    ensures ComparePrereleases(xs, ys) < 0 <==> PrereleaseLower(xs, ys)
    ensures ComparePrereleases(xs, ys) == 0 <==> xs == ys
    ensures ComparePrereleases(ys, xs) == -ComparePrereleases(xs, ys)
    ensures -1 <= ComparePrereleases(xs, ys) <= 1
  {
    hide CompareIdentifiers, IdentifierLower, IsIdentifier, Precedes;
    var less := IdentifierLess();
    PrecedesEmpty(xs, ys, less);
    if xs != [] && ys != [] {
      var x, y := xs[0], ys[0];
      IdentifiersIs(x, y);
      if x != y {
        PrecedesHead(xs, ys, less);
      } else {
        PrereleasesIs(xs[1..], ys[1..]);
        PrecedesTail(xs, ys, less);
        assert xs == [x] + xs[1..] && ys == [y] + ys[1..];
      }
    }
  }

  predicate SameButBuild(a: Version, b: Version) { a.(build := b.build) == b }

  /** The comparison is the precedence of section 11, and calls equal exactly the versions that differ in
      build metadata only. */
  lemma CompareIsPrecedence(a: Version, b: Version)
    requires IsValid(a) && IsValid(b)
    ensures Compare(a, b) < 0 <==> Lower(a, b)
    ensures Compare(a, b) > 0 <==> Lower(b, a)
    ensures Compare(a, b) == 0 <==> SameButBuild(a, b)
    ensures Compare(b, a) == -Compare(a, b) && -1 <= Compare(a, b) <= 1
  {
    PrereleasesIs(a.prerelease, b.prerelease);
    PrereleasesIs(b.prerelease, a.prerelease);
  }

  lemma {:induction false} LexicalTransitive(a: string, b: string, c: string)
    requires Lexical(a, b) <= 0 && Lexical(b, c) <= 0
    ensures Lexical(a, c) <= 0
  {
    if a != "" && b != "" && c != "" && a[0] == b[0] == c[0] {
      LexicalTransitive(a[1..], b[1..], c[1..]);
    }
  }

  lemma IdentifiersTransitive(x: string, y: string, z: string)
    requires CompareIdentifiers(x, y) <= 0 && CompareIdentifiers(y, z) <= 0
    ensures CompareIdentifiers(x, z) <= 0
  {
    if !IsNumeric(x) && !IsNumeric(y) && !IsNumeric(z) {
      LexicalTransitive(x, y, z);
    }
  }

  lemma {:induction false} PrereleasesTransitive(xs: seq<string>, ys: seq<string>, zs: seq<string>)
    requires AllIdentifiers(xs) && AllIdentifiers(ys) && AllIdentifiers(zs)
    requires ComparePrereleases(xs, ys) <= 0 && ComparePrereleases(ys, zs) <= 0
    ensures ComparePrereleases(xs, zs) <= 0
  {
    hide CompareIdentifiers, IsIdentifier;
    if xs != [] && ys != [] && zs != [] {
      var x, y, z := xs[0], ys[0], zs[0];
      IdentifiersIs(x, y);
      IdentifiersIs(y, z);
      IdentifiersIs(x, z);
      IdentifiersTransitive(x, y, z);
      if x == y == z {
        PrereleasesTransitive(xs[1..], ys[1..], zs[1..]);
      } else if x == z {
        assert CompareIdentifiers(z, y) <= 0 || CompareIdentifiers(y, z) <= 0;
        IdentifiersIs(z, y);
      }
    }
  }

  /** It is a total preorder: reflexive and total by `CompareIsPrecedence`, and transitive. */
  lemma CompareTransitive(a: Version, b: Version, c: Version)
    requires IsValid(a) && IsValid(b) && IsValid(c) && Compare(a, b) <= 0 && Compare(b, c) <= 0
    ensures Compare(a, c) <= 0
    ensures Compare(a, b) < 0 || Compare(b, c) < 0 ==> Compare(a, c) < 0
  {
    hide ComparePrereleases, IsIdentifier;
    PreTransitive(a.prerelease, b.prerelease, c.prerelease);
    CompareIsPrecedence(a, c);
    CompareIsPrecedence(a, b);
    CompareIsPrecedence(b, c);
  }

  lemma PreTransitive(xs: seq<string>, ys: seq<string>, zs: seq<string>)
    requires AllIdentifiers(xs) && AllIdentifiers(ys) && AllIdentifiers(zs)
    ensures ComparePrereleases(xs, ys) <= 0 && ComparePrereleases(ys, zs) <= 0 ==> ComparePrereleases(xs, zs) <= 0
  {
    if ComparePrereleases(xs, ys) <= 0 && ComparePrereleases(ys, zs) <= 0 {
      PrereleasesTransitive(xs, ys, zs);
    }
  }
}
