/** Release version precedence: parsing, normalisation and comparison, against the
  precedence rules of section 11 of Semantic Versioning 2.0.0.
*/
module Versions {
  import opened Optional

  const UINT64_LIMIT: nat := 0x1_0000_0000_0000_0000

  /** `prerelease` is empty for a normal release. */
  datatype Version = Version(major: nat, minor: nat, patch: nat, prerelease: string)

  // ------------------------------------------------------------------ strings

  predicate IsDigit(c: char) { '0' <= c <= '9' }

  predicate IsNumeric(s: string) { s != [] && forall c | c in s :: IsDigit(c) }

  predicate IsIdentifierChar(c: char) {
    IsDigit(c) || 'a' <= c <= 'z' || 'A' <= c <= 'Z' || c == '-'
  }

  predicate NoLeadingZero(s: string) { |s| <= 1 || s[0] != '0' }

  predicate IsFirst(s: string, c: char, i: int) { 0 <= i < |s| && s[i] == c && c !in s[..i] }

  lemma {:induction false} FirstExists(s: string, c: char)
    requires c in s
    ensures exists i :: IsFirst(s, c, i)
  {
    if s[0] == c {
      assert IsFirst(s, c, 0);
    } else {
      assert s == [s[0]] + s[1..];
      FirstExists(s[1..], c);
      var i :| IsFirst(s[1..], c, i);
      assert s[..i + 1] == [s[0]] + s[1..][..i];
      assert IsFirst(s, c, i + 1);
    }
  }

  lemma FirstIsUnique(s: string, c: char, i: int, j: int)
    requires IsFirst(s, c, i) && IsFirst(s, c, j)
    ensures i == j
  {
    assert forall k, n | 0 <= k < n <= |s| :: s[..n][k] == s[k];
  }

  /** The position of the first `c`, or -1. */
  function IndexOf(s: string, c: char): (r: int)
    ensures r == -1 <==> c !in s
    ensures r != -1 ==> IsFirst(s, c, r)
  {
    if c !in s then -1
    else
      FirstExists(s, c);
      assert forall i, j | IsFirst(s, c, i) && IsFirst(s, c, j) :: i == j by {
        forall i, j | IsFirst(s, c, i) && IsFirst(s, c, j) ensures i == j { FirstIsUnique(s, c, i, j); }
      }
      var i :| IsFirst(s, c, i);
      i
  }

  function Split(s: string, c: char): (parts: seq<string>)
    ensures |parts| >= 1
    decreases |s|
  {
    var i := IndexOf(s, c);
    if i == -1 then [s] else [s[..i]] + Split(s[i + 1..], c)
  }

  predicate IsSpace(c: char) {
    || '\t' <= c <= '\r' || c == ' ' || c == '\U{85}' || c == '\U{A0}' || c == '\U{1680}'
    || '\U{2000}' <= c <= '\U{200A}' || c == '\U{2028}' || c == '\U{2029}' || c == '\U{202F}'
    || c == '\U{205F}' || c == '\U{3000}'
  }

  function TrimSpace(s: string): string
    decreases |s|
  {
    if s == [] then s
    else if IsSpace(s[0]) then TrimSpace(s[1..])
    else if IsSpace(s[|s| - 1]) then TrimSpace(s[..|s| - 1])
    else s
  }

  function TrimV(s: string): string { if s != [] && s[0] == 'v' then s[1..] else s }

  function Digit(n: nat): (c: char)
    requires n < 10
    ensures IsDigit(c) && c as int == '0' as int + n
  {
    ('0' as int + n) as char
  }

  function DigitValue(c: char): (n: nat)
    requires IsDigit(c)
    ensures n < 10 && Digit(n) == c
    ensures n == 0 <==> c == '0'
  {
    c as int - '0' as int
  }

  function Value(s: string): nat
    requires forall c | c in s :: IsDigit(c)
  {
    if s == [] then 0 else 10 * Value(s[..|s| - 1]) + DigitValue(s[|s| - 1])
  }

  function FormatUint(n: nat): (s: string)
    ensures IsNumeric(s) && NoLeadingZero(s)
    ensures n > 0 ==> s[0] != '0'
    ensures Value(s) == n
  {
    if n < 10 then [Digit(n)]
    else
      var head := FormatUint(n / 10);
      var s := head + [Digit(n % 10)];
      assert s[..|s| - 1] == head;
      s
  }

  /** `strconv.ParseUint(s, 10, 64)`. */
  function ParseUint(s: string): Option<nat> {
    if IsNumeric(s) && Value(s) < UINT64_LIMIT then Some(Value(s)) else None
  }

  lemma {:induction false} ValueIsPositive(s: string)
    requires IsNumeric(s) && s[0] != '0'
    ensures Value(s) >= 1
  {
    assert s[..0] == [];
    if |s| > 1 { ValueIsPositive(s[..|s| - 1]); }
  }

  lemma DivideByTen(q: nat, d: nat)
    requires d < 10
    ensures (10 * q + d) / 10 == q && (10 * q + d) % 10 == d
  {
  }

  lemma AppendDigit(q: nat, d: nat)
    requires q >= 1 && d < 10
    ensures FormatUint(10 * q + d) == FormatUint(q) + [Digit(d)]
  {
    DivideByTen(q, d);
  }

  /** Without leading zeros a numeral is determined by its value. */
  lemma {:induction false} FormatOfValue(s: string)
    requires IsNumeric(s) && NoLeadingZero(s)
    ensures FormatUint(Value(s)) == s
  {
    var n := |s| - 1;
    assert s[..0] == [];
    assert s == s[..n] + [s[n]];
    if n > 0 {
      FormatOfValue(s[..n]);
      ValueIsPositive(s[..n]);
      AppendDigit(Value(s[..n]), DigitValue(s[n]));
    }
  }

  // ------------------------------------------------------------ byte-wise order

  /** `strings.Compare`. */
  function LexCompare(a: string, b: string): (r: int)
    ensures r == -1 || r == 0 || r == 1
    ensures r == 0 <==> a == b
  {
    if a == [] && b == [] then 0
    else if a == [] then -1
    else if b == [] then 1
    else if a[0] != b[0] then (if a[0] < b[0] then -1 else 1)
    else
      assert a == [a[0]] + a[1..] && b == [b[0]] + b[1..];
      LexCompare(a[1..], b[1..])
  }

  lemma {:induction false} LexAntisymmetric(a: string, b: string)
    ensures LexCompare(a, b) == -LexCompare(b, a)
  {
    if a != [] && b != [] && a[0] == b[0] { LexAntisymmetric(a[1..], b[1..]); }
  }

  lemma {:induction false} LexTransitive(a: string, b: string, c: string)
    requires LexCompare(a, b) < 0 && LexCompare(b, c) < 0
    ensures LexCompare(a, c) < 0
  {
    if a != [] && b != [] && c != [] && a[0] == b[0] == c[0] {
      LexTransitive(a[1..], b[1..], c[1..]);
    }
  }

  function Sign(a: nat, b: nat): int { if a < b then -1 else if a > b then 1 else 0 }

  // ------------------------------------------------------------- identifiers

  predicate ValidIdentifier(s: string, rejectLeadingZero: bool) {
    && s != []
    && (forall c | c in s :: IsIdentifierChar(c))
    && (rejectLeadingZero && IsNumeric(s) ==> NoLeadingZero(s))
  }

  predicate ValidIdentifiers(value: string, rejectLeadingZero: bool) {
    value != [] && forall part | part in Split(value, '.') :: ValidIdentifier(part, rejectLeadingZero)
  }

  /** The scanning loops, with their `numeric` flag. */
  method ValidateVersionIdentifiers(value: string, rejectNumericLeadingZero: bool) returns (ok: bool)
    ensures ok <==> ValidIdentifiers(value, rejectNumericLeadingZero)
  {
    if value == "" { return false; }
    var identifiers := Split(value, '.');
    for n := 0 to |identifiers|
      invariant forall m | 0 <= m < n :: ValidIdentifier(identifiers[m], rejectNumericLeadingZero)
    {
      var identifier := identifiers[n];
      if identifier == "" {
        assert !ValidIdentifier(identifier, rejectNumericLeadingZero);
        return false;
      }
      var numeric := true;
      for i := 0 to |identifier|
        invariant forall j | 0 <= j < i :: IsIdentifierChar(identifier[j])
        invariant numeric <==> forall j | 0 <= j < i :: IsDigit(identifier[j])
      {
        var character := identifier[i];
        if !IsDigit(character) {
          numeric := false;
          if !IsIdentifierChar(character) {
            assert !ValidIdentifier(identifier, rejectNumericLeadingZero);
            return false;
          }
        }
      }
      assert numeric <==> IsNumeric(identifier);
      if rejectNumericLeadingZero && numeric && |identifier| > 1 && identifier[0] == '0' {
        assert !ValidIdentifier(identifier, rejectNumericLeadingZero);
        return false;
      }
    }
    ok := true;
  }

  /** One step of `comparePrerelease`. */
  function CompareIdentifier(left: string, right: string): (r: int)
    ensures r == -1 || r == 0 || r == 1
  {
    if left == right then 0
    else
      var l, r := ParseUint(left), ParseUint(right);
      if l.Some? && r.Some? then (if l.value < r.value then -1 else 1)
      else if l.Some? then -1
      else if r.Some? then 1
      else LexCompare(left, right)
  }

  lemma IdentifierOrderIsTotal(a: string, b: string)
    requires ValidIdentifier(a, true) && ValidIdentifier(b, true)
    ensures CompareIdentifier(a, b) == -CompareIdentifier(b, a)
    ensures CompareIdentifier(a, b) == 0 <==> a == b
  {
    LexAntisymmetric(a, b);
    if IsNumeric(a) && IsNumeric(b) {
      FormatOfValue(a);
      FormatOfValue(b);
    }
  }

  lemma IdentifierOrderIsTransitive(a: string, b: string, c: string)
    requires ValidIdentifier(a, true) && ValidIdentifier(b, true) && ValidIdentifier(c, true)
    requires CompareIdentifier(a, b) < 0 && CompareIdentifier(b, c) < 0
    ensures CompareIdentifier(a, c) < 0
  {
    if ParseUint(a).None? && ParseUint(b).None? && ParseUint(c).None? {
      LexTransitive(a, b, c);
    }
    IdentifierOrderIsTotal(a, c);
    IdentifierOrderIsTotal(a, b);
    if a == c { IdentifierOrderIsTotal(b, c); }
  }

  /** The leading-zero check is what makes the order antisymmetric. */
  lemma LeadingZerosBreakAntisymmetry()
    ensures ValidIdentifier("01", false) && ValidIdentifier("1", false)
    ensures CompareIdentifier("01", "1") == 1 && CompareIdentifier("1", "01") == 1
  {
    assert "01"[..1] == "0" && "0"[..0] == "" && "1"[..0] == "";
    assert Value("0") == 0 && Value("01") == 1 && Value("1") == 1;
  }

  // ----------------------------------------------------- lists of identifiers

  function CompareLists(left: seq<string>, right: seq<string>): (r: int)
    ensures r == -1 || r == 0 || r == 1
  {
    if left == [] && right == [] then 0
    else if left == [] then -1
    else if right == [] then 1
    else
      var first := CompareIdentifier(left[0], right[0]);
      if first != 0 then first else CompareLists(left[1..], right[1..])
  }

  predicate AllValid(list: seq<string>) { forall s | s in list :: ValidIdentifier(s, true) }

  lemma {:induction false} ListOrderIsTotal(a: seq<string>, b: seq<string>)
    requires AllValid(a) && AllValid(b)
    ensures CompareLists(a, b) == -CompareLists(b, a)
    ensures CompareLists(a, b) == 0 <==> a == b
  {
    if a != [] && b != [] {
      IdentifierOrderIsTotal(a[0], b[0]);
      ListOrderIsTotal(a[1..], b[1..]);
      assert a == [a[0]] + a[1..] && b == [b[0]] + b[1..];
    }
  }

  lemma {:induction false} ListOrderIsTransitive(a: seq<string>, b: seq<string>, c: seq<string>)
    requires AllValid(a) && AllValid(b) && AllValid(c)
    requires CompareLists(a, b) < 0 && CompareLists(b, c) < 0
    ensures CompareLists(a, c) < 0
  {
    if a != [] && b != [] && c != [] {
      IdentifierOrderIsTotal(a[0], b[0]);
      IdentifierOrderIsTotal(b[0], c[0]);
      if a[0] == b[0] && b[0] == c[0] {
        IdentifierOrderIsTotal(a[0], c[0]);
        ListOrderIsTransitive(a[1..], b[1..], c[1..]);
      } else if a[0] != b[0] && b[0] != c[0] {
        IdentifierOrderIsTransitive(a[0], b[0], c[0]);
      }
    }
  }

  /** The loop of `comparePrerelease` over the common length. */
  method ComparePrerelease(left: string, right: string) returns (r: int)
    ensures r == CompareLists(Split(left, '.'), Split(right, '.'))
  {
    var ls, rs := Split(left, '.'), Split(right, '.');
    var count := if |ls| < |rs| then |ls| else |rs|;
    for index := 0 to count
      invariant CompareLists(ls, rs) == CompareLists(ls[index..], rs[index..])
    {
      var l, q := ls[index], rs[index];
      assert ls[index..][0] == l && rs[index..][0] == q;
      assert ls[index..][1..] == ls[index + 1..] && rs[index..][1..] == rs[index + 1..];
      if l != q {
        var ln, rn := ParseUint(l), ParseUint(q);
        if ln.Some? && rn.Some? {
          return if ln.value < rn.value then -1 else 1;
        } else if ln.Some? {
          return -1;
        } else if rn.Some? {
          return 1;
        }
        return LexCompare(l, q);
      }
    }
    r := if |ls| < |rs| then -1 else if |ls| > |rs| then 1 else 0;
  }

  // ------------------------------------------------------------------ versions

  function CompareVersion(left: Version, right: Version): (r: int)
    ensures r == -1 || r == 0 || r == 1
  {
    if left.major != right.major then Sign(left.major, right.major)
    else if left.minor != right.minor then Sign(left.minor, right.minor)
    else if left.patch != right.patch then Sign(left.patch, right.patch)
    else if left.prerelease == right.prerelease then 0
    else if left.prerelease == "" then 1
    else if right.prerelease == "" then -1
    else CompareLists(Split(left.prerelease, '.'), Split(right.prerelease, '.'))
  }

  /** What `parseVersion` accepts. */
  predicate Accepted(v: Version) {
    && v.major < UINT64_LIMIT && v.minor < UINT64_LIMIT && v.patch < UINT64_LIMIT
    && (v.prerelease != "" ==> ValidIdentifiers(v.prerelease, true))
  }

  lemma {:induction false} SplitIsInjective(a: string, b: string, c: char)
    requires Split(a, c) == Split(b, c)
    ensures a == b
    decreases |a|
  {
    var i, j := IndexOf(a, c), IndexOf(b, c);
    if i == -1 {
      assert |Split(a, c)| == 1;
    } else {
      assert Split(a, c)[0] == a[..i] && Split(a, c)[1..] == Split(a[i + 1..], c);
      assert Split(b, c)[0] == b[..j] && Split(b, c)[1..] == Split(b[j + 1..], c);
      SplitIsInjective(a[i + 1..], b[j + 1..], c);
      assert a == a[..i] + [c] + a[i + 1..] && b == b[..j] + [c] + b[j + 1..];
    }
  }

  /** `compareVersion` is antisymmetric, and equal only on equal versions. */
  lemma VersionOrderIsTotal(a: Version, b: Version)
    requires Accepted(a) && Accepted(b)
    ensures CompareVersion(a, b) == -CompareVersion(b, a)
    ensures CompareVersion(a, b) == 0 <==> a == b
  {
    if a.prerelease != "" && b.prerelease != "" {
      ListOrderIsTotal(Split(a.prerelease, '.'), Split(b.prerelease, '.'));
      if Split(a.prerelease, '.') == Split(b.prerelease, '.') {
        SplitIsInjective(a.prerelease, b.prerelease, '.');
      }
    }
  }

  lemma VersionOrderIsTransitive(a: Version, b: Version, c: Version)
    requires Accepted(a) && Accepted(b) && Accepted(c)
    requires CompareVersion(a, b) < 0 && CompareVersion(b, c) < 0
    ensures CompareVersion(a, c) < 0
  {
    VersionOrderIsTotal(a, b);
    VersionOrderIsTotal(b, c);
    if a.prerelease != "" && b.prerelease != "" && c.prerelease != ""
      && a.(prerelease := "") == b.(prerelease := "") == c.(prerelease := "") {
      ListOrderIsTransitive(Split(a.prerelease, '.'), Split(b.prerelease, '.'), Split(c.prerelease, '.'));
      if a.prerelease == c.prerelease {
        ListOrderIsTotal(Split(a.prerelease, '.'), Split(a.prerelease, '.'));
      }
    }
  }

  // --------------------------------------------- Semantic Versioning, section 11

  /** Precedence of two identifiers: numeric ones by value and below all others. */
  function Precedence(left: string, right: string): int {
    if IsNumeric(left) && IsNumeric(right) then Sign(Value(left), Value(right))
    else if IsNumeric(left) then -1
    else if IsNumeric(right) then 1
    else LexCompare(left, right)
  }

  function ListPrecedence(left: seq<string>, right: seq<string>): int {
    if left == [] && right == [] then 0
    else if left == [] then -1
    else if right == [] then 1
    else
      var first := Precedence(left[0], right[0]);
      if first != 0 then first else ListPrecedence(left[1..], right[1..])
  }

  function VersionPrecedence(left: Version, right: Version): int {
    if left.major != right.major then Sign(left.major, right.major)
    else if left.minor != right.minor then Sign(left.minor, right.minor)
    else if left.patch != right.patch then Sign(left.patch, right.patch)
    else if left.prerelease == "" || right.prerelease == "" then
      (if left.prerelease == right.prerelease then 0 else if left.prerelease == "" then 1 else -1)
    else ListPrecedence(Split(left.prerelease, '.'), Split(right.prerelease, '.'))
  }

  /** A numeric identifier that does not fit 64 bits. */
  predicate Overflows(s: string) { IsNumeric(s) && Value(s) >= UINT64_LIMIT }

  lemma {:induction false} ValueBounds(s: string)
    requires IsNumeric(s)
    ensures Value(s) < Power10(|s|)
    ensures s[0] != '0' ==> Value(s) >= Power10(|s| - 1)
  {
    assert s[..0] == [] && Power10(0) == 1 && Power10(1) == 10;
    if |s| > 1 {
      ValueBounds(s[..|s| - 1]);
    }
  }

  function Power10(n: nat): nat { if n == 0 then 1 else 10 * Power10(n - 1) }

  lemma {:induction false} Power10Monotone(m: nat, n: nat)
    requires m <= n
    ensures Power10(m) <= Power10(n)
    decreases n - m
  {
    if m < n { Power10Monotone(m, n - 1); }
  }

  /** Among numerals without leading zeros, the longer is the larger. */
  lemma LongerIsLarger(a: string, b: string)
    requires IsNumeric(a) && IsNumeric(b) && b[0] != '0' && |a| < |b|
    ensures Value(a) < Value(b)
  {
    ValueBounds(a);
    ValueBounds(b);
    Power10Monotone(|a|, |b| - 1);
  }

  /** Numerals of one length are ordered alike as strings and as numbers. */
  lemma {:induction false} SameLengthOrder(a: string, b: string)
    requires IsNumeric(a) && IsNumeric(b) && |a| == |b|
    ensures LexCompare(a, b) == Sign(Value(a), Value(b))
  {
    var n := |a| - 1;
    LexByLast(a, b);
    assert a[..0] == b[..0] == [];
    if n > 0 {
      SameLengthOrder(a[..n], b[..n]);
    }
  }

  lemma {:induction false} LexByLast(a: string, b: string)
    requires |a| == |b| > 0
    ensures LexCompare(a, b) ==
            var first := LexCompare(a[..|a| - 1], b[..|b| - 1]);
            if first != 0 then first
            else if a[|a| - 1] < b[|b| - 1] then -1
            else if a[|a| - 1] > b[|b| - 1] then 1 else 0
  {
    var n := |a| - 1;
    if n > 0 && a[0] == b[0] {
      LexByLast(a[1..], b[1..]);
      assert a[1..][..n - 1] == a[..n][1..] && b[1..][..n - 1] == b[..n][1..];
    }
  }

  /** Where string order contradicts precedence for an identifier past 64 bits. */
  predicate Misordered(big: string, other: string) {
    && Overflows(big)
    && (if IsNumeric(other) then
          Overflows(other) && |big| != |other| && (|big| < |other|) != (LexCompare(big, other) < 0)
        else LexCompare(big, other) > 0)
  }

  /** Two accepted identifiers compare as section 11 says, except exactly when one
      overflows 64 bits and string order puts it on the wrong side. */
  lemma IdentifierAgreesIff(a: string, b: string)
    requires ValidIdentifier(a, true) && ValidIdentifier(b, true)
    ensures CompareIdentifier(a, b) == Precedence(a, b) <==> !Misordered(a, b) && !Misordered(b, a)
  {
    LexAntisymmetric(a, b);
    if IsNumeric(a) && IsNumeric(b) {
      FormatOfValue(a);
      FormatOfValue(b);
      if |a| < |b| { LongerIsLarger(a, b); }
      else if |b| < |a| { LongerIsLarger(b, a); }
      else { SameLengthOrder(a, b); }
    }
  }

  predicate FitsUint64(list: seq<string>) { forall s | s in list :: !Overflows(s) }

  /** The first pair of different identifiers is one that string order gets wrong. */
  predicate FirstDifferenceMisordered(a: seq<string>, b: seq<string>) {
    if a == [] || b == [] then false
    else if a[0] == b[0] then FirstDifferenceMisordered(a[1..], b[1..])
    else Misordered(a[0], b[0]) || Misordered(b[0], a[0])
  }

  lemma PrecedenceSeparates(a: string, b: string)
    requires ValidIdentifier(a, true) && ValidIdentifier(b, true)
    ensures Precedence(a, b) == 0 <==> a == b
  {
    LexAntisymmetric(a, b);
    if IsNumeric(a) && IsNumeric(b) {
      FormatOfValue(a);
      FormatOfValue(b);
    }
  }

  lemma {:induction false} ListAgreesIff(a: seq<string>, b: seq<string>)
    requires AllValid(a) && AllValid(b)
    ensures CompareLists(a, b) == ListPrecedence(a, b) <==> !FirstDifferenceMisordered(a, b)
  {
    if a != [] && b != [] {
      IdentifierAgreesIff(a[0], b[0]);
      IdentifierOrderIsTotal(a[0], b[0]);
      PrecedenceSeparates(a[0], b[0]);
      ListAgreesIff(a[1..], b[1..]);
    }
  }

  lemma {:induction false} FittingIsOrdered(a: seq<string>, b: seq<string>)
    requires FitsUint64(a) && FitsUint64(b)
    ensures !FirstDifferenceMisordered(a, b)
  {
    if a != [] && b != [] { FittingIsOrdered(a[1..], b[1..]); }
  }

  lemma {:induction false} SameIsOrdered(a: seq<string>)
    ensures !FirstDifferenceMisordered(a, a)
  {
    if a != [] { SameIsOrdered(a[1..]); }
  }

  predicate SameCore(a: Version, b: Version) { a.(prerelease := "") == b.(prerelease := "") }

  /** Accepted versions are ordered as section 11 says, except exactly when they differ only
      in their prereleases, and there first in a pair that string order gets wrong. */
  lemma VersionAgreesIff(a: Version, b: Version)
    requires Accepted(a) && Accepted(b)
    ensures CompareVersion(a, b) == VersionPrecedence(a, b)
            <==> !(SameCore(a, b) && a.prerelease != "" && b.prerelease != ""
                   && FirstDifferenceMisordered(Split(a.prerelease, '.'), Split(b.prerelease, '.')))
  {
    if a.prerelease != "" && b.prerelease != "" {
      ListAgreesIff(Split(a.prerelease, '.'), Split(b.prerelease, '.'));
      if a.prerelease == b.prerelease {
        SameIsOrdered(Split(a.prerelease, '.'));
        ListOrderIsTotal(Split(a.prerelease, '.'), Split(b.prerelease, '.'));
      }
    }
  }

  /** In particular if all numeric identifiers fit 64 bits. */
  lemma VersionAgreesWithPrecedence(a: Version, b: Version)
    requires Accepted(a) && Accepted(b)
    requires FitsUint64(Split(a.prerelease, '.')) && FitsUint64(Split(b.prerelease, '.'))
    ensures CompareVersion(a, b) == VersionPrecedence(a, b)
  {
    FittingIsOrdered(Split(a.prerelease, '.'), Split(b.prerelease, '.'));
    VersionAgreesIff(a, b);
  }

  lemma TwentyDigitsOverflow()
    ensures Power10(20) > UINT64_LIMIT
  {
    assert Power10(4) == 10_000;
    assert Power10(8) == 100_000_000;
    assert Power10(12) == 1_000_000_000_000;
    assert Power10(16) == 10_000_000_000_000_000;
  }

  /** Two accepted versions in the wrong order: 2 * 10^20 counts as more than 10^21. */
  lemma LargeIdentifiersAreMisordered()
    ensures var a, b := Version(1, 0, 0, "200000000000000000000"), Version(1, 0, 0, "1000000000000000000000");
            Accepted(a) && Accepted(b) && VersionPrecedence(a, b) == -1 && CompareVersion(a, b) == 1
  {
    var s, t := "200000000000000000000", "1000000000000000000000";
    assert forall c | c in s + t :: IsDigit(c);
    assert IsNumeric(s) && IsNumeric(t) && s[0] == '2' && t[0] == '1';
    assert '.' !in s && '.' !in t && Split(s, '.') == [s] && Split(t, '.') == [t];
    ValueBounds(s);
    ValueBounds(t);
    TwentyDigitsOverflow();
    assert Power10(21) == 10 * Power10(20);
    assert LexCompare(s, t) == 1;
    LongerIsLarger(s, t);
  }

  // ------------------------------------------------------------------- parsing

  predicate IsCoreNumber(part: string) { NoLeadingZero(part) && ParseUint(part).Some? }

  function ParseCore(core: string, prerelease: string): Option<Version> {
    var parts := Split(core, '.');
    if |parts| != 3 || !IsCoreNumber(parts[0]) || !IsCoreNumber(parts[1]) || !IsCoreNumber(parts[2]) then None
    else Some(Version(Value(parts[0]), Value(parts[1]), Value(parts[2]), prerelease))
  }

  /** `parseVersion`: build metadata is checked and dropped, the rest is taken apart. */
  function ParseVersion(value: string): (r: Option<Version>)
    ensures r.Some? ==> Accepted(r.value)
  {
    var plus := IndexOf(value, '+');
    if plus != -1 && !ValidIdentifiers(value[plus + 1..], false) then None
    else
      ParsePlain(if plus == -1 then value else value[..plus])
  }

  function ParsePlain(core: string): (r: Option<Version>)
    ensures r.Some? ==> Accepted(r.value)
  {
    var dash := IndexOf(core, '-');
    if dash == -1 then ParseCore(core, "")
    else if !ValidIdentifiers(core[dash + 1..], true) then None
    else ParseCore(core[..dash], core[dash + 1..])
  }

  function Format(v: Version): string {
    if v.prerelease == "" then Core(v) else Core(v) + "-" + v.prerelease
  }

  function NormalizeVersion(value: string): Option<string> {
    var parsed := ParseVersion(TrimV(TrimSpace(value)));
    if parsed.None? then None else Some(Format(parsed.value))
  }

  function IsNewer(candidate: string, current: string): Option<bool> {
    var left, right := NormalizeVersion(candidate), NormalizeVersion(current);
    if left.None? || right.None? then None
    else
      var l, r := ParseVersion(left.value), ParseVersion(right.value);
      if l.None? || r.None? then None else Some(CompareVersion(l.value, r.value) > 0)
  }

  // ------------------------------------------------------ parsing undoes formatting

  lemma IndexOfFirst(a: string, c: char, b: string)
    requires c !in a
    ensures IndexOf(a + [c] + b, c) == |a|
  {
    var s := a + [c] + b;
    var i := IndexOf(s, c);
    assert s[|a|] == c;
    assert forall j | 0 <= j < |a| :: s[j] == a[j];
    assert forall j | |a| < j <= |s| :: s[..j][|a|] == c;
  }

  lemma SplitFirst(a: string, c: char, b: string)
    requires c !in a
    ensures Split(a + [c] + b, c) == [a] + Split(b, c)
  {
    IndexOfFirst(a, c, b);
    var s := a + [c] + b;
    assert s[..|a|] == a && s[|a| + 1..] == b;
  }

  predicate OnlyIdentifierChars(part: string) { forall x | x in part :: IsIdentifierChar(x) }

  /** Splitting loses nothing but separators. */
  lemma {:induction false} CharsOfSplit(value: string, c: char, i: nat) returns (n: nat)
    requires i < |value| && value[i] != c
    ensures n < |Split(value, c)| && value[i] in Split(value, c)[n]
    decreases |value|
  {
    var k := IndexOf(value, c);
    if k == -1 {
      n := 0;
    } else if i < k {
      n := 0;
      assert value[..k][i] == value[i];
    } else {
      var rest := value[k + 1..];
      assert rest[i - k - 1] == value[i];
      n := CharsOfSplit(rest, c, i - k - 1);
      assert ([value[..k]] + Split(rest, c))[n + 1] == Split(rest, c)[n];
      n := n + 1;
    }
  }

  lemma IdentifierListChars(value: string, rejectLeadingZero: bool)
    requires ValidIdentifiers(value, rejectLeadingZero)
    ensures forall x | x in value :: IsIdentifierChar(x) || x == '.'
  {
    forall i | 0 <= i < |value| ensures IsIdentifierChar(value[i]) || value[i] == '.' {
      if value[i] != '.' {
        var n := CharsOfSplit(value, '.', i);
        assert ValidIdentifier(Split(value, '.')[n], rejectLeadingZero);
      }
    }
  }

  function Core(v: Version): string {
    FormatUint(v.major) + "." + FormatUint(v.minor) + "." + FormatUint(v.patch)
  }

  lemma CoreSplits(a: string, b: string, c: string)
    requires '.' !in a && '.' !in b && '.' !in c
    ensures Split(a + "." + b + "." + c, '.') == [a, b, c]
  {
    assert a + "." + b + "." + c == a + ['.'] + (b + ['.'] + c);
    SplitFirst(a, '.', b + ['.'] + c);
    SplitFirst(b, '.', c);
    assert Split(c, '.') == [c];
  }

  lemma CoreParses(v: Version)
    requires Accepted(v)
    ensures ParseCore(Core(v), v.prerelease) == Some(v)
  {
    CoreSplits(FormatUint(v.major), FormatUint(v.minor), FormatUint(v.patch));
  }

  lemma CoreChars(v: Version)
    ensures forall x | x in Core(v) :: IsDigit(x) || x == '.'
    ensures Core(v) != [] && IsDigit(Core(v)[0]) && IsDigit(Core(v)[|Core(v)| - 1])
  {
    assert Core(v)[0] == FormatUint(v.major)[0];
    assert Core(v)[|Core(v)| - 1] == FormatUint(v.patch)[|FormatUint(v.patch)| - 1];
  }

  lemma PlainParses(v: Version)
    requires Accepted(v)
    ensures ParsePlain(Format(v)) == Some(v)
  {
    var core := Core(v);
    CoreParses(v);
    CoreChars(v);
    if v.prerelease == "" {
      assert IndexOf(core, '-') == -1;
    } else {
      var value := Format(v);
      assert value == core + ['-'] + v.prerelease;
      IndexOfFirst(core, '-', v.prerelease);
      assert value[..|core|] == core && value[|core| + 1..] == v.prerelease;
    }
  }

  lemma FormatChars(v: Version)
    requires Accepted(v)
    ensures forall c | c in Format(v) :: IsIdentifierChar(c) || c == '.'
    ensures Format(v) != [] && IsDigit(Format(v)[0])
  {
    CoreChars(v);
    assert Format(v)[0] == Core(v)[0];
    if v.prerelease != "" { IdentifierListChars(v.prerelease, true); }
  }

  /** A formatted accepted version parses back to itself. */
  lemma ParseOfFormat(v: Version)
    requires Accepted(v)
    ensures ParseVersion(Format(v)) == Some(v)
  {
    PlainParses(v);
    FormatChars(v);
    NoPlus(Format(v));
  }

  lemma NoPlus(plain: string)
    requires '+' !in plain
    ensures ParseVersion(plain) == ParsePlain(plain)
  {
  }

  lemma NoTrimming(s: string)
    requires s != [] && IsDigit(s[0]) && !IsSpace(s[|s| - 1])
    ensures TrimV(TrimSpace(s)) == s
  {
  }

  lemma FormatNeedsNoTrimming(v: Version)
    requires Accepted(v)
    ensures TrimV(TrimSpace(Format(v))) == Format(v)
  {
    CoreChars(v);
    var value, tail := Format(v), v.prerelease;
    assert value[0] == Core(v)[0];
    if tail != "" {
      IdentifierListChars(tail, true);
      var last := tail[|tail| - 1];
      assert value[|value| - 1] == last && last in tail;
    }
    NoTrimming(value);
  }

  // ----------------------------------------------------- which strings are versions

  predicate AllSpace(s: string) { forall c | c in s :: IsSpace(c) }

  /** Nothing, or `+` and identifiers that may have leading zeros. */
  predicate IsBuild(build: string) { build == "" || (build[0] == '+' && ValidIdentifiers(build[1..], false)) }

  /** White space, perhaps a `v`, the version as it is formatted, perhaps build metadata, white space. */
  ghost predicate Denotes(value: string, v: Version) {
    exists left, prefix, build, right :: Spells(value, v, left, prefix, build, right)
  }

  predicate Spells(value: string, v: Version, left: string, prefix: string, build: string, right: string) {
    && value == left + (prefix + Format(v) + build) + right && AllSpace(left) && AllSpace(right)
    && (prefix == "" || prefix == "v") && IsBuild(build)
  }

  lemma {:induction false} TrimmingUndone(s: string) returns (left: string, right: string)
    ensures s == left + TrimSpace(s) + right && AllSpace(left) && AllSpace(right)
    decreases |s|
  {
    left, right := "", "";
    if s != [] && IsSpace(s[0]) {
      left, right := TrimmingUndone(s[1..]);
      left := MoreSpace(s, left, TrimSpace(s[1..]), right);
    } else if s != [] && IsSpace(s[|s| - 1]) {
      left, right := TrimmingUndone(s[..|s| - 1]);
      assert s == left + TrimSpace(s) + (right + [s[|s| - 1]]);
      right := right + [s[|s| - 1]];
    }
  }

  lemma MoreSpace(s: string, left: string, middle: string, right: string) returns (more: string)
    requires s != [] && IsSpace(s[0]) && s[1..] == left + middle + right && AllSpace(left)
    ensures s == more + middle + right && AllSpace(more)
  {
    more := [s[0]] + left;
    assert s == [s[0]] + s[1..];
  }

  predicate Tight(s: string) { s != [] && !IsSpace(s[0]) && !IsSpace(s[|s| - 1]) }

  lemma {:induction false} SpaceIsTrimmed(left: string, middle: string, right: string)
    requires AllSpace(left) && AllSpace(right) && Tight(middle)
    ensures TrimSpace(left + middle + right) == middle
    decreases |left| + |right|
  {
    var s := left + middle + right;
    if left != [] {
      assert s[0] == left[0] && s[1..] == left[1..] + middle + right;
      SpaceIsTrimmed(left[1..], middle, right);
    } else if right != [] {
      assert s[0] == middle[0] && s[|s| - 1] == right[|right| - 1];
      assert s[..|s| - 1] == left + middle + right[..|right| - 1];
      SpaceIsTrimmed(left, middle, right[..|right| - 1]);
    } else {
      assert s == middle;
    }
  }

  lemma PlusIsFirst(plain: string, build: string)
    requires '+' !in plain && build != "" && IsBuild(build)
    ensures ParseVersion(plain + build) == ParsePlain(plain)
  {
    var value := plain + build;
    assert value == plain + ['+'] + build[1..];
    IndexOfFirst(plain, '+', build[1..]);
    assert value[..|plain|] == plain && value[|plain| + 1..] == build[1..];
  }

  lemma BuildIsDropped(plain: string, build: string)
    requires '+' !in plain && IsBuild(build)
    ensures ParseVersion(plain + build) == ParsePlain(plain)
  {
    if build == "" {
      assert plain + build == plain;
      NoPlus(plain);
    } else {
      PlusIsFirst(plain, build);
    }
  }

  /** Build metadata has no effect. */
  lemma ParseWithBuild(v: Version, build: string)
    requires Accepted(v) && IsBuild(build)
    ensures ParseVersion(Format(v) + build) == Some(v)
  {
    PlainParses(v);
    FormatChars(v);
    BuildIsDropped(Format(v), build);
  }

  lemma BuildIsTight(v: Version, prefix: string, build: string)
    requires Accepted(v) && IsBuild(build) && (prefix == "" || prefix == "v")
    ensures Tight(prefix + Format(v) + build) && TrimV(prefix + Format(v) + build) == Format(v) + build
  {
    FormatChars(v);
    var plain := Format(v);
    var s := prefix + plain + build;
    assert s[0] == if prefix == "" then plain[0] else 'v';
    assert prefix == "v" ==> s[1..] == plain + build;
    assert prefix == "" ==> s == plain + build;
    BuildEndsTight(plain, build);
    assert s[|s| - 1] == (plain + build)[|plain + build| - 1];
  }

  lemma BuildEndsTight(plain: string, build: string)
    requires plain != [] && IsBuild(build) && forall c | c in plain :: IsIdentifierChar(c) || c == '.'
    ensures !IsSpace((plain + build)[|plain + build| - 1])
  {
    if build == "" {
      assert plain + build == plain && plain[|plain| - 1] in plain;
    } else {
      var tail := build[1..];
      IdentifierListChars(tail, false);
      assert (plain + build)[|plain + build| - 1] == tail[|tail| - 1] && tail[|tail| - 1] in tail;
    }
  }

  lemma ParsedCore(core: string, prerelease: string, v: Version)
    requires ParseCore(core, prerelease) == Some(v)
    ensures core == Core(v) && v.prerelease == prerelease
  {
    var parts := Split(core, '.');
    forall i | 0 <= i < 3 ensures FormatUint(Value(parts[i])) == parts[i] { FormatOfValue(parts[i]); }
    CoreSplits(parts[0], parts[1], parts[2]);
    assert parts == [parts[0], parts[1], parts[2]];
    SplitIsInjective(core, Core(v), '.');
  }

  /** What parses is a formatted version and build metadata. */
  lemma ParsedFormat(value: string, v: Version) returns (build: string)
    requires ParseVersion(value) == Some(v)
    ensures value == Format(v) + build && IsBuild(build)
  {
    var plus := IndexOf(value, '+');
    var core := if plus == -1 then value else value[..plus];
    build := if plus == -1 then "" else value[plus..];
    assert build != "" ==> build[1..] == value[plus + 1..];
    assert value == core + build;
    ParsedPlain(core, v);
  }

  lemma ParsedPlain(core: string, v: Version)
    requires ParsePlain(core) == Some(v)
    ensures core == Format(v)
  {
    var dash := IndexOf(core, '-');
    if dash == -1 {
      ParsedCore(core, "", v);
    } else {
      ParsedCore(core[..dash], core[dash + 1..], v);
      assert core == core[..dash] + ['-'] + core[dash + 1..];
    }
  }

  lemma ParsedIsSpelled(value: string, v: Version)
    requires ParseVersion(TrimV(TrimSpace(value))) == Some(v)
    ensures Denotes(value, v)
  {
    var left, right := TrimmingUndone(value);
    var trimmed := TrimSpace(value);
    var prefix := if trimmed != [] && trimmed[0] == 'v' then "v" else "";
    var build := ParsedFormat(TrimV(trimmed), v);
    assert trimmed == prefix + TrimV(trimmed);
    ComposedSpells(value, v, left, trimmed, prefix, build, right);
  }

  lemma ComposedSpells(value: string, v: Version, left: string, trimmed: string, prefix: string, build: string, right: string)
    requires value == left + trimmed + right && trimmed == prefix + (Format(v) + build)
    requires AllSpace(left) && AllSpace(right) && (prefix == "" || prefix == "v") && IsBuild(build)
    ensures Denotes(value, v)
  {
    assert trimmed == prefix + Format(v) + build;
    assert Spells(value, v, left, prefix, build, right);
  }

  lemma SpelledParses(value: string, v: Version)
    requires Accepted(v) && Denotes(value, v)
    ensures ParseVersion(TrimV(TrimSpace(value))) == Some(v)
  {
    var left, prefix, build, right :| Spells(value, v, left, prefix, build, right);
    BuildIsTight(v, prefix, build);
    SpaceIsTrimmed(left, prefix + Format(v) + build, right);
    ParseWithBuild(v, build);
  }

  /** A string is accepted as a version exactly if it denotes it: white space around it, a leading `v`
      and build metadata have no effect, and nothing else is left out. */
  lemma AcceptsIffDenotes(value: string, v: Version)
    ensures ParseVersion(TrimV(TrimSpace(value))) == Some(v) <==> Accepted(v) && Denotes(value, v)
    ensures NormalizeVersion(value) == Some(Format(v)) && Accepted(v) <==> Accepted(v) && Denotes(value, v)
  {
    if ParseVersion(TrimV(TrimSpace(value))) == Some(v) { ParsedIsSpelled(value, v); }
    if Accepted(v) && Denotes(value, v) { SpelledParses(value, v); }
    if NormalizeVersion(value) == Some(Format(v)) && Accepted(v) {
      ParseOfFormat(v);
      ParseOfFormat(ParseVersion(TrimV(TrimSpace(value))).value);
    }
  }

  /** Normalising is idempotent and keeps the parsed version, hence every comparison. */
  lemma NormalizeIsIdempotent(value: string)
    requires NormalizeVersion(value).Some?
    ensures NormalizeVersion(NormalizeVersion(value).value) == NormalizeVersion(value)
    ensures ParseVersion(NormalizeVersion(value).value) == ParseVersion(TrimV(TrimSpace(value)))
  {
    var v := ParseVersion(TrimV(TrimSpace(value))).value;
    ParseOfFormat(v);
    FormatNeedsNoTrimming(v);
  }

  /** The version a string denotes. */
  ghost function Denoted(value: string): Version
    requires NormalizeVersion(value).Some?
  {
    ParseVersion(TrimV(TrimSpace(value))).value
  }

  /** `IsNewer` compares what its arguments denote. */
  lemma IsNewerComparesDenoted(a: string, b: string)
    requires NormalizeVersion(a).Some? && NormalizeVersion(b).Some?
    ensures IsNewer(a, b) == Some(CompareVersion(Denoted(a), Denoted(b)) > 0)
    ensures NormalizeVersion(a) == NormalizeVersion(b) <==> Denoted(a) == Denoted(b)
  {
    NormalizeIsIdempotent(a);
    NormalizeIsIdempotent(b);
  }

  /** `IsNewer` is a strict order on parsable strings, total up to normalisation. */
  lemma IsNewerIsStrict(a: string, b: string)
    requires NormalizeVersion(a).Some? && NormalizeVersion(b).Some?
    ensures IsNewer(a, b).Some?
    ensures IsNewer(a, b) == Some(true) ==> IsNewer(b, a) == Some(false)
    ensures (IsNewer(a, b) == Some(false) && IsNewer(b, a) == Some(false))
            <==> NormalizeVersion(a) == NormalizeVersion(b)
  {
    IsNewerComparesDenoted(a, b);
    IsNewerComparesDenoted(b, a);
    VersionOrderIsTotal(Denoted(a), Denoted(b));
  }

  lemma IsNewerIsTransitive(a: string, b: string, c: string)
    requires IsNewer(a, b) == Some(true) && IsNewer(b, c) == Some(true)
    ensures IsNewer(a, c) == Some(true)
  {
    IsNewerComparesDenoted(a, b);
    IsNewerComparesDenoted(b, c);
    IsNewerComparesDenoted(a, c);
    var x, y, z := Denoted(a), Denoted(b), Denoted(c);
    VersionOrderIsTotal(x, y);
    VersionOrderIsTotal(y, z);
    VersionOrderIsTotal(x, z);
    VersionOrderIsTransitive(z, y, x);
  }
}
