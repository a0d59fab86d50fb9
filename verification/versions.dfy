/** The release segment of a PEP 440 version ("Final releases"): digit groups
    separated by dots, compared numerically component by component, the
    shorter one padded with zeros, so that "1.0" and "1.0.0" are equal and
    "1.9" is below "1.10". */
module Versions {
  import opened Wrappers
  import opened Text

  type Version = seq<nat>

  function DigitValue(c: char): nat
    requires IsDigit(c)
  {
    c as int - '0' as int
  }

  predicate AllDigits(s: string) {
    forall i :: 0 <= i < |s| ==> IsDigit(s[i])
  }

  /** Python's `int(s)` on a run of decimal digits */
  function DigitsValue(s: string): nat
    requires AllDigits(s)
  {
    if s == [] then 0 else DigitsValue(s[..|s| - 1]) * 10 + DigitValue(s[|s| - 1])
  }

  /** Length of the longest prefix of `s` made of digits */
  function LeadingDigits(s: string): (n: nat)
    ensures n <= |s|
    ensures forall i :: 0 <= i < n ==> IsDigit(s[i])
    ensures n < |s| ==> !IsDigit(s[n])
  {
    if s == [] || !IsDigit(s[0]) then 0 else 1 + LeadingDigits(s[1..])
  }

  /** `packaging.version.parse` restricted to release segments; None where it
      raises InvalidVersion. */
  function ParseVersion(s: string): (r: Option<Version>)
    decreases |s|
  {
    var n := LeadingDigits(s);
    if n == 0 then None
    else if n == |s| then Some([DigitsValue(s)])
    else if s[n] != '.' then None
    else
      match ParseVersion(s[n + 1..])
      case None => None
      case Some(rest) => Some([DigitsValue(s[..n])] + rest)
  }

  /** The strings ParseVersion accepts, described without scanning: non-empty,
      digits and dots only, no dot at either end and no two dots in a row. */
  predicate WellFormedRelease(s: string) {
    && |s| > 0
    && (forall i :: 0 <= i < |s| ==> IsDigit(s[i]) || s[i] == '.')
    && s[0] != '.'
    && s[|s| - 1] != '.'
    && (forall i :: 0 < i < |s| ==> s[i] == '.' ==> s[i - 1] != '.')
  }

  lemma {:induction false} ParseVersionAcceptsExactlyWellFormed(s: string)
    ensures ParseVersion(s).Some? <==> WellFormedRelease(s)
    decreases |s|
  {
    var n := LeadingDigits(s);
    if n == 0 || n == |s| {
      if n == 0 && s != [] {
        assert !IsDigit(s[0]);
      }
    } else if s[n] != '.' {
      assert !(IsDigit(s[n]) || s[n] == '.');
    } else {
      var rest := s[n + 1..];
      ParseVersionAcceptsExactlyWellFormed(rest);
      if WellFormedRelease(s) {
        assert s[|s| - 1] != '.';
        assert n + 1 < |s|;
        assert rest[0] == s[n + 1];
        assert s[n + 1] != '.';
        forall i | 0 < i < |rest| && rest[i] == '.'
          ensures rest[i - 1] != '.'
        {
          assert s[n + 1 + i] == '.';
        }
        assert WellFormedRelease(rest);
      }
      if ParseVersion(s).Some? {
        assert WellFormedRelease(rest);
        assert s[0] != '.' by { assert IsDigit(s[0]); }
        assert s[n + 1] == rest[0] != '.';
        forall i | 0 < i < |s|
          ensures s[i] == '.' ==> s[i - 1] != '.'
        {
          if i > n + 1 {
            assert s[i] == rest[i - n - 1] && s[i - 1] == rest[i - n - 2];
          }
        }
        forall i | 0 <= i < |s|
          ensures IsDigit(s[i]) || s[i] == '.'
        {
          if i > n {
            assert s[i] == rest[i - n - 1];
          }
        }
        assert s[|s| - 1] == rest[|rest| - 1];
      }
    }
  }

  // ----- decimal rendering, the inverse of ParseVersion -----

  function DigitChar(d: nat): char
    requires d < 10
  {
    (d + '0' as int) as char
  }

  /** Decimal digits of `n`, no leading zeros */
  function Decimal(n: nat): (s: string)
    ensures |s| > 0 && AllDigits(s)
  {
    if n < 10 then [DigitChar(n)] else Decimal(n / 10) + [DigitChar(n % 10)]
  }

  /** Segments joined by dots: [10, 2, 0] is "10.2.0" */
  function Render(v: Version): string
    requires |v| > 0
  {
    if |v| == 1 then Decimal(v[0]) else Decimal(v[0]) + "." + Render(v[1..])
  }

  lemma {:induction false} DecimalValue(n: nat)
    ensures DigitsValue(Decimal(n)) == n
  {
    if n >= 10 {
      var s := Decimal(n);
      DecimalValue(n / 10);
      assert s[..|s| - 1] == Decimal(n / 10);
    }
  }

  lemma LeadingDigitsOfPrefix(a: string, b: string)
    requires AllDigits(a)
    requires b == [] || !IsDigit(b[0])
    ensures LeadingDigits(a + b) == |a|
    decreases |a|
  {
    if a != [] {
      assert (a + b)[1..] == a[1..] + b;
      LeadingDigitsOfPrefix(a[1..], b);
    } else {
      assert a + b == b;
    }
  }

  lemma {:induction false} ParseRender(v: Version)
    requires |v| > 0
    ensures ParseVersion(Render(v)) == Some(v)
  {
    var d := Decimal(v[0]);
    DecimalValue(v[0]);
    if |v| == 1 {
      LeadingDigitsOfPrefix(d, []);
      assert d + [] == d;
      assert Render(v) == d;
      assert v == [v[0]];
    } else {
      var tail := "." + Render(v[1..]);
      LeadingDigitsOfPrefix(d, tail);
      var s := Render(v);
      assert s == d + tail;
      assert s[|d| + 1..] == Render(v[1..]);
      assert s[..|d|] == d;
      ParseRender(v[1..]);
      assert v == [v[0]] + v[1..];
    }
  }

  /** `k` zero digits */
  function Zeros(k: nat): (s: string)
    ensures |s| == k && AllDigits(s)
  {
    if k == 0 then "" else Zeros(k - 1) + "0"
  }

  lemma {:induction false} ZerosValue(k: nat)
    ensures DigitsValue(Zeros(k)) == 0
  {
    if k > 0 {
      ZerosValue(k - 1);
      assert Zeros(k)[..k - 1] == Zeros(k - 1);
    }
  }

  /** `int("007")` is 7: leading zeros do not change a digit run's value. */
  lemma {:induction false} LeadingZerosIgnored(k: nat, d: string)
    requires AllDigits(d)
    ensures AllDigits(Zeros(k) + d) && DigitsValue(Zeros(k) + d) == DigitsValue(d)
    decreases |d|
  {
    var s := Zeros(k) + d;
    if d == [] {
      assert s == Zeros(k);
      ZerosValue(k);
    } else {
      LeadingZerosIgnored(k, d[..|d| - 1]);
      assert s[..|s| - 1] == Zeros(k) + d[..|d| - 1];
      assert s[|s| - 1] == d[|d| - 1];
    }
  }

  /** Segments joined by dots, segment k written with z[k] leading zeros:
      [2, 0, 1] with zeros [0, 0, 1] is "2.0.01". */
  function RenderPadded(v: Version, z: seq<nat>): string
    requires |v| > 0 && |z| == |v|
  {
    var head := Zeros(z[0]) + Decimal(v[0]);
    if |v| == 1 then head else head + "." + RenderPadded(v[1..], z[1..])
  }

  /** Parsing normalises each segment as an integer, as PEP 440 does:
      "2.0.01" parses to the same release as "2.0.1". */
  lemma {:induction false} ParseRenderPadded(v: Version, z: seq<nat>)
    requires |v| > 0 && |z| == |v|
    ensures ParseVersion(RenderPadded(v, z)) == Some(v)
  {
    var d := Zeros(z[0]) + Decimal(v[0]);
    DecimalValue(v[0]);
    LeadingZerosIgnored(z[0], Decimal(v[0]));
    if |v| == 1 {
      LeadingDigitsOfPrefix(d, []);
      assert d + [] == d;
      assert v == [v[0]];
    } else {
      var tail := "." + RenderPadded(v[1..], z[1..]);
      LeadingDigitsOfPrefix(d, tail);
      var s := RenderPadded(v, z);
      assert s == d + tail;
      assert s[|d| + 1..] == RenderPadded(v[1..], z[1..]);
      assert s[..|d|] == d;
      ParseRenderPadded(v[1..], z[1..]);
      assert v == [v[0]] + v[1..];
    }
  }

  // ----- comparison -----

  /** The k-th segment, zero past the end */
  function Seg(v: Version, k: nat): nat {
    if k < |v| then v[k] else 0
  }

  function Rest(v: Version): Version {
    if v == [] then [] else v[1..]
  }

  /** -1, 0 or 1 as `a` is below, equal to or above `b` */
  function Compare(a: Version, b: Version): (c: int)
    ensures -1 <= c <= 1
    decreases |a| + |b|
  {
    if a == [] && b == [] then 0
    else if Seg(a, 0) < Seg(b, 0) then -1
    else if Seg(a, 0) > Seg(b, 0) then 1
    else Compare(Rest(a), Rest(b))
  }

  predicate Less(a: Version, b: Version) {
    Compare(a, b) < 0
  }

  predicate LessEq(a: Version, b: Version) {
    Compare(a, b) <= 0
  }

  lemma SegRest(v: Version, k: nat)
    ensures Seg(Rest(v), k) == Seg(v, k + 1)
  {
  }

  /** Equal exactly when every zero-padded segment is equal. */
  lemma {:induction false} CompareZeroIffPaddedEqual(a: Version, b: Version)
    ensures Compare(a, b) == 0 <==> forall k: nat :: Seg(a, k) == Seg(b, k)
    decreases |a| + |b|
  {
    if a == [] && b == [] {
    } else if Seg(a, 0) != Seg(b, 0) {
    } else {
      CompareZeroIffPaddedEqual(Rest(a), Rest(b));
      if Compare(a, b) == 0 {
        forall k: nat ensures Seg(a, k) == Seg(b, k) {
          if k > 0 {
            SegRest(a, k - 1);
            SegRest(b, k - 1);
          }
        }
      } else {
        var k: nat :| Seg(Rest(a), k) != Seg(Rest(b), k);
        SegRest(a, k);
        SegRest(b, k);
      }
    }
  }

  /** `a` differs from `b` first at segment k, where it is smaller */
  ghost predicate FirstDifferenceBelow(a: Version, b: Version, k: nat) {
    Seg(a, k) < Seg(b, k) && forall j: nat :: j < k ==> Seg(a, j) == Seg(b, j)
  }

  /** Below exactly when the first differing padded segment is smaller. */
  lemma {:induction false} LessIffFirstDifferenceBelow(a: Version, b: Version)
    ensures Less(a, b) <==> exists k: nat :: FirstDifferenceBelow(a, b, k)
    decreases |a| + |b|
  {
    if a == [] && b == [] {
      forall k: nat ensures !FirstDifferenceBelow(a, b, k) {
      }
    } else if Seg(a, 0) < Seg(b, 0) {
      assert FirstDifferenceBelow(a, b, 0);
    } else if Seg(a, 0) > Seg(b, 0) {
      forall k: nat ensures !FirstDifferenceBelow(a, b, k) {
        if k > 0 {
          assert Seg(a, 0) != Seg(b, 0);
        }
      }
    } else {
      LessIffFirstDifferenceBelow(Rest(a), Rest(b));
      if Less(a, b) {
        var k: nat :| FirstDifferenceBelow(Rest(a), Rest(b), k);
        SegRest(a, k);
        SegRest(b, k);
        forall j: nat | j < k + 1 ensures Seg(a, j) == Seg(b, j) {
          if j > 0 {
            SegRest(a, j - 1);
            SegRest(b, j - 1);
          }
        }
        assert FirstDifferenceBelow(a, b, k + 1);
      }
      if exists k: nat :: FirstDifferenceBelow(a, b, k) {
        var k: nat :| FirstDifferenceBelow(a, b, k);
        assert k > 0;
        SegRest(a, k - 1);
        SegRest(b, k - 1);
        forall j: nat | j < k - 1 ensures Seg(Rest(a), j) == Seg(Rest(b), j) {
          SegRest(a, j);
          SegRest(b, j);
        }
        assert FirstDifferenceBelow(Rest(a), Rest(b), k - 1);
      }
    }
  }

  lemma {:induction false} CompareAntisymmetric(a: Version, b: Version)
    ensures Compare(a, b) == -Compare(b, a)
    decreases |a| + |b|
  {
    if !(a == [] && b == []) && Seg(a, 0) == Seg(b, 0) {
      CompareAntisymmetric(Rest(a), Rest(b));
    }
  }

  /** The order is total: `a` is above `b` exactly when it is not at or below. */
  lemma LessIsNotGreaterOrEqual(a: Version, b: Version)
    ensures Less(a, b) <==> !LessEq(b, a)
    ensures LessEq(a, b) || LessEq(b, a)
  {
    CompareAntisymmetric(a, b);
  }

  lemma {:induction false} LessEqTransitive(a: Version, b: Version, c: Version)
    requires LessEq(a, b) && LessEq(b, c)
    ensures LessEq(a, c)
    ensures Less(a, b) || Less(b, c) ==> Less(a, c)
    decreases |a| + |b| + |c|
  {
    if a == [] && b == [] && c == [] {
    } else if Seg(a, 0) < Seg(b, 0) || Seg(b, 0) < Seg(c, 0) {
    } else {
      assert Seg(a, 0) == Seg(b, 0) == Seg(c, 0);
      if a == [] && b == [] {
        assert Rest(a) == a && Rest(b) == b;
      }
      if b == [] && c == [] {
        assert Rest(b) == b && Rest(c) == c;
      }
      LessEqTransitive(Rest(a), Rest(b), Rest(c));
      if a == [] && c == [] {
        CompareZeroIffPaddedEqual(Rest(a), Rest(c));
        assert Compare(Rest(a), Rest(c)) == 0;
      }
    }
  }

  /** Trailing zeros do not change a version: "1.0" equals "1.0.0". */
  lemma TrailingZeroIsEqual(v: Version)
    ensures Compare(v + [0], v) == 0
  {
    forall k: nat ensures Seg(v + [0], k) == Seg(v, k) {
    }
    CompareZeroIffPaddedEqual(v + [0], v);
  }

  /** Segments compare as numbers, not as text: 1.9 precedes 1.10, and 2.2
      precedes 2.20. */
  lemma NumericSegmentOrder()
    ensures Less([1, 9], [1, 10])
    ensures Less([2, 2], [2, 20])
  {
  }
}
