/** The text form of stored instants (formatTime in internal/kliq/actionstate/sqlite.go) and its text order.

    An instant is the text of its second, which has a fixed width, and its nanoseconds. RFC3339Nano drops the
    trailing zeros of the fraction, and the whole fraction when it is zero.
 */
module TimeText {
  import opened Basics

  /** A second written as `2006-01-02T15:04:05`, and the nanoseconds inside it. */
  datatype Instant = Instant(second: string, nanos: nat)

  const SECOND_WIDTH := 19
  const DOT: char := '.'
  const ZULU: char := 'Z'

  predicate Valid(t: Instant) {
    |t.second| == SECOND_WIDTH && t.nanos < 1_000_000_000
  }

  predicate Digit(c: char) { '0' <= c <= '9' }

  predicate AllDigits(s: string) { forall i :: 0 <= i < |s| ==> Digit(s[i]) }

  /** `n` written with exactly `width` decimal digits. */
  function Padded(n: nat, width: nat): (s: string)
    ensures |s| == width && AllDigits(s)
  {
    if width == 0 then "" else Padded(n / 10, width - 1) + [(48 + n % 10) as char]
  }

  function TrimZeros(s: string): (t: string)
    ensures t <= s
    ensures t != "" ==> t[|t| - 1] != '0'
  {
    if s != "" && s[|s| - 1] == '0' then TrimZeros(s[..|s| - 1]) else s
  }

  /** The digits of the fraction that survive formatting. */
  function Fraction(nanos: nat): (s: string)
    ensures AllDigits(s)
  {
    TrimZeros(Padded(nanos, 9))
  }

  function FractionText(digits: string): string {
    (if digits == "" then "" else [DOT] + digits) + [ZULU]
  }

  function FormatTime(t: Instant): string {
    t.second + FractionText(Fraction(t.nanos))
  }

  /** A whole second is written without a fraction, and a fraction after a point. */
  lemma {:induction false} FormatTimeIs(t: Instant)
    ensures Fraction(t.nanos) == "" ==> FormatTime(t) == t.second + "Z"
    ensures Fraction(t.nanos) != "" ==> FormatTime(t) == t.second + "." + Fraction(t.nanos) + "Z"
  {
    assert [DOT] == "." && [ZULU] == "Z";
  }

  /** Chronological order. */
  predicate Before(s: Instant, t: Instant) {
    TextLess(s.second, t.second) || (s.second == t.second && s.nanos < t.nanos)
  }

  // ---------------------------------------------------------------- order of padded numbers

  lemma {:induction false} PaddedOrder(m: nat, n: nat, width: nat, bound: nat)
    requires m < n < bound && bound == Power10(width)
    ensures TextLess(Padded(m, width), Padded(n, width))
  {
    if width > 0 {
      var a, b := Padded(m / 10, width - 1), Padded(n / 10, width - 1);
      if m / 10 < n / 10 {
        PaddedOrder(m / 10, n / 10, width - 1, Power10(width - 1));
        LessExtends(a, b, [(48 + m % 10) as char], [(48 + n % 10) as char]);
      } else {
        SamePrefixLess(a, [(48 + m % 10) as char], [(48 + n % 10) as char]);
      }
    }
  }

  function Power10(w: nat): (p: nat)
    ensures p >= 1
  {
    if w == 0 then 1 else 10 * Power10(w - 1)
  }

  /** A strict order between texts of one length survives any continuation. */
  lemma {:induction false} LessExtends(a: string, b: string, x: string, y: string)
    requires |a| == |b| && TextLess(a, b)
    ensures TextLess(a + x, b + y)
  {
    if a[0] == b[0] {
      LessExtends(a[1..], b[1..], x, y);
      assert (a + x)[1..] == a[1..] + x && (b + y)[1..] == b[1..] + y;
    }
  }

  lemma {:induction false} SamePrefixLess(p: string, x: string, y: string)
    ensures TextLess(p + x, p + y) <==> TextLess(x, y)
  {
    if p == "" {
      assert p + x == x && p + y == y;
    } else {
      assert (p + x)[1..] == p[1..] + x && (p + y)[1..] == p[1..] + y;
      SamePrefixLess(p[1..], x, y);
    }
  }

  // ---------------------------------------------------------------- the exact condition

  /** Digit strings ended by `Z` sort as the digit strings do, except that an extension sorts before its prefix. */
  lemma {:induction false} EndedOrder(a: string, b: string)
    requires AllDigits(a) && AllDigits(b) && a != b
    ensures TextLess(a + [ZULU], b + [ZULU]) <==> !(a <= b) && (TextLess(a, b) || b <= a)
  {
    if a == "" {
      assert a + [ZULU] == [ZULU];
      assert (b + [ZULU])[0] == b[0];
    } else if b == "" {
      assert b + [ZULU] == [ZULU];
      assert (a + [ZULU])[0] == a[0];
    } else {
      assert (a + [ZULU])[1..] == a[1..] + [ZULU] && (b + [ZULU])[1..] == b[1..] + [ZULU];
      if a[0] == b[0] {
        assert a == [a[0]] + a[1..] && b == [b[0]] + b[1..];
        EndedOrder(a[1..], b[1..]);
        assert a <= b <==> a[1..] <= b[1..];
        assert b <= a <==> b[1..] <= a[1..];
      }
    }
  }

  /** Trimming zeros keeps the order of two fractions of one width, as far as prefixes allow. */
  lemma {:induction false} TrimZerosOrder(a: string, b: string)
    requires |a| == |b| && AllDigits(a) && AllDigits(b) && TextLess(a, b)
    ensures TextLess(TrimZeros(a), TrimZeros(b)) && TrimZeros(a) != TrimZeros(b) && !(TrimZeros(b) <= TrimZeros(a))
  {
    var s, t := TrimZeros(a), TrimZeros(b);
    TrimZerosCut(a, |s|);
    TrimZerosCut(b, |t|);
    FirstDifference(a, b);
    var k :| 0 <= k < |a| && a[..k] == b[..k] && a[k] < b[k];
    // the larger digit is not a zero, so it survives
    assert k < |t| && t[k] == b[k];
    assert b[..k] == t[..k];
    if |s| <= k {
      assert s == a[..|s|] == b[..|s|] == t[..|s|];
      ProperPrefixLess(s, t);
    } else {
      assert s[k] == a[k] && s[..k] == a[..k];
      LessAt(s, t, k);
    }
  }

  lemma {:induction false} TrimZerosCut(a: string, n: nat)
    requires n == |TrimZeros(a)|
    ensures n <= |a| && TrimZeros(a) == a[..n]
    ensures forall i :: n <= i < |a| ==> a[i] == '0'
  {
    if a != "" && a[|a| - 1] == '0' {
      TrimZerosCut(a[..|a| - 1], n);
    }
  }

  lemma {:induction false} FirstDifference(a: string, b: string)
    requires |a| == |b| && TextLess(a, b)
    ensures exists k :: 0 <= k < |a| && a[..k] == b[..k] && a[k] < b[k]
  {
    if a[0] < b[0] {
      assert a[..0] == b[..0];
    } else {
      FirstDifference(a[1..], b[1..]);
      var k :| 0 <= k < |a[1..]| && a[1..][..k] == b[1..][..k] && a[1..][k] < b[1..][k];
      assert a[..k + 1] == [a[0]] + a[1..][..k] && b[..k + 1] == [b[0]] + b[1..][..k];
      assert a[k + 1] < b[k + 1];
    }
  }

  lemma {:induction false} LessAt(s: string, t: string, k: nat)
    requires k < |s| && k < |t| && s[..k] == t[..k] && s[k] < t[k]
    ensures TextLess(s, t) && s != t && !(t <= s)
  {
    assert s == s[..k] + s[k..] && t == s[..k] + t[k..];
    SamePrefixLess(s[..k], s[k..], t[k..]);
  }

  lemma {:induction false} ProperPrefixLess(s: string, t: string)
    requires |s| < |t| && s == t[..|s|]
    ensures TextLess(s, t) && s != t && !(t <= s)
  {
    assert s == s + "" && t == s + t[|s|..];
    SamePrefixLess(s, "", t[|s|..]);
  }

  lemma {:induction false} FractionOrder(m: nat, n: nat)
    requires m < n < 1_000_000_000
    ensures TextLess(Fraction(m), Fraction(n)) && Fraction(m) != Fraction(n) && !(Fraction(n) <= Fraction(m))
  {
    assert Power10(3) == 1000;
    assert Power10(6) == 1000 * Power10(3);
    assert Power10(9) == 1000 * Power10(6);
    PaddedOrder(m, n, 9, Power10(9));
    TrimZerosOrder(Padded(m, 9), Padded(n, 9));
  }

  /** formatTime orders two instants as time does, except exactly when they share the second and the digits of the
      earlier fraction begin the digits of the later one. */
  lemma {:induction false} TextOrderIff(s: Instant, t: Instant)
    requires Valid(s) && Valid(t) && Before(s, t)
    ensures TextLess(FormatTime(s), FormatTime(t))
            <==> s.second != t.second || !(Fraction(s.nanos) <= Fraction(t.nanos))
  {
    var a, b := Fraction(s.nanos), Fraction(t.nanos);
    if s.second != t.second {
      LessExtends(s.second, t.second, FractionText(a), FractionText(b));
    } else {
      SamePrefixLess(s.second, FractionText(a), FractionText(b));
      TextLessTotal(s.second, t.second);
      FractionOrder(s.nanos, t.nanos);
      EndedOrder(a, b);
      if a != "" {
        assert FractionText(a)[1..] == a + [ZULU] && FractionText(b)[1..] == b + [ZULU];
      }
    }
  }

  /** Half a second later, and earlier in the text order. */
  lemma {:induction false} LaterSortsFirst(second: string)
    requires |second| == SECOND_WIDTH
    ensures Before(Instant(second, 0), Instant(second, 500_000_000))
    ensures TextLess(FormatTime(Instant(second, 500_000_000)), FormatTime(Instant(second, 0)))
  {
    var s, t := Instant(second, 0), Instant(second, 500_000_000);
    ZeroFraction(9);
    TextOrderIff(s, t);
    FractionOrder(0, 500_000_000);
    TextLessTotal(FormatTime(s), FormatTime(t));
    assert |FormatTime(s)| < |FormatTime(t)|;
  }

  lemma {:induction false} ZeroFraction(width: nat)
    ensures TrimZeros(Padded(0, width)) == ""
  {
    if width > 0 {
      ZeroFraction(width - 1);
      assert Padded(0, width)[..width - 1] == Padded(0, width - 1);
    }
  }
}
