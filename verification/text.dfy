/**
 * Decimal rendering and reading of naturals, zero padding and ASCII lower-casing:
 * the pieces of Python's `str(int)`, `"%02d"`, `str.lower()` and `str.replace`
 * that the task labels are built from.
 */
module Text {

  import opened Wrappers

  predicate IsDigit(c: char) {
    '0' <= c <= '9'
  }

  predicate AllDigits(s: string) {
    forall i :: 0 <= i < |s| ==> IsDigit(s[i])
  }

  function DigitChar(d: nat): (c: char)
    requires d < 10
    ensures IsDigit(c)
  {
    ['0', '1', '2', '3', '4', '5', '6', '7', '8', '9'][d]
  }

  function DigitValue(c: char): (d: nat)
    requires IsDigit(c)
    ensures d < 10
  {
    (c as int - '0' as int) as nat
  }

  lemma DigitRoundTrip(d: nat)
    requires d < 10
    ensures DigitValue(DigitChar(d)) == d
  {
  }

  function Pow10(w: nat): (p: nat)
    ensures p >= 1
  {
    if w == 0 then 1 else 10 * Pow10(w - 1)
  }

  /** Python's `str(n)` for a non-negative integer: no sign, no leading zeros. */
  function NatToString(n: nat): (s: string)
    ensures 1 <= |s|
    ensures AllDigits(s)
    ensures |s| > 1 ==> s[0] != '0'
    ensures n < 10 <==> |s| == 1
    decreases n
  {
    if n < 10 then [DigitChar(n)] else NatToString(n / 10) + [DigitChar(n % 10)]
  }

  /** Python's `str(i)` for any integer: a minus sign before the digits of a negative value. */
  function IntToString(i: int): (s: string)
    ensures 1 <= |s|
    ensures i >= 0 ==> s == NatToString(i)
    ensures i < 0 ==> s == "-" + NatToString(-i)
  {
    if i >= 0 then NatToString(i) else "-" + NatToString(-i)
  }

  /** The value of a string of decimal digits, most significant first. */
  function DigitsValue(s: string): nat
    requires AllDigits(s)
    decreases |s|
  {
    if s == [] then 0 else 10 * DigitsValue(s[..|s| - 1]) + DigitValue(s[|s| - 1])
  }

  /** Reads a non-empty run of decimal digits; anything else is not a number. */
  function ParseNat(s: string): (r: Option<nat>)
    ensures r.Some? <==> 1 <= |s| && AllDigits(s)
  {
    if 1 <= |s| && AllDigits(s) then Some(DigitsValue(s)) else None
  }

  lemma {:induction false} NatToStringRoundTrip(n: nat)
    ensures DigitsValue(NatToString(n)) == n
    decreases n
  {
    if n >= 10 {
      var s := NatToString(n);
      NatToStringRoundTrip(n / 10);
      assert s[..|s| - 1] == NatToString(n / 10);
      DigitRoundTrip(n % 10);
    } else {
      DigitRoundTrip(n);
    }
  }

  lemma ParseNatToString(n: nat)
    ensures ParseNat(NatToString(n)) == Some(n)
  {
    NatToStringRoundTrip(n);
  }

  /** Below 10^w a natural takes at most w digits. */
  lemma {:induction false} NatToStringWidth(n: nat, w: nat)
    requires 1 <= w
    requires n < Pow10(w)
    ensures |NatToString(n)| <= w
    decreases w
  {
    if n >= 10 {
      assert w >= 2;
      assert n / 10 < Pow10(w - 1);
      NatToStringWidth(n / 10, w - 1);
    }
  }

  function Zeros(k: nat): (z: string)
    ensures |z| == k
    ensures forall i :: 0 <= i < k ==> z[i] == '0'
  {
    if k == 0 then [] else Zeros(k - 1) + ['0']
  }

  lemma {:induction false} LeadingZerosValue(k: nat, s: string)
    requires AllDigits(s)
    ensures AllDigits(Zeros(k) + s)
    ensures DigitsValue(Zeros(k) + s) == DigitsValue(s)
    decreases |s|, k
  {
    if s == [] {
      assert Zeros(k) + s == Zeros(k);
      if k > 0 {
        LeadingZerosValue(k - 1, []);
        assert Zeros(k)[..k - 1] == Zeros(k - 1) + [];
      }
    } else {
      var t := Zeros(k) + s;
      LeadingZerosValue(k, s[..|s| - 1]);
      assert t[..|t| - 1] == Zeros(k) + s[..|s| - 1];
    }
  }

  /** Python's `"%0{w}d" % n`: the digits of n, left-padded with zeros to at least w characters. */
  function ZeroPad(n: nat, w: nat): (s: string)
    ensures |s| == if |NatToString(n)| < w then w else |NatToString(n)|
    ensures AllDigits(s)
    ensures DigitsValue(s) == n
  {
    var digits := NatToString(n);
    NatToStringRoundTrip(n);
    LeadingZerosValue(if |digits| < w then w - |digits| else 0, digits);
    Zeros(if |digits| < w then w - |digits| else 0) + digits
  }

  lemma ZeroPadWidth(n: nat, w: nat)
    requires 1 <= w
    requires n < Pow10(w)
    ensures |ZeroPad(n, w)| == w
  {
    NatToStringWidth(n, w);
  }

  predicate IsUpper(c: char) {
    'A' <= c <= 'Z'
  }

  /** ASCII lower-casing of one character; every other character is unchanged. */
  function LowerChar(c: char): (l: char)
    ensures !IsUpper(l)
    ensures IsUpper(c) ==> l as int == c as int + 32
    ensures !IsUpper(c) ==> l == c
  {
    if IsUpper(c) then (c as int + 32) as char else c
  }

  /** Python's `s.lower()`, on the ASCII letters. */
  function Lower(s: string): (l: string)
    ensures |l| == |s|
    ensures forall i :: 0 <= i < |s| ==> l[i] == LowerChar(s[i])
  {
    seq(|s|, i requires 0 <= i < |s| => LowerChar(s[i]))
  }

  /** Position of the first occurrence of c in s, if any. */
  function FirstIndexOf(s: string, c: char): (r: Option<nat>)
    ensures r.Some? ==> r.value < |s| && s[r.value] == c && c !in s[..r.value]
    ensures r.None? ==> c !in s
    decreases |s|
  {
    if s == [] then None
    else if s[0] == c then Some(0)
    else match FirstIndexOf(s[1..], c)
      case None => None
      case Some(k) => Some(k + 1)
  }

  /** A character that is not in the first part is first found in the second. */
  lemma {:induction false} FirstIndexAfter(a: string, b: string, c: char)
    requires c !in a && c in b
    ensures FirstIndexOf(a + b, c).Some?
    ensures FirstIndexOf(a + b, c).value == |a| + FirstIndexOf(b, c).value
    decreases |a|
  {
    if a == [] {
      assert a + b == b;
    } else {
      assert (a + b)[0] == a[0] != c;
      assert (a + b)[1..] == a[1..] + b;
      FirstIndexAfter(a[1..], b, c);
    }
  }

  /**
   * A number written in front of a non-digit separator can be told apart from
   * any other: equal texts of that shape carry the same number.
   */
  lemma NumberBeforeSeparator(x: nat, y: nat, qx: string, qy: string)
    requires |qx| > 0 && |qy| > 0 && qx[0] == qy[0] && !IsDigit(qx[0])
    requires NatToString(x) + qx == NatToString(y) + qy
    ensures x == y
  {
    var sx, sy, c := NatToString(x), NatToString(y), qx[0];
    assert c !in sx && c !in sy;
    assert FirstIndexOf(qx, c) == Some(0) && FirstIndexOf(qy, c) == Some(0);
    FirstIndexAfter(sx, qx, c);
    FirstIndexAfter(sy, qy, c);
    assert |sx| == |sy|;
    assert sx == (sx + qx)[..|sx|];
    assert sy == (sy + qy)[..|sy|];
    ParseNatToString(x);
    ParseNatToString(y);
  }

  /** Different integers are written differently. */
  lemma IntToStringInjective(i: int, j: int)
    requires IntToString(i) == IntToString(j)
    ensures i == j
  {
    var si, sj := IntToString(i), IntToString(j);
    if i >= 0 && j >= 0 {
      ParseNatToString(i);
      ParseNatToString(j);
    } else if i < 0 && j < 0 {
      assert NatToString(-i) == si[1..] && NatToString(-j) == sj[1..];
      ParseNatToString(-i);
      ParseNatToString(-j);
    }
  }
}
