/**
  Decimal rendering of integers as Python's `str(n)` and the format specs `{n:02d}`, `{n:03d}`.
  The functions carry only their lengths; what the digits mean is stated by the lemmas beside them.
 */
module Decimal {

  predicate IsDigit(c: char) { '0' <= c <= '9' }

  predicate AllDigits(s: string) { forall i :: 0 <= i < |s| ==> IsDigit(s[i]) }

  function DigitChar(d: nat): char
    requires d < 10
  {
    ('0' as int + d) as char
  }

  /** `str(n)` for a non-negative integer. */
  function NatToString(n: nat): (r: string)
    ensures 1 <= |r|
  {
    if n < 10 then [DigitChar(n)] else NatToString(n / 10) + [DigitChar(n % 10)]
  }

  /** The number a digit string denotes, read most significant digit first. */
  function DigitsValue(s: string): int {
    if s == [] then 0 else DigitsValue(s[..|s| - 1]) * 10 + (s[|s| - 1] as int - '0' as int)
  }

  lemma {:induction false} DigitsValueNonNegative(s: string)
    requires AllDigits(s)
    ensures DigitsValue(s) >= 0
  {
    if s != [] {
      DigitsValueNonNegative(s[..|s| - 1]);
    }
  }

  /** `str(n)` is a string of digits without a leading zero. */
  lemma {:induction false} NatToStringDigits(n: nat)
    ensures AllDigits(NatToString(n))
    ensures |NatToString(n)| > 1 ==> NatToString(n)[0] != '0'
  {
    if n >= 10 {
      NatToStringDigits(n / 10);
      var d := NatToString(n / 10);
      assert NatToString(n) == d + [DigitChar(n % 10)];
      assert NatToString(n)[0] == d[0];
    }
  }

  /** Reading `str(n)` back gives `n`. */
  lemma {:induction false} NatToStringValue(n: nat)
    ensures DigitsValue(NatToString(n)) == n
  {
    if n >= 10 {
      NatToStringValue(n / 10);
      var d := NatToString(n / 10);
      assert (d + [DigitChar(n % 10)])[..|d|] == d;
    }
  }

  function Pow10(k: nat): (p: nat)
    ensures p >= 1
  {
    if k == 0 then 1 else 10 * Pow10(k - 1)
  }

  /** A number below `10^w` takes at most `w` digits. */
  lemma {:induction false} NatToStringLength(n: nat, w: nat)
    requires 1 <= w
    requires n < Pow10(w)
    ensures |NatToString(n)| <= w
  {
    if n >= 10 {
      assert Pow10(1) == 10;
      assert w >= 2;
      NatToStringLength(n / 10, w - 1);
    }
  }

  function Zeros(k: nat): (r: string)
    ensures |r| == k
  {
    if k == 0 then "" else "0" + Zeros(k - 1)
  }

  lemma {:induction false} ZerosDigits(k: nat)
    ensures AllDigits(Zeros(k))
  {
    if k > 0 {
      ZerosDigits(k - 1);
      assert Zeros(k) == "0" + Zeros(k - 1);
    }
  }

  /** Leading zeros do not change the value of a digit string. */
  lemma {:induction false} ZerosValue(k: nat, s: string)
    ensures DigitsValue(Zeros(k) + s) == DigitsValue(s)
  {
    if s == [] {
      assert Zeros(k) + s == Zeros(k);
      ZerosOnly(k);
    } else {
      var t := s[..|s| - 1];
      ZerosValue(k, t);
      assert (Zeros(k) + s)[..|Zeros(k) + s| - 1] == Zeros(k) + t;
    }
  }

  lemma {:induction false} ZerosOnly(k: nat)
    ensures DigitsValue(Zeros(k)) == 0
  {
    if k > 0 {
      ZerosOnly(k - 1);
      ZerosShift(k);
      assert Zeros(k)[..k - 1] == Zeros(k - 1);
    }
  }

  lemma {:induction false} ZerosShift(k: nat)
    requires k > 0
    ensures Zeros(k) == Zeros(k - 1) + "0"
  {
    if k > 1 {
      ZerosShift(k - 1);
    }
  }

  /** Zero-padding on the left to at least `w` characters. */
  function PadLeft(s: string, w: nat): (r: string)
    ensures |r| == if |s| < w then w else |s|
  {
    Zeros(if |s| < w then w - |s| else 0) + s
  }

  /** The padding only adds zeros in front: the original characters end the result. */
  lemma PadLeftSuffix(s: string, w: nat)
    ensures var r := PadLeft(s, w); r[|r| - |s|..] == s && r[..|r| - |s|] == Zeros(|r| - |s|)
  {
    var r := PadLeft(s, w);
    var k := if |s| < w then w - |s| else 0;
    assert r == Zeros(k) + s;
    assert r[|r| - |s|..] == s;
    assert r[..|r| - |s|] == Zeros(k);
  }

  /** Padding keeps a digit string a digit string of the same value. */
  lemma PadLeftValue(s: string, w: nat)
    requires AllDigits(s)
    ensures AllDigits(PadLeft(s, w)) && DigitsValue(PadLeft(s, w)) == DigitsValue(s)
  {
    var k := if |s| < w then w - |s| else 0;
    ZerosDigits(k);
    ZerosValue(k, s);
    var r := PadLeft(s, w);
    assert r == Zeros(k) + s;
    forall i | 0 <= i < |r|
      ensures IsDigit(r[i])
    {
      if i < k { assert r[i] == Zeros(k)[i]; } else { assert r[i] == s[i - k]; }
    }
  }

  /** Python `f"{n:0{w}d}"` for a non-negative `n`. */
  function PaddedNat(n: nat, w: nat): string {
    PadLeft(NatToString(n), w)
  }

  /** `f"{n:0{w}d}"` is a digit string of value `n`, at least `w` long, exactly `w` whenever
      `n` has no more than `w` digits. */
  lemma PaddedNatDigits(n: nat, w: nat)
    ensures var r := PaddedNat(n, w);
      AllDigits(r) && DigitsValue(r) == n && |r| >= w
      && (1 <= w && n < Pow10(w) ==> |r| == w)
  {
    NatToStringDigits(n);
    NatToStringValue(n);
    PadLeftValue(NatToString(n), w);
    if 1 <= w && n < Pow10(w) {
      NatToStringLength(n, w);
    }
  }

  /** Python `f"{n:0{w}d}"` for any integer: a minus sign counts towards the width. */
  function PaddedInt(n: int, w: nat): string {
    if n >= 0 then PaddedNat(n, w)
    else "-" + PaddedNat(-n, if w == 0 then 0 else w - 1)
  }

  lemma PaddedIntNegative(n: int, w: nat)
    requires n < 0
    ensures var r := PaddedInt(n, w);
      |r| >= 2 && r[0] == '-' && AllDigits(r[1..]) && DigitsValue(r[1..]) == -n
  {
    var p := PaddedNat(-n, if w == 0 then 0 else w - 1);
    PaddedNatDigits(-n, if w == 0 then 0 else w - 1);
    assert PaddedInt(n, w)[1..] == p;
  }
}
