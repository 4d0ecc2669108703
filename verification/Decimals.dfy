/** Decimal numbers as text: the printer, the reader, and that neither loses anything. */
module Decimals {
  import opened Bytes

  const ZERO: Octet := 48

  function Decimal(n: nat): (t: seq<Octet>)
    ensures |t| > 0 && forall k :: 0 <= k < |t| ==> ZERO <= t[k] < ZERO + 10
  {
    var digit: Octet := ZERO + n % 10;
    if n < 10 then [digit] else Decimal(n / 10) + [digit]
  }

  function DecimalValue(t: seq<Octet>): int {
    if t == [] then 0 else 10 * DecimalValue(t[..|t| - 1]) + (t[|t| - 1] - ZERO)
  }

  lemma {:induction false} DecimalRoundTrip(n: nat)
    ensures DecimalValue(Decimal(n)) == n
  {
    var t := Decimal(n);
    if n < 10 {
      assert t[..0] == [];
    } else {
      DecimalRoundTrip(n / 10);
      assert t[..|t| - 1] == Decimal(n / 10);
    }
  }

  /** A number below 10^k has at most k digits. */
  function Ten(k: nat): nat {
    if k == 0 then 1 else 10 * Ten(k - 1)
  }

  lemma {:induction false} DecimalLength(n: nat, k: nat)
    requires n < Ten(k) && k > 0
    ensures |Decimal(n)| <= k
  {
    if n >= 10 { DecimalLength(n / 10, k - 1); }
  }

  predicate AllDigits(t: seq<Octet>) {
    forall k :: 0 <= k < |t| ==> ZERO <= t[k] < ZERO + 10
  }

  lemma {:induction false} ValueBound(t: seq<Octet>)
    requires AllDigits(t)
    ensures 0 <= DecimalValue(t) < Ten(|t|)
  {
    if t != [] { ValueBound(t[..|t| - 1]); }
  }

  /** As many digits that give the same number are the same digits. */
  lemma {:induction false} SameValue(s: seq<Octet>, t: seq<Octet>)
    requires AllDigits(s) && AllDigits(t) && |s| == |t|
    ensures DecimalValue(s) == DecimalValue(t) <==> s == t
  {
    if s != [] && DecimalValue(s) == DecimalValue(t) {
      var n := |s| - 1;
      SameValue(s[..n], t[..n]);
      assert s == s[..n] + [s[n]] && t == t[..n] + [t[n]];
    }
  }

  /** Digits without a leading zero are what the printer prints. */
  lemma {:induction false} PrintedAgain(t: seq<Octet>)
    requires AllDigits(t) && |t| > 0 && (t[0] == ZERO ==> |t| == 1)
    ensures DecimalValue(t) >= 0 && Decimal(DecimalValue(t)) == t
    ensures |t| > 1 ==> DecimalValue(t) >= 10
  {
    var n := |t| - 1;
    assert t == t[..n] + [t[n]];
    if n == 0 {
      assert t[..0] == [];
    } else {
      PrintedAgain(t[..n]);
      if n == 1 { assert t[..1][..0] == []; }
      assert DecimalValue(t) / 10 == DecimalValue(t[..n]) && DecimalValue(t) % 10 == t[n] - ZERO;
    }
  }
}
