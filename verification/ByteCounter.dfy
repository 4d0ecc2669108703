/** Big-endian byte counters: the eight length bytes of a SHA-256 context are one of them. */
module ByteCounter {
  import opened Arithmetic
  import opened Bytes

  /** The number written by s, most significant byte first. */
  function Be(s: seq<Octet>): (v: nat)
    ensures v < Pow256(|s|)
  {
    if s == [] then 0 else Be(s[..|s| - 1]) * 256 + s[|s| - 1]
  }

  /** The bytes of Be(s) + 1, dropping a carry out of the first byte. */
  function Increment(s: seq<Octet>): (r: seq<Octet>)
    ensures |r| == |s|
  {
    if s == [] then []
    else if s[|s| - 1] == 255 then Increment(s[..|s| - 1]) + [0]
    else s[..|s| - 1] + [s[|s| - 1] + 1]
  }

  lemma {:induction false} IncrementValue(s: seq<Octet>)
    ensures Be(Increment(s)) == if Be(s) + 1 == Pow256(|s|) then 0 else Be(s) + 1
  {
    if s != [] {
      var p, x := s[..|s| - 1], s[|s| - 1];
      IncrementValue(p);
      if x == 255 {
        assert (Increment(p) + [0])[..|s| - 1] == Increment(p);
      } else {
        assert (p + [x + 1])[..|s| - 1] == p;
      }
    }
  }

  /** The worth of byte value b in front of k further bytes. */
  function Weight(b: nat, k: nat): nat {
    b * Pow256(k)
  }

  lemma {:induction false} PowAdd(a: nat, b: nat)
    ensures Pow256(a + b) == Pow256(a) * Pow256(b)
  {
    if a > 0 { PowAdd(a - 1, b); }
  }

  lemma {:induction false} BeConcat(p: seq<Octet>, r: seq<Octet>)
    ensures Be(p + r) == Be(p) * Pow256(|r|) + Be(r)
  {
    if r == [] {
      assert p + r == p;
    } else {
      var r', x := r[..|r| - 1], r[|r| - 1];
      assert (p + r)[..|p + r| - 1] == p + r';
      assert Be(p + r) == Be(p + r') * 256 + x && Be(r) == Be(r') * 256 + x;
      assert Pow256(|r|) == 256 * Pow256(|r'|);
      hide Be, Pow256;
      BeConcat(p, r');
      Scale256(Be(p), Pow256(|r'|), Be(r'));
    }
  }

  lemma Scale256(a: int, q: int, b: int)
    ensures (a * q + b) * 256 == a * (256 * q) + b * 256
  {
  }

  /** Each byte is a digit of the value. */
  lemma {:induction false} Digit(s: seq<Octet>, i: nat)
    requires i < |s|
    ensures s[i] == Be(s) / Pow256(|s| - 1 - i) % 256
  {
    var n := |s| - 1;
    var p := s[..n];
    assert Be(s) == Be(p) * 256 + s[n] && Pow256(0) == 1;
    hide Be;
    if i < n {
      assert Pow256(n - i) == 256 * Pow256(n - 1 - i);
      hide Pow256;
      Digit(p, i);
      assert s[i] == p[i];
      DigitUp(Be(p), s[n], Pow256(n - 1 - i));
    }
  }

  lemma DigitUp(u: nat, x: Octet, q: nat)
    requires q > 0
    ensures (u * 256 + x) / (256 * q) == u / q
  {
    DivUnique(u * 256 + x, 256, u, x);
    DivDiv(u * 256 + x, q);
  }

  lemma DivDiv(v: nat, q: nat)
    requires q > 0
    ensures v / 256 / q == v / (256 * q)
  {
    var a, b, c := v / 256 / q, v / 256 % q, v % 256;
    assert v / 256 == a * q + b && v == 256 * (v / 256) + c;
    Scale256(a, q, b);
    Bounded(256, q, b);
    DivUnique(v, 256 * q, a, b * 256 + c);
  }

  lemma Bounded(n: nat, q: nat, r: nat)
    requires r < q
    ensures r * n + n <= n * q
    ensures forall x: nat :: x < n ==> x * q + r < n * q
  {
    MulLe(r + 1, q, n);
    forall x: nat | x < n ensures x * q + r < n * q {
      MulLe(x + 1, n, q);
      Distribute(x, 1, q);
    }
  }

  /** One more digit of v. */
  lemma ModStep(v: nat, k: nat)
    ensures v % Pow256(k + 1) == v % Pow256(k) + Weight(v / Pow256(k) % 256, k)
  {
    var q := Pow256(k);
    assert Pow256(k + 1) == 256 * q;
    hide Pow256;
    var d := v / q;
    var a, b, r := d / 256, d % 256, v % q;
    assert v == d * q + r && d == a * 256 + b;
    Shift(a, b, q);
    Bounded(256, q, r);
    DivUnique(v, 256 * q, a, b * q + r);
  }

  lemma Shift(a: int, x: int, q: int)
    ensures (a * 256 + x) * q == a * (256 * q) + x * q
  {
    Distribute(a * 256, x, q);
  }

  lemma {:induction false} BeAt(p: seq<Octet>, x: Octet, r: seq<Octet>)
    ensures Be(p + [x] + r) == Be(p) * (256 * Pow256(|r|)) + x * Pow256(|r|) + Be(r)
  {
    BeConcat(p + [x], r);
    assert (p + [x])[..|p|] == p;
    Shift(Be(p), x, Pow256(|r|));
  }

  /** The carry, on numbers: a counts blocks of 256 * q, wrapping at top. */
  lemma Carry(a: nat, top: nat, x: Octet, b: Octet, q: nat, r: nat)
    requires a < top && r < q
    ensures var a' := if x + b <= 255 then a else if a + 1 == top then 0 else a + 1;
            a' * (256 * q) + (x + b) % 256 * q + r == (a * (256 * q) + x * q + r + b * q) % (top * (256 * q))
  {
    var a' := if x + b <= 255 then a else if a + 1 == top then 0 else a + 1;
    var p, m, x' := 256 * q, top * (256 * q), (x + b) % 256;
    Distribute(x, b, q);
    if x + b > 255 {
      Distribute(x + b - 256, 256, q);
      Distribute(a, 1, p);
    }
    Bounded(256, q, r);
    MulLe(a' + 1, top, p);
    Distribute(a', 1, p);
    CarrySum(x + b > 255, a + 1 == top, a * p, a' * p, x * q + b * q, x' * q, p, m, r);
  }

  /** The same with the products as plain numbers. */
  lemma CarrySum(carry: bool, wraps: bool, ap: int, ap': int, xq: int, xq': int, p: int, m: int, r: int)
    requires 0 <= ap' && 0 <= xq' && 0 <= r && ap' + p <= m && xq' + r < p
    requires if carry then xq == xq' + p && (if wraps then ap' == 0 && ap + p == m else ap' == ap + p)
        else ap' == ap && xq == xq'
    ensures ap' + xq' + r == (ap + xq + r) % m
  {
    DivUnique(ap + xq + r, m, if carry && wraps then 1 else 0, ap' + xq' + r);
  }

  /** Adding b to byte x, with the carry into the bytes before it, adds b at the weight of x. */
  lemma {:induction false} AddByte(p: seq<Octet>, x: Octet, r: seq<Octet>, b: Octet)
    ensures var p' := if x + b > 255 then Increment(p) else p;
            Be(p' + [(x + b) % 256] + r) == (Be(p + [x] + r) + Weight(b, |r|)) % Pow256(|p| + 1 + |r|)
  {
    TopWeight(|p|, |r|);
    hide Be, Increment, Pow256;
    BeAt(p, x, r);
    BeAt(if x + b > 255 then Increment(p) else p, (x + b) % 256, r);
    IncrementValue(p);
    assert Weight(b, |r|) == b * Pow256(|r|);
    hide *;
    Carry(Be(p), Pow256(|p|), x, b, Pow256(|r|), Be(r));
  }

  lemma TopWeight(i: nat, k: nat)
    ensures Pow256(i + 1 + k) == Pow256(i) * (256 * Pow256(k))
  {
    PowAdd(i, 1 + k);
  }
}
