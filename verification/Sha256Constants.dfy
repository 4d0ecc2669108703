/** Where the constants of SHA-256 come from (sections 4.2.2 and 5.3.3 of FIPS 180-4): the first 32 bits of the
    fractional parts of the cube roots of the first 64 primes, and of the square roots of the first eight. */
module Sha256Constants {
  import opened Arithmetic
  import opened Sha256Spec

  const P0: seq<nat> := [2, 3, 5, 7, 11, 13, 17, 19]
  const P1: seq<nat> := [23, 29, 31, 37, 41, 43, 47, 53]
  const P2: seq<nat> := [59, 61, 67, 71, 73, 79, 83, 89]
  const P3: seq<nat> := [97, 101, 103, 107, 109, 113, 127, 131]
  const P4: seq<nat> := [137, 139, 149, 151, 157, 163, 167, 173]
  const P5: seq<nat> := [179, 181, 191, 193, 197, 199, 211, 223]
  const P6: seq<nat> := [227, 229, 233, 239, 241, 251, 257, 263]
  const P7: seq<nat> := [269, 271, 277, 281, 283, 293, 307, 311]

  /** The first 64 primes. */
  const PRIMES: seq<nat> := P0 + P1 + P2 + P3 + P4 + P5 + P6 + P7

  ghost predicate Prime(n: nat) {
    n >= 2 && forall d :: 2 <= d < n ==> n % d != 0
  }

  /** No prime up to 17 divides n, unless it is n. */
  predicate Sieved(n: nat) {
    && (n % 2 != 0 || n == 2) && (n % 3 != 0 || n == 3) && (n % 5 != 0 || n == 5) && (n % 7 != 0 || n == 7)
    && (n % 11 != 0 || n == 11) && (n % 13 != 0 || n == 13) && (n % 17 != 0 || n == 17)
  }

  lemma DividesOn(p: nat, d: nat, n: nat)
    requires p > 0 && d > 0 && d % p == 0 && n % d == 0
    ensures n % p == 0
  {
    var e, q := d / p, n / d;
    assert d == e * p && n == q * d;
    assert n == q * e * p by { assert q * (e * p) == q * e * p; }
    DivUnique(n, p, q * e, 0);
  }

  /** Below 19 * 19 the sieve leaves exactly the primes. */
  lemma SievedIsPrime(n: nat)
    requires 2 <= n < 361
    ensures Sieved(n) <==> Prime(n)
  {
    if Sieved(n) {
      forall d | 2 <= d < n ensures n % d != 0 {
        if n % d == 0 {
          var e := n / d;
          assert n == e * d;
          if d < 19 {
            SmallDivisor(d, n);
          } else {
            assert e < 19 by { if e >= 19 { MulLe(19, e, d); } }
            assert e >= 2;
            DivUnique(n, e, d, 0);
            SmallDivisor(e, n);
          }
        }
      }
    }
  }

  lemma SmallDivisor(d: nat, n: nat)
    requires 2 <= d < 19 && d < n && n % d == 0
    ensures !Sieved(n)
  {
    var p := if d % 2 == 0 then 2 else if d % 3 == 0 then 3 else if d % 5 == 0 then 5 else if d % 7 == 0 then 7 else d;
    assert p in {2, 3, 5, 7, 11, 13, 17} && d % p == 0 && n != p;
    DividesOn(p, d, n);
  }

  predicate Listed(n: nat) {
    || n == 2 || n == 3 || n == 5 || n == 7 || n == 11 || n == 13 || n == 17 || n == 19
    || n == 23 || n == 29 || n == 31 || n == 37 || n == 41 || n == 43 || n == 47 || n == 53
    || n == 59 || n == 61 || n == 67 || n == 71 || n == 73 || n == 79 || n == 83 || n == 89
    || n == 97 || n == 101 || n == 103 || n == 107 || n == 109 || n == 113 || n == 127 || n == 131
    || n == 137 || n == 139 || n == 149 || n == 151 || n == 157 || n == 163 || n == 167 || n == 173
    || n == 179 || n == 181 || n == 191 || n == 193 || n == 197 || n == 199 || n == 211 || n == 223
    || n == 227 || n == 229 || n == 233 || n == 239 || n == 241 || n == 251 || n == 257 || n == 263
    || n == 269 || n == 271 || n == 277 || n == 281 || n == 283 || n == 293 || n == 307 || n == 311
  }

  lemma ListedTo26(n: nat)
    requires 2 <= n < 26
    ensures Sieved(n) <==> Listed(n)
  {
  }

  lemma ListedTo50(n: nat)
    requires 26 <= n < 50
    ensures Sieved(n) <==> Listed(n)
  {
  }

  lemma ListedTo74(n: nat)
    requires 50 <= n < 74
    ensures Sieved(n) <==> Listed(n)
  {
  }

  lemma ListedTo98(n: nat)
    requires 74 <= n < 98
    ensures Sieved(n) <==> Listed(n)
  {
  }

  lemma ListedTo122(n: nat)
    requires 98 <= n < 122
    ensures Sieved(n) <==> Listed(n)
  {
  }

  lemma ListedTo146(n: nat)
    requires 122 <= n < 146
    ensures Sieved(n) <==> Listed(n)
  {
  }

  lemma ListedTo170(n: nat)
    requires 146 <= n < 170
    ensures Sieved(n) <==> Listed(n)
  {
  }

  lemma ListedTo194(n: nat)
    requires 170 <= n < 194
    ensures Sieved(n) <==> Listed(n)
  {
  }

  lemma ListedTo218(n: nat)
    requires 194 <= n < 218
    ensures Sieved(n) <==> Listed(n)
  {
  }

  lemma ListedTo242(n: nat)
    requires 218 <= n < 242
    ensures Sieved(n) <==> Listed(n)
  {
  }

  lemma ListedTo266(n: nat)
    requires 242 <= n < 266
    ensures Sieved(n) <==> Listed(n)
  {
  }

  lemma ListedTo290(n: nat)
    requires 266 <= n < 290
    ensures Sieved(n) <==> Listed(n)
  {
  }

  lemma ListedTo312(n: nat)
    requires 290 <= n < 312
    ensures Sieved(n) <==> Listed(n)
  {
  }

  lemma ListedAreSieved(n: nat)
    requires 2 <= n < 312
    ensures Sieved(n) <==> Listed(n)
  {
    hide Sieved, Listed;
    if n < 26 { ListedTo26(n); }
    else if n < 50 { ListedTo50(n); }
    else if n < 74 { ListedTo74(n); }
    else if n < 98 { ListedTo98(n); }
    else if n < 122 { ListedTo122(n); }
    else if n < 146 { ListedTo146(n); }
    else if n < 170 { ListedTo170(n); }
    else if n < 194 { ListedTo194(n); }
    else if n < 218 { ListedTo218(n); }
    else if n < 242 { ListedTo242(n); }
    else if n < 266 { ListedTo266(n); }
    else if n < 290 { ListedTo290(n); }
    else { ListedTo312(n); }
  }

  lemma ListedInRows(n: nat)
    ensures Listed(n) <==> n in PRIMES
  {
    assert n in PRIMES <==> n in P0 || n in P1 || n in P2 || n in P3 || n in P4 || n in P5 || n in P6 || n in P7;
    assert n in P0 <==> n in [2, 3, 5, 7, 11, 13, 17, 19];
  }

  predicate Ascends(s: seq<nat>) {
    forall i, j :: 0 <= i < j < |s| ==> s[i] < s[j]
  }

  lemma AscendsOn(s: seq<nat>, t: seq<nat>)
    requires Ascends(s) && Ascends(t) && (s != [] && t != [] ==> s[|s| - 1] < t[0])
    ensures Ascends(s + t)
  {
  }

  lemma Ordered()
    ensures Ascends(PRIMES)
  {
    assert Ascends(P0) && Ascends(P1) && Ascends(P2) && Ascends(P3);
    assert Ascends(P4) && Ascends(P5) && Ascends(P6) && Ascends(P7);
    hide Ascends;
    AscendsOn(P0, P1);
    AscendsOn(P0 + P1, P2);
    AscendsOn(P0 + P1 + P2, P3);
    AscendsOn(P0 + P1 + P2 + P3, P4);
    AscendsOn(P0 + P1 + P2 + P3 + P4, P5);
    AscendsOn(P0 + P1 + P2 + P3 + P4 + P5, P6);
    AscendsOn(P0 + P1 + P2 + P3 + P4 + P5 + P6, P7);
  }

  /** The list holds exactly the primes below 312, in order: these are the first 64. */
  lemma FirstPrimes()
    ensures |PRIMES| == 64 && Ascends(PRIMES)
    ensures forall n: nat :: n < 312 ==> (Prime(n) <==> n in PRIMES)
    ensures forall n :: n in PRIMES ==> n < 312
  {
    hide Prime, Sieved, Listed, Ascends;
    forall n: nat | n < 312 ensures Prime(n) <==> n in PRIMES {
      ListedInRows(n);
      if n >= 2 {
        ListedAreSieved(n);
        SievedIsPrime(n);
      } else {
        NoneBelowTwo(n);
      }
    }
    forall n | n in PRIMES ensures n < 312 {
      ListedInRows(n);
      ListedBelow(n);
    }
    Ordered();
  }

  lemma NoneBelowTwo(n: nat)
    requires n < 2
    ensures !Prime(n) && !Listed(n)
  {
  }

  lemma ListedBelow(n: nat)
    requires Listed(n)
    ensures n < 312
  {
  }

  // ----- roots -----

  function Cube(x: nat): nat { x * x * x }
  function Square(x: nat): nat { x * x }

  /** The first 32 bits behind the point of the cube root of p: c is its whole part. */
  predicate CubeBits(p: nat, c: nat, k: bv32) {
    var x := c * 0x1_0000_0000 + k as nat;
    Cube(c) <= p < Cube(c + 1) && Cube(x) <= p * 0x1_0000_0000_0000_0000_0000_0000 < Cube(x + 1)
  }

  predicate SquareBits(p: nat, c: nat, h: bv32) {
    var x := c * 0x1_0000_0000 + h as nat;
    Square(c) <= p < Square(c + 1) && Square(x) <= p * 0x1_0000_0000_0000_0000 < Square(x + 1)
  }

  ghost predicate RowBits(ps: seq<nat>, row: seq<bv32>) {
    |ps| == |row| == 8 && forall i :: 0 <= i < 8 ==> exists c :: CubeBits(ps[i], c, row[i])
  }

  lemma RowFrom(ps: seq<nat>, row: seq<bv32>, cs: seq<nat>)
    requires |ps| == |row| == |cs| == 8
    requires CubeBits(ps[0], cs[0], row[0]) && CubeBits(ps[1], cs[1], row[1])
    requires CubeBits(ps[2], cs[2], row[2]) && CubeBits(ps[3], cs[3], row[3])
    requires CubeBits(ps[4], cs[4], row[4]) && CubeBits(ps[5], cs[5], row[5])
    requires CubeBits(ps[6], cs[6], row[6]) && CubeBits(ps[7], cs[7], row[7])
    ensures RowBits(ps, row)
  {
    hide CubeBits;
    forall i | 0 <= i < 8 ensures exists c :: CubeBits(ps[i], c, row[i]) { assert CubeBits(ps[i], cs[i], row[i]); }
  }

  lemma Row0()
    ensures RowBits(P0, K0)
  {
    RowFrom(P0, K0, [1, 1, 1, 1, 2, 2, 2, 2]);
  }

  lemma Row1()
    ensures RowBits(P1, K1)
  {
    RowFrom(P1, K1, [2, 3, 3, 3, 3, 3, 3, 3]);
  }

  lemma Row2()
    ensures RowBits(P2, K2)
  {
    RowFrom(P2, K2, [3, 3, 4, 4, 4, 4, 4, 4]);
  }

  lemma Row3()
    ensures RowBits(P3, K3)
  {
    RowFrom(P3, K3, [4, 4, 4, 4, 4, 4, 5, 5]);
  }

  lemma Row4()
    ensures RowBits(P4, K4)
  {
    RowFrom(P4, K4, [5, 5, 5, 5, 5, 5, 5, 5]);
  }

  lemma Row5()
    ensures RowBits(P5, K5)
  {
    RowFrom(P5, K5, [5, 5, 5, 5, 5, 5, 5, 6]);
  }

  lemma Row6()
    ensures RowBits(P6, K6)
  {
    RowFrom(P6, K6, [6, 6, 6, 6, 6, 6, 6, 6]);
  }

  lemma Row7()
    ensures RowBits(P7, K7)
  {
    RowFrom(P7, K7, [6, 6, 6, 6, 6, 6, 6, 6]);
  }

  lemma EightRows<T>(a: seq<T>, b: seq<T>, c: seq<T>, d: seq<T>, e: seq<T>, f: seq<T>, g: seq<T>, h: seq<T>, i: nat)
    requires |a| == |b| == |c| == |d| == |e| == |f| == |g| == |h| == 8 && i < 64
    ensures |a + b + c + d + e + f + g + h| == 64
    ensures (a + b + c + d + e + f + g + h)[i] ==
            if i < 8 then a[i] else if i < 16 then b[i - 8] else if i < 24 then c[i - 16] else if i < 32 then d[i - 24]
            else if i < 40 then e[i - 32] else if i < 48 then f[i - 40] else if i < 56 then g[i - 48] else h[i - 56]
  {
  }

  ghost predicate RowsBits(ps: seq<seq<nat>>, rows: seq<seq<bv32>>) {
    |ps| == |rows| == 8 && forall r :: 0 <= r < 8 ==> RowBits(ps[r], rows[r])
  }

  lemma BitsAt(a: seq<nat>, b: seq<nat>, c: seq<nat>, d: seq<nat>, e: seq<nat>, f: seq<nat>, g: seq<nat>, h: seq<nat>,
               rows: seq<seq<bv32>>, i: nat)
    requires RowsBits([a, b, c, d, e, f, g, h], rows) && i < 64
    ensures var ps := a + b + c + d + e + f + g + h;
            var ks := rows[0] + rows[1] + rows[2] + rows[3] + rows[4] + rows[5] + rows[6] + rows[7];
            && |ps| == |ks| == 64
            && exists w :: CubeBits(ps[i], w, ks[i])
  {
    hide CubeBits;
    var ps := [a, b, c, d, e, f, g, h];
    assert forall r :: 0 <= r < 8 ==> |ps[r]| == |rows[r]| == 8;
    EightRows(ps[0], ps[1], ps[2], ps[3], ps[4], ps[5], ps[6], ps[7], i);
    EightRows(rows[0], rows[1], rows[2], rows[3], rows[4], rows[5], rows[6], rows[7], i);
    assert RowBits(ps[i / 8], rows[i / 8]);
  }

  lemma AllRows()
    ensures RowsBits([P0, P1, P2, P3, P4, P5, P6, P7], [K0, K1, K2, K3, K4, K5, K6, K7])
  {
    hide RowBits;
    Row0();
    Row1();
    Row2();
    Row3();
    Row4();
    Row5();
    Row6();
    Row7();
  }

  /** Section 4.2.2: round constant i is the first 32 bits of the fractional part of the cube root of prime i. */
  lemma RoundConstants(i: nat)
    requires i < 64
    ensures |PRIMES| == |K| == 64 && exists c :: CubeBits(PRIMES[i], c, K[i])
  {
    hide CubeBits, RowsBits, P0, P1, P2, P3, P4, P5, P6, P7, K0, K1, K2, K3, K4, K5, K6, K7;
    AllRows();
    BitsAt(P0, P1, P2, P3, P4, P5, P6, P7, [K0, K1, K2, K3, K4, K5, K6, K7], i);
  }

  /** Section 5.3.3: word i of the initial hash value is the first 32 bits of the fractional part of the square root of
      prime i. */
  lemma InitialHash(i: nat)
    requires i < 8
    ensures exists c :: SquareBits(PRIMES[i], c, H0[i])
  {
    EightRows(P0, P1, P2, P3, P4, P5, P6, P7, i);
    var cs := [1, 1, 2, 2, 3, 3, 4, 4];
    assert SquareBits(P0[0], 1, H0[0]) && SquareBits(P0[1], 1, H0[1]);
    assert SquareBits(P0[2], 2, H0[2]) && SquareBits(P0[3], 2, H0[3]);
    assert SquareBits(P0[4], 3, H0[4]) && SquareBits(P0[5], 3, H0[5]);
    assert SquareBits(P0[6], 4, H0[6]) && SquareBits(P0[7], 4, H0[7]);
    hide SquareBits;
    assert SquareBits(P0[i], cs[i], H0[i]);
  }
}
