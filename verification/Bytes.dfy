/** Bytes and the big-endian numbers that the programs pack into them. */
module Bytes {
  import opened Arithmetic

  type Octet = x: int | 0 <= x < 256
  type U32 = x: int | 0 <= x < 0x1_0000_0000

  datatype Option<+T> = None | Some(value: T)

  function Zeros(n: nat): seq<Octet> {
    seq(n, _ => 0)
  }

  /** The low 24 bits of n, most significant byte first. */
  function Pack24(n: nat): (b: seq<Octet>)
    ensures |b| == 3
  {
    [n / 0x1_0000 % 256, n / 0x100 % 256, n % 256]
  }

  function Unpack24(b: seq<Octet>): (n: nat)
    requires |b| == 3
    ensures n < 0x100_0000
  {
    b[0] as int * 0x1_0000 + b[1] as int * 0x100 + b[2]
  }

  lemma Pack24RoundTrip(n: nat)
    ensures Unpack24(Pack24(n)) == n % 0x100_0000
  {
    var a, b := n / 0x100, n / 0x1_0000;
    assert n == a * 0x100 + n % 256 && a == b * 0x100 + a % 256 && b == b / 256 * 256 + b % 256;
    DivUnique(n, 0x100_0000, b / 256, b % 256 * 0x1_0000 + a % 256 * 0x100 + n % 256);
  }

  /** A 32-bit number, most significant byte first. */
  function Pack32(n: U32): (b: seq<Octet>)
    ensures |b| == 4
  {
    [n / 0x100_0000, n / 0x1_0000 % 256, n / 0x100 % 256, n % 256]
  }

  function Unpack32(b: seq<Octet>): U32
    requires |b| == 4
  {
    b[0] as int * 0x100_0000 + b[1] as int * 0x1_0000 + b[2] as int * 0x100 + b[3]
  }

  lemma Pack32RoundTrip(n: U32)
    ensures Unpack32(Pack32(n)) == n
  {
    var a, b, c := n / 0x100, n / 0x1_0000, n / 0x100_0000;
    assert n == a * 0x100 + n % 256;
    assert a == b * 0x100 + a % 256;
    assert b == c * 0x100 + b % 256;
    assert Pack32(n) == [c, b % 256, a % 256, n % 256];
  }

  lemma Unpack32RoundTrip(b: seq<Octet>)
    requires |b| == 4
    ensures Pack32(Unpack32(b)) == b
  {
    var n := Unpack32(b);
    var b0: int, b1: int, b2: int := b[0], b[1], b[2];
    assert n / 0x100 == b0 * 0x1_0000 + b1 * 0x100 + b2;
    assert n / 0x1_0000 == b0 * 0x100 + b1;
  }
}
