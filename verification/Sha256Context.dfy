/** The streaming SHA-256 context of ran-emulator/source/crypto.c. The struct is updated in place: bytes are
    OR-ed into a word buffer, a big-endian byte counter is advanced with a ripple carry, and the place of the
    next byte is recomputed from that counter. Each method is proved against the one-shot hash of FIPS 180-4. */
module Sha256Context {
  import opened Arithmetic
  import opened Bytes
  import opened Sha256Spec
  import opened ByteCounter

  // ----- the word buffer -----

  function ByteOrZero(s: seq<Byte>, i: nat): Byte {
    if i < |s| then s[i] else 0
  }

  /** Word k of a block whose missing bytes are zero. */
  function BufferWord(tail: seq<Byte>, k: nat): bv32 {
    Word(ByteOrZero(tail, 4 * k), ByteOrZero(tail, 4 * k + 1), ByteOrZero(tail, 4 * k + 2), ByteOrZero(tail, 4 * k + 3))
  }

  /** A message byte shifted to its place in the word, as sha256_update shifts it. */
  function InLane(b: Byte, index: nat): bv32 {
    (b as bv32) << (24 - index % 4 * 8)
  }

  lemma LaneShift(b: Byte, index: nat)
    ensures index % 4 == 0 ==> InLane(b, index) == (b as bv32) << 24
    ensures index % 4 == 1 ==> InLane(b, index) == (b as bv32) << 16
    ensures index % 4 == 2 ==> InLane(b, index) == (b as bv32) << 8
    ensures index % 4 == 3 ==> InLane(b, index) == b as bv32
  {
  }

  lemma OrLane0(b: Byte)
    ensures Word(0, 0, 0, 0) | ((b as bv32) << 24) == Word(b, 0, 0, 0)
  {
  }

  lemma OrLane1(b0: Byte, b: Byte)
    ensures Word(b0, 0, 0, 0) | ((b as bv32) << 16) == Word(b0, b, 0, 0)
  {
  }

  lemma OrLane2(b0: Byte, b1: Byte, b: Byte)
    ensures Word(b0, b1, 0, 0) | ((b as bv32) << 8) == Word(b0, b1, b, 0)
  {
  }

  lemma OrLane3(b0: Byte, b1: Byte, b2: Byte, b: Byte)
    ensures Word(b0, b1, b2, 0) | (b as bv32) == Word(b0, b1, b2, b)
  {
  }

  /** OR-ing a byte into its lane appends it to the buffered tail. */
  lemma AppendByte(tail: seq<Byte>, b: Byte)
    ensures BufferWord(tail + [b], |tail| / 4) == BufferWord(tail, |tail| / 4) | InLane(b, |tail|)
  {
    hide Word, InLane;
    var k := |tail| / 4;
    LaneShift(b, |tail|);
    if |tail| % 4 == 0 { OrLane0(b); }
    else if |tail| % 4 == 1 { OrLane1(tail[4 * k], b); }
    else if |tail| % 4 == 2 { OrLane2(tail[4 * k], tail[4 * k + 1], b); }
    else { OrLane3(tail[4 * k], tail[4 * k + 1], tail[4 * k + 2], b); }
  }

  /** Appending a byte touches no other word. */
  lemma OtherWords(tail: seq<Byte>, b: Byte, k: nat)
    requires k != |tail| / 4
    ensures BufferWord(tail + [b], k) == BufferWord(tail, k)
  {
    hide Word;
  }

  lemma NoBytes(k: nat)
    ensures BufferWord([], k) == 0
  {
  }

  lemma FullBlock(block: seq<Byte>, k: nat)
    requires |block| == 64 && k < 16
    ensures BufferWord(block, k) == WordAt(block, k)
  {
    hide Word;
  }

  // ----- the length counter -----

  function Pow2(k: nat): (p: nat)
    ensures p > 0
  {
    if k == 0 then 1 else 2 * Pow2(k - 1)
  }

  /** What sha256_update adds to byte i of the counter. The length is a uint32_t, so is length << 3. */
  function LengthBits(length: nat, i: nat): Octet
    requires i < 8
  {
    (if i == 7 then length * 8 % 0x1_0000_0000
     else if i <= 2 then 0
     else length / Pow2(53 - 8 * i)) % 256
  }

  lemma PowValues()
    ensures Pow256(1) == 0x100 && Pow256(2) == 0x1_0000 && Pow256(3) == 0x100_0000 && Pow256(4) == 0x1_0000_0000
    ensures Pow256(5) == 0x100_0000_0000 && Pow256(6) == 0x1_0000_0000_0000
    ensures Pow256(7) == 0x100_0000_0000_0000 && Pow256(8) == 0x1_0000_0000_0000_0000
    ensures Pow2(5) == 0x20 && Pow2(13) == 0x2000 && Pow2(21) == 0x20_0000 && Pow2(29) == 0x2000_0000
  {
    assert Pow256(1) == 256 * Pow256(0) && Pow256(3) == 256 * Pow256(2) && Pow256(5) == 256 * Pow256(4);
    assert Pow2(10) == 1024 && Pow2(20) == 1024 * 1024 by { assert Pow2(5) == 32; assert Pow2(15) == 32 * 1024; }
    assert Pow2(25) == 32 * 1024 * 1024;
  }

  lemma SameDigit(length: nat, q: nat)
    requires q > 0
    ensures length / q == 8 * length / (8 * q)
  {
    var d, r := length / q, length % q;
    assert 8 * length == d * (8 * q) + 8 * r;
    DivUnique(8 * length, 8 * q, d, 8 * r);
  }

  /** The shifts pick out the base-256 digits of the bit length. */
  lemma {:induction false} LengthBitsAreDigits(length: nat, i: nat)
    requires length < 0x1_0000_0000 && i < 8
    ensures LengthBits(length, i) == 8 * length / Pow256(7 - i) % 256
  {
    Weights(i);
    hide Pow2, Pow256;
    if 3 <= i < 7 {
      SameDigit(length, Pow2(53 - 8 * i));
    } else if i < 3 {
      assert 8 * length < Pow256(7 - i);
      DivUnique(8 * length, Pow256(7 - i), 0, 8 * length);
    }
  }

  lemma Weights(i: nat)
    requires i < 8
    ensures i == 7 ==> Pow256(7 - i) == 1
    ensures 3 <= i < 7 ==> Pow256(7 - i) == 8 * Pow2(53 - 8 * i)
    ensures i < 3 ==> Pow256(7 - i) >= 0x100_0000_0000
  {
    PowValues();
  }

  ghost predicate Counts(s: seq<Octet>, v: nat, added: int) {
    Be(s) == (v + added) % Pow256(8)
  }

  lemma {:induction false} CountMore(s: seq<Octet>, s': seq<Octet>, v: nat, a: int, b: int)
    requires Counts(s, v, a) && Be(s') == (Be(s) + b) % Pow256(8)
    ensures Counts(s', v, a + b)
  {
    ModAdd(v, a, b, Pow256(8));
  }

  /** One turn of the counter loop: byte i receives its digit of the bit length. */
  lemma {:induction false} CounterStep(s: seq<Octet>, s': seq<Octet>, v: nat, n: nat, i: nat)
    requires |s| == |s'| == 8 && i < 8 && n < 0x1_0000_0000
    requires s'[..i] == if s[i] + LengthBits(n, i) > 255 then Increment(s[..i]) else s[..i]
    requires s'[i] == (s[i] + LengthBits(n, i)) % 256 && s'[i + 1..] == s[i + 1..]
    requires Counts(s, v, 8 * n % Pow256(7 - i))
    ensures Counts(s', v, 8 * n % Pow256(8 - i))
  {
    hide Be, Increment, Pow256, LengthBits, Counts, Weight;
    var bits := LengthBits(n, i);
    assert s == s[..i] + [s[i]] + s[i + 1..];
    assert s' == s'[..i] + [s'[i]] + s[i + 1..];
    AddByte(s[..i], s[i], s[i + 1..], bits);
    DigitOfLength(n, i);
    CountMore(s, s', v, 8 * n % Pow256(7 - i), Weight(bits, 7 - i));
  }

  lemma {:induction false} DigitOfLength(n: nat, i: nat)
    requires n < 0x1_0000_0000 && i < 8
    ensures 8 * n % Pow256(8 - i) == 8 * n % Pow256(7 - i) + Weight(LengthBits(n, i), 7 - i)
  {
    LengthBitsAreDigits(n, i);
    ModStep(8 * n, 7 - i);
  }

  lemma SmallLength(n: nat)
    requires n < 0x1_0000_0000
    ensures 8 * n % Pow256(8) == 8 * n && 8 * n % Pow256(0) == 0
  {
    PowValues();
  }

  lemma CountedAfter(a: nat, b: nat)
    ensures (8 * a % Pow256(8) + 8 * b) % Pow256(8) == 8 * (a + b) % Pow256(8)
  {
    ModAdd(0, 8 * a, 8 * b, Pow256(8));
  }

  lemma IncrementLast(s: seq<Octet>, j: nat)
    requires j < |s|
    ensures Increment(s[..j + 1]) == if s[j] == 255 then Increment(s[..j]) + [0] else s[..j] + [s[j] + 1]
  {
    assert s[..j + 1][..j] == s[..j];
  }

  lemma CarryStops(s: seq<Octet>, t: seq<Octet>, i: nat, j: nat)
    requires j < i <= |s| == |t| && s[j] < 255 && t[j] == s[j] + 1
    requires forall k :: 0 <= k < j ==> t[k] == s[k]
    requires forall k :: j < k < i ==> t[k] == 0
    ensures t[..i] == s[..j] + [s[j] + 1] + Zeros(i - 1 - j)
  {
  }

  lemma IncrementNone()
    ensures Increment([]) == []
  {
  }

  lemma ModAdd(v: int, a: int, b: int, m: nat)
    requires m > 0
    ensures ((v + a) % m + b) % m == (v + (a + b)) % m
  {
    var q := (v + a) / m;
    var s := (v + a) % m + b;
    assert v + (a + b) == (q + s / m) * m + s % m by { Distribute(q, s / m, m); }
    DivUnique(v + (a + b), m, q + s / m, s % m);
  }

  lemma IndexOfDigits(v: nat, n: nat)
    requires v % 512 == 8 * n % 512
    ensures v / 256 % 2 * 32 + v % 256 / 8 == n % 64
  {
    var k, r := v / 512, n % 64;
    assert v == 512 * k + 8 * r;
    if r < 32 {
      assert v / 256 == 2 * k && v % 256 == 8 * r;
    } else {
      assert v / 256 == 2 * k + 1 && v % 256 == 8 * (r - 32);
    }
  }

  lemma IndexBack(total: nat, left: nat)
    requires left <= total
    ensures (total % 64 + 64 - left % 64) % 64 == (total - left) % 64
  {
    var a, b := total / 64, left / 64;
    assert total - left == 64 * (a - b) + (total % 64 - left % 64);
  }

  lemma ModuloBlock(v: nat, q: nat, n: nat)
    requires 8 * n == q * 0x1_0000_0000_0000_0000 + v
    ensures v % 512 == 8 * n % 512
  {
    var k := q * 0x80_0000_0000_0000;
    assert 8 * n == 512 * k + v;
    DivUnique(8 * n, 512, k + v / 512, v % 512);
  }

  /** The index computed from counter bytes 6 and 7 is the number of bytes counted, modulo 64. */
  lemma {:induction false} IndexFromCounter(s: seq<Octet>, n: nat)
    requires |s| == 8 && Be(s) == 8 * n % Pow256(8)
    ensures s[6] % 2 * 32 + s[7] / 8 == n % 64
  {
    PowValues();
    var v, q := Be(s), 8 * n / Pow256(8);
    assert 8 * n == q * Pow256(8) + v;
    LastDigits(s);
    hide *;
    ModuloBlock(v, q, n);
    IndexOfDigits(v, n);
  }

  lemma {:induction false} LastDigits(s: seq<Octet>)
    requires |s| == 8
    ensures s[6] % 2 == Be(s) / 256 % 2 && s[7] == Be(s) % 256
  {
    var p := s[..7];
    assert p[..6] == s[..6];
    DivUnique(Be(s), 256, Be(p), s[7]);
    DivUnique(Be(p), 256, Be(p[..6]), p[6]);
  }

  // ----- the mixing functions, as the source writes them with shifts -----

  function S0(w: bv32): bv32 { ((w >> 7) | (w << 25)) ^ ((w >> 18) | (w << 14)) ^ (w >> 3) }
  function S1(w: bv32): bv32 { ((w >> 17) | (w << 15)) ^ ((w >> 19) | (w << 13)) ^ (w >> 10) }
  function E0(a: bv32): bv32 { ((a >> 2) | (a << 30)) ^ ((a >> 13) | (a << 19)) ^ ((a >> 22) | (a << 10)) }
  function E1(e: bv32): bv32 { ((e >> 6) | (e << 26)) ^ ((e >> 11) | (e << 21)) ^ ((e >> 25) | (e << 7)) }
  function Choose(e: bv32, f: bv32, g: bv32): bv32 { (e & f) ^ (!e & g) }
  function Majority(a: bv32, b: bv32, c: bv32): bv32 { (a & b) ^ (a & c) ^ (b & c) }
  function StateByte(w: bv32, i: nat): Byte { ((w >> (24 - 8 * (i % 4))) & 0xff) as Byte }

  lemma MixingIsFips(x: bv32, y: bv32, z: bv32)
    ensures S0(x) == SmallSigma0(x) && S1(x) == SmallSigma1(x)
    ensures E0(x) == BigSigma0(x) && E1(x) == BigSigma1(x)
    ensures Choose(x, y, z) == Ch(x, y, z) && Majority(x, y, z) == Maj(x, y, z)
  {
  }

  lemma {:induction false} FirstWords(block: seq<Byte>, t: nat)
    requires |block| == 64 && t < 16
    ensures W(block, t) == WordAt(block, t)
  {
  }

  lemma ScheduleStep(block: seq<Byte>, t: nat)
    requires |block| == 64 && 16 <= t < 64
    ensures W(block, t) == Plus(Plus(Plus(S1(W(block, t - 2)), W(block, t - 7)), S0(W(block, t - 15))),
        W(block, t - 16))
  {
    hide Plus, S0, S1, SmallSigma0, SmallSigma1;
    MixingIsFips(W(block, t - 2), 0, 0);
    MixingIsFips(W(block, t - 15), 0, 0);
  }

  // ----- the context -----

  class Context {
    const hash: array<Byte>
    const buffer: array<bv32>
    const state: array<bv32>
    const length: array<Octet>
    /** Everything absorbed since the last initialisation. */
    ghost var absorbed: seq<Byte>

    ghost predicate Shape() {
      && hash.Length == 32 && buffer.Length == 16 && state.Length == 8 && length.Length == 8
      && buffer != state && (state as object) != length && (buffer as object) != length
      && (hash as object) != length && (hash as object) != state && (hash as object) != buffer
    }

    ghost predicate Counted(n: nat)
      requires Shape()
      reads length
    {
      Be(length[..]) == 8 * n % Pow256(8)
    }

    /** The state is the hash of the first blocks of the input, the buffer the rest of it, filled with zeros. */
    ghost predicate At(blocks: nat)
      requires Shape()
      reads this, buffer, state
    {
      && 64 * blocks <= |absorbed| <= 64 * blocks + 64
      && state[..] == HashBlocks(absorbed, blocks)
      && forall k :: 0 <= k < 16 ==> buffer[k] == BufferWord(absorbed[64 * blocks..], k)
    }

    /** Every full block is hashed, the tail is buffered, and the counter holds the bit length. */
    ghost predicate Valid()
      reads this, buffer, state, length
    {
      Shape() && At(|absorbed| / 64) && Counted(|absorbed|)
    }

    /** A stack-allocated struct: the fields hold nothing useful before Initialize. */
    constructor ()
      ensures Shape() && fresh(hash) && fresh(buffer) && fresh(state) && fresh(length)
    {
      hash := new Byte[32];
      buffer := new bv32[16];
      state := new bv32[8];
      length := new Octet[8];
    }

    /** sha256_initialize */
    method Initialize()
      requires Shape()
      modifies this, buffer, state, length
      ensures Valid() && absorbed == []
    {
      hide Word, BufferWord;
      SetState(H0);
      for i := 0 to 16
        invariant forall k :: 0 <= k < i ==> buffer[k] == 0
        invariant state[..] == H0
      {
        buffer[i] := 0;
      }
      ClearLength();
      absorbed := [];
      forall k | 0 <= k < 16 ensures BufferWord([], k) == 0 { NoBytes(k); }
    }

    method SetState(h: seq<bv32>)
      requires Shape() && |h| == 8
      modifies state
      ensures state[..] == h
    {
      for i := 0 to 8
        invariant forall k :: 0 <= k < i ==> state[k] == h[k]
      {
        state[i] := h[i];
      }
    }

    method ClearLength()
      requires Shape()
      modifies length
      ensures Counted(0)
    {
      for i := 0 to 8
        invariant forall k :: 0 <= k < i ==> length[k] == 0
      {
        length[i] := 0;
      }
      ZeroCounter(length[..]);
    }

    /** The carry loop of sha256_update: it increments the bytes before byte i as one number. */
    method Ripple(i: nat)
      requires Shape() && i < 8
      modifies length
      ensures length[..i] == Increment(old(length[..i])) && length[i..] == old(length[i..])
    {
      hide Increment;
      ghost var s := length[..];
      var j, carry := i - 1, true;
      while j >= 0 && carry
        invariant -1 <= j < i
        invariant forall k :: i <= k < 8 ==> length[k] == s[k]
        invariant carry ==> forall k :: 0 <= k <= j ==> length[k] == s[k]
        invariant carry ==> forall k :: j < k < i ==> length[k] == 0
        invariant carry ==> Increment(s[..i]) == Increment(s[..j + 1]) + Zeros(i - 1 - j)
        invariant !carry ==> length[..i] == Increment(s[..i])
        decreases j, carry
      {
        assert length[j] == s[j];
        carry := length[j] == 0xff;
        length[j] := (length[j] as int + 1) % 256;
        IncrementLast(s, j);
        if carry {
          assert [0] + Zeros(i - 1 - j) == Zeros(i - j);
          j := j - 1;
        } else {
          CarryStops(s, length[..], i, j);
        }
      }
      if carry { assert length[..i] == Increment([]) + Zeros(i) by { IncrementNone(); } }
    }

    /** The first loop of sha256_update: add the bit length of the input to the counter. */
    method AddLength(n: nat)
      requires Shape() && n < 0x1_0000_0000
      modifies length
      ensures Be(length[..]) == (old(Be(length[..])) + 8 * n) % Pow256(8)
    {
      hide Be, Increment, Pow2, LengthBits;
      ghost var v := Be(length[..]);
      var i := 7;
      DivUnique(v, Pow256(8), 0, v);
      while i >= 0
        invariant -1 <= i <= 7
        invariant Counts(length[..], v, 8 * n % Pow256(7 - i))
      {
        hide Pow256;
        var bits := LengthBits(n, i);
        ghost var s := length[..];
        if length[i] as int + bits > 0xff {
          Ripple(i);
        }
        length[i] := (length[i] as int + bits) % 256;
        CounterStep(s, length[..], v, n, i);
        i := i - 1;
      }
      SmallLength(n);
    }

    /** The message schedule, emptying the buffer. */
    method Schedule(ghost block: seq<Byte>) returns (w: array<bv32>)
      requires Shape() && |block| == 64
      requires forall k :: 0 <= k < 16 ==> buffer[k] == WordAt(block, k)
      modifies buffer
      ensures fresh(w) && w.Length == 64 && forall k :: 0 <= k < 64 ==> w[k] == W(block, k)
      ensures forall k :: 0 <= k < 16 ==> buffer[k] == 0
    {
      hide Plus, W, S0, S1, Word, WordAt;
      w := new bv32[64];
      forall t | 0 <= t < 16 ensures W(block, t) == WordAt(block, t) { FirstWords(block, t); }
      for t := 0 to 16
        invariant forall k :: 0 <= k < t ==> w[k] == W(block, k) && buffer[k] == 0
        invariant forall k :: t <= k < 16 ==> buffer[k] == WordAt(block, k)
      {
        w[t] := buffer[t];
        buffer[t] := 0;
      }
      for t := 16 to 64
        invariant forall k :: 0 <= k < t ==> w[k] == W(block, k)
        invariant forall k :: 0 <= k < 16 ==> buffer[k] == 0
      {
        ScheduleStep(block, t);
        var s0, s1 := S0(w[t - 15]), S1(w[t - 2]);
        w[t] := Plus(Plus(Plus(s1, w[t - 7]), s0), w[t - 16]);
      }
    }

    /** The 64 rounds on the working variables. */
    method RunRounds(w: array<bv32>, ghost block: seq<Byte>) returns (v: Vars)
      requires Shape() && |block| == 64
      requires w.Length == 64 && forall k :: 0 <= k < 64 ==> w[k] == W(block, k)
      ensures v == Rounds(state[..], block, 64)
    {
      hide Plus, BigSigma0, BigSigma1, Ch, Maj, E0, E1, Choose, Majority, W;
      var a, b, c, d, e, f, g, h := state[0], state[1], state[2], state[3], state[4], state[5], state[6], state[7];
      for t := 0 to 64
        invariant Vars(a, b, c, d, e, f, g, h) == Rounds(state[..], block, t)
      {
        MixingIsFips(a, b, c);
        MixingIsFips(e, f, g);
        var t1 := Plus(Plus(Plus(Plus(h, E1(e)), Choose(e, f, g)), K[t]), w[t]);
        var t2 := Plus(E0(a), Majority(a, b, c));
        h, g, f, e, d, c, b, a := g, f, e, Plus(d, t1), c, b, a, Plus(t1, t2);
      }
      v := Vars(a, b, c, d, e, f, g, h);
    }

    /** The last eight statements of the block branch, computed before they are stored. */
    method AddVars(v: Vars) returns (h: seq<bv32>)
      requires Shape()
      ensures h == [Plus(state[0], v.a), Plus(state[1], v.b), Plus(state[2], v.c), Plus(state[3], v.d),
                    Plus(state[4], v.e), Plus(state[5], v.f), Plus(state[6], v.g), Plus(state[7], v.h)]
    {
      hide Plus;
      h := [Plus(state[0], v.a), Plus(state[1], v.b), Plus(state[2], v.c), Plus(state[3], v.d),
            Plus(state[4], v.e), Plus(state[5], v.f), Plus(state[6], v.g), Plus(state[7], v.h)];
    }

    /** The block branch of sha256_update: the state becomes the next hash value, the buffer empties. */
    method CompressBuffer(ghost blocks: nat)
      requires Shape() && At(blocks) && |absorbed| == 64 * blocks + 64
      modifies buffer, state
      ensures At(blocks + 1)
    {
      hide Plus, Word, WordAt, BufferWord;
      ghost var block := absorbed[64 * blocks..];
      assert absorbed[64 * blocks..64 * (blocks + 1)] == block && absorbed[64 * (blocks + 1)..] == [];
      forall k | 0 <= k < 16 ensures buffer[k] == WordAt(block, k) && BufferWord([], k) == 0 {
        FullBlock(block, k);
        NoBytes(k);
      }
      var w := Schedule(block);
      var v := RunRounds(w, block);
      var h := AddVars(v);
      assert HashBlocks(absorbed, blocks + 1) == Compress(HashBlocks(absorbed, blocks), block);
      assert h == Compress(HashBlocks(absorbed, blocks), block) by {
        hide HashBlocks;
      }
      hide HashBlocks, Compress;
      SetState(h);
    }

    /** One turn of the inner loop of sha256_update. */
    method AbsorbByte(b: Byte, index: nat, ghost blocks: nat)
      requires Shape() && At(blocks) && |absorbed| == 64 * blocks + index && index < 64
      modifies this, buffer
      ensures absorbed == old(absorbed) + [b] && At(blocks)
    {
      hide Word, BufferWord, InLane, Compress;
      ghost var tail := absorbed[64 * blocks..];
      AppendByte(tail, b);
      forall k | 0 <= k < 16 && k != index / 4 ensures BufferWord(tail + [b], k) == BufferWord(tail, k) {
        OtherWords(tail, b, k);
      }
      buffer[index / 4] := buffer[index / 4] | InLane(b, index);
      HashBlocksPrefix(absorbed, [b], blocks);
      absorbed := absorbed + [b];
      assert absorbed[64 * blocks..] == tail + [b];
    }

    /** The write index of sha256_update, recomputed from the counter and the bytes still to absorb. */
    method NextIndex(left: nat, ghost total: nat) returns (index: nat)
      requires Shape() && Counted(total) && left <= total
      ensures index == (total - left) % 64
    {
      hide Be, Pow256;
      IndexFromCounter(length[..], total);
      IndexBack(total, left);
      index := length[6] % 2 * 32 + length[7] / 8;
      index := (index + 64 - left % 64) % 64;
    }

    /** The inner loop of sha256_update: fill the buffer until it is full or the input ends. */
    method FillBuffer(message: seq<Byte>, pos: nat, start: nat, ghost blocks: nat) returns (end: nat)
      requires Shape() && At(blocks) && |absorbed| == 64 * blocks + start && start < 64 && pos <= |message|
      modifies this, buffer
      ensures end == (if |message| - pos < 64 - start then |message| else pos + 64 - start)
      ensures absorbed == old(absorbed) + message[pos..end] && At(blocks)
    {
      hide BufferWord, HashBlocks;
      var index := start;
      end := pos;
      while end < |message| && index < 64
        invariant pos <= end <= |message| && index == start + end - pos <= 64
        invariant absorbed == old(absorbed) + message[pos..end] && At(blocks)
      {
        AbsorbByte(message[end], index, blocks);
        end, index := end + 1, index + 1;
      }
    }

    /** One turn of the outer loop of sha256_update. */
    method Turn(message: seq<Byte>, pos: nat, ghost total: nat, ghost blocks: nat) returns (end: nat, ghost next: nat)
      requires Shape() && Counted(total) && At(blocks) && 64 * blocks <= |absorbed| < 64 * blocks + 64
      requires pos < |message| && |absorbed| + (|message| - pos) == total
      modifies this, buffer, state
      ensures Counted(total) && At(next) && 64 * next <= |absorbed| < 64 * next + 64
      ensures pos < end <= |message| && absorbed == old(absorbed) + message[pos..end]
    {
      hide At, Counted;
      next := blocks;
      var index := NextIndex(|message| - pos, total);
      DivUnique(|absorbed|, 64, blocks, |absorbed| - 64 * blocks);
      end := FillBuffer(message, pos, index, blocks);
      if index + (end - pos) == 64 {
        CompressBuffer(blocks);
        next := blocks + 1;
      }
    }

    /** sha256_update: absorbing a message is absorbing its bytes, however the calls split it. */
    method Update(message: seq<Byte>)
      requires Valid() && |message| < 0x1_0000_0000
      modifies this, buffer, state, length
      ensures Valid() && absorbed == old(absorbed) + message
    {
      hide At, Be, Pow256;
      ghost var total := |absorbed| + |message|;
      ghost var blocks: nat := |absorbed| / 64;
      AddLength(|message|);
      assert Counted(total) by { CountedAfter(|absorbed|, |message|); }
      hide Counted;
      var pos := 0;
      while pos < |message|
        invariant 0 <= pos <= |message| && Shape() && Counted(total)
        invariant absorbed == old(absorbed) + message[..pos]
        invariant At(blocks) && 64 * blocks <= |absorbed| < 64 * blocks + 64
      {
        ghost var was := pos;
        pos, blocks := Turn(message, pos, total, blocks);
        Rejoin(message, was, pos);
      }
    }

    /** The length loop of sha256_finalize. */
    method CopyLength(terminator: array<Byte>, pad: nat, ghost n: nat)
      requires Shape() && Counted(n) && 9 <= pad <= terminator.Length == 72
      requires (terminator as object) != length
      modifies terminator
      ensures forall k :: 0 <= k < pad - 8 ==> terminator[k] == old(terminator[k])
      ensures forall k :: 0 <= k < 8 ==> terminator[pad - 8 + k] == LengthByte(n, k) as Byte
    {
      hide Be, LengthByte, Pow256;
      for i := 0 to 8
        invariant forall k :: 0 <= k < pad - 8 ==> terminator[k] == old(terminator[k])
        invariant forall k :: 0 <= k < i ==> terminator[pad - 8 + k] == LengthByte(n, k) as Byte
      {
        CounterByte(length[..], n, i);
        terminator[pad - 8 + i] := length[i] as Byte;
      }
    }

    /** The terminator sha256_finalize builds: the padding of everything absorbed. */
    method Terminator() returns (t: seq<Byte>)
      requires Valid()
      ensures t == Padding(|absorbed|)
    {
      hide Be, LengthByte, At, Pow256, Padding;
      var terminator := new Byte[72](i => if i == 0 then 0x80 else 0);
      IndexFromCounter(length[..], |absorbed|);
      var pad := 64 - length[6] % 2 * 32 - length[7] / 8;
      if pad < 9 {
        pad := pad + 64;
      }
      assert pad == 9 + ZeroBytes(|absorbed|) by { PadLength(|absorbed|); }
      hide ZeroBytes;
      CopyLength(terminator, pad, |absorbed|);
      t := terminator[..pad];
      PaddingBytes(t, |absorbed|);
    }

    /** The last loop of sha256_finalize. */
    method WriteDigest()
      requires Shape()
      modifies hash
      ensures hash[..] == Digest(state[..])
    {
      hide StateByte, ByteOf;
      for i := 0 to 32
        invariant forall k :: 0 <= k < i ==> hash[k] == ByteOf(state[k / 4], k % 4)
      {
        StateByteIsBigEndian(state[i / 4], i);
        hash[i] := StateByte(state[i / 4], i);
      }
    }

    /** sha256_finalize: the digest of everything absorbed, this last part included. */
    method Finalize(message: seq<Byte>)
      requires Valid() && |message| < 0x1_0000_0000
      modifies this, hash, buffer, state, length
      ensures Shape() && hash[..] == Sha256(old(absorbed) + message)
    {
      hide Digest, Padding, Counted;
      if |message| > 0 {
        Update(message);
      }
      assert absorbed == old(absorbed) + message;
      var terminator := Terminator();
      Update(terminator);
      WriteDigest();
    }
  }

  lemma Rejoin(m: seq<Byte>, i: nat, j: nat)
    requires i <= j <= |m|
    ensures m[..i] + m[i..j] == m[..j]
  {
  }

  lemma PadLength(n: nat)
    ensures 9 + ZeroBytes(n) == if n % 64 > 55 then 128 - n % 64 else 64 - n % 64
  {
  }

  lemma PaddingBytes(t: seq<Byte>, n: nat)
    requires |t| == 9 + ZeroBytes(n)
    requires forall k :: 0 <= k < |t| - 8 ==> t[k] == if k == 0 then 0x80 else 0
    requires forall k :: 0 <= k < 8 ==> t[|t| - 8 + k] == LengthByte(n, k) as Byte
    ensures t == Padding(n)
  {
    hide LengthByte;
    var p := Padding(n);
    forall k | |t| - 8 <= k < |t| ensures t[k] == p[k] {
      assert t[|t| - 8 + (k - (|t| - 8))] == t[k];
    }
  }

  lemma {:induction false} ZeroCounter(s: seq<Octet>)
    requires forall k :: 0 <= k < |s| ==> s[k] == 0
    ensures Be(s) == 0
  {
    if s != [] { ZeroCounter(s[..|s| - 1]); }
  }

  /** The counter bytes are the length block of the padding, also when the bit length exceeds 64 bits. */
  lemma {:induction false} CounterByte(s: seq<Octet>, n: nat, i: nat)
    requires |s| == 8 && Be(s) == 8 * n % Pow256(8) && i < 8
    ensures s[i] == LengthByte(n, i)
  {
    Digit(s, i);
    PowAdd(1 + i, 7 - i);
    assert Pow256(1 + i) == 256 * Pow256(i);
    hide Pow256, Be;
    LowDigit(8 * n, Pow256(8), Pow256(i), Pow256(7 - i));
  }

  lemma LowDigit(v: nat, m: nat, p: nat, q: nat)
    requires m > 0 && q > 0 && m == 256 * p * q
    ensures v % m / q % 256 == v / q % 256
  {
    assert v == v / m * m + v % m;
    DropHigh(v / m, p, q, v % m);
  }

  lemma DropHigh(a: nat, p: nat, q: nat, r: nat)
    requires q > 0
    ensures (a * (256 * p * q) + r) / q % 256 == r / q % 256
  {
    var d := r / q;
    var v := a * (256 * p * q) + r;
    assert v == (a * (256 * p) + d) * q + r % q by {
      Distribute(a * (256 * p), d, q);
      assert a * (256 * p) * q == a * (256 * p * q);
    }
    DivUnique(v, q, a * (256 * p) + d, r % q);
    assert a * (256 * p) == 256 * (a * p);
  }

  lemma StateByteIsBigEndian(w: bv32, i: nat)
    ensures StateByte(w, i) == ByteOf(w, i % 4)
  {
    StateShift(w, i);
  }

  lemma StateShift(w: bv32, i: nat)
    ensures i % 4 == 0 ==> w >> (24 - 8 * (i % 4)) == w >> 24
    ensures i % 4 == 1 ==> w >> (24 - 8 * (i % 4)) == w >> 16
    ensures i % 4 == 2 ==> w >> (24 - 8 * (i % 4)) == w >> 8
    ensures i % 4 == 3 ==> w >> (24 - 8 * (i % 4)) == w
  {
  }
}
