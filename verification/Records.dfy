/** Subscriber records (corekube-db/source/user.c): one flat struct of byte arrays without padding, the numbers
    packed into it, and the hashes by which a record is found. */
module Records {
  import opened Bytes
  import opened Decimals

  // ----- the struct -----

  datatype Field =
    | Imsi | Key | Opc | Rand | EnbUeId | TargetEnbUeId | MmeUeId | Tmsi | UeTeid | EpcTeid
    | SpgwIp | EnbIp | PdnIpv4 | AuthRes | EncKey | IntKey | Kasme1 | Kasme2
    | EpcNasCount | UeNasCount | NextHopCount | Knh1 | Knh2 | SourceSocket | TargetSocket

  function Width(f: Field): (w: nat)
    ensures w > 0
  {
    match f
    case Imsi | Key | Opc | Rand | EncKey | IntKey | Kasme1 | Kasme2 | Knh1 | Knh2 => 16
    case AuthRes => 8
    case EpcNasCount | UeNasCount | NextHopCount => 1
    case _ => 4
  }

  /** The declaration order of struct _UserInfo. */
  function Offset(f: Field): nat {
    match f
    case Imsi => 0
    case Key => 16
    case Opc => 32
    case Rand => 48
    case EnbUeId => 64
    case TargetEnbUeId => 68
    case MmeUeId => 72
    case Tmsi => 76
    case UeTeid => 80
    case EpcTeid => 84
    case SpgwIp => 88
    case EnbIp => 92
    case PdnIpv4 => 96
    case AuthRes => 100
    case EncKey => 108
    case IntKey => 124
    case Kasme1 => 140
    case Kasme2 => 156
    case EpcNasCount => 172
    case UeNasCount => 173
    case NextHopCount => 174
    case Knh1 => 175
    case Knh2 => 191
    case SourceSocket => 207
    case TargetSocket => 211
  }

  const SIZE: nat := 215

  type Record = r: seq<Octet> | |r| == SIZE witness seq(SIZE, _ => 0)

  /** The members of struct _UserInfo as they are declared. */
  const DECLARED: seq<Field> := [
    Imsi, Key, Opc, Rand, EnbUeId, TargetEnbUeId, MmeUeId, Tmsi, UeTeid, EpcTeid,
    SpgwIp, EnbIp, PdnIpv4, AuthRes, EncKey, IntKey, Kasme1, Kasme2,
    EpcNasCount, UeNasCount, NextHopCount, Knh1, Knh2, SourceSocket, TargetSocket]

  function Declared(k: nat): Field
    requires k < 25
  {
    DECLARED[k]
  }

  /** They follow each other without padding and fill the struct. */
  lemma StructLayout(k: nat)
    requires k < 25
    ensures Offset(Declared(k)) == if k == 0 then 0 else Offset(Declared(k - 1)) + Width(Declared(k - 1))
    ensures k == 24 ==> Offset(Declared(k)) + Width(Declared(k)) == SIZE
  {
  }

  /** Fields do not overlap, and together they fill the struct. */
  lemma FieldsApart(f: Field, g: Field)
    ensures Offset(f) + Width(f) <= SIZE
    ensures f != g ==> Offset(f) + Width(f) <= Offset(g) || Offset(g) + Width(g) <= Offset(f)
  {
  }

  function Get(r: Record, f: Field): (v: seq<Octet>)
    ensures |v| == Width(f)
  {
    r[Offset(f)..Offset(f) + Width(f)]
  }

  /** A memcpy into a field. */
  function Set(r: Record, f: Field, v: seq<Octet>): Record
    requires |v| == Width(f)
  {
    r[..Offset(f)] + v + r[Offset(f) + Width(f)..]
  }

  lemma GetSet(r: Record, f: Field, g: Field, v: seq<Octet>)
    requires |v| == Width(f)
    ensures Get(Set(r, f, v), g) == if f == g then v else Get(r, g)
  {
    FieldsApart(f, g);
    FieldsApart(g, f);
    hide Offset, Width;
    var s := Set(r, f, v);
    assert forall k :: 0 <= k < Offset(f) ==> s[k] == r[k];
    assert forall k :: Offset(f) + Width(f) <= k < SIZE ==> s[k] == r[k];
  }

  // ----- atoi -----

  predicate IsDigit(b: Octet) { 48 <= b <= 57 }
  predicate IsSpace(b: Octet) { b == 32 || 9 <= b <= 13 }

  /** The digits at the front of s, as a number continuing n. */
  function Digits(s: seq<Octet>, n: nat): nat {
    if s == [] || !IsDigit(s[0]) then n else Digits(s[1..], 10 * n + (s[0] - 48))
  }

  function Unsigned(s: seq<Octet>): int {
    if s == [] then 0 else if s[0] == 45 then 0 - Digits(s[1..], 0) as int else if s[0] == 43 then Digits(s[1..], 0)
        else Digits(s, 0)
  }

  function Atoi(s: seq<Octet>): int {
    if s != [] && IsSpace(s[0]) then Atoi(s[1..]) else Unsigned(s)
  }

  /** Conversion of the int to uint32_t. */
  function ToU32(n: int): U32 {
    n % 0x1_0000_0000
  }

  // ----- hashes -----

  /** hash_imsi: the last nine digits of a 15-digit IMSI. */
  function HashImsi(s: seq<Octet>): U32
    requires |s| >= 6
  {
    ToU32(Atoi(s[6..]))
  }

  /** hash_msin: the last nine digits of a 10-digit MSIN. */
  function HashMsin(s: seq<Octet>): U32
    requires |s| >= 1
  {
    ToU32(Atoi(s[1..]))
  }

  /** hash_imsi_user_info: the key of a record in the table. */
  function RecordKey(r: Record): U32 {
    HashImsi(Get(r, Imsi))
  }

  /** A record whose IMSI field holds 15 digits and the terminating zero. */
  predicate ProperImsi(imsi: seq<Octet>) {
    |imsi| == 16 && imsi[15] == 0 && forall k :: 0 <= k < 15 ==> IsDigit(imsi[k])
  }

  /** Nine digits in front of a byte that is none. */
  predicate NineDigits(s: seq<Octet>) {
    |s| >= 10 && !IsDigit(s[9]) && forall k :: 0 <= k < 9 ==> IsDigit(s[k])
  }

  lemma {:induction false} DigitsStop(s: seq<Octet>, t: seq<Octet>, n: nat, k: nat)
    requires k < |s| && k < |t| && !IsDigit(s[k]) && !IsDigit(t[k])
    requires forall j :: 0 <= j < k ==> IsDigit(s[j]) && s[j] == t[j]
    ensures Digits(s, n) == Digits(t, n)
  {
    if k > 0 { DigitsStop(s[1..], t[1..], 10 * n + (s[0] - 48), k - 1); }
  }

  /** What follows the first nine digits does not matter. */
  lemma {:induction false} SameNineDigits(s: seq<Octet>, t: seq<Octet>)
    requires NineDigits(s) && NineDigits(t) && forall j :: 0 <= j < 9 ==> s[j] == t[j]
    ensures Atoi(s) == Atoi(t)
  {
    assert IsDigit(s[0]);
    DigitsStop(s, t, 0, 9);
  }

  /** The digits are read as the decimal number that they write. */
  lemma {:induction false} DigitsValue(s: seq<Octet>, n: nat, k: nat)
    requires k < |s| && !IsDigit(s[k]) && forall j :: 0 <= j < k ==> IsDigit(s[j])
    ensures Digits(s, n) == n * Ten(k) + DecimalValue(s[..k])
  {
    if k > 0 {
      DigitsValue(s[1..], 10 * n + (s[0] - 48), k - 1);
      assert s[1..][..k - 1] == s[..k][1..];
      FrontDigit(s[..k]);
      Shifted(n, s[0] - 48, Ten(k - 1));
    }
  }

  lemma Shifted(n: int, d: int, t: int)
    ensures (10 * n + d) * t == n * (10 * t) + d * t
  {
  }

  lemma {:induction false} FrontDigit(t: seq<Octet>)
    requires t != []
    ensures DecimalValue(t) == (t[0] - 48) * Ten(|t| - 1) + DecimalValue(t[1..])
  {
    var n := |t| - 1;
    if n == 0 {
      assert t[..0] == [] && t[1..] == [];
    } else {
      FrontDigit(t[..n]);
      assert t[..n][1..] == t[1..][..n - 1] && t[1..][n - 1] == t[n];
    }
  }

  /** The last nine digits of an IMSI. */
  function LastNine(imsi: seq<Octet>): (d: seq<Octet>)
    requires ProperImsi(imsi)
    ensures |d| == 9 && AllDigits(d)
  {
    assert forall k :: 6 <= k < 15 ==> IsDigit(imsi[k]);
    imsi[6..15]
  }

  /** The hash of an IMSI is the number that its last nine digits write. */
  lemma {:induction false} HashIsNumber(imsi: seq<Octet>)
    requires ProperImsi(imsi)
    ensures HashImsi(imsi) == DecimalValue(LastNine(imsi)) < 1_000_000_000
  {
    var s := imsi[6..];
    assert forall k :: 0 <= k < 9 ==> s[k] == imsi[6 + k] && IsDigit(s[k]);
    assert s[..9] == LastNine(imsi);
    DigitsValue(s, 0, 9);
    ValueBound(LastNine(imsi));
    BillionIsTen();
    assert Atoi(s) == Digits(s, 0) by { assert IsDigit(s[0]); }
  }

  lemma BillionIsTen()
    ensures Ten(9) == 1_000_000_000
  {
    assert Ten(3) == 1_000 && Ten(6) == 1_000_000;
  }

  /** So two IMSIs have the same hash exactly when they have the same last nine digits. */
  lemma {:induction false} HashTellsDigits(a: seq<Octet>, b: seq<Octet>)
    requires ProperImsi(a) && ProperImsi(b)
    ensures HashImsi(a) == HashImsi(b) <==> a[6..15] == b[6..15]
  {
    hide HashImsi;
    HashIsNumber(a);
    HashIsNumber(b);
    SameValue(LastNine(a), LastNine(b));
  }

  /** atoi on what a line could hold instead: blanks, a sign, and digits up to some other byte. */
  lemma {:induction false} AtoiReads(blanks: seq<Octet>, minus: bool, t: seq<Octet>, rest: seq<Octet>)
    requires forall k :: 0 <= k < |blanks| ==> blanks[k] == 32 || 9 <= blanks[k] <= 13
    requires AllDigits(t) && t != [] && (rest == [] || !(ZERO <= rest[0] < ZERO + 10))
    ensures var u := (if minus then [45] else []) + (t + rest);
            Atoi(blanks + u) == if minus then -DecimalValue(t) else DecimalValue(t)
  {
    var u := (if minus then [45] else []) + (t + rest);
    AtoiSkips(blanks, u);
    DigitsAlone(t, rest);
    assert u[0] == if minus then 45 else t[0];
    assert !IsSpace(u[0]) && Atoi(u) == Unsigned(u);
    if minus { assert u[1..] == t + rest; } else { assert u == t + rest; }
  }

  lemma {:induction false} AtoiSkips(blanks: seq<Octet>, u: seq<Octet>)
    requires forall k :: 0 <= k < |blanks| ==> blanks[k] == 32 || 9 <= blanks[k] <= 13
    ensures Atoi(blanks + u) == Atoi(u)
  {
    hide Unsigned;
    if blanks == [] {
      assert blanks + u == u;
    } else {
      assert (blanks + u)[0] == blanks[0] && (blanks + u)[1..] == blanks[1..] + u;
      AtoiSkips(blanks[1..], u);
    }
  }

  lemma {:induction false} DigitsAlone(t: seq<Octet>, rest: seq<Octet>)
    requires AllDigits(t) && (rest == [] || !(ZERO <= rest[0] < ZERO + 10))
    ensures Digits(t + rest, 0) == DecimalValue(t)
  {
    var s := t + rest;
    if rest == [] {
      DigitsToEnd(t, 0);
      assert s == t;
    } else {
      assert s[..|t|] == t && s[|t|] == rest[0];
      DigitsValue(s, 0, |t|);
    }
  }

  lemma {:induction false} DigitsToEnd(t: seq<Octet>, n: nat)
    requires AllDigits(t)
    ensures Digits(t, n) == n * Ten(|t|) + DecimalValue(t)
  {
    if t != [] {
      DigitsToEnd(t[1..], 10 * n + (t[0] - 48));
      FrontDigit(t);
      Shifted(n, t[0] - 48, Ten(|t| - 1));
    }
  }

  // ----- loading a subscriber -----

  const GATEWAY_IP: U32 := 0xAC10_0001

  /** complete_user_info: the identities derived from the IMSI, and the initial counters and RAND. */
  function Complete(r: Record, rand: seq<Octet>): Record
    requires |rand| == 16
  {
    var hash := RecordKey(r);
    var r1 := Set(Set(r, EpcNasCount, [0]), NextHopCount, [1]);
    var r2 := Set(Set(Set(r1, MmeUeId, Pack32(hash)), Tmsi, Pack32(hash)), EpcTeid, Pack32(hash));
    var r3 := Set(r2, PdnIpv4, Pack32((GATEWAY_IP + hash % 0x1_0000) % 0x1_0000_0000));
    Set(r3, Rand, rand)
  }

  /** The fields that loading derives or initialises. */
  predicate Derived(f: Field) {
    || f.EpcNasCount? || f.NextHopCount? || f.MmeUeId? || f.Tmsi? || f.EpcTeid? || f.PdnIpv4? || f.Rand?
  }

  /** Loading keeps the IMSI, the keys and all else of a line; TMSI, MME-UE-S1AP-ID and uplink TEID are its table key,
      big-endian, and the PDN IP is 172.16.0.1 plus the low 16 bits of it. */
  lemma CompleteKeepsKey(r: Record, rand: seq<Octet>)
    requires |rand| == 16
    ensures var c := Complete(r, rand);
            && (forall f: Field :: !Derived(f) ==> Get(c, f) == Get(r, f)) && RecordKey(c) == RecordKey(r)
            && Get(c, Imsi) == Get(r, Imsi) && Get(c, Key) == Get(r, Key) && Get(c, Opc) == Get(r, Opc)
            && Get(c, Tmsi) == Get(c, MmeUeId) == Get(c, EpcTeid) == Pack32(RecordKey(c))
            && Get(c, PdnIpv4) == Pack32((172 * 256 + 16) * 0x1_0000 + 1 + RecordKey(c) % 0x1_0000)
            && Get(c, EpcNasCount) == [0] && Get(c, NextHopCount) == [1] && Get(c, Rand) == rand
  {
    hide Get, Set, Pack32, HashImsi;
    var hash := RecordKey(r);
    var a := Set(r, EpcNasCount, [0]);
    var b := Set(a, NextHopCount, [1]);
    var c := Set(b, MmeUeId, Pack32(hash));
    var d := Set(c, Tmsi, Pack32(hash));
    var e := Set(d, EpcTeid, Pack32(hash));
    var ip := Pack32((GATEWAY_IP + hash % 0x1_0000) % 0x1_0000_0000);
    var g := Set(e, PdnIpv4, ip);
    forall f: Field ensures Get(Set(g, Rand, rand), f) ==
      if f.Rand? then rand else if f.PdnIpv4? then ip else if f.EpcTeid? || f.Tmsi? || f.MmeUeId? then Pack32(hash)
      else if f.NextHopCount? then [1] else if f.EpcNasCount? then [0] else Get(r, f) {
      GetSet(r, EpcNasCount, f, [0]);
      GetSet(a, NextHopCount, f, [1]);
      GetSet(b, MmeUeId, f, Pack32(hash));
      GetSet(c, Tmsi, f, Pack32(hash));
      GetSet(d, EpcTeid, f, Pack32(hash));
      GetSet(e, PdnIpv4, f, ip);
      GetSet(g, Rand, f, rand);
    }
  }
}
