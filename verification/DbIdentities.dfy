/** Loading subscribers and finding them again: which identities lead to which record, in every reachable state. */
module DbIdentities {
  import opened Bytes
  import opened DbFields
  import opened DbIntent
  import opened DbProtocol
  import opened DbTheorems
  import opened Decimals
  import opened LibCk
  import opened Records

  /** Every record sits at its key and still carries the IMSI and the TMSI it was loaded with. */
  ghost predicate Loaded(db: Db) {
    forall h :: h in db.users ==>
      RecordKey(db.users[h]) == h && ProperImsi(Get(db.users[h], Imsi)) && Get(db.users[h], Tmsi) == Pack32(h)
  }

  /** Loading a subscriber with a proper IMSI keeps the tables in that state. */
  lemma LoadingKeepsLoaded(random: nat -> Bytes16, db: Db, r: Record)
    requires Loaded(db) && ProperImsi(Get(r, Imsi))
    ensures Loaded(Load(random, db, r))
  {
    CompleteKeepsKey(r, random(db.draws));
    hide Complete, Get, RecordKey, Pack32, ProperImsi;
  }

  ghost predicate AllProperImsi(rs: seq<Record>) {
    forall i :: 0 <= i < |rs| ==> ProperImsi(Get(rs[i], Imsi))
  }

  /** Every file of subscribers with proper IMSIs is loaded into that state. */
  lemma {:induction false} FileIsLoaded(random: nat -> Bytes16, rs: seq<Record>)
    requires AllProperImsi(rs)
    ensures Loaded(LoadAll(random, EMPTY, rs))
  {
    hide Load, Loaded, ProperImsi, Get;
    if rs == [] {
      EmptyIsLoaded();
    } else {
      var n := |rs| - 1;
      assert ProperImsi(Get(rs[n], Imsi));
      FileIsLoaded(random, rs[..n]);
      LoadingKeepsLoaded(random, LoadAll(random, EMPTY, rs[..n]), rs[n]);
    }
  }

  lemma EmptyIsLoaded()
    ensures Loaded(EMPTY)
  {
  }

  /** The first line whose hash is that of line i. */
  function FirstKeyed(rs: seq<Record>, i: nat): (f: nat)
    requires i < |rs|
    ensures f <= i && RecordKey(rs[f]) == RecordKey(rs[i])
    ensures forall j :: 0 <= j < f ==> RecordKey(rs[j]) != RecordKey(rs[i])
  {
    FirstFrom(rs, i, 0)
  }

  function FirstFrom(rs: seq<Record>, i: nat, j: nat): (f: nat)
    requires j <= i < |rs| && forall k :: 0 <= k < j ==> RecordKey(rs[k]) != RecordKey(rs[i])
    ensures f <= i && RecordKey(rs[f]) == RecordKey(rs[i])
    ensures forall k :: 0 <= k < f ==> RecordKey(rs[k]) != RecordKey(rs[i])
    decreases i - j
  {
    if RecordKey(rs[j]) == RecordKey(rs[i]) then j else FirstFrom(rs, i, j + 1)
  }

  /** The record at the key of line i is the first line with that hash, completed with the RAND drawn for it. */
  predicate Holds(random: nat -> Bytes16, rs: seq<Record>, i: nat, db: Db)
    requires i < |rs|
  {
    var f := FirstKeyed(rs, i);
    RecordKey(rs[i]) in db.users && db.users[RecordKey(rs[i])] == Complete(rs[f], random(f))
  }

  lemma OneMoreLine(random: nat -> Bytes16, front: seq<Record>, line: Record, i: nat, was: Db)
    requires i <= |front| == was.draws
    requires forall h :: h in was.users ==> exists j :: 0 <= j < |front| && RecordKey(front[j]) == h
    requires forall j :: 0 <= j < |front| ==> Holds(random, front, j, was)
    ensures Holds(random, front + [line], i, Load(random, was, line))
  {
    hide RecordKey, Complete, FirstKeyed;
    var rs := front + [line];
    var f := FirstKeyed(rs, i);
    assert forall j :: 0 <= j < |front| ==> rs[j] == front[j];
    if f < |front| {
      assert Holds(random, front, f, was) && FirstKeyed(front, f) == f;
    }
  }

  /** What a file leaves in the table: the keys of its lines, each with the completed first line of that key. */
  lemma {:induction false} FileContents(random: nat -> Bytes16, rs: seq<Record>)
    ensures var db := LoadAll(random, EMPTY, rs);
            && db.draws == |rs|
            && (forall h :: h in db.users ==> exists i :: 0 <= i < |rs| && RecordKey(rs[i]) == h)
            && forall i :: 0 <= i < |rs| ==> Holds(random, rs, i, db)
  {
    hide RecordKey, Complete, FirstKeyed;
    if rs != [] {
      var n := |rs| - 1;
      var front := rs[..n];
      FileContents(random, front);
      var was, db := LoadAll(random, EMPTY, front), LoadAll(random, EMPTY, rs);
      assert db == Load(random, was, rs[n]);
      hide LoadAll;
      forall i | 0 <= i < |rs| ensures Holds(random, rs, i, db) {
        assert front + [rs[n]] == rs;
        OneMoreLine(random, front, rs[n], i, was);
      }
      forall h | h in db.users ensures exists i :: 0 <= i < |rs| && RecordKey(rs[i]) == h {
        if h in was.users {
          var i :| 0 <= i < |front| && RecordKey(front[i]) == h;
          assert RecordKey(rs[i]) == h;
        } else {
          assert RecordKey(rs[n]) == h;
        }
      }
    }
  }

  // ----- the same in terms of digits -----

  /** The number that the last nine digits of an IMSI write. */
  function Number(r: Record): (n: U32)
    requires ProperImsi(Get(r, Imsi))
    ensures n < 1_000_000_000
  {
    HashIsNumber(Get(r, Imsi));
    DecimalValue(LastNine(Get(r, Imsi)))
  }

  predicate SameNine(r: Record, s: Record) {
    Get(r, Imsi)[6..15] == Get(s, Imsi)[6..15]
  }

  /** The first line with the last nine digits of line i. */
  function FirstLike(rs: seq<Record>, i: nat): (f: nat)
    requires i < |rs|
    ensures f <= i && SameNine(rs[f], rs[i])
    ensures forall j :: 0 <= j < f ==> !SameNine(rs[j], rs[i])
  {
    LikeFrom(rs, i, 0)
  }

  function LikeFrom(rs: seq<Record>, i: nat, j: nat): (f: nat)
    requires j <= i < |rs| && forall k :: 0 <= k < j ==> !SameNine(rs[k], rs[i])
    ensures f <= i && SameNine(rs[f], rs[i])
    ensures forall k :: 0 <= k < f ==> !SameNine(rs[k], rs[i])
    decreases i - j
  {
    if SameNine(rs[j], rs[i]) then j else LikeFrom(rs, i, j + 1)
  }

  lemma KeyIsNumber(rs: seq<Record>, i: nat, j: nat)
    requires AllProperImsi(rs) && i < |rs| && j < |rs|
    ensures RecordKey(rs[i]) == Number(rs[i])
    ensures RecordKey(rs[j]) == RecordKey(rs[i]) <==> SameNine(rs[j], rs[i])
  {
    hide ProperImsi, HashImsi, LastNine, Get;
    assert ProperImsi(Get(rs[i], Imsi)) && ProperImsi(Get(rs[j], Imsi));
    HashIsNumber(Get(rs[i], Imsi));
    HashTellsDigits(Get(rs[j], Imsi), Get(rs[i], Imsi));
  }

  lemma {:induction false} FirstIsFirst(rs: seq<Record>, i: nat)
    requires AllProperImsi(rs) && i < |rs|
    ensures FirstKeyed(rs, i) == FirstLike(rs, i)
  {
    hide RecordKey, SameNine, FirstKeyed, FirstLike, ProperImsi;
    KeyIsNumber(rs, i, FirstKeyed(rs, i));
    KeyIsNumber(rs, i, FirstLike(rs, i));
  }

  /** A file of proper IMSIs leaves one record for each nine last digits in it, at the number that these digits write:
      the first line with them, completed with its own RAND. */
  lemma {:induction false} FileLines(random: nat -> Bytes16, rs: seq<Record>)
    requires AllProperImsi(rs)
    ensures var db := LoadAll(random, EMPTY, rs);
            && db.draws == |rs|
            && (forall h :: h in db.users <==> exists i :: 0 <= i < |rs| && Number(rs[i]) == h)
            && forall i :: 0 <= i < |rs| ==>
                 && Number(rs[i]) in db.users
                 && db.users[Number(rs[i])] == Complete(rs[FirstLike(rs, i)], random(FirstLike(rs, i)))
  {
    hide RecordKey, FirstKeyed, FirstLike, ProperImsi, Complete, LoadAll, Number;
    FileContents(random, rs);
    var db := LoadAll(random, EMPTY, rs);
    forall i | 0 <= i < |rs|
      ensures RecordKey(rs[i]) == Number(rs[i]) && Number(rs[i]) in db.users
      ensures db.users[Number(rs[i])] == Complete(rs[FirstLike(rs, i)], random(FirstLike(rs, i))) {
      KeyIsNumber(rs, i, i);
      FirstIsFirst(rs, i);
      assert Holds(random, rs, i, db);
    }
  }

  /** No push item writes these fields. */
  lemma {:induction false} IdentityStays(accesses: seq<Access>, h: U32, f: Field, v: seq<Octet>)
    requires f in {Imsi, Tmsi, Key, Opc}
    ensures LastTaken(accesses, h, f, v) == v
  {
    forall p: Push ensures !Takes(p, f) { }
    NothingTaken(accesses, h, f, v);
  }

  /** No request ever changes that. */
  lemma {:induction false} RequestsKeepLoaded(random: nat -> Bytes16, db: Db, accesses: seq<Access>)
    requires Loaded(db)
    ensures Loaded(RunAll(random, db, accesses))
  {
    var r := RunAll(random, db, accesses);
    forall h | h in r.users
      ensures RecordKey(r.users[h]) == h && ProperImsi(Get(r.users[h], Imsi)) && Get(r.users[h], Tmsi) == Pack32(h) {
      assert h in db.users.Keys;
      FieldsHoldLastTaken(random, db, accesses, h, Imsi);
      FieldsHoldLastTaken(random, db, accesses, h, Tmsi);
      IdentityStays(accesses, h, Imsi, Get(db.users[h], Imsi));
      IdentityStays(accesses, h, Tmsi, Get(db.users[h], Tmsi));
      SameKey(r.users[h], db.users[h]);
    }
  }

  lemma SameKey(r: Record, s: Record)
    requires Get(r, Imsi) == Get(s, Imsi)
    ensures RecordKey(r) == RecordKey(s)
  {
  }

  /** The identifier that a client forms of a value makes the server find the record at key h. */
  predicate Leads(db: Db, kind: Octet, value: seq<Octet>, slot: Bytes17, h: U32) {
    IdWidth(kind).Some? && |value| >= IdWidth(kind).value && Identify(db, IdBytes(kind, value, slot)) == Some(User(h))
  }

  /** A record is found by its IMSI, its MSIN and its stored TMSI; by its stored MME-UE-S1AP-ID if and only if that
      still is what loading made it. */
  lemma IdentitiesReachRecord(db: Db, h: U32, slot: Bytes17)
    requires Loaded(db) && h in db.users
    ensures var imsi, id := Get(db.users[h], Imsi), Get(db.users[h], MmeUeId);
            && Leads(db, IMSI, imsi, slot, h)
            && Leads(db, MSIN, imsi[5..], slot, h)
            && Leads(db, TMSI, Get(db.users[h], Tmsi), slot, h)
            && (Leads(db, MME_UE_S1AP_ID, id, slot, h) <==> id == Pack32(h))
  {
    var imsi, id := Get(db.users[h], Imsi), Get(db.users[h], MmeUeId);
    ImsiHash(imsi, slot);
    MsinHash(imsi, slot);
    NumberHash(TMSI, Pack32(h), slot);
    Pack32RoundTrip(h);
    NumberHash(MME_UE_S1AP_ID, id, slot);
    Unpack32RoundTrip(id);
    hide HashImsi, IdHash, Pack32, Unpack32, ProperImsi, IdBytes;
  }

  /** Once another number is pushed that is no key, the stored MME-UE-S1AP-ID leads nowhere. */
  lemma {:induction false} PushedIdLeadsNowhere(random: nat -> Bytes16, db: Db, h: U32, k: U32, id: Bytes17,
                                                slot: Bytes17)
    requires h in db.users && k !in db.users
    ensures var push := Request(id, [PushOf(Item(MME_UE_S1AP_ID, Pack32(k)), slot)], []);
            var next := Effect(random, db, User(h), push);
            && h in next.users && Get(next.users[h], MmeUeId) == Pack32(k)
            && Identify(next, IdBytes(MME_UE_S1AP_ID, Get(next.users[h], MmeUeId), slot)) == None
  {
    var p := PushOf(Item(MME_UE_S1AP_ID, Pack32(k)), slot);
    RecordHoldsValue(MME_UE_S1AP_ID, Pack32(k), slot);
    OnePush(db, User(h), p, h, MmeUeId);
    NumberHash(MME_UE_S1AP_ID, Pack32(k), slot);
    Pack32RoundTrip(k);
    hide Pack32, IdHash, IdBytes, Get, PushOf, PushValue, ApplyPush;
    var next := ApplyPush(db, User(h), p);
    assert [p][1..] == [] && ApplyPushes(db, User(h), [p]) == ApplyPushes(next, User(h), []) == next;
    assert h in next.users.Keys && k !in next.users.Keys;
  }

  /** In every state that any requests reach from any file: each of its subscribers is found by its IMSI, its MSIN and
      its TMSI; by its stored MME-UE-S1AP-ID if and only if no request gave it another than the first; and the record
      found carries the IMSI and the keys of the first line with its last nine digits. */
  lemma {:induction false} EverySubscriberFound(random: nat -> Bytes16, rs: seq<Record>, accesses: seq<Access>, i: nat,
                                                slot: Bytes17)
    requires AllProperImsi(rs) && i < |rs|
    ensures var db := RunAll(random, LoadAll(random, EMPTY, rs), accesses);
            var h, line := Number(rs[i]), rs[FirstLike(rs, i)];
            && h in db.users
            && Get(db.users[h], Imsi) == Get(line, Imsi)
            && Get(db.users[h], Key) == Get(line, Key) && Get(db.users[h], Opc) == Get(line, Opc)
            && Leads(db, IMSI, Get(rs[i], Imsi), slot, h)
            && Leads(db, MSIN, Get(rs[i], Imsi)[5..], slot, h)
            && Leads(db, TMSI, Get(db.users[h], Tmsi), slot, h)
            && var g := LastGivenAll(accesses, h, MmeUeId, None);
               Leads(db, MME_UE_S1AP_ID, Get(db.users[h], MmeUeId), slot, h) <==> g.None? || g.value == Pack32(h)
  {
    hide RunAll, LoadAll, RecordKey, Number, Get, Pack32, LastGivenAll, Leads, ProperImsi, Loaded, FirstLike, Volatile;
    var start := LoadAll(random, EMPTY, rs);
    var db, h := RunAll(random, start, accesses), Number(rs[i]);
    KeyIsNumber(rs, i, i);
    assert ProperImsi(Get(rs[i], Imsi));
    FileRecord(random, rs, i);
    RequestsKeepLoaded(random, start, accesses);
    assert h in db.users.Keys;
    forall x | x in {Imsi, Key, Opc} ensures Get(db.users[h], x) == Get(start.users[h], x) {
      Steady(x);
      FieldsHoldLastTaken(random, start, accesses, h, x);
      IdentityStays(accesses, h, x, Get(start.users[h], x));
    }
    Steady(MmeUeId);
    FieldsHoldGiven(random, start, accesses, h, MmeUeId);
    IdentitiesReachRecord(db, h, slot);
    SameImsiLeads(db, rs[i], h, slot);
  }

  /** In a file whose lines differ in their last nine digits every line finds its own record. */
  lemma {:induction false} EveryLineFindsItself(random: nat -> Bytes16, rs: seq<Record>, accesses: seq<Access>, i: nat,
                                                slot: Bytes17)
    requires AllProperImsi(rs) && i < |rs|
    requires forall j, k :: 0 <= j < k < |rs| ==> Get(rs[j], Imsi)[6..15] != Get(rs[k], Imsi)[6..15]
    ensures var db, h := RunAll(random, LoadAll(random, EMPTY, rs), accesses), Number(rs[i]);
            && Leads(db, IMSI, Get(rs[i], Imsi), slot, h) && h in db.users
            && Get(db.users[h], Imsi) == Get(rs[i], Imsi)
            && Get(db.users[h], Key) == Get(rs[i], Key) && Get(db.users[h], Opc) == Get(rs[i], Opc)
  {
    hide RunAll, LoadAll, Number, Leads, ProperImsi, Get, LastGivenAll;
    EverySubscriberFound(random, rs, accesses, i, slot);
    assert FirstLike(rs, i) == i;
  }

  /** In every state that any requests reach from a file, two subscribers have the same PDN IP if and only if the
      numbers of their last nine digits agree modulo 2^16. */
  lemma {:induction false} SharedPdnIps(random: nat -> Bytes16, rs: seq<Record>, accesses: seq<Access>, i: nat, j: nat)
    requires AllProperImsi(rs) && i < |rs| && j < |rs|
    ensures var db := RunAll(random, LoadAll(random, EMPTY, rs), accesses); var h, g := Number(rs[i]), Number(rs[j]);
            && h in db.users && g in db.users
            && (Get(db.users[h], PdnIpv4) == Get(db.users[g], PdnIpv4) <==> h % 0x1_0000 == g % 0x1_0000)
  {
    hide RunAll, LoadAll, Number, Get, Pack32, PdnIp;
    PdnIpStays(random, rs, accesses, i);
    PdnIpStays(random, rs, accesses, j);
    PdnIpsTell(Number(rs[i]), Number(rs[j]));
  }

  function PdnIp(h: U32): seq<Octet> {
    Pack32(0xAC10_0001 + h % 0x1_0000)
  }

  lemma PdnIpsTell(h: U32, g: U32)
    ensures PdnIp(h) == PdnIp(g) <==> h % 0x1_0000 == g % 0x1_0000
  {
    Pack32RoundTrip(0xAC10_0001 + h % 0x1_0000);
    Pack32RoundTrip(0xAC10_0001 + g % 0x1_0000);
    hide Pack32, Unpack32;
  }

  lemma {:induction false} PdnIpStays(random: nat -> Bytes16, rs: seq<Record>, accesses: seq<Access>, i: nat)
    requires AllProperImsi(rs) && i < |rs|
    ensures var db := RunAll(random, LoadAll(random, EMPTY, rs), accesses); var h := Number(rs[i]);
            h in db.users && Get(db.users[h], PdnIpv4) == PdnIp(h)
  {
    hide RunAll, LoadAll, Number, Get, PdnIp, ProperImsi, LastGivenAll, Volatile;
    assert ProperImsi(Get(rs[i], Imsi));
    PdnIpLoaded(random, rs, i);
    Steady(PdnIpv4);
    FieldsHoldGiven(random, LoadAll(random, EMPTY, rs), accesses, Number(rs[i]), PdnIpv4);
    assert Number(rs[i]) in LoadAll(random, EMPTY, rs).users.Keys;
    assert Number(rs[i]) in RunAll(random, LoadAll(random, EMPTY, rs), accesses).users.Keys;
  }

  lemma {:induction false} PdnIpLoaded(random: nat -> Bytes16, rs: seq<Record>, i: nat)
    requires AllProperImsi(rs) && i < |rs|
    ensures var db, h := LoadAll(random, EMPTY, rs), Number(rs[i]);
            h in db.users && Get(db.users[h], PdnIpv4) == PdnIp(h)
  {
    hide *;
    var f := FirstLike(rs, i);
    FileLines(random, rs);
    KeyIsNumber(rs, i, f);
    CompletePdnIp(rs[f], random(f));
  }

  lemma CompletePdnIp(r: Record, rand: Bytes16)
    ensures Get(Complete(r, rand), PdnIpv4) == PdnIp(RecordKey(r))
  {
    hide Complete, Get, Pack32, RecordKey;
    CompleteKeepsKey(r, rand);
  }

  lemma Steady(f: Field)
    requires f in {Imsi, Key, Opc, MmeUeId, PdnIpv4}
    ensures !Volatile(f)
  {
  }

  lemma {:induction false} FileRecord(random: nat -> Bytes16, rs: seq<Record>, i: nat)
    requires AllProperImsi(rs) && i < |rs|
    ensures var db, h, line := LoadAll(random, EMPTY, rs), Number(rs[i]), rs[FirstLike(rs, i)];
            && Loaded(db) && h in db.users && Get(db.users[h], MmeUeId) == Pack32(h)
            && forall f :: f in {Imsi, Key, Opc} ==> Get(db.users[h], f) == Get(line, f)
  {
    hide Complete, Get, RecordKey, Pack32, Loaded, LoadAll, FirstLike, Number;
    var f := FirstLike(rs, i);
    FileIsLoaded(random, rs);
    FileLines(random, rs);
    KeyIsNumber(rs, i, f);
    CompleteKeepsKey(rs[f], random(f));
  }

  /** Any IMSI with the last nine digits of a key leads to its record. */
  lemma SameImsiLeads(db: Db, r: Record, h: U32, slot: Bytes17)
    requires h in db.users && RecordKey(r) == h && ProperImsi(Get(r, Imsi))
    ensures Leads(db, IMSI, Get(r, Imsi), slot, h)
    ensures Leads(db, MSIN, Get(r, Imsi)[5..], slot, h)
  {
    ImsiHash(Get(r, Imsi), slot);
    MsinHash(Get(r, Imsi), slot);
    hide HashImsi, IdHash, ProperImsi, IdBytes, Get;
  }

  lemma ImsiHash(imsi: seq<Octet>, slot: Bytes17)
    requires ProperImsi(imsi)
    ensures var id := IdBytes(IMSI, imsi, slot); id[0] == IMSI && IdHash(id) == HashImsi(imsi)
  {
    var id := IdBytes(IMSI, imsi, slot);
    assert id[1..][6..] == imsi[6..] by {
      assert forall k :: 0 <= k < 16 ==> id[1 + k] == imsi[k];
    }
  }

  lemma MsinHash(imsi: seq<Octet>, slot: Bytes17)
    requires ProperImsi(imsi)
    ensures var id := IdBytes(MSIN, imsi[5..], slot); id[0] == MSIN && IdHash(id) == HashImsi(imsi)
  {
    var id := IdBytes(MSIN, imsi[5..], slot);
    var s, t := id[1..][1..], imsi[6..];
    assert forall k :: 0 <= k < 10 ==> s[k] == t[k] == imsi[6 + k];
    assert !IsDigit(imsi[15]);
    SameNineDigits(s, t);
  }

  lemma NumberHash(kind: Octet, number: seq<Octet>, slot: Bytes17)
    requires (kind == TMSI || kind == MME_UE_S1AP_ID) && |number| == 4
    ensures var id := IdBytes(kind, number, slot); id[0] == kind && IdHash(id) == Unpack32(number)
  {
    hide Unpack32;
    assert IdBytes(kind, number, slot)[1..5] == number;
  }
}
