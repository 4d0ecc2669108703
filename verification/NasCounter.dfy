/** Downlink NAS security of the 5G workers (nas_security.c, nas_handler.c): stateless workers that take their keys
    and the downlink count of a subscriber from CoreKubeDB. A run interleaves the DB requests of any number of
    messages; it is stated exactly when two downlink messages are authenticated with the same KAMF and count. */
module NasCounter {
  import opened Bytes
  import opened DbFields
  import opened DbIntent
  import opened DbProtocol
  import opened DbTheorems
  import opened LibCk
  import opened Records

  type Kamf = s: seq<Octet> | |s| == 32 witness seq(32, _ => 0)

  /** What a MAC is computed with. */
  datatype Keys = Keys(kamf: Kamf, count: U32)

  // ----- the two requests -----

  function Plain(item: Octet): Pull {
    Pull(item, [0, 0, 0, 0])
  }

  /** The pulls of nas_security_fetch_keys, with the uplink count when both directions are wanted. */
  function FetchPulls(both: bool): (gs: seq<Pull>)
    ensures |gs| == if both then 4 else 3
  {
    [Plain(KASME_1), Plain(KASME_2), Plain(EPC_NAS_SEQUENCE_NUMBER)] + if both then [Plain(UE_NAS_SEQUENCE_NUMBER)]
        else []
  }

  /** nas_security_store_keys_in_params: the KAMF from two replies, the count from bytes 3 to 6 of the third. */
  function KeysFrom(replies: seq<seq<Octet>>): Keys
    requires |replies| >= 3 && |replies[0]| == 17 && |replies[1]| == 17 && |replies[2]| == 17
  {
    Keys(replies[0][1..] + replies[1][1..], Unpack32(replies[2][3..7]))
  }

  /** The pushes that install a KAMF, as they reach the server from a zeroed buffer. */
  function InstallPushes(kamf: Kamf): (ps: seq<Push>)
    ensures |ps| == 4
  {
    var blank: Bytes17 := seq(17, _ => 0);
    var zeroCount := [0, 0, 0, 0, 0, 0];
    [PushOf(Item(KASME_1, kamf[..16]), blank), PushOf(Item(KASME_2, kamf[16..]), blank),
     PushOf(Item(EPC_NAS_SEQUENCE_NUMBER, zeroCount), blank), PushOf(Item(UE_NAS_SEQUENCE_NUMBER, zeroCount), blank)]
  }

  function FetchRequest(both: bool): Request {
    Request(seq(17, _ => 0), [], FetchPulls(both))
  }

  function InstallRequest(kamf: Kamf): Request {
    Request(seq(17, _ => 0), InstallPushes(kamf), [Plain(SPGW_IP)])
  }

  /** The KAMF and the downlink count of subscriber h. */
  function KamfOf(db: Db, h: U32): Kamf
    requires h in db.users
  {
    Get(db.users[h], Kasme1) + Get(db.users[h], Kasme2)
  }

  function CountOf(db: Db, h: U32): Octet
    requires h in db.users
  {
    Get(db.users[h], EpcNasCount)[0]
  }

  /** What a fetch of subscriber h's keys is about: the answers hold the current KAMF and count, and the count goes up
      by one modulo 256. */
  ghost predicate Fetched(db: Db, next: Db, answers: seq<seq<Octet>>, h: U32)
    requires h in db.users
  {
    && |answers| >= 3 && |answers[0]| == 17 && |answers[1]| == 17 && |answers[2]| == 17
    && KeysFrom(answers) == Keys(KamfOf(db, h), CountOf(db, h))
    && h in next.users && KamfOf(next, h) == KamfOf(db, h)
    && CountOf(next, h) == (CountOf(db, h) as int + 1) % 256
  }

  /** nas_security_fetch_keys, through the encoded pulls and their replies, is such a fetch. */
  lemma FetchReads(random: nat -> Bytes16, db: Db, h: U32, both: bool)
    requires h in db.users
    ensures Fetched(db, Effect(random, db, User(h), FetchRequest(both)),
        AnswersTo(random, db, User(h), FetchRequest(both)), h)
  {
    FetchedKeys(random, db, h, both);
    FetchRuns(random, db, h, both);
    CountPull(random, db, h);
    TailPull(random, CountUp(db, h), h, both);
    hide Effect, AnswersTo, ApplyPulls, CountUp, KamfOf, CountOf, KeysFrom, FetchPulls, FetchRequest, Fetched;
    FetchedIs(db, Effect(random, db, User(h), FetchRequest(both)), AnswersTo(random, db, User(h), FetchRequest(both)),
        h);
  }

  lemma FetchedIs(db: Db, next: Db, answers: seq<seq<Octet>>, h: U32)
    requires h in db.users && h in next.users && KamfOf(next, h) == KamfOf(db, h)
    requires CountOf(next, h) == (CountOf(db, h) as int + 1) % 256
    requires |answers| >= 3 && |answers[0]| == 17 && |answers[1]| == 17 && |answers[2]| == 17
    requires KeysFrom(answers) == Keys(KamfOf(db, h), CountOf(db, h))
    ensures Fetched(db, next, answers, h)
  {
    hide KamfOf, CountOf, KeysFrom;
  }

  lemma FetchedKeys(random: nat -> Bytes16, db: Db, h: U32, both: bool)
    requires h in db.users
    ensures var a := AnswersTo(random, db, User(h), FetchRequest(both));
            && |a| >= 3 && |a[0]| == 17 && |a[1]| == 17 && |a[2]| == 17
            && KeysFrom(a) == Keys(KamfOf(db, h), CountOf(db, h))
  {
    FetchRuns(random, db, h, both);
    PlainPull(random, db, h, KASME_1, Kasme1);
    PlainPull(random, db, h, KASME_2, Kasme2);
    CountPull(random, db, h);
    hide Unpack32, ApplyPull, ApplyPulls, Reply, CountUp, CountOf, FetchPulls, Get, Plain, AnswersTo, Effect;
    var a := AnswersTo(random, db, User(h), FetchRequest(both));
    assert a[0] == a[..3][0] && a[1] == a[..3][1] && a[2] == a[..3][2];
  }

  lemma FetchRuns(random: nat -> Bytes16, db: Db, h: U32, both: bool)
    requires h in db.users
    ensures var a := AnswersTo(random, db, User(h), FetchRequest(both));
            |a| >= 3 && a[..3] == [Reply(db, User(h), Plain(KASME_1)), Reply(db, User(h), Plain(KASME_2)),
                                   Reply(db, User(h), Plain(EPC_NAS_SEQUENCE_NUMBER))]
    ensures Effect(random, db, User(h), FetchRequest(both)) == ApplyPulls(random, CountUp(db, h), User(h),
        FetchPulls(both)[3..])
  {
    var g0, g1, g2 := Plain(KASME_1), Plain(KASME_2), Plain(EPC_NAS_SEQUENCE_NUMBER);
    var gs := FetchPulls(both);
    assert gs == [g0, g1, g2] + gs[3..];
    PlainPull(random, db, h, KASME_1, Kasme1);
    PlainPull(random, db, h, KASME_2, Kasme2);
    CountPull(random, db, h);
    NoPushes(db, User(h));
    hide Unpack32, ApplyPull, ApplyPulls, Replies, Reply, CountUp, CountOf, KamfOf, FetchPulls, Get, Plain;
    FirstThree(random, db, CountUp(db, h), User(h), g0, g1, g2, gs[3..]);
  }

  lemma {:induction false} NoPushes(db: Db, who: Subject)
    ensures ApplyPushes(db, who, []) == db
  {
  }

  /** Two pulls that change nothing, a third that does, and the rest. */
  lemma {:induction false} FirstThree(random: nat -> Bytes16, db: Db, next: Db, who: Subject, g0: Pull, g1: Pull,
      g2: Pull, tail: seq<Pull>)
    requires ApplyPull(random, db, who, g0) == db && ApplyPull(random, db, who, g1) == db
    requires ApplyPull(random, db, who, g2) == next
    ensures var gs := [g0, g1, g2] + tail;
            && ApplyPulls(random, db, who, gs) == ApplyPulls(random, next, who, tail)
            && Replies(random, db, who, gs)[..3] == [Reply(db, who, g0), Reply(db, who, g1), Reply(db, who, g2)]
  {
    hide ApplyPull, Reply;
    var gs := [g0, g1, g2] + tail;
    var a, b := [g1, g2] + tail, [g2] + tail;
    assert gs[0] == g0 && gs[1..] == a && a[0] == g1 && a[1..] == b && b[0] == g2 && b[1..] == tail;
    assert ApplyPulls(random, db, who, b) == ApplyPulls(random, next, who, tail);
    assert ApplyPulls(random, db, who, a) == ApplyPulls(random, db, who, b);
    assert ApplyPulls(random, db, who, gs) == ApplyPulls(random, db, who, a);
    assert Replies(random, db, who, b) == [Reply(db, who, g2)] + Replies(random, next, who, tail);
    assert Replies(random, db, who, a) == [Reply(db, who, g1)] + Replies(random, db, who, b);
    assert Replies(random, db, who, gs) == [Reply(db, who, g0)] + Replies(random, db, who, a);
  }

  function CountUp(db: Db, h: U32): Db
    requires h in db.users
  {
    db.(users := db.users[h := Increment(db.users[h], EpcNasCount)])
  }

  lemma PlainPull(random: nat -> Bytes16, db: Db, h: U32, item: Octet, f: Field)
    requires h in db.users && ((item == KASME_1 && f == Kasme1) || (item == KASME_2 && f == Kasme2))
    ensures var b := Reply(db, User(h), Plain(item)); |b| == 17 && b[1..] == Get(db.users[h], f)
    ensures ApplyPull(random, db, User(h), Plain(item)) == db
  {
    ReplyHoldsField(db, h, Plain(item));
  }

  lemma CountPull(random: nat -> Bytes16, db: Db, h: U32)
    requires h in db.users
    ensures var g := Plain(EPC_NAS_SEQUENCE_NUMBER); var b := Reply(db, User(h), g);
            && |b| == 17 && Unpack32(b[3..7]) == CountOf(db, h)
            && ApplyPull(random, db, User(h), g) == CountUp(db, h)
    ensures h in CountUp(db, h).users && KamfOf(CountUp(db, h), h) == KamfOf(db, h)
    ensures CountOf(CountUp(db, h), h) == (CountOf(db, h) as int + 1) % 256
  {
    var r := db.users[h];
    var b := Reply(db, User(h), Plain(EPC_NAS_SEQUENCE_NUMBER));
    assert b == [EPC_NAS_SEQUENCE_NUMBER] + Zeros(5) + Get(r, EpcNasCount) + Zeros(10);
    assert b[3..7] == [0, 0, 0, CountOf(db, h)];
    var v := [(CountOf(db, h) as int + 1) % 256];
    GetSet(r, EpcNasCount, Kasme1, v);
    GetSet(r, EpcNasCount, Kasme2, v);
    GetSet(r, EpcNasCount, EpcNasCount, v);
  }

  lemma {:induction false} TailPull(random: nat -> Bytes16, db: Db, h: U32, both: bool)
    requires h in db.users
    ensures var next := ApplyPulls(random, db, User(h), FetchPulls(both)[3..]);
            h in next.users && KamfOf(next, h) == KamfOf(db, h) && CountOf(next, h) == CountOf(db, h)
  {
    hide Get, Set;
    if both {
      var g := Plain(UE_NAS_SEQUENCE_NUMBER);
      assert FetchPulls(both)[3..] == [g] && [g][1..] == [];
      var r := db.users[h];
      var v := [(Get(r, UeNasCount)[0] as int + 1) % 256];
      GetSet(r, UeNasCount, Kasme1, v);
      GetSet(r, UeNasCount, Kasme2, v);
      GetSet(r, UeNasCount, EpcNasCount, v);
      assert ApplyPull(random, db, User(h), g) == db.(users := db.users[h := Set(r, UeNasCount, v)]);
    } else {
      assert FetchPulls(both)[3..] == [];
    }
  }

  /** Installing a KAMF resets the downlink count in the same request. */
  lemma InstallWrites(random: nat -> Bytes16, db: Db, h: U32, kamf: Kamf)
    requires h in db.users
    ensures var next := Effect(random, db, User(h), InstallRequest(kamf));
            h in next.users && KamfOf(next, h) == kamf && CountOf(next, h) == 0
  {
    var ps := InstallPushes(kamf);
    InstallValues(kamf);
    EffectKeepsKeys(random, db, User(h), InstallRequest(kamf));
    forall f | f in {Kasme1, Kasme2, EpcNasCount}
      ensures Get(Effect(random, db, User(h), InstallRequest(kamf)).users[h], f) ==
              LastValue(ps, f, Get(db.users[h], f)) {
      AllPushes(db, User(h), ps, h, f);
      var mid := ApplyPushes(db, User(h), ps);
      assert h in mid.users.Keys;
      assert ApplyPulls(random, mid, User(h), [Plain(SPGW_IP)]) == mid by { SpgwPull(random, mid, h); }
    }
    InstallLast(kamf, Kasme1, Get(db.users[h], Kasme1));
    InstallLast(kamf, Kasme2, Get(db.users[h], Kasme2));
    InstallLast(kamf, EpcNasCount, Get(db.users[h], EpcNasCount));
    assert kamf[..16] + kamf[16..] == kamf;
  }

  lemma {:induction false} SpgwPull(random: nat -> Bytes16, db: Db, h: U32)
    ensures ApplyPulls(random, db, User(h), [Plain(SPGW_IP)]) == db
  {
    assert [Plain(SPGW_IP)][1..] == [];
  }

  lemma InstallValues(kamf: Kamf)
    ensures var ps := InstallPushes(kamf);
            && Takes(ps[0], Kasme1) && PushValue(ps[0]) == kamf[..16]
            && Takes(ps[1], Kasme2) && PushValue(ps[1]) == kamf[16..]
            && Takes(ps[2], EpcNasCount) && PushValue(ps[2]) == [0]
            && Takes(ps[3], UeNasCount)
  {
    var blank: Bytes17 := seq(17, _ => 0);
    RecordHoldsValue(KASME_1, kamf[..16], blank);
    RecordHoldsValue(KASME_2, kamf[16..], blank);
    RecordHoldsCount(EPC_NAS_SEQUENCE_NUMBER, [0, 0, 0, 0, 0, 0], blank);
  }

  lemma {:induction false} InstallLast(kamf: Kamf, f: Field, v: seq<Octet>)
    requires f in {Kasme1, Kasme2, EpcNasCount}
    ensures LastValue(InstallPushes(kamf), f, v) == if f == Kasme1 then kamf[..16] else if f == Kasme2 then kamf[16..]
        else [0]
  {
    InstallValues(kamf);
    var ps := InstallPushes(kamf);
    hide InstallPushes, PushValue, PushField;
    assert ps[1..][1..] == ps[2..] && ps[2..][1..] == ps[3..] && ps[3..][1..] == [];
    var v1 := if f == Kasme1 then kamf[..16] else v;
    var v2 := if f == Kasme2 then kamf[16..] else v1;
    var v3 := if f == EpcNasCount then [0] else v2;
    assert LastValue(ps, f, v) == LastValue(ps[1..], f, v1);
    assert LastValue(ps[1..], f, v1) == LastValue(ps[2..], f, v2);
    assert LastValue(ps[2..], f, v2) == LastValue(ps[3..], f, v3);
    assert LastValue(ps[3..], f, v3) == LastValue([], f, v3) == v3;
  }

  // ----- runs of the workers -----

  /** A message of the subscriber: was its integrity checked on arrival, has it been answered, and which fetch, if any,
      gave it its keys (params->nas_security_params). */
  datatype Message = Message(checked: bool, answered: bool, keys: Option<nat>)

  /** A fetch: the keys, the message that fetched them, the number of the KAMF and the ordinal among its fetches. */
  datatype Fetch = Fetch(keys: Keys, owner: nat, era: nat, ordinal: nat)

  /** A protected downlink message: the fetch whose keys its MAC was computed with, and its sequence number byte. */
  datatype Mac = Mac(fetch: nat, sequence: Octet)

  /** The tables, the messages by number, and what has happened: the KAMFs in force one after the other, the fetches,
      the fetches since the last installation, and the protected downlink messages. */
  datatype System = System(db: Db, messages: map<nat, Message>, kamfs: seq<Kamf>, fetches: seq<Fetch>, recent: nat,
      macs: seq<Mac>)

  datatype Step =
    | Receive(id: nat, checked: bool)    // security_decode_gsm; a header that asks for a check makes it fetch keys
    | Install(kamf: Kamf)                // a handler stores a new KAMF
    | Other(access: Access)              // any other request, of any subscriber
    | Answer(id: nat, protect: bool)     // nas_5gs_security_encode of the one response

  predicate Ready(s: System, h: U32) {
    h in s.db.users && |s.kamfs| > 0
  }

  function Started(db: Db, h: U32): System
    requires h in db.users
  {
    System(db, map[], [KamfOf(db, h)], [], 0, [])
  }

  /** nas_security_fetch_keys on behalf of message id. */
  function FetchFor(random: nat -> Bytes16, s: System, h: U32, id: nat, both: bool): (t: System)
    requires Ready(s, h)
    ensures Ready(t, h)
  {
    FetchReads(random, s.db, h, both);
    var keys := KeysFrom(AnswersTo(random, s.db, User(h), FetchRequest(both)));
    s.(db := Effect(random, s.db, User(h), FetchRequest(both)), recent := s.recent + 1,
       fetches := s.fetches + [Fetch(keys, id, |s.kamfs| - 1, s.recent)])
  }

  /** The keys go into the message's parameters. */
  function Hold(s: System, id: nat, m: Message): System {
    s.(messages := s.messages[id := m])
  }

  /** The sequence number byte is taken from the parameters before missing keys are fetched, when it is still zero. */
  function Protect(s: System, fetch: nat, sequence: Octet): System {
    s.(macs := s.macs + [Mac(fetch, sequence)])
  }

  /** Can the message still be answered? */
  predicate Open(s: System, id: nat) {
    id in s.messages && !s.messages[id].answered
  }

  predicate HoldsKeys(s: System, id: nat) {
    id in s.messages && s.messages[id].keys.Some? && s.messages[id].keys.value < |s.fetches|
  }

  function AnswerWith(random: nat -> Bytes16, s: System, h: U32, id: nat): System
    requires Ready(s, h) && Open(s, id)
  {
    var m := s.messages[id];
    if HoldsKeys(s, id) then
      var k := m.keys.value;
      Protect(Hold(s, id, m.(answered := true)), k, s.fetches[k].keys.count % 256)
    else
      var t := FetchFor(random, s, h, id, false);
      Protect(Hold(t, id, m.(answered := true, keys := Some(|s.fetches|))), |s.fetches|, 0)
  }

  function InstallFor(random: nat -> Bytes16, s: System, h: U32, kamf: Kamf): (t: System)
    requires Ready(s, h)
    ensures Ready(t, h)
  {
    InstallWrites(random, s.db, h, kamf);
    s.(db := Effect(random, s.db, User(h), InstallRequest(kamf)), kamfs := s.kamfs + [kamf], recent := 0)
  }

  function OtherFor(random: nat -> Bytes16, s: System, h: U32, a: Access): (t: System)
    requires Ready(s, h)
    ensures Ready(t, h)
  {
    EffectKeepsKeys(random, s.db, a.who, a.request);
    assert h in Effect(random, s.db, a.who, a.request).users.Keys;
    s.(db := Effect(random, s.db, a.who, a.request))
  }

  function Next(random: nat -> Bytes16, s: System, h: U32, step: Step): (t: System)
    requires Ready(s, h)
    ensures Ready(t, h)
  {
    match step
    case Receive(id, checked) =>
      if id in s.messages then s
      else if !checked then Hold(s, id, Message(false, false, None))
      else
        FetchReads(random, s.db, h, true);
        Hold(FetchFor(random, s, h, id, true), id, Message(true, false, Some(|s.fetches|)))
    case Install(kamf) => InstallFor(random, s, h, kamf)
    case Other(access) => OtherFor(random, s, h, access)
    case Answer(id, protect) =>
      FetchReads(random, s.db, h, false);
      if !Open(s, id) then s
      else if protect then AnswerWith(random, s, h, id)
      else Hold(s, id, s.messages[id].(answered := true))
  }

  /** A request that leaves the keys and the downlink count of subscriber h alone, as all others of the workers do. */
  ghost predicate Harmless(access: Access, h: U32) {
    access.who == User(h) ==>
      && (forall p :: p in access.request.pushes ==>
         !Takes(p, Kasme1) && !Takes(p, Kasme2) && !Takes(p, EpcNasCount))
      && (forall g :: g in access.request.pulls ==> g.item != EPC_NAS_SEQUENCE_NUMBER)
  }

  /** The only restriction on runs; an installed KAMF may have been in force before. */
  ghost predicate Allowed(h: U32, step: Step) {
    step.Other? ==> Harmless(step.access, h)
  }

  /** The state after some steps. */
  function After(random: nat -> Bytes16, s: System, h: U32, steps: seq<Step>): (t: System)
    requires Ready(s, h)
    ensures Ready(t, h)
    decreases |steps|
  {
    if steps == [] then s else After(random, Next(random, s, h, steps[0]), h, steps[1..])
  }

  ghost predicate AllAllowed(h: U32, steps: seq<Step>) {
    forall k :: 0 <= k < |steps| ==> Allowed(h, steps[k])
  }

  // ----- what every step keeps -----

  /** Where the count of a KAMF starts: an installation resets it. */
  function Start(era: nat, first: Octet): Octet {
    if era == 0 then first else 0
  }

  ghost predicate Current(s: System, h: U32, first: Octet)
    requires Ready(s, h)
  {
    && KamfOf(s.db, h) == s.kamfs[|s.kamfs| - 1]
    && CountOf(s.db, h) == (Start(|s.kamfs| - 1, first) as int + s.recent) % 256
  }

  /** A fetch got the KAMF of its era, and the count that follows from its ordinal. */
  predicate Sound(s: System, first: Octet, f: Fetch) {
    && f.era < |s.kamfs|
    && f.keys.kamf == s.kamfs[f.era] && f.keys.count == (Start(f.era, first) as int + f.ordinal) % 256
    && (f.era == |s.kamfs| - 1 ==> f.ordinal < s.recent)
  }

  ghost predicate History(s: System, first: Octet) {
    && (forall i :: 0 <= i < |s.fetches| ==> Sound(s, first, s.fetches[i]))
    && (forall i, j :: 0 <= i < j < |s.fetches| ==>
       s.fetches[i].era != s.fetches[j].era || s.fetches[i].ordinal != s.fetches[j].ordinal)
  }

  /** Every message has its own fetch. */
  predicate Owned(s: System) {
    forall id :: id in s.messages ==>
      var m := s.messages[id];
      && (m.keys.Some? ==> m.keys.value < |s.fetches| && s.fetches[m.keys.value].owner == id)
      && (m.checked ==> m.keys.Some?)
      && (!m.answered && m.keys.Some? ==> m.checked)
  }

  /** A MAC belongs to an answered message. */
  predicate Issued(s: System, c: Mac) {
    && c.fetch < |s.fetches|
    && var f := s.fetches[c.fetch];
       && f.owner in s.messages && s.messages[f.owner].answered && s.messages[f.owner].keys == Some(c.fetch)
       && c.sequence == if s.messages[f.owner].checked then f.keys.count % 256 else 0
  }

  ghost predicate Answers(s: System) {
    && (forall i :: 0 <= i < |s.macs| ==> Issued(s, s.macs[i]))
    && (forall i, j :: 0 <= i < j < |s.macs| ==> s.macs[i].fetch != s.macs[j].fetch)
  }

  ghost predicate Invariant(s: System, h: U32, first: Octet) {
    Ready(s, h) && Current(s, h, first) && History(s, first) && Owned(s) && Answers(s)
  }

  lemma OnePullLeavesCount(random: nat -> Bytes16, db: Db, who: Subject, g: Pull, h: U32)
    requires h in db.users && (who == User(h) ==> g.item != EPC_NAS_SEQUENCE_NUMBER)
    ensures Get(ApplyPull(random, db, who, g).users[h], EpcNasCount) == Get(db.users[h], EpcNasCount)
  {
    if Known(db, who) {
      var r := db.users[who.h];
      hide PullCounter, Get, Set;
      if PullCounter(g.item).Some? {
        OtherCounter(g.item);
        var c := PullCounter(g.item).value.field;
        GetSet(r, c, EpcNasCount, [(Get(r, c)[0] as int + 1) % 256]);
      }
      GetSet(r, Rand, EpcNasCount, random(db.draws));
    }
  }

  lemma OtherCounter(item: Octet)
    requires PullCounter(item).Some?
    ensures Width(PullCounter(item).value.field) == 1
    ensures item != EPC_NAS_SEQUENCE_NUMBER ==> PullCounter(item).value.field != EpcNasCount
  {
  }

  lemma {:induction false} PullsLeaveCount(random: nat -> Bytes16, db: Db, who: Subject, gs: seq<Pull>, h: U32)
    requires h in db.users && (who == User(h) ==> forall g :: g in gs ==> g.item != EPC_NAS_SEQUENCE_NUMBER)
    ensures h in ApplyPulls(random, db, who, gs).users
    ensures Get(ApplyPulls(random, db, who, gs).users[h], EpcNasCount) == Get(db.users[h], EpcNasCount)
    decreases |gs|
  {
    hide Get, ApplyPull;
    if gs != [] {
      OnePullLeavesCount(random, db, who, gs[0], h);
      assert h in ApplyPull(random, db, who, gs[0]).users.Keys;
      PullsLeaveCount(random, ApplyPull(random, db, who, gs[0]), who, gs[1..], h);
    }
  }

  /** A harmless request changes neither the keys nor the count. */
  lemma HarmlessKeeps(random: nat -> Bytes16, db: Db, h: U32, a: Access)
    requires h in db.users && Harmless(a, h)
    ensures var next := Effect(random, db, a.who, a.request);
            h in next.users && KamfOf(next, h) == KamfOf(db, h) && CountOf(next, h) == CountOf(db, h)
  {
    var ps, gs := a.request.pushes, a.request.pulls;
    var mid := ApplyPushes(db, a.who, ps);
    assert h in mid.users.Keys;
    PullsLeaveCount(random, mid, a.who, gs, h);
    forall f | f in {Kasme1, Kasme2, EpcNasCount}
      ensures Get(mid.users[h], f) == Get(db.users[h], f) {
      AllPushes(db, a.who, ps, h, f);
      if a.who == User(h) { NoValue(ps, f, Get(db.users[h], f)); }
    }
    AllPulls(random, mid, a.who, gs, h, Kasme1);
    AllPulls(random, mid, a.who, gs, h, Kasme2);
  }

  predicate Grown(s: System, t: System, id: nat) {
    && |t.fetches| == |s.fetches| + 1 && t.fetches[..|s.fetches|] == s.fetches && t.fetches[|s.fetches|].owner == id
    && t.messages == s.messages && t.macs == s.macs
  }

  /** The next fetch of the current KAMF. */
  lemma FetchKeeps(random: nat -> Bytes16, s: System, h: U32, id: nat, both: bool, first: Octet)
    requires Ready(s, h) && Current(s, h, first) && History(s, first)
    ensures var t := FetchFor(random, s, h, id, both); Ready(t, h) && Current(t, h, first) && History(t, first)
    ensures Grown(s, FetchFor(random, s, h, id, both), id)
  {
    FetchKeepsCurrent(random, s, h, id, both, first);
    hide FetchFor, KamfOf, CountOf, Start;
    var f := Fetch(Keys(KamfOf(s.db, h), CountOf(s.db, h)), id, |s.kamfs| - 1, s.recent);
    OneMoreFetch(s, FetchFor(random, s, h, id, both), f, first);
  }

  lemma FetchKeepsCurrent(random: nat -> Bytes16, s: System, h: U32, id: nat, both: bool, first: Octet)
    requires Ready(s, h) && Current(s, h, first)
    ensures var t := FetchFor(random, s, h, id, both);
            && Current(t, h, first) && t.kamfs == s.kamfs && t.recent == s.recent + 1
            && t.fetches == s.fetches + [Fetch(Keys(KamfOf(s.db, h), CountOf(s.db, h)), id, |s.kamfs| - 1, s.recent)]
            && t.messages == s.messages && t.macs == s.macs
  {
    hide Effect, AnswersTo, KamfOf, CountOf, KeysFrom, FetchRequest;
    FetchReads(random, s.db, h, both);
  }

  lemma OneMoreFetch(s: System, t: System, f: Fetch, first: Octet)
    requires History(s, first) && t.fetches == s.fetches + [f] && t.kamfs == s.kamfs && t.recent == s.recent + 1
    requires f.ordinal == s.recent && f.era == |s.kamfs| - 1 && Sound(t, first, f)
    ensures History(t, first)
  {
    hide Start;
    assert forall i :: 0 <= i < |s.fetches| ==> t.fetches[i] == s.fetches[i];
    forall i | 0 <= i < |s.fetches| ensures Sound(t, first, t.fetches[i])
        && (t.fetches[i].era != f.era || t.fetches[i].ordinal != f.ordinal) {
      assert Sound(s, first, s.fetches[i]);
    }
  }

  lemma InstallKeeps(random: nat -> Bytes16, s: System, h: U32, kamf: Kamf, first: Octet)
    requires Invariant(s, h, first)
    ensures Invariant(InstallFor(random, s, h, kamf), h, first)
  {
    hide Effect, KamfOf, CountOf, InstallRequest, History, Owned, Answers;
    InstallWrites(random, s.db, h, kamf);
    var t := InstallFor(random, s, h, kamf);
    assert Current(t, h, first);
    NewEra(s, t, kamf, first);
    SameAnswers(s, t);
  }

  lemma NewEra(s: System, t: System, kamf: Kamf, first: Octet)
    requires History(s, first)
    requires t.kamfs == s.kamfs + [kamf] && t.recent == 0 && t.fetches == s.fetches
    ensures History(t, first)
  {
    hide Start;
    assert forall i :: 0 <= i < |s.kamfs| ==> t.kamfs[i] == s.kamfs[i];
    forall i | 0 <= i < |s.fetches| ensures Sound(t, first, t.fetches[i]) { assert Sound(s, first, s.fetches[i]); }
  }

  lemma SameAnswers(s: System, t: System)
    requires Owned(s) && Answers(s) && t.fetches == s.fetches && t.messages == s.messages && t.macs == s.macs
    ensures Owned(t) && Answers(t)
  {
    assert forall i :: 0 <= i < |s.macs| ==> Issued(s, s.macs[i]) ==> Issued(t, s.macs[i]);
  }

  lemma OtherKeeps(random: nat -> Bytes16, s: System, h: U32, access: Access, first: Octet)
    requires Invariant(s, h, first) && Harmless(access, h)
    ensures Invariant(OtherFor(random, s, h, access), h, first)
  {
    hide Effect, KamfOf, CountOf, Start, Owned, Answers;
    HarmlessKeeps(random, s.db, h, access);
    var t := OtherFor(random, s, h, access);
    assert forall i :: 0 <= i < |s.fetches| ==> Sound(s, first, s.fetches[i]) ==> Sound(t, first, s.fetches[i]);
    SameAnswers(s, t);
  }

  /** Giving a message its fetch. */
  lemma HoldKeeps(s: System, t: System, h: U32, id: nat, m: Message, first: Octet)
    requires Ready(t, h) && Current(t, h, first) && History(t, first) && Owned(s) && Answers(s)
    requires t.messages == s.messages && t.macs == s.macs && |s.fetches| <= |t.fetches|
        && t.fetches[..|s.fetches|] == s.fetches
    requires id in s.messages ==> !s.messages[id].answered
    requires m.keys.Some? ==> m.keys.value < |t.fetches| && t.fetches[m.keys.value].owner == id
    requires (m.checked ==> m.keys.Some?) && (!m.answered && m.keys.Some? ==> m.checked)
    ensures Invariant(Hold(t, id, m), h, first)
    ensures forall i :: 0 <= i < |s.macs| ==> s.macs[i].fetch < |s.fetches| && s.fetches[s.macs[i].fetch].owner != id
  {
    hide KamfOf, CountOf, Start;
    var u := Hold(t, id, m);
    assert forall i :: 0 <= i < |s.fetches| ==> t.fetches[i] == s.fetches[i];
    forall i | 0 <= i < |s.macs|
      ensures Issued(u, u.macs[i]) && s.macs[i].fetch < |s.fetches| && s.fetches[s.macs[i].fetch].owner != id {
      assert Issued(s, s.macs[i]);
    }
    assert forall i :: 0 <= i < |t.fetches| ==> Sound(t, first, t.fetches[i]) ==> Sound(u, first, t.fetches[i]);
  }

  /** One more MAC, with a fetch of a message that has none yet. */
  lemma ProtectKeeps(s: System, h: U32, k: nat, sequence: Octet, first: Octet)
    requires Invariant(s, h, first) && Issued(s, Mac(k, sequence))
    requires forall i :: 0 <= i < |s.macs| ==> s.macs[i].fetch != k
    ensures Invariant(Protect(s, k, sequence), h, first)
  {
    hide KamfOf, CountOf, Start;
    var t := Protect(s, k, sequence);
    assert forall i :: 0 <= i < |s.macs| ==> t.macs[i] == s.macs[i];
    assert forall c :: Issued(s, c) ==> Issued(t, c);
    assert forall i :: 0 <= i < |s.fetches| ==> Sound(s, first, s.fetches[i]) ==> Sound(t, first, s.fetches[i]);
  }

  lemma AnswerKeeps(random: nat -> Bytes16, s: System, h: U32, id: nat, first: Octet)
    requires Invariant(s, h, first) && Open(s, id)
    ensures Invariant(AnswerWith(random, s, h, id), h, first)
  {
    hide Current, History;
    var m := s.messages[id];
    if HoldsKeys(s, id) {
      var k := m.keys.value;
      var m' := m.(answered := true);
      HoldKeeps(s, s, h, id, m', first);
      ProtectKeeps(Hold(s, id, m'), h, k, s.fetches[k].keys.count % 256, first);
    } else {
      FetchKeeps(random, s, h, id, false, first);
      hide FetchFor;
      var t := FetchFor(random, s, h, id, false);
      var m' := m.(answered := true, keys := Some(|s.fetches|));
      HoldKeeps(s, t, h, id, m', first);
      ProtectKeeps(Hold(t, id, m'), h, |s.fetches|, 0, first);
    }
  }

  lemma ReceiveKeeps(random: nat -> Bytes16, s: System, h: U32, id: nat, checked: bool, first: Octet)
    requires Invariant(s, h, first)
    ensures Invariant(Next(random, s, h, Receive(id, checked)), h, first)
  {
    hide Current, History;
    if id !in s.messages {
      if checked {
        FetchKeeps(random, s, h, id, true, first);
        hide FetchFor;
        HoldKeeps(s, FetchFor(random, s, h, id, true), h, id, Message(true, false, Some(|s.fetches|)), first);
      } else {
        HoldKeeps(s, s, h, id, Message(false, false, None), first);
      }
    }
  }

  lemma StepKeeps(random: nat -> Bytes16, s: System, h: U32, step: Step, first: Octet)
    requires Invariant(s, h, first) && Allowed(h, step)
    ensures Invariant(Next(random, s, h, step), h, first)
  {
    match step
    case Receive(id, checked) => ReceiveKeeps(random, s, h, id, checked, first);
    case Install(kamf) => InstallKeeps(random, s, h, kamf, first);
    case Other(access) => OtherKeeps(random, s, h, access, first);
    case Answer(id, protect) =>
      if Open(s, id) {
        if protect {
          AnswerKeeps(random, s, h, id, first);
        } else {
          HoldKeeps(s, s, h, id, s.messages[id].(answered := true), first);
        }
      }
  }

  lemma {:induction false} RunKeeps(random: nat -> Bytes16, s: System, h: U32, steps: seq<Step>, first: Octet)
    requires Invariant(s, h, first) && AllAllowed(h, steps)
    ensures Invariant(After(random, s, h, steps), h, first)
    decreases |steps|
  {
    hide Current, History, Owned, Answers, Next, Allowed;
    if steps != [] {
      assert Allowed(h, steps[0]);
      StepKeeps(random, s, h, steps[0], first);
      RunKeeps(random, Next(random, s, h, steps[0]), h, steps[1..], first);
    }
  }

  lemma StartInvariant(db: Db, h: U32)
    requires h in db.users
    ensures Invariant(Started(db, h), h, CountOf(db, h))
  {
  }

  lemma {:induction false} EveryState(random: nat -> Bytes16, db: Db, h: U32, steps: seq<Step>)
    requires h in db.users && AllAllowed(h, steps)
    ensures Invariant(After(random, Started(db, h), h, steps), h, CountOf(db, h))
  {
    hide After, AllAllowed, CountOf, Invariant, Started;
    StartInvariant(db, h);
    RunKeeps(random, Started(db, h), h, steps, CountOf(db, h));
  }

  // ----- the theorems -----

  /** The count a fetch gives: where the counting of its KAMF started, plus its ordinal, modulo 256. */
  function CountAt(f: Fetch, first: Octet): Octet {
    (Start(f.era, first) as int + f.ordinal) % 256
  }

  /** Two fetches clash: the same KAMF was in force for both, installed once or several times, and the counting of
      both has arrived at the same number. */
  predicate Clash(s: System, first: Octet, f: Fetch, g: Fetch) {
    f.era < |s.kamfs| && g.era < |s.kamfs| && s.kamfs[f.era] == s.kamfs[g.era] && CountAt(f, first) == CountAt(g, first)
  }

  /** In every run, two fetches give the same KAMF and count exactly when they clash; and no two fetches have the same
      ordinal of the same installation. */
  lemma {:induction false} KeysRepeat(random: nat -> Bytes16, db: Db, h: U32, steps: seq<Step>, k: nat, l: nat)
    requires h in db.users && AllAllowed(h, steps)
    requires var s := After(random, Started(db, h), h, steps); k < |s.fetches| && l < |s.fetches|
    ensures var s := After(random, Started(db, h), h, steps); var f, g := s.fetches[k], s.fetches[l];
            && (f.keys == g.keys <==> Clash(s, CountOf(db, h), f, g))
            && (k != l ==> f.era != g.era || f.ordinal != g.ordinal)
  {
    hide After, AllAllowed, CountOf, KamfOf, Current, Owned, Start;
    var s := After(random, Started(db, h), h, steps);
    EveryState(random, db, h, steps);
    var f, g := s.fetches[k], s.fetches[l];
    assert Sound(s, CountOf(db, h), f) && Sound(s, CountOf(db, h), g);
  }

  /** Two protected downlink messages are authenticated with the same KAMF and count. */
  predicate Alike(s: System, c: Mac, d: Mac) {
    c.fetch < |s.fetches| && d.fetch < |s.fetches| && s.fetches[c.fetch].keys == s.fetches[d.fetch].keys
  }

  predicate MacsDiffer(s: System) {
    forall i, j :: 0 <= i < j < |s.macs| ==> !Alike(s, s.macs[i], s.macs[j])
  }

  /** Two of them were given their keys by clashing fetches. */
  predicate Clashing(s: System, first: Octet, c: Mac, d: Mac) {
    c.fetch < |s.fetches| && d.fetch < |s.fetches| && Clash(s, first, s.fetches[c.fetch], s.fetches[d.fetch])
  }

  predicate NoClash(s: System, first: Octet) {
    forall i, j :: 0 <= i < j < |s.macs| ==> !Clashing(s, first, s.macs[i], s.macs[j])
  }

  /** Every MAC has keys of a fetch of its own. */
  lemma {:induction false} MacsHaveFetches(random: nat -> Bytes16, db: Db, h: U32, steps: seq<Step>, i: nat, j: nat)
    requires h in db.users && AllAllowed(h, steps)
    requires i < j < |After(random, Started(db, h), h, steps).macs|
    ensures var s := After(random, Started(db, h), h, steps);
            s.macs[i].fetch < |s.fetches| && s.macs[j].fetch < |s.fetches| && s.macs[i].fetch != s.macs[j].fetch
  {
    hide After, AllAllowed, CountOf, KamfOf, Current, Owned, History;
    var s := After(random, Started(db, h), h, steps);
    EveryState(random, db, h, steps);
    assert Issued(s, s.macs[i]) && Issued(s, s.macs[j]);
  }

  /** In every run, the protected downlink messages differ in KAMF or count if and only if none of their fetches
      clash. */
  lemma {:induction false} CountsReused(random: nat -> Bytes16, db: Db, h: U32, steps: seq<Step>)
    requires h in db.users && AllAllowed(h, steps)
    ensures var s := After(random, Started(db, h), h, steps); MacsDiffer(s) <==> NoClash(s, CountOf(db, h))
  {
    hide After, AllAllowed, CountOf, Clash;
    var s := After(random, Started(db, h), h, steps);
    forall i, j | 0 <= i < j < |s.macs|
      ensures Alike(s, s.macs[i], s.macs[j]) <==> Clashing(s, CountOf(db, h), s.macs[i], s.macs[j]) {
      MacsHaveFetches(random, db, h, steps, i, j);
      KeysRepeat(random, db, h, steps, s.macs[i].fetch, s.macs[j].fetch);
    }
    hide Alike, Clashing;
  }

  predicate Distinct(kamfs: seq<Kamf>) {
    forall i, j :: 0 <= i < j < |kamfs| ==> kamfs[i] != kamfs[j]
  }

  /** No installation has been used by more than 256 fetches. */
  predicate Sparing(s: System) {
    forall f :: f in s.fetches ==> f.ordinal < 256
  }

  /** So it is enough that no KAMF is installed twice and none is used by more than 256 fetches. */
  lemma {:induction false} NoCountReused(random: nat -> Bytes16, db: Db, h: U32, steps: seq<Step>)
    requires h in db.users && AllAllowed(h, steps)
    requires var s := After(random, Started(db, h), h, steps); Distinct(s.kamfs) && Sparing(s)
    ensures MacsDiffer(After(random, Started(db, h), h, steps))
  {
    hide After, AllAllowed, CountOf, Start, CountAt, Clash;
    var s := After(random, Started(db, h), h, steps);
    forall i, j | 0 <= i < j < |s.macs| ensures !Clashing(s, CountOf(db, h), s.macs[i], s.macs[j]) {
      var k, l := s.macs[i].fetch, s.macs[j].fetch;
      MacsHaveFetches(random, db, h, steps, i, j);
      KeysRepeat(random, db, h, steps, k, l);
      assert s.fetches[k] in s.fetches && s.fetches[l] in s.fetches;
      NewKamfsDoNotClash(s, CountOf(db, h), s.fetches[k], s.fetches[l]);
    }
    CountsReused(random, db, h, steps);
  }

  lemma NewKamfsDoNotClash(s: System, first: Octet, f: Fetch, g: Fetch)
    requires Distinct(s.kamfs) && f.ordinal < 256 && g.ordinal < 256 && (f.era != g.era || f.ordinal != g.ordinal)
    ensures !Clash(s, first, f, g)
  {
    if f.era == g.era {
      SameRemainder(Start(f.era, first), f.ordinal, g.ordinal);
    } else if f.era < |s.kamfs| && g.era < |s.kamfs| {
      assert s.kamfs[f.era] != s.kamfs[g.era];
    }
  }

  lemma SameRemainder(a: int, x: int, y: int)
    ensures (a + x) % 256 == (a + y) % 256 <==> x % 256 == y % 256
  {
  }

  /** The sequence number byte of a protected message is the count of its MAC if and only if the message it answers was
      checked or that count is zero: the byte is set before the missing keys are fetched. */
  lemma {:induction false} SequenceNumbers(random: nat -> Bytes16, db: Db, h: U32, steps: seq<Step>, i: nat)
    requires h in db.users && AllAllowed(h, steps)
    requires var s := After(random, Started(db, h), h, steps); i < |s.macs|
    ensures var s := After(random, Started(db, h), h, steps); var c := s.macs[i];
            && c.fetch < |s.fetches|
            && var f := s.fetches[c.fetch];
               && f.owner in s.messages
               && (c.sequence == f.keys.count <==> s.messages[f.owner].checked || CountAt(f, CountOf(db, h)) == 0)
  {
    hide After, AllAllowed, CountOf, KamfOf, Current, Owned, Start;
    var s := After(random, Started(db, h), h, steps);
    EveryState(random, db, h, steps);
    assert Issued(s, s.macs[i]);
    assert Sound(s, CountOf(db, h), s.fetches[s.macs[i].fetch]);
  }

  /** Every message is answered once: whatever comes later, another answer to it is none. */
  lemma {:induction false} AnsweredOnce(random: nat -> Bytes16, s: System, h: U32, id: nat, protect: bool,
                                        later: seq<Step>, again: bool)
    requires Ready(s, h) && id in s.messages
    ensures var t := After(random, Next(random, s, h, Answer(id, protect)), h, later);
            && id in t.messages && t.messages[id].answered && Ready(t, h)
            && Next(random, t, h, Answer(id, again)) == t
  {
    hide Effect, AnswersTo, KeysFrom;
    var now := Next(random, s, h, Answer(id, protect));
    assert id in now.messages && now.messages[id].answered;
    StaysAnswered(random, now, h, id, later);
  }

  lemma {:induction false} StaysAnswered(random: nat -> Bytes16, s: System, h: U32, id: nat, steps: seq<Step>)
    requires Ready(s, h) && id in s.messages && s.messages[id].answered
    ensures var t := After(random, s, h, steps); id in t.messages && t.messages[id].answered
    decreases |steps|
  {
    hide Next;
    if steps != [] {
      StepAnswers(random, s, h, id, steps[0]);
      StaysAnswered(random, Next(random, s, h, steps[0]), h, id, steps[1..]);
    }
  }

  lemma StepAnswers(random: nat -> Bytes16, s: System, h: U32, id: nat, step: Step)
    requires Ready(s, h) && id in s.messages && s.messages[id].answered
    ensures var t := Next(random, s, h, step); id in t.messages && t.messages[id].answered
  {
    hide Effect, AnswersTo, KeysFrom;
  }

  // ----- registering again -----

  /** nas_5gs_generate_keys with the SQN that nas_handle_registration_request fixes: a function of OPc, key and RAND for
      one subscriber. */
  type Derivation = (seq<Octet>, seq<Octet>, seq<Octet>) -> Kamf

  function RegistrationKamf(derive: Derivation, r: Record): Kamf {
    derive(Get(r, Opc), Get(r, Key), Get(r, Rand))
  }

  /** No request asks for a new RAND, as none of the workers' does. */
  predicate KeepsRand(access: Access) {
    forall g :: g in access.request.pulls ==> g.item != RAND_UPDATE
  }

  lemma {:induction false} NoDraws(gs: seq<Pull>)
    requires forall g :: g in gs ==> g.item != RAND_UPDATE
    ensures Draws(gs) == 0
    decreases |gs|
  {
    if gs != [] { NoDraws(gs[1..]); }
  }

  /** Whatever requests come between, every registration of a subscriber derives the KAMF it derived before. */
  lemma {:induction false} RegistrationRepeatsKamf(random: nat -> Bytes16, db: Db, accesses: seq<Access>, h: U32,
      derive: Derivation)
    requires h in db.users && forall k :: 0 <= k < |accesses| ==> KeepsRand(accesses[k])
    ensures RegistrationKamf(derive, RunAll(random, db, accesses).users[h]) == RegistrationKamf(derive, db.users[h])
    decreases |accesses|
  {
    hide Get, ApplyPushes, ApplyPulls;
    if accesses != [] {
      var a := accesses[0];
      var mid := ApplyPushes(db, a.who, a.request.pushes);
      assert h in mid.users.Keys && KeepsRand(a);
      forall f | f in {Opc, Key, Rand} ensures Get(mid.users[h], f) == Get(db.users[h], f) {
        AllPushes(db, a.who, a.request.pushes, h, f);
        NoIdentityPushed(a.request.pushes, f);
        NoValue(a.request.pushes, f, Get(db.users[h], f));
      }
      AllPulls(random, mid, a.who, a.request.pulls, h, Opc);
      AllPulls(random, mid, a.who, a.request.pulls, h, Key);
      NoDraws(a.request.pulls);
      PullsDraw(random, mid, a.who, a.request.pulls, h);
      EffectKeepsKeys(random, db, a.who, a.request);
      var next := Effect(random, db, a.who, a.request);
      assert h in next.users.Keys;
      RegistrationRepeatsKamf(random, next, accesses[1..], h, derive);
    }
  }

  lemma NoIdentityPushed(ps: seq<Push>, f: Field)
    requires f in {Opc, Key, Rand}
    ensures forall p :: p in ps ==> !Takes(p, f)
  {
  }

  /** One authentication: the KAMF is installed, the unprotected reply to the challenge comes in, and the protected
      security mode command goes out. */
  function Authentication(id: nat, kamf: Kamf): seq<Step> {
    [Install(kamf), Receive(id, false), Answer(id, true)]
  }

  lemma {:induction false} OneAuthentication(random: nat -> Bytes16, s: System, h: U32, id: nat, kamf: Kamf)
    requires Ready(s, h) && id !in s.messages
    ensures var t := After(random, s, h, Authentication(id, kamf));
            && t.fetches == s.fetches + [Fetch(Keys(kamf, 0), id, |s.kamfs|, 0)]
            && t.macs == s.macs + [Mac(|s.fetches|, 0)] && t.messages.Keys == s.messages.Keys + {id}
            && |t.kamfs| == |s.kamfs| + 1
  {
    hide Effect, AnswersTo, KamfOf, CountOf, KeysFrom, FetchRequest, InstallRequest;
    var t1 := Next(random, s, h, Install(kamf));
    InstallWrites(random, s.db, h, kamf);
    var t2 := Next(random, t1, h, Receive(id, false));
    assert t2.db == t1.db && Open(t2, id) && !HoldsKeys(t2, id);
    FetchReads(random, t2.db, h, false);
    var t3 := Next(random, t2, h, Answer(id, true));
    hide Next;
    var steps := Authentication(id, kamf);
    assert steps[1..] == [Receive(id, false), Answer(id, true)];
    assert steps[1..][1..] == [Answer(id, true)] && steps[1..][1..][1..] == [];
    assert After(random, s, h, steps) == After(random, t1, h, steps[1..]);
    assert After(random, t1, h, steps[1..]) == After(random, t2, h, steps[1..][1..]);
    assert After(random, t2, h, steps[1..][1..]) == After(random, t3, h, []) == t3;
  }

  lemma EffectKeepsKamf(random: nat -> Bytes16, db: Db, a: Access, h: U32, derive: Derivation)
    requires h in db.users && KeepsRand(a)
    ensures h in Effect(random, db, a.who, a.request).users
    ensures RegistrationKamf(derive, Effect(random, db, a.who, a.request).users[h]) ==
            RegistrationKamf(derive, db.users[h])
  {
    EffectKeepsKeys(random, db, a.who, a.request);
    assert h in Effect(random, db, a.who, a.request).users.Keys;
    RegistrationRepeatsKamf(random, db, [a], h, derive);
    hide Effect, RegistrationKamf;
    assert [a][1..] == [];
  }

  predicate NoNewRand(step: Step) {
    step.Other? ==> KeepsRand(step.access)
  }

  lemma OwnRequestsKeepRand(h: U32, kamf: Kamf, both: bool)
    ensures KeepsRand(Access(User(h), FetchRequest(both))) && KeepsRand(Access(User(h), InstallRequest(kamf)))
  {
  }

  lemma NextKeepsKamf(random: nat -> Bytes16, s: System, h: U32, step: Step, derive: Derivation)
    requires Ready(s, h) && NoNewRand(step)
    ensures RegistrationKamf(derive, Next(random, s, h, step).db.users[h]) == RegistrationKamf(derive, s.db.users[h])
  {
    hide Effect, RegistrationKamf, KeepsRand, FetchRequest, InstallRequest, KeysFrom, AnswersTo;
    match step
    case Receive(id, checked) =>
      OwnRequestsKeepRand(h, KamfOf(s.db, h), true);
      EffectKeepsKamf(random, s.db, Access(User(h), FetchRequest(true)), h, derive);
    case Install(kamf) =>
      OwnRequestsKeepRand(h, kamf, true);
      EffectKeepsKamf(random, s.db, Access(User(h), InstallRequest(kamf)), h, derive);
    case Other(access) => EffectKeepsKamf(random, s.db, access, h, derive);
    case Answer(id, protect) =>
      OwnRequestsKeepRand(h, KamfOf(s.db, h), false);
      EffectKeepsKamf(random, s.db, Access(User(h), FetchRequest(false)), h, derive);
  }

  lemma {:induction false} AfterKeepsKamf(random: nat -> Bytes16, s: System, h: U32, steps: seq<Step>,
      derive: Derivation)
    requires Ready(s, h) && forall k :: 0 <= k < |steps| ==> NoNewRand(steps[k])
    ensures RegistrationKamf(derive, After(random, s, h, steps).db.users[h]) == RegistrationKamf(derive, s.db.users[h])
    decreases |steps|
  {
    hide Next, RegistrationKamf, NoNewRand;
    if steps != [] {
      assert NoNewRand(steps[0]);
      NextKeepsKamf(random, s, h, steps[0], derive);
      AfterKeepsKamf(random, Next(random, s, h, steps[0]), h, steps[1..], derive);
    }
  }

  lemma NextGrows(random: nat -> Bytes16, s: System, h: U32, step: Step)
    requires Ready(s, h)
    ensures var t := Next(random, s, h, step); s.fetches <= t.fetches && s.macs <= t.macs
  {
    hide Effect, KeysFrom, AnswersTo, InstallRequest, FetchRequest;
  }

  lemma {:induction false} AfterGrows(random: nat -> Bytes16, s: System, h: U32, steps: seq<Step>)
    requires Ready(s, h)
    ensures var t := After(random, s, h, steps); s.fetches <= t.fetches && s.macs <= t.macs
    decreases |steps|
  {
    hide Next;
    if steps != [] {
      NextGrows(random, s, h, steps[0]);
      AfterGrows(random, Next(random, s, h, steps[0]), h, steps[1..]);
    }
  }

  /** From any state, whatever steps lie between two registrations that are followed through to the security mode
      command, both commands are authenticated with the same KAMF and count. */
  lemma {:induction false} EveryRegistrationReuses(random: nat -> Bytes16, s: System, h: U32, derive: Derivation,
      id: nat, steps: seq<Step>, again: nat)
    requires Ready(s, h) && id !in s.messages && forall k :: 0 <= k < |steps| ==> NoNewRand(steps[k])
    requires again !in After(random, After(random, s, h, Authentication(id, RegistrationKamf(derive, s.db.users[h]))),
        h, steps).messages
    ensures var t := After(random, s, h, Authentication(id, RegistrationKamf(derive, s.db.users[h])));
            var u := After(random, t, h, steps);
            !MacsDiffer(After(random, u, h, Authentication(again, RegistrationKamf(derive, u.db.users[h]))))
  {
    hide After, RegistrationKamf, NoNewRand, Authentication;
    var kamf := RegistrationKamf(derive, s.db.users[h]);
    var t := After(random, s, h, Authentication(id, kamf));
    var u := After(random, t, h, steps);
    OneAuthentication(random, s, h, id, kamf);
    AuthenticationKeepsKamf(random, s, h, id, kamf, derive);
    AfterKeepsKamf(random, t, h, steps, derive);
    AfterGrows(random, t, h, steps);
    OneAuthentication(random, u, h, again, kamf);
    var v := After(random, u, h, Authentication(again, kamf));
    assert Alike(v, v.macs[|s.macs|], v.macs[|u.macs|]);
  }

  lemma {:induction false} AuthenticationKeepsKamf(random: nat -> Bytes16, s: System, h: U32, id: nat, kamf: Kamf,
      derive: Derivation)
    requires Ready(s, h)
    ensures RegistrationKamf(derive, After(random, s, h, Authentication(id, kamf)).db.users[h]) ==
        RegistrationKamf(derive, s.db.users[h])
  {
    hide After, RegistrationKamf;
    AfterKeepsKamf(random, s, h, Authentication(id, kamf), derive);
  }

  /** A run that shows it, with two fetches only. */
  lemma {:induction false} RegisteringAgainReuses(random: nat -> Bytes16, db: Db, h: U32, kamf: Kamf)
    requires h in db.users
    ensures
      var steps := Authentication(0, kamf) + Authentication(1, kamf);
      var s := After(random, Started(db, h), h, steps);
      && AllAllowed(h, steps) && Sparing(s) && |s.macs| == 2 && !MacsDiffer(s)
      && s.fetches == [Fetch(Keys(kamf, 0), 0, 1, 0), Fetch(Keys(kamf, 0), 1, 2, 0)]
  {
    TwoAuthentications(random, Started(db, h), h, kamf);
    hide After, KamfOf, Sparing, MacsDiffer;
    var s := After(random, Started(db, h), h, Authentication(0, kamf) + Authentication(1, kamf));
    TwoAlike(s, kamf);
  }

  lemma {:induction false} TwoAuthentications(random: nat -> Bytes16, s: System, h: U32, kamf: Kamf)
    requires Ready(s, h) && s.messages == map[] && |s.kamfs| == 1 && s.fetches == [] && s.macs == []
    ensures var t := After(random, s, h, Authentication(0, kamf) + Authentication(1, kamf));
            && t.fetches == [Fetch(Keys(kamf, 0), 0, 1, 0), Fetch(Keys(kamf, 0), 1, 2, 0)]
            && t.macs == [Mac(0, 0), Mac(1, 0)]
  {
    hide After, Authentication;
    var a, b := Authentication(0, kamf), Authentication(1, kamf);
    OneAuthentication(random, s, h, 0, kamf);
    var mid := After(random, s, h, a);
    assert 1 !in mid.messages.Keys;
    OneAuthentication(random, mid, h, 1, kamf);
    AfterBoth(random, s, h, a, b);
  }

  lemma TwoAlike(s: System, kamf: Kamf)
    requires s.fetches == [Fetch(Keys(kamf, 0), 0, 1, 0), Fetch(Keys(kamf, 0), 1, 2, 0)]
        && s.macs == [Mac(0, 0), Mac(1, 0)]
    ensures Sparing(s) && !MacsDiffer(s)
  {
    assert Alike(s, s.macs[0], s.macs[1]);
  }

  lemma {:induction false} AfterBoth(random: nat -> Bytes16, s: System, h: U32, a: seq<Step>, b: seq<Step>)
    requires Ready(s, h)
    ensures Ready(After(random, s, h, a), h)
    ensures After(random, s, h, a + b) == After(random, After(random, s, h, a), h, b)
    decreases |a|
  {
    hide Next;
    if a == [] {
      assert a + b == b;
    } else {
      assert (a + b)[0] == a[0] && (a + b)[1..] == a[1..] + b;
      AfterBoth(random, Next(random, s, h, a[0]), h, a[1..], b);
    }
  }
}
