/** Uplink NAS security of the 5G workers (nas_security.c): CoreKubeDB counts the messages whose integrity is checked,
    but the count that the check uses is read beside the byte that holds it. */
module NasUplink {
  import opened Bytes
  import opened DbFields
  import opened DbIntent
  import opened DbProtocol
  import opened DbTheorems
  import opened NasCounter
  import opened Records

  /** ul_count as nas_security_store_keys_in_params reads it: bytes 3 to 6 of the fourth reply. */
  function UplinkFrom(replies: seq<seq<Octet>>): U32
    requires |replies| == 4 && |replies[3]| == 17
  {
    Unpack32(replies[3][3..7])
  }

  /** The uplink count stored for subscriber h. */
  function UplinkOf(db: Db, h: U32): Octet
    requires h in db.users
  {
    Get(db.users[h], UeNasCount)[0]
  }

  // ----- what a fetch reads -----

  /** The fourth reply holds the stored count, in byte 1; the bytes that are read hold zero. */
  lemma UplinkRead(random: nat -> Bytes16, db: Db, h: U32)
    requires h in db.users
    ensures var a := AnswersTo(random, db, User(h), FetchRequest(true));
            && |a| == 4 && |a[3]| == 17 && a[3][..2] == [UE_NAS_SEQUENCE_NUMBER, UplinkOf(db, h)]
            && UplinkFrom(a) == 0
  {
    hide Get, ApplyPushes, ApplyPulls, Reply, Replies, TallyPulls, CountsUp;
    var r := FetchRequest(true);
    var gs, t := r.pulls, Tally(UplinkOf(db, h), 0);
    var g := Plain(UE_NAS_SEQUENCE_NUMBER);
    NoPushes(db, User(h));
    ReplyAt(random, db, User(h), gs, 3);
    FetchTallies(t);
    PullsTallied(random, db, User(h), gs[..3], h, UeNasCount, t);
    var now := ApplyPulls(random, db, User(h), gs[..3]);
    UplinkReply(now, h);
    assert gs[3] == g;
  }

  lemma UplinkReply(db: Db, h: U32)
    requires h in db.users
    ensures Reply(db, User(h), Plain(UE_NAS_SEQUENCE_NUMBER)) == [UE_NAS_SEQUENCE_NUMBER, UplinkOf(db, h)] + Zeros(15)
  {
    hide Get;
    assert Zeros(0) == [];
  }

  lemma {:induction false} FetchTallies(t: Tally)
    ensures var gs := FetchPulls(true);
            && gs[..3] == FetchPulls(false) && TallyPulls(FetchPulls(false), UeNasCount, t) == t
            && TallyPulls(gs, UeNasCount, t) == t.(since := t.since + 1)
  {
    hide CountsUp;
    FetchedItems();
    var a, b, c, g := Plain(KASME_1), Plain(KASME_2), Plain(EPC_NAS_SEQUENCE_NUMBER), Plain(UE_NAS_SEQUENCE_NUMBER);
    assert FetchPulls(false) == [a, b, c] && FetchPulls(true) == [a, b, c] + [g];
    assert [a, b, c] + [g] == [a, b, c, g];
    hide FetchPulls;
    assert [a, b, c, g][1..] == [b, c, g] && [b, c, g][1..] == [c, g] && [c, g][1..] == [g] && [g][1..] == [];
    assert [a, b, c][1..] == [b, c] && [b, c][1..] == [c] && [c][1..] == [];
    hide Plain;
    assert TallyPulls([g], UeNasCount, t) == TallyPulls([], UeNasCount, t.(since := t.since + 1));
    assert TallyPulls([c, g], UeNasCount, t) == t.(since := t.since + 1);
    assert TallyPulls([c], UeNasCount, t) == TallyPulls([], UeNasCount, t) == t;
  }

  lemma FetchedItems()
    ensures CountsUp(Plain(UE_NAS_SEQUENCE_NUMBER), UeNasCount)
    ensures !CountsUp(Plain(KASME_1), UeNasCount) && !CountsUp(Plain(KASME_2), UeNasCount)
    ensures !CountsUp(Plain(EPC_NAS_SEQUENCE_NUMBER), UeNasCount)
  {
  }

  // ----- what is stored -----

  /** A request that leaves the uplink count of subscriber h alone, as all others of the workers do. */
  ghost predicate LeavesUplink(access: Access, h: U32) {
    access.who == User(h) ==>
      && (forall p :: p in access.request.pushes ==> !Takes(p, UeNasCount))
      && (forall g :: g in access.request.pulls ==> !CountsUp(g, UeNasCount))
  }

  ghost predicate AllLeaveUplink(h: U32, steps: seq<Step>) {
    forall k :: 0 <= k < |steps| && steps[k].Other? ==> LeavesUplink(steps[k].access, h)
  }

  lemma {:induction false} RequestTallies(random: nat -> Bytes16, db: Db, a: Access, h: U32, t: Tally)
    requires h in db.users && Get(db.users[h], UeNasCount) == [Shown(t)]
    ensures h in Effect(random, db, a.who, a.request).users
    ensures
      var u := TallyPulls(a.request.pulls, UeNasCount, TallyPushes(a.request.pushes, UeNasCount, t));
      Get(Effect(random, db, a.who, a.request).users[h], UeNasCount) == [Shown(if a.who == User(h) then u else t)]
  {
    hide Get, ApplyPushes, ApplyPulls, TallyPulls, TallyPushes, Shown;
    var r := a.request;
    PushesTallied(db, a.who, r.pushes, h, UeNasCount, t);
    var t1 := if a.who == User(h) then TallyPushes(r.pushes, UeNasCount, t) else t;
    PullsTallied(random, ApplyPushes(db, a.who, r.pushes), a.who, r.pulls, h, UeNasCount, t1);
  }

  lemma {:induction false} NothingTallied(ps: seq<Push>, gs: seq<Pull>, t: Tally)
    requires forall p :: p in ps ==> !Takes(p, UeNasCount)
    requires forall g :: g in gs ==> !CountsUp(g, UeNasCount)
    ensures TallyPulls(gs, UeNasCount, TallyPushes(ps, UeNasCount, t)) == t
    decreases |ps| + |gs|
  {
    hide Takes, CountsUp;
    if ps != [] {
      NothingTallied(ps[1..], gs, t);
    } else if gs != [] {
      NothingTallied(ps, gs[1..], t);
    }
  }

  lemma {:induction false} InstallTallies(kamf: Kamf, t: Tally)
    ensures TallyPulls([Plain(SPGW_IP)], UeNasCount, TallyPushes(InstallPushes(kamf), UeNasCount, t)) == Tally(0, 0)
  {
    hide PushValue, Takes, CountsUp, InstallPushes;
    InstallValues(kamf);
    var ps := InstallPushes(kamf);
    LastPush(kamf);
    assert ps[1..][1..] == ps[2..] && ps[2..][1..] == ps[3..] && ps[3..][1..] == [];
    TakesOnce(ps[0], Kasme1);
    TakesOnce(ps[1], Kasme2);
    TakesOnce(ps[2], EpcNasCount);
    assert TallyPushes(ps, UeNasCount, t) == TallyPushes(ps[2..], UeNasCount, t);
    assert TallyPushes(ps[2..], UeNasCount, t) == TallyPushes(ps[3..], UeNasCount, t);
    assert TallyPushes(ps[3..], UeNasCount, t) == Tally(0, 0);
    var g := Plain(SPGW_IP);
    SpgwCountsNothing();
    assert [g][1..] == [];
  }

  lemma {:induction false} FetchCounts(random: nat -> Bytes16, db: Db, h: U32, both: bool, t: Tally)
    requires h in db.users && Get(db.users[h], UeNasCount) == [Shown(t)]
    ensures h in Effect(random, db, User(h), FetchRequest(both)).users
    ensures Get(Effect(random, db, User(h), FetchRequest(both)).users[h], UeNasCount) ==
            [Shown(if both then t.(since := t.since + 1) else t)]
  {
    hide Get, Effect, TallyPulls, FetchPulls, Shown;
    FetchTallies(t);
    RequestTallies(random, db, Access(User(h), FetchRequest(both)), h, t);
    assert TallyPushes([], UeNasCount, t) == t;
  }

  lemma LastPush(kamf: Kamf)
    ensures PushValue(InstallPushes(kamf)[3]) == [0]
  {
    RecordHoldsCount(UE_NAS_SEQUENCE_NUMBER, [0, 0, 0, 0, 0, 0], seq(17, _ => 0));
  }

  lemma TakesOnce(p: Push, f: Field)
    requires Takes(p, f) && f != UeNasCount
    ensures !Takes(p, UeNasCount)
  {
  }

  lemma SpgwCountsNothing()
    ensures !CountsUp(Plain(SPGW_IP), UeNasCount)
  {
  }

  // ----- runs -----

  predicate IsNew(steps: seq<Step>, id: nat) {
    forall k :: 0 <= k < |steps| ==> !(steps[k].Receive? && steps[k].id == id)
  }

  /** The messages with a check that have been received since the last installation, or since the start. */
  function Uplinks(steps: seq<Step>, first: Octet): Tally {
    if steps == [] then Tally(first, 0)
    else
      var front := steps[..|steps| - 1];
      var t := Uplinks(front, first);
      match steps[|steps| - 1]
      case Receive(id, checked) => if checked && IsNew(front, id) then t.(since := t.since + 1) else t
      case Install(_) => Tally(0, 0)
      case _ => t
  }

  lemma NextReceives(random: nat -> Bytes16, s: System, h: U32, step: Step, id: nat)
    requires Ready(s, h)
    ensures id in Next(random, s, h, step).messages <==> id in s.messages || (step.Receive? && step.id == id)
  {
    hide Effect, AnswersTo, KeysFrom;
  }

  lemma {:induction false} OneMore(random: nat -> Bytes16, s: System, h: U32, front: seq<Step>, last: Step)
    requires Ready(s, h)
    ensures Ready(After(random, s, h, front), h)
    ensures After(random, s, h, front + [last]) == Next(random, After(random, s, h, front), h, last)
  {
    hide Next;
    AfterBoth(random, s, h, front, [last]);
    assert [last][1..] == [];
  }

  lemma {:induction false} KnownMessages(random: nat -> Bytes16, db: Db, h: U32, steps: seq<Step>, id: nat)
    requires h in db.users
    ensures id in After(random, Started(db, h), h, steps).messages <==> !IsNew(steps, id)
    decreases |steps|
  {
    hide Next;
    if steps != [] {
      var front, last := steps[..|steps| - 1], steps[|steps| - 1];
      assert steps == front + [last];
      KnownMessages(random, db, h, front, id);
      OneMore(random, Started(db, h), h, front, last);
      NextReceives(random, After(random, Started(db, h), h, front), h, last, id);
      assert IsNew(steps, id) <==> IsNew(front, id) && !(last.Receive? && last.id == id);
    }
  }

  /** One step counts a new message that is checked, starts over with an installation, and else changes nothing. */
  lemma StepCounts(random: nat -> Bytes16, s: System, h: U32, step: Step, t: Tally)
    requires Ready(s, h) && Get(s.db.users[h], UeNasCount) == [Shown(t)]
    requires step.Other? ==> LeavesUplink(step.access, h)
    ensures
      var u := if step.Install? then Tally(0, 0)
               else if step.Receive? && step.checked && step.id !in s.messages then t.(since := t.since + 1)
               else t;
      Get(Next(random, s, h, step).db.users[h], UeNasCount) == [Shown(u)]
  {
    hide Get, Shown, Effect, AnswersTo, KeysFrom, TallyPulls, TallyPushes, FetchRequest, InstallPushes;
    FetchCounts(random, s.db, h, true, t);
    FetchCounts(random, s.db, h, false, t);
    match step
    case Install(kamf) =>
      InstallTallies(kamf, t);
      RequestTallies(random, s.db, Access(User(h), InstallRequest(kamf)), h, t);
    case Other(a) =>
      RequestTallies(random, s.db, a, h, t);
      if a.who == User(h) { NothingTallied(a.request.pushes, a.request.pulls, t); }
    case _ =>
  }

  /** In every run the stored uplink count is the number of checked messages received since the last installation,
      modulo 256. */
  lemma {:induction false} UplinkCounted(random: nat -> Bytes16, db: Db, h: U32, steps: seq<Step>)
    requires h in db.users && AllLeaveUplink(h, steps)
    ensures var s := After(random, Started(db, h), h, steps);
            Get(s.db.users[h], UeNasCount) == [Shown(Uplinks(steps, UplinkOf(db, h)))]
    decreases |steps|
  {
    hide Get, Next, IsNew, LeavesUplink;
    var first := UplinkOf(db, h);
    if steps == [] {
      OneByteStored(db, h);
    } else {
      var front, last := steps[..|steps| - 1], steps[|steps| - 1];
      assert steps == front + [last];
      assert last == steps[|steps| - 1];
      UplinkCounted(random, db, h, front);
      OneMore(random, Started(db, h), h, front, last);
      if last.Receive? { KnownMessages(random, db, h, front, last.id); }
      StepCounts(random, After(random, Started(db, h), h, front), h, last, Uplinks(front, first));
    }
  }

  lemma OneByteStored(db: Db, h: U32)
    requires h in db.users
    ensures Get(db.users[h], UeNasCount) == [Shown(Tally(UplinkOf(db, h), 0))]
  {
    hide Get;
  }

  /** Whenever a message is checked, the stored count tells the number of checked messages before it, but the count the
      check uses is zero: the two agree if and only if that number is zero modulo 256. */
  lemma {:induction false} CheckedWithZero(random: nat -> Bytes16, db: Db, h: U32, steps: seq<Step>)
    requires h in db.users && AllLeaveUplink(h, steps)
    ensures var s := After(random, Started(db, h), h, steps);
            var a := AnswersTo(random, s.db, User(h), FetchRequest(true));
            var count := Shown(Uplinks(steps, UplinkOf(db, h)));
            && |a| == 4 && |a[3]| == 17 && a[3][1] == count && UplinkFrom(a) == 0
            && (UplinkFrom(a) == a[3][1] <==> count == 0)
  {
    hide After, Get, Uplinks, AnswersTo, FetchRequest, AllLeaveUplink;
    UplinkCounted(random, db, h, steps);
    var s := After(random, Started(db, h), h, steps);
    UplinkRead(random, s.db, h);
    var a := AnswersTo(random, s.db, User(h), FetchRequest(true));
    assert a[3][1] == a[3][..2][1];
  }
}
