/** What callers of libck mean by the values they push, and exactly when a later pull gives these values back. A push
    item stands for the field that a pull of the same item reads. */
module DbIntent {
  import opened Bytes
  import opened DbFields
  import opened DbProtocol
  import opened DbTheorems
  import opened LibCk
  import opened Records

  // ----- what an item stands for -----

  /** The field that a pull of the item reads. */
  function ReadField(item: Octet): Option<Field> {
    if PullCounter(item).Some? then Some(PullCounter(item).value.field) else PullField(item)
  }

  /** The field for which push_item takes a value. */
  function Named(item: Octet): Option<Field> {
    if PushWidth(item).None? then None else ReadField(item)
  }

  /** The fields whose pushed value the server looks for at another byte. */
  predicate NasCount(f: Field) {
    f == EpcNasCount || f == UeNasCount
  }

  /** libck copies exactly the width of the field. */
  lemma NamedWidth(item: Octet)
    requires PushWidth(item).Some?
    ensures Named(item).Some? && Width(Named(item).value) == PushWidth(item).value && Named(item).value != Rand
    ensures (Named(item) == Some(PdnIpv4) <==> item == PDN_IP) && (item == PDN_IP ==> PushWidth(item) == Some(4))
    ensures NasCount(Named(item).value) <==> item == EPC_NAS_SEQUENCE_NUMBER || item == UE_NAS_SEQUENCE_NUMBER
  {
  }

  /** The value that push_item put into a record for field f: it starts at byte 1. */
  function GivenBy(p: Push, f: Field): (v: seq<Octet>)
    ensures |v| == Width(f)
  {
    p.payload[..Width(f)]
  }

  lemma GivenByItem(item: Octet, value: seq<Octet>, slot: Bytes17)
    requires PushWidth(item).Some?
    ensures var p := PushOf(Item(item, value), slot);
            p.item == item && GivenBy(p, Named(item).value) == Front(value, PushWidth(item).value)
  {
    NamedWidth(item);
    hide Front, Named, Width;
  }

  /** What the server makes of a record: it drops every PDN_IP, reads the NAS counts at byte 6 and all other values at
      byte 1. */
  lemma OneRecord(p: Push, f: Field)
    ensures f == PdnIpv4 ==> !Takes(p, f)
    ensures f != PdnIpv4 ==> (Takes(p, f) <==> Named(p.item) == Some(f))
    ensures Takes(p, f) && !NasCount(f) ==> PushValue(p) == GivenBy(p, f)
    ensures Takes(p, f) && NasCount(f) ==> PushValue(p) == [p.payload[5]]
  {
  }

  // ----- one pushed value -----

  /** The value pushed is the value stored. */
  predicate Arrives(item: Octet, value: seq<Octet>, slot: Bytes17, was: seq<Octet>)
    requires PushWidth(item).Some? && |value| >= PushWidth(item).value
  {
    NamedWidth(item);
    LastValue([PushOf(Item(item, value), slot)], Named(item).value, was) == value[..PushWidth(item).value]
  }

  /** For every item that libck can push: the server then stores the value, unless it is a PDN IP, which is dropped, or
      a NAS count, for which it takes what the buffer held at byte 6 of the record. */
  lemma {:induction false} PushedValueArrives(item: Octet, value: seq<Octet>, slot: Bytes17, was: seq<Octet>)
    requires PushWidth(item).Some? && |value| >= PushWidth(item).value
    ensures Arrives(item, value, slot, was) <==>
            && (item == PDN_IP ==> value[..4] == was)
            && (item == EPC_NAS_SEQUENCE_NUMBER || item == UE_NAS_SEQUENCE_NUMBER ==> value[0] == slot[6])
  {
    var p, f := PushOf(Item(item, value), slot), Named(item).value;
    NamedWidth(item);
    OneRecord(p, f);
    GivenByItem(item, value, slot);
    if NasCount(f) { ByteSix(item, value, slot); }
    assert [p][1..] == [];
    hide PushOf, PushValue, Takes, GivenBy, Named, NasCount, Front, Width;
    assert LastValue([p], f, was) == if Takes(p, f) then PushValue(p) else was;
  }

  /** The value that the server reads out of the record of an item. */
  lemma RecordHoldsValue(item: Octet, value: seq<Octet>, slot: Bytes17)
    requires PushField(item).Some? && PushStart(item) == 0 && |value| >= Width(PushField(item).value)
    ensures PushValue(PushOf(Item(item, value), slot)) == value[..Width(PushField(item).value)]
  {
    hide Front;
  }

  lemma RecordHoldsCount(item: Octet, value: seq<Octet>, slot: Bytes17)
    requires item == EPC_NAS_SEQUENCE_NUMBER || item == UE_NAS_SEQUENCE_NUMBER
    ensures PushValue(PushOf(Item(item, value), slot)) == [slot[6]]
  {
    ByteSix(item, value, slot);
  }

  lemma ByteSix(item: Octet, value: seq<Octet>, slot: Bytes17)
    requires PushWidth(item) == Some(1)
    ensures PushOf(Item(item, value), slot).payload[5] == slot[6]
  {
    hide Front;
    assert PushOf(Item(item, value), slot).payload == Front(value, 1) + slot[2..];
  }

  /** So exactly the other items can be relied on, whatever is stored and whatever the buffer held. */
  lemma {:induction false} ArrivesAlways(item: Octet)
    requires PushWidth(item).Some?
    ensures item !in {PDN_IP, EPC_NAS_SEQUENCE_NUMBER, UE_NAS_SEQUENCE_NUMBER} <==>
            forall value: seq<Octet>, slot: Bytes17, was: seq<Octet> ::
              |value| >= PushWidth(item).value && |was| == PushWidth(item).value ==> Arrives(item, value, slot, was)
  {
    hide Arrives;
    forall value: seq<Octet>, slot: Bytes17, was: seq<Octet> | |value| >= PushWidth(item).value
      ensures item !in {PDN_IP, EPC_NAS_SEQUENCE_NUMBER, UE_NAS_SEQUENCE_NUMBER} ==> Arrives(item, value, slot, was) {
      PushedValueArrives(item, value, slot, was);
    }
    if item == PDN_IP {
      var value, was := [1, 1, 1, 1], [0, 0, 0, 0];
      PushedValueArrives(item, value, Zeros(17), was);
      assert value[..4][0] != was[0] && !Arrives(item, value, Zeros(17), was);
    } else if item == EPC_NAS_SEQUENCE_NUMBER || item == UE_NAS_SEQUENCE_NUMBER {
      PushedValueArrives(item, [1], Zeros(17), [0]);
      assert !Arrives(item, [1], Zeros(17), [0]);
    }
  }

  /** A count of one pushed over a zeroed buffer is stored as zero. */
  lemma {:induction false} CounterGetsLost(was: seq<Octet>)
    ensures LastValue([PushOf(Item(EPC_NAS_SEQUENCE_NUMBER, [1]), Zeros(17))], EpcNasCount, was) == [0]
  {
    var p := PushOf(Item(EPC_NAS_SEQUENCE_NUMBER, [1]), Zeros(17));
    OneRecord(p, EpcNasCount);
    ByteSix(EPC_NAS_SEQUENCE_NUMBER, [1], Zeros(17));
    assert [p][1..] == [] && Takes(p, EpcNasCount);
    hide PushOf;
  }

  /** A PDN IP that differs from the stored one: the pull in the same request still gives the stored one. */
  lemma {:induction false} PdnIpIsDropped(random: nat -> Bytes16, db: Db, h: U32, value: seq<Octet>, slot: Bytes17,
                                          id: Bytes17)
    requires h in db.users && |value| >= 4 && value[..4] != Get(db.users[h], PdnIpv4)
    ensures var r := Request(id, [PushOf(Item(PDN_IP, value), slot)], [Pull(PDN_IP, [0, 0, 0, 0])]);
            var b := AnswersTo(random, db, User(h), r)[0];
            |b| >= 5 && b[0] == PDN_IP && b[1..5] == Get(db.users[h], PdnIpv4) != value[..4]
  {
    var p := PushOf(Item(PDN_IP, value), slot);
    AnswerHolds(random, db, h, Request(id, [p], [Pull(PDN_IP, [0, 0, 0, 0])]), 0);
    OneRecord(p, PdnIpv4);
    assert [p][1..] == [];
    hide PushOf, AnswersTo, Get;
  }

  // ----- runs -----

  /** The value last given for field f, if one was, by the records of a request and by the requests of a run. */
  function LastGiven(ps: seq<Push>, f: Field, g: Option<seq<Octet>>): Option<seq<Octet>>
    decreases |ps|
  {
    if ps == [] then g else LastGiven(ps[1..], f, if Named(ps[0].item) == Some(f) then Some(GivenBy(ps[0], f)) else g)
  }

  function LastGivenAll(accesses: seq<Access>, h: U32, f: Field, g: Option<seq<Octet>>): Option<seq<Octet>>
    decreases |accesses|
  {
    if accesses == [] then g
    else
      var a := accesses[0];
      LastGivenAll(accesses[1..], h, f, if a.who == User(h) then LastGiven(a.request.pushes, f, g) else g)
  }

  function Or(g: Option<seq<Octet>>, v: seq<Octet>): seq<Octet> {
    if g.Some? then g.value else v
  }

  lemma {:induction false} TakenIsGiven(ps: seq<Push>, f: Field, g: Option<seq<Octet>>, v: seq<Octet>)
    requires !NasCount(f)
    ensures LastValue(ps, f, if f == PdnIpv4 then v else Or(g, v)) ==
            if f == PdnIpv4 then v else Or(LastGiven(ps, f, g), v)
    decreases |ps|
  {
    hide Takes, Named, GivenBy, PushValue, PushField, NasCount;
    if ps != [] {
      OneRecord(ps[0], f);
      TakenIsGiven(ps[1..], f, if Named(ps[0].item) == Some(f) then Some(GivenBy(ps[0], f)) else g, v);
    }
  }

  lemma {:induction false} AllTakenIsGiven(accesses: seq<Access>, h: U32, f: Field, g: Option<seq<Octet>>,
                                           v: seq<Octet>)
    requires !NasCount(f)
    ensures LastTaken(accesses, h, f, if f == PdnIpv4 then v else Or(g, v)) ==
            if f == PdnIpv4 then v else Or(LastGivenAll(accesses, h, f, g), v)
    decreases |accesses|
  {
    hide LastValue, LastGiven, NasCount;
    if accesses != [] {
      var a := accesses[0];
      if a.who == User(h) { TakenIsGiven(a.request.pushes, f, g, v); }
      AllTakenIsGiven(accesses[1..], h, f, if a.who == User(h) then LastGiven(a.request.pushes, f, g) else g, v);
    }
  }

  /** After any number of requests of any subscribers a field that pulls do not change holds the value last given for
      it, or its original one, if and only if it is not the PDN IP, or no PDN IP was given, or the last one given is the
      one stored all along: the PDN IP never changes. */
  lemma {:induction false} FieldsHoldGiven(random: nat -> Bytes16, db: Db, accesses: seq<Access>, h: U32, f: Field)
    requires h in db.users && !Volatile(f)
    ensures var v, g := Get(db.users[h], f), LastGivenAll(accesses, h, f, None);
            var now := Get(RunAll(random, db, accesses).users[h], f);
            && (now == Or(g, v) <==> f != PdnIpv4 || g.None? || g.value == v)
            && (f == PdnIpv4 ==> now == v)
  {
    FieldsHoldLastTaken(random, db, accesses, h, f);
    AllTakenIsGiven(accesses, h, f, None, Get(db.users[h], f));
    hide Get, LastTaken, LastGivenAll, RunAll;
  }

  /** The same of every answer: after any requests, a pull in any request gives back the value last given for its field,
      be it in that very request, under exactly that condition. */
  lemma {:induction false} AnswersHoldGiven(random: nat -> Bytes16, db: Db, accesses: seq<Access>, h: U32, r: Request,
                                            k: nat)
    requires h in db.users && k < |r.pulls| && PullField(r.pulls[k].item).Some?
        && !Volatile(PullField(r.pulls[k].item).value)
    ensures
      var item := r.pulls[k].item;
      var f := PullField(item).value;
      var v, g := Get(db.users[h], f), LastGivenAll(accesses + [Access(User(h), r)], h, f, None);
      var b := AnswersTo(random, RunAll(random, db, accesses), User(h), r)[k];
      && |b| >= 1 + Width(f) && b[0] == item
      && (b[1..1 + Width(f)] == Or(g, v) <==> item != PDN_IP || g.None? || g.value == v)
  {
    var f := PullField(r.pulls[k].item).value;
    AnswersHoldLastTaken(random, db, accesses, h, r, k);
    PulledPdnIp(r.pulls[k].item);
    AllTakenIsGiven(accesses + [Access(User(h), r)], h, f, None, Get(db.users[h], f));
    hide Get, LastTaken, LastGivenAll, RunAll, AnswersTo, PullField;
  }

  lemma PulledPdnIp(item: Octet)
    ensures PullField(item) == Some(PdnIpv4) <==> item == PDN_IP
    ensures PullField(item).Some? && !Volatile(PullField(item).value) ==> !NasCount(PullField(item).value)
  {
  }

  // ----- the arguments of one request -----

  /** The value that the arguments of a request give last for field f. */
  function LastArg(args: seq<PushArg>, f: Field): (g: Option<seq<Octet>>)
    ensures g.Some? ==> |g.value| == Width(f)
  {
    if args == [] then None
    else
      var a := args[|args| - 1];
      if a.Item? && Named(a.item) == Some(f) then Some(Front(a.value, Width(f))) else LastArg(args[..|args| - 1], f)
  }

  lemma {:induction false} OneMoreGiven(ps: seq<Push>, p: Push, f: Field, g: Option<seq<Octet>>)
    ensures LastGiven(ps + [p], f, g) ==
            if Named(p.item) == Some(f) then Some(GivenBy(p, f)) else LastGiven(ps, f, g)
    decreases |ps|
  {
    hide Named, GivenBy;
    if ps == [] {
      assert ps + [p] == [p] && [p][1..] == [];
    } else {
      assert (ps + [p])[0] == ps[0] && (ps + [p])[1..] == ps[1..] + [p];
      OneMoreGiven(ps[1..], p, f, if Named(ps[0].item) == Some(f) then Some(GivenBy(ps[0], f)) else g);
    }
  }

  lemma {:induction false} OneMoreTally(ps: seq<Push>, p: Push, f: Field, t: Tally)
    ensures Takes(p, f) ==> PushField(p.item).Some? && |PushValue(p)| > 0
    ensures TallyPushes(ps + [p], f, t) == if Takes(p, f) then Tally(PushValue(p)[0], 0) else TallyPushes(ps, f, t)
    decreases |ps|
  {
    assert Takes(p, f) ==> PushField(p.item).Some?;
    hide Takes, PushValue, PushField, Width;
    if ps == [] {
      assert ps + [p] == [p] && [p][1..] == [];
    } else {
      assert (ps + [p])[0] == ps[0] && (ps + [p])[1..] == ps[1..] + [p];
      OneMoreTally(ps[1..], p, f, if Takes(ps[0], f) then Tally(PushValue(ps[0])[0], 0) else t);
    }
  }

  lemma ArgRecord(a: PushArg, slot: Bytes17, f: Field)
    ensures var p := PushOf(a, slot);
            && (Named(p.item) == Some(f) <==> a.Item? && Named(a.item) == Some(f))
            && (Named(p.item) == Some(f) ==> GivenBy(p, f) == Front(a.value, Width(f)))
  {
    if a.Item? && Named(a.item) == Some(f) {
      NamedWidth(a.item);
      GivenByItem(a.item, a.value, slot);
    }
    hide Front, Width, PullField, PullCounter;
  }

  /** The records that push_items forms give what the arguments give. */
  lemma {:induction false} ArgsAreGiven(args: seq<PushArg>, b: seq<Octet>, at: nat, f: Field)
    requires at + 17 * |args| <= |b|
    ensures LastGiven(PushesOf(args, b, at), f, None) == LastArg(args, f)
  {
    hide Named, PushOf, GivenBy, Front, Width;
    if args != [] {
      var n := |args| - 1;
      var slot := SlotAt(b, at + 17 * n);
      ArgsAreGiven(args[..n], b, at, f);
      ArgRecord(args[n], slot, f);
      OneMoreGiven(PushesOf(args[..n], b, at), PushOf(args[n], slot), f, None);
    }
  }

  /** A count in these records; in a zeroed buffer the server finds zero for the NAS counts. */
  lemma {:induction false} ArgsTallied(args: seq<PushArg>, size: nat, f: Field, t: Tally)
    requires 17 + 17 * |args| <= size && IsCounter(f)
    ensures var g := LastArg(args, f);
            TallyPushes(PushesOf(args, Zeros(size), 17), f, t) ==
            if g.None? then t else Tally(if NasCount(f) then 0 else g.value[0], 0)
  {
    hide Named, PushOf, GivenBy, Front, PushValue, Takes, IsCounter, Width, NasCount;
    CounterWidth(f);
    if args != [] {
      var n := |args| - 1;
      var slot := SlotAt(Zeros(size), 17 + 17 * n);
      var p := PushOf(args[n], slot);
      ArgsTallied(args[..n], size, f, t);
      ArgRecord(args[n], slot, f);
      OneMoreTally(PushesOf(args[..n], Zeros(size), 17), p, f, t);
      OneRecord(p, f);
      if Named(p.item) == Some(f) { CountArg(args[n], slot, f); }
    }
  }

  lemma CountArg(a: PushArg, slot: Bytes17, f: Field)
    requires a.Item? && Named(a.item) == Some(f) && IsCounter(f) && slot == Zeros(17)
    ensures var p := PushOf(a, slot);
            Takes(p, f) && PushValue(p) == [if NasCount(f) then 0 else Front(a.value, 1)[0]]
  {
    NamedWidth(a.item);
    GivenByItem(a.item, a.value, slot);
    ByteSix(a.item, a.value, slot);
    OneRecord(PushOf(a, slot), f);
    hide PushOf, PushValue, Front;
  }

  // ----- push now, pull later -----

  /** No request of subscriber h gives a value for the field. */
  predicate NotGiven(accesses: seq<Access>, h: U32, f: Field) {
    forall a :: a in accesses && a.who == User(h) ==> forall p :: p in a.request.pushes ==> Named(p.item) != Some(f)
  }

  lemma {:induction false} NothingGivenHere(ps: seq<Push>, f: Field, g: Option<seq<Octet>>)
    requires forall p :: p in ps ==> Named(p.item) != Some(f)
    ensures LastGiven(ps, f, g) == g
    decreases |ps|
  {
    hide Named;
    if ps != [] { NothingGivenHere(ps[1..], f, g); }
  }

  lemma {:induction false} NothingGiven(accesses: seq<Access>, h: U32, f: Field, g: Option<seq<Octet>>)
    requires NotGiven(accesses, h, f)
    ensures LastGivenAll(accesses, h, f, g) == g
    decreases |accesses|
  {
    hide Named;
    if accesses != [] {
      var a := accesses[0];
      if a.who == User(h) { NothingGivenHere(a.request.pushes, f, g); }
      NothingGiven(accesses[1..], h, f, g);
    }
  }

  /** A value is pushed; then come any requests, of any subscribers, none of which gives another value for the field;
      then a pull of the field, among whatever else its request pulls. It gives the pushed value back if and only if the
      item is not PDN_IP or the value was stored already. */
  lemma {:induction false} PushThenPull(random: nat -> Bytes16, db: Db, accesses: seq<Access>, h: U32, item: Octet,
                                        value: seq<Octet>, slot: Bytes17, id: Bytes17, r: Request, k: nat)
    requires h in db.users && PushWidth(item).Some? && |value| >= PushWidth(item).value
    requires k < |r.pulls| && PullField(r.pulls[k].item).Some? && PullField(r.pulls[k].item) == Named(item)
    requires NotGiven(accesses + [Access(User(h), r)], h, Named(item).value)
    ensures var w := PushWidth(item).value;
            var push := Access(User(h), Request(id, [PushOf(Item(item, value), slot)], []));
            var b := AnswersTo(random, RunAll(random, db, [push] + accesses), User(h), r)[k];
            && |b| >= 1 + w && b[0] == r.pulls[k].item
            && (b[1..1 + w] == value[..w] <==> item != PDN_IP || value[..4] == Get(db.users[h], PdnIpv4))
  {
    hide PushOf, GivenBy, Named, PullField, Volatile, Get, AnswersTo, RunAll, Width, PushWidth, LastGivenAll, NotGiven,
        Front;
    var f := Named(item).value;
    var p := PushOf(Item(item, value), slot);
    var push := Access(User(h), Request(id, [p], []));
    var rest := accesses + [Access(User(h), r)];
    NamedWidth(item);
    GivenByItem(item, value, slot);
    PulledIsSteady(item, r.pulls[k].item);
    AnswersHoldGiven(random, db, [push] + accesses, h, r, k);
    GivenFirst(push, p, rest, h, f);
    assert ([push] + accesses) + [Access(User(h), r)] == [push] + rest;
  }

  lemma {:induction false} GivenFirst(push: Access, p: Push, rest: seq<Access>, h: U32, f: Field)
    requires push.who == User(h) && push.request.pushes == [p] && Named(p.item) == Some(f) && NotGiven(rest, h, f)
    ensures LastGivenAll([push] + rest, h, f, None) == Some(GivenBy(p, f))
  {
    hide Named, GivenBy, NotGiven;
    assert [p][1..] == [] && LastGiven([p], f, None) == Some(GivenBy(p, f));
    assert ([push] + rest)[0] == push && ([push] + rest)[1..] == rest;
    NothingGiven(rest, h, f, Some(GivenBy(p, f)));
  }

  lemma PulledIsSteady(item: Octet, pulled: Octet)
    requires PullField(pulled).Some? && PullField(pulled) == Named(item)
    ensures !Volatile(PullField(pulled).value) && (pulled == PDN_IP <==> item == PDN_IP)
  {
  }

  // ----- push a count, pull it later -----

  /** How often a list of pulls and the requests of a run count a counter up. */
  function CountPulls(gs: seq<Pull>, f: Field): nat
    decreases |gs|
  {
    if gs == [] then 0 else (if CountsUp(gs[0], f) then 1 else 0) + CountPulls(gs[1..], f)
  }

  function CountAll(accesses: seq<Access>, h: U32, f: Field): nat
    decreases |accesses|
  {
    if accesses == [] then 0
    else
      (if accesses[0].who == User(h) then CountPulls(accesses[0].request.pulls, f) else 0)
      + CountAll(accesses[1..], h, f)
  }

  lemma {:induction false} PullsOnlyCount(gs: seq<Pull>, f: Field, t: Tally)
    ensures TallyPulls(gs, f, t) == t.(since := t.since + CountPulls(gs, f))
    decreases |gs|
  {
    hide CountsUp;
    if gs != [] { PullsOnlyCount(gs[1..], f, if CountsUp(gs[0], f) then t.(since := t.since + 1) else t); }
  }

  lemma {:induction false} NoneTallied(ps: seq<Push>, f: Field, t: Tally)
    requires f != PdnIpv4 && forall p :: p in ps ==> Named(p.item) != Some(f)
    ensures TallyPushes(ps, f, t) == t
    decreases |ps|
  {
    hide Named, Takes;
    if ps != [] {
      OneRecord(ps[0], f);
      NoneTallied(ps[1..], f, t);
    }
  }

  lemma {:induction false} RunOnlyCounts(accesses: seq<Access>, h: U32, f: Field, t: Tally)
    requires f != PdnIpv4 && NotGiven(accesses, h, f)
    ensures TallyAll(accesses, h, f, t) == t.(since := t.since + CountAll(accesses, h, f))
    decreases |accesses|
  {
    hide Named, TallyPushes, TallyPulls, CountPulls;
    if accesses != [] {
      var a := accesses[0];
      var t1 := if a.who == User(h) then t.(since := t.since + CountPulls(a.request.pulls, f)) else t;
      if a.who == User(h) {
        NoneTallied(a.request.pushes, f, t);
        PullsOnlyCount(a.request.pulls, f, t);
      }
      RunOnlyCounts(accesses[1..], h, f, t1);
    }
  }

  /** A count is pushed, and pulled later as above, with n pulls in between that count it up. The reply shows the pushed
      count plus n, modulo 256, if and only if the item is not one of the two NAS counts or the buffer held the count at
      byte 6 of the record already. */
  lemma {:induction false} PushThenCount(random: nat -> Bytes16, db: Db, accesses: seq<Access>, h: U32, item: Octet,
                                         value: seq<Octet>, slot: Bytes17, id: Bytes17, r: Request, k: nat, c: Counter)
    requires h in db.users && PushWidth(item) == Some(1) && |value| >= 1
    requires k < |r.pulls| && PullCounter(r.pulls[k].item) == Some(c) && Named(item) == Some(c.field)
    requires NotGiven(accesses + [Access(User(h), r)], h, c.field)
    ensures var push := Access(User(h), Request(id, [PushOf(Item(item, value), slot)], []));
            var b := AnswersTo(random, RunAll(random, db, [push] + accesses), User(h), r)[k];
            var n := CountAll(accesses, h, c.field) + CountPulls(r.pulls[..k], c.field);
            Counts(b, c, Tally(value[0], n)) <==> item == NEXT_HOP_CHAINING_COUNT || value[0] == slot[6]
  {
    hide *;
    var p := PushOf(Item(item, value), slot);
    var last := Access(User(h), r);
    var base := if item == NEXT_HOP_CHAINING_COUNT then value[0] else slot[6];
    CountRecord(item, value, slot);
    NotGivenParts(accesses, last, h, c.field);
    CountAnswer(random, db, accesses, h, p, id, base, r, k, c);
    var b := AnswersTo(random, RunAll(random, db, [Access(User(h), Request(id, [p], []))] + accesses), User(h), r)[k];
    SameShift(b, c, base, value[0], CountAll(accesses, h, c.field) + CountPulls(r.pulls[..k], c.field));
  }

  lemma NotGivenParts(accesses: seq<Access>, last: Access, h: U32, f: Field)
    requires NotGiven(accesses + [last], h, f)
    ensures NotGiven(accesses, h, f)
    ensures last.who == User(h) ==> forall p :: p in last.request.pushes ==> Named(p.item) != Some(f)
  {
    hide Named;
    assert last in accesses + [last] && forall a :: a in accesses ==> a in accesses + [last];
  }

  /** A reply to a pull of a counter that shows a count. */
  predicate Counts(b: seq<Octet>, c: Counter, t: Tally) {
    |b| == 17 && b[0] == c.code && c.at < 17 && b[c.at] == Shown(t)
  }

  /** The reply to a pull of a counter after a push and any requests that give no other count. */
  lemma {:induction false} CountAnswer(random: nat -> Bytes16, db: Db, accesses: seq<Access>, h: U32, p: Push,
                                       id: Bytes17, base: Octet, r: Request, k: nat, c: Counter)
    requires h in db.users && Takes(p, c.field) && PushValue(p) == [base]
    requires k < |r.pulls| && PullCounter(r.pulls[k].item) == Some(c)
    requires NotGiven(accesses, h, c.field) && forall p :: p in r.pushes ==> Named(p.item) != Some(c.field)
    ensures var start := RunAll(random, db, [Access(User(h), Request(id, [p], []))] + accesses);
            var n := CountAll(accesses, h, c.field) + CountPulls(r.pulls[..k], c.field);
            Counts(AnswersTo(random, start, User(h), r)[k], c, Tally(base, n))
  {
    hide *;
    CounterAt(r.pulls[k].item);
    var start := RunAll(random, db, [Access(User(h), Request(id, [p], []))] + accesses);
    CountAfterPush(random, db, accesses, h, p, id, c.field, base);
    assert h in start.users.Keys;
    CountReply(random, start, h, r, k, c, Tally(base, CountAll(accesses, h, c.field)));
  }

  /** In a request that gives no value for the counter, the pulls before the k-th count up. */
  lemma {:induction false} CountReply(random: nat -> Bytes16, db: Db, h: U32, r: Request, k: nat, c: Counter, t: Tally)
    requires h in db.users && k < |r.pulls| && PullCounter(r.pulls[k].item) == Some(c)
    requires Get(db.users[h], c.field) == [Shown(t)] && forall p :: p in r.pushes ==> Named(p.item) != Some(c.field)
    ensures Counts(AnswersTo(random, db, User(h), r)[k], c, t.(since := t.since + CountPulls(r.pulls[..k], c.field)))
  {
    CounterAt(r.pulls[k].item);
    hide Named, PullCounter, Get, AnswersTo, CountPulls, TallyPushes, TallyPulls, Width;
    AnswerCounts(random, db, h, r, k, t);
    NoneTallied(r.pushes, c.field, t);
    PullsOnlyCount(r.pulls[..k], c.field, t);
  }

  /** The count after a push and any requests that give none. */
  lemma {:induction false} CountAfterPush(random: nat -> Bytes16, db: Db, accesses: seq<Access>, h: U32, p: Push,
                                          id: Bytes17, f: Field, base: Octet)
    requires h in db.users && IsCounter(f) && NotGiven(accesses, h, f) && Takes(p, f) && PushValue(p) == [base]
    ensures Get(RunAll(random, db, [Access(User(h), Request(id, [p], []))] + accesses).users[h], f) ==
            [Shown(Tally(base, CountAll(accesses, h, f)))]
  {
    CounterWidth(f);
    hide PushValue, Named, Takes, Get, RunAll, CountsUp, Shown, IsCounter, Width;
    var push := Access(User(h), Request(id, [p], []));
    var was := Tally(Get(db.users[h], f)[0], 0);
    assert Get(db.users[h], f) == [Shown(was)] by { OldCount(Get(db.users[h], f)); }
    CountersCount(random, db, [push] + accesses, h, f, was);
    FirstTally(push, accesses, h, f, was, Tally(base, 0));
    RunOnlyCounts(accesses, h, f, Tally(base, 0));
  }

  lemma CounterWidth(f: Field)
    requires IsCounter(f)
    ensures Width(f) == 1 && f != PdnIpv4
  {
  }

  lemma CounterAt(item: Octet)
    requires PullCounter(item).Some?
    ensures 1 <= PullCounter(item).value.at < 17 && Width(PullCounter(item).value.field) == 1
    ensures IsCounter(PullCounter(item).value.field) && PullCounter(item).value.field != PdnIpv4
  {
  }

  lemma OldCount(v: seq<Octet>)
    requires |v| == 1
    ensures v == [Shown(Tally(v[0], 0))]
  {
  }

  /** The count that the server takes from a record. */
  lemma CountRecord(item: Octet, value: seq<Octet>, slot: Bytes17)
    requires PushWidth(item) == Some(1) && |value| >= 1
    ensures var p := PushOf(Item(item, value), slot);
            && Takes(p, Named(item).value)
            && PushValue(p) == [if item == NEXT_HOP_CHAINING_COUNT then value[0] else slot[6]]
  {
    GivenByItem(item, value, slot);
    ByteSix(item, value, slot);
    OneRecord(PushOf(Item(item, value), slot), Named(item).value);
    hide PushOf, PushValue;
  }

  lemma {:induction false} FirstTally(push: Access, accesses: seq<Access>, h: U32, f: Field, was: Tally, t: Tally)
    requires push.who == User(h) && push.request.pulls == [] && |push.request.pushes| == 1
    requires var p := push.request.pushes[0]; Takes(p, f) && PushValue(p) == [t.base] && t.since == 0
    ensures TallyAll([push] + accesses, h, f, was) == TallyAll(accesses, h, f, t)
  {
    hide Takes, PushValue, PushField;
    var ps := push.request.pushes;
    assert ([push] + accesses)[0] == push && ([push] + accesses)[1..] == accesses && ps[1..] == [];
    assert TallyPushes(ps, f, was) == TallyPushes(ps[1..], f, t) == t;
  }

  lemma SameShown(v: Octet, w: Octet, n: nat)
    ensures Shown(Tally(v, n)) == Shown(Tally(w, n)) <==> v == w
  {
  }

  lemma SameShift(b: seq<Octet>, c: Counter, v: Octet, w: Octet, n: nat)
    requires Counts(b, c, Tally(v, n))
    ensures Counts(b, c, Tally(w, n)) <==> v == w
  {
  }
}
