/** What CoreKubeDB holds and answers over any number of requests: a field holds the value last taken for it, a counter
    counts its pulls, and records do not affect each other. */
module DbFields {
  import opened Bytes
  import opened DbProtocol
  import opened DbTheorems
  import opened Records

  // ----- one request -----

  /** The server stores the value of this record in field f. */
  predicate Takes(p: Push, f: Field) {
    p.item != NEW_ENB && PushField(p.item) == Some(f)
  }

  /** The value of field f after some pushes, when it was v before. */
  function LastValue(ps: seq<Push>, f: Field, v: seq<Octet>): seq<Octet>
    decreases |ps|
  {
    if ps == [] then v else LastValue(ps[1..], f, if Takes(ps[0], f) then PushValue(ps[0]) else v)
  }

  /** Pulling counts these up or draws them anew. */
  predicate Volatile(f: Field) {
    f == EpcNasCount || f == UeNasCount || f == NextHopCount || f == Rand
  }

  lemma OnePush(db: Db, who: Subject, p: Push, h: U32, f: Field)
    requires h in db.users
    ensures Get(ApplyPush(db, who, p).users[h], f) ==
            if who == User(h) && Takes(p, f) then PushValue(p) else Get(db.users[h], f)
    ensures who != User(h) ==> ApplyPush(db, who, p).users[h] == db.users[h]
  {
    hide PushField, Get, Set, PushValue;
    if p.item != NEW_ENB && PushField(p.item).Some? && Known(db, who) {
      GetSet(db.users[who.h], PushField(p.item).value, f, PushValue(p));
    }
  }

  lemma {:induction false} AllPushes(db: Db, who: Subject, ps: seq<Push>, h: U32, f: Field)
    requires h in db.users
    ensures Get(ApplyPushes(db, who, ps).users[h], f) ==
            if who == User(h) then LastValue(ps, f, Get(db.users[h], f)) else Get(db.users[h], f)
    ensures who != User(h) ==> ApplyPushes(db, who, ps).users[h] == db.users[h]
    decreases |ps|
  {
    hide Get, PushValue, ApplyPush, Takes;
    if ps != [] {
      OnePush(db, who, ps[0], h, f);
      AllPushes(ApplyPush(db, who, ps[0]), who, ps[1..], h, f);
    }
  }

  lemma OnePull(random: nat -> Bytes16, db: Db, who: Subject, g: Pull, h: U32, f: Field)
    requires h in db.users
    ensures !Volatile(f) ==> Get(ApplyPull(random, db, who, g).users[h], f) == Get(db.users[h], f)
    ensures who != User(h) ==> ApplyPull(random, db, who, g).users[h] == db.users[h]
  {
    hide PullCounter, Get, Set, Volatile;
    if Known(db, who) {
      var r := db.users[who.h];
      if PullCounter(g.item).Some? {
        CountersAreVolatile(g.item);
        var c := PullCounter(g.item).value.field;
        GetSet(r, c, f, [(Get(r, c)[0] as int + 1) % 256]);
      }
      GetSet(r, Rand, f, random(db.draws));
      assert Volatile(Rand) by { RandIsVolatile(); }
    }
  }

  lemma CountersAreVolatile(item: Octet)
    requires PullCounter(item).Some?
    ensures var c := PullCounter(item).value.field; Width(c) == 1 && Volatile(c)
  {
  }

  lemma RandIsVolatile()
    ensures Volatile(Rand)
  {
  }

  lemma {:induction false} AllPulls(random: nat -> Bytes16, db: Db, who: Subject, gs: seq<Pull>, h: U32, f: Field)
    requires h in db.users
    ensures !Volatile(f) ==> Get(ApplyPulls(random, db, who, gs).users[h], f) == Get(db.users[h], f)
    ensures who != User(h) ==> ApplyPulls(random, db, who, gs).users[h] == db.users[h]
    decreases |gs|
  {
    hide Get, ApplyPull, Volatile;
    if gs != [] {
      OnePull(random, db, who, gs[0], h, f);
      AllPulls(random, ApplyPull(random, db, who, gs[0]), who, gs[1..], h, f);
    }
  }

  // ----- any number of requests -----

  function RunAll(random: nat -> Bytes16, db: Db, accesses: seq<Access>): (r: Db)
    ensures r.users.Keys == db.users.Keys
    decreases |accesses|
  {
    if accesses == [] then db
    else
      EffectKeepsKeys(random, db, accesses[0].who, accesses[0].request);
      RunAll(random, Effect(random, db, accesses[0].who, accesses[0].request), accesses[1..])
  }

  /** The value of a field of subscriber h after requests of many, when it was v before. */
  function LastTaken(accesses: seq<Access>, h: U32, f: Field, v: seq<Octet>): seq<Octet>
    decreases |accesses|
  {
    if accesses == [] then v
    else
      var a := accesses[0];
      LastTaken(accesses[1..], h, f, if a.who == User(h) then LastValue(a.request.pushes, f, v) else v)
  }

  /** After any number of requests, of any subscribers, every field but the four that pulls change holds the value
      the server last took for it, or its original value when it took none. */
  lemma {:induction false} FieldsHoldLastTaken(random: nat -> Bytes16, db: Db, accesses: seq<Access>, h: U32, f: Field)
    requires h in db.users && !Volatile(f)
    ensures Get(RunAll(random, db, accesses).users[h], f) == LastTaken(accesses, h, f, Get(db.users[h], f))
    decreases |accesses|
  {
    hide Get, ApplyPushes, ApplyPulls, LastValue;
    if accesses != [] {
      var a := accesses[0];
      var mid := ApplyPushes(db, a.who, a.request.pushes);
      AllPushes(db, a.who, a.request.pushes, h, f);
      assert h in mid.users.Keys;
      AllPulls(random, mid, a.who, a.request.pulls, h, f);
      EffectKeepsKeys(random, db, a.who, a.request);
      FieldsHoldLastTaken(random, Effect(random, db, a.who, a.request), accesses[1..], h, f);
    }
  }

  /** Requests of other subscribers, and requests that store eNBs, leave a record alone entirely. */
  lemma {:induction false} OthersUntouched(random: nat -> Bytes16, db: Db, accesses: seq<Access>, h: U32)
    requires h in db.users && forall a :: a in accesses ==> a.who != User(h)
    ensures RunAll(random, db, accesses).users[h] == db.users[h]
    decreases |accesses|
  {
    hide ApplyPushes, ApplyPulls;
    if accesses != [] {
      var a := accesses[0];
      var mid := ApplyPushes(db, a.who, a.request.pushes);
      AllPushes(db, a.who, a.request.pushes, h, Imsi);
      assert h in mid.users.Keys;
      AllPulls(random, mid, a.who, a.request.pulls, h, Imsi);
      EffectKeepsKeys(random, db, a.who, a.request);
      OthersUntouched(random, Effect(random, db, a.who, a.request), accesses[1..], h);
    }
  }

  /** Carrying out requests one after the other ends where the last outcome of serving them ends. */
  lemma {:induction false} ServingRunsAll(random: nat -> Bytes16, db: Db, accesses: seq<Access>)
    ensures Final(db, Outcomes(random, db, accesses)) == RunAll(random, db, accesses)
    decreases |accesses|
  {
    hide Effect, AnswersTo, Wire;
    if accesses != [] {
      var a, tail := accesses[0], accesses[1..];
      var next := Effect(random, db, a.who, a.request);
      ServingRunsAll(random, next, tail);
      if tail == [] { assert Outcomes(random, next, tail) == []; }
    }
  }

  // ----- counters -----

  /** A counter: the value last taken, and the increments since. */
  datatype Tally = Tally(base: Octet, since: nat)

  function Shown(t: Tally): Octet {
    (t.base as int + t.since) % 256
  }

  predicate IsCounter(f: Field) {
    f == EpcNasCount || f == UeNasCount || f == NextHopCount
  }

  predicate CountsUp(g: Pull, f: Field) {
    PullCounter(g.item).Some? && PullCounter(g.item).value.increments && PullCounter(g.item).value.field == f
  }

  function TallyPushes(ps: seq<Push>, f: Field, t: Tally): Tally
    decreases |ps|
  {
    if ps == [] then t else TallyPushes(ps[1..], f, if Takes(ps[0], f) then Tally(PushValue(ps[0])[0], 0) else t)
  }

  function TallyPulls(gs: seq<Pull>, f: Field, t: Tally): Tally
    decreases |gs|
  {
    if gs == [] then t else TallyPulls(gs[1..], f, if CountsUp(gs[0], f) then t.(since := t.since + 1) else t)
  }

  function TallyAll(accesses: seq<Access>, h: U32, f: Field, t: Tally): Tally
    decreases |accesses|
  {
    if accesses == [] then t
    else
      var a := accesses[0];
      TallyAll(accesses[1..], h, f, if a.who == User(h)
          then TallyPulls(a.request.pulls, f, TallyPushes(a.request.pushes, f, t)) else t)
  }

  lemma {:induction false} PushesTallied(db: Db, who: Subject, ps: seq<Push>, h: U32, f: Field, t: Tally)
    requires h in db.users && IsCounter(f) && Get(db.users[h], f) == [Shown(t)]
    ensures h in ApplyPushes(db, who, ps).users
    ensures Get(ApplyPushes(db, who, ps).users[h], f) == [Shown(if who == User(h) then TallyPushes(ps, f, t) else t)]
    decreases |ps|
  {
    hide Get, PushValue, ApplyPush, Takes;
    if ps != [] {
      OnePush(db, who, ps[0], h, f);
      assert h in ApplyPush(db, who, ps[0]).users.Keys;
      if Takes(ps[0], f) { OneByte(ps[0], f); }
      var t' := if Takes(ps[0], f) then Tally(PushValue(ps[0])[0], 0) else t;
      PushesTallied(ApplyPush(db, who, ps[0]), who, ps[1..], h, f, if who == User(h) then t' else t);
    }
  }

  lemma OneByte(p: Push, f: Field)
    requires Takes(p, f) && IsCounter(f)
    ensures PushField(p.item).Some? && |PushValue(p)| == 1
  {
  }

  lemma OnePullTallied(random: nat -> Bytes16, db: Db, who: Subject, g: Pull, h: U32, f: Field)
    requires h in db.users && IsCounter(f) && |Get(db.users[h], f)| == 1
    ensures Get(ApplyPull(random, db, who, g).users[h], f) ==
            if who == User(h) && CountsUp(g, f) then [(Get(db.users[h], f)[0] as int + 1) % 256]
                else Get(db.users[h], f)
  {
    if Known(db, who) {
      var r := db.users[who.h];
      hide PullCounter, Get, Set;
      if PullCounter(g.item).Some? {
        CountersAreVolatile(g.item);
        var c := PullCounter(g.item).value.field;
        GetSet(r, c, f, [(Get(r, c)[0] as int + 1) % 256]);
      }
      GetSet(r, Rand, f, random(db.draws));
    }
  }

  lemma {:induction false} PullsTallied(random: nat -> Bytes16, db: Db, who: Subject, gs: seq<Pull>, h: U32, f: Field,
      t: Tally)
    requires h in db.users && IsCounter(f) && Get(db.users[h], f) == [Shown(t)]
    ensures h in ApplyPulls(random, db, who, gs).users
    ensures Get(ApplyPulls(random, db, who, gs).users[h], f) ==
        [Shown(if who == User(h) then TallyPulls(gs, f, t) else t)]
    decreases |gs|
  {
    hide Get, ApplyPull, CountsUp;
    if gs != [] {
      OnePullTallied(random, db, who, gs[0], h, f);
      assert h in ApplyPull(random, db, who, gs[0]).users.Keys;
      var t' := if who == User(h) && CountsUp(gs[0], f) then t.(since := t.since + 1) else t;
      PullsTallied(random, ApplyPull(random, db, who, gs[0]), who, gs[1..], h, f, t');
    }
  }

  /** After any number of requests, of any subscribers, a counter is the value last taken for it, or its original
      value, plus the pulls since that count it up, modulo 256. */
  lemma {:induction false} CountersCount(random: nat -> Bytes16, db: Db, accesses: seq<Access>, h: U32, f: Field,
      t: Tally)
    requires h in db.users && IsCounter(f) && Get(db.users[h], f) == [Shown(t)]
    ensures Get(RunAll(random, db, accesses).users[h], f) == [Shown(TallyAll(accesses, h, f, t))]
    decreases |accesses|
  {
    hide Get, ApplyPushes, ApplyPulls, TallyPushes, TallyPulls, Shown, IsCounter;
    if accesses != [] {
      var a := accesses[0];
      var mid := ApplyPushes(db, a.who, a.request.pushes);
      var t1 := if a.who == User(h) then TallyPushes(a.request.pushes, f, t) else t;
      PushesTallied(db, a.who, a.request.pushes, h, f, t);
      PullsTallied(random, mid, a.who, a.request.pulls, h, f, t1);
      EffectKeepsKeys(random, db, a.who, a.request);
      var t2 := if a.who == User(h) then TallyPulls(a.request.pulls, f, t1) else t;
      CountersCount(random, Effect(random, db, a.who, a.request), accesses[1..], h, f, t2);
    }
  }

  // ----- RAND -----

  /** How many of the pulls draw a new RAND. */
  function Draws(gs: seq<Pull>): nat
    decreases |gs|
  {
    if gs == [] then 0 else (if gs[0].item == RAND_UPDATE then 1 else 0) + Draws(gs[1..])
  }

  lemma OnePullDraws(random: nat -> Bytes16, db: Db, who: Subject, g: Pull, h: U32)
    requires h in db.users
    ensures var next := ApplyPull(random, db, who, g); var drawn := g.item == RAND_UPDATE;
            && Get(next.users[h], Rand) ==
               (if who == User(h) && drawn then random(db.draws) else Get(db.users[h], Rand))
            && next.draws == db.draws + if Known(db, who) && drawn then 1 else 0
  {
    if Known(db, who) {
      var r := db.users[who.h];
      hide PullCounter, Get, Set;
      if PullCounter(g.item).Some? {
        CountersAreVolatile(g.item);
        NoCounterDraws(g.item);
        var c := PullCounter(g.item).value.field;
        GetSet(r, c, Rand, [(Get(r, c)[0] as int + 1) % 256]);
      }
      GetSet(r, Rand, Rand, random(db.draws));
    }
  }

  lemma NoCounterDraws(item: Octet)
    requires PullCounter(item).Some?
    ensures item != RAND_UPDATE && IsCounter(PullCounter(item).value.field)
  {
  }

  /** RAND after some pulls is the one drawn last, and every pull of RAND_UPDATE draws. */
  lemma {:induction false} PullsDraw(random: nat -> Bytes16, db: Db, who: Subject, gs: seq<Pull>, h: U32)
    requires h in db.users
    ensures var next := ApplyPulls(random, db, who, gs);
            && h in next.users
            && Get(next.users[h], Rand) ==
               (if who == User(h) && Draws(gs) > 0 then random(db.draws + Draws(gs) - 1) else Get(db.users[h], Rand))
            && next.draws == db.draws + if Known(db, who) then Draws(gs) else 0
    decreases |gs|
  {
    hide Get, ApplyPull;
    if gs != [] {
      OnePullDraws(random, db, who, gs[0], h);
      assert h in ApplyPull(random, db, who, gs[0]).users.Keys;
      PullsDraw(random, ApplyPull(random, db, who, gs[0]), who, gs[1..], h);
    }
  }

  /** The draws of RAND so far, and which of them subscriber h has now. */
  function DrawnAll(users: set<U32>, accesses: seq<Access>, h: U32, draws: nat, current: nat): (nat, nat)
    decreases |accesses|
  {
    if accesses == [] then (draws, current)
    else
      var a := accesses[0];
      var d := if a.who.User? && a.who.h in users then Draws(a.request.pulls) else 0;
      DrawnAll(users, accesses[1..], h, draws + d, if a.who == User(h) && d > 0 then draws + d - 1 else current)
  }

  /** After any requests of any subscribers the RAND of each is the one last drawn for it. */
  lemma {:induction false} RandIsDrawn(random: nat -> Bytes16, db: Db, accesses: seq<Access>, h: U32, current: nat)
    requires h in db.users && Get(db.users[h], Rand) == random(current)
    ensures var next, drawn := RunAll(random, db, accesses), DrawnAll(db.users.Keys, accesses, h, db.draws, current);
            next.draws == drawn.0 && Get(next.users[h], Rand) == random(drawn.1)
    decreases |accesses|
  {
    hide Get, ApplyPushes, ApplyPulls, Draws;
    if accesses != [] {
      var a := accesses[0];
      var mid := ApplyPushes(db, a.who, a.request.pushes);
      assert h in mid.users.Keys;
      AllPushes(db, a.who, a.request.pushes, h, Rand);
      RandNotTaken(a.request.pushes, Get(db.users[h], Rand));
      PullsDraw(random, mid, a.who, a.request.pulls, h);
      EffectKeepsKeys(random, db, a.who, a.request);
      var d := if a.who.User? && a.who.h in db.users then Draws(a.request.pulls) else 0;
      assert a.who == User(h) && d > 0 ==> db.draws + d - 1 >= 0;
      RandIsDrawn(random, Effect(random, db, a.who, a.request), accesses[1..], h,
                  if a.who == User(h) && d > 0 then db.draws + d - 1 else current);
    }
  }

  lemma {:induction false} RandNotTaken(ps: seq<Push>, v: seq<Octet>)
    ensures LastValue(ps, Rand, v) == v
  {
    forall p: Push ensures !Takes(p, Rand) { }
    NoValue(ps, Rand, v);
  }

  // ----- the answers to a request -----

  /** Each reply is that of its item when the pulls before it have been carried out. */
  lemma {:induction false} ReplyAt(random: nat -> Bytes16, db: Db, who: Subject, gs: seq<Pull>, k: nat)
    requires k < |gs|
    ensures Replies(random, db, who, gs)[k] == Reply(ApplyPulls(random, db, who, gs[..k]), who, gs[k])
    decreases |gs|
  {
    hide ApplyPull, Reply;
    if k > 0 {
      ReplyAt(random, ApplyPull(random, db, who, gs[0]), who, gs[1..], k - 1);
      assert gs[..k][0] == gs[0] && gs[..k][1..] == gs[1..][..k - 1];
    }
  }

  /** In a request of any pushes and pulls, the reply to a pull of a field holds the value that the request or, before
      it, the record had last for it. */
  lemma AnswerHolds(random: nat -> Bytes16, db: Db, h: U32, r: Request, k: nat)
    requires h in db.users && k < |r.pulls| && PullField(r.pulls[k].item).Some?
        && !Volatile(PullField(r.pulls[k].item).value)
    ensures var f := PullField(r.pulls[k].item).value; var b := AnswersTo(random, db, User(h), r)[k];
            && |b| >= 1 + Width(f) && b[0] == r.pulls[k].item
            && b[1..1 + Width(f)] == LastValue(r.pushes, f, Get(db.users[h], f))
  {
    var f, gs := PullField(r.pulls[k].item).value, r.pulls;
    var mid := ApplyPushes(db, User(h), r.pushes);
    hide Get, ApplyPushes, ApplyPulls, LastValue, Reply, Replies, PullField, Volatile;
    ReplyAt(random, mid, User(h), gs, k);
    AllPushes(db, User(h), r.pushes, h, f);
    assert h in mid.users.Keys;
    AllPulls(random, mid, User(h), gs[..k], h, f);
    var now := ApplyPulls(random, mid, User(h), gs[..k]);
    assert h in now.users.Keys;
    ReplyHoldsField(now, h, gs[k]);
  }

  /** The reply to a pull of a counter holds its count after the pushes and the earlier pulls of the same request. */
  lemma {:induction false} AnswerCounts(random: nat -> Bytes16, db: Db, h: U32, r: Request, k: nat, t: Tally)
    requires h in db.users && k < |r.pulls| && PullCounter(r.pulls[k].item).Some?
    requires Get(db.users[h], PullCounter(r.pulls[k].item).value.field) == [Shown(t)]
    ensures var c := PullCounter(r.pulls[k].item).value; var b := AnswersTo(random, db, User(h), r)[k];
            && |b| == 17 && b[0] == c.code
            && b[c.at] == Shown(TallyPulls(r.pulls[..k], c.field, TallyPushes(r.pushes, c.field, t)))
  {
    var c, gs := PullCounter(r.pulls[k].item).value, r.pulls;
    var mid := ApplyPushes(db, User(h), r.pushes);
    assert IsCounter(c.field) && 1 <= c.at <= 16;
    ReplyAt(random, mid, User(h), gs, k);
    PushesTallied(db, User(h), r.pushes, h, c.field, t);
    PullsTallied(random, mid, User(h), gs[..k], h, c.field, TallyPushes(r.pushes, c.field, t));
    var now := ApplyPulls(random, mid, User(h), gs[..k]);
    CounterAnswer(now, h, gs[k]);
    hide Get, ApplyPushes, ApplyPulls, Reply, Replies, PullCounter, TallyPulls, TallyPushes, Shown;
  }

  lemma CounterAnswer(db: Db, h: U32, g: Pull)
    requires h in db.users && PullCounter(g.item).Some?
    ensures var c := PullCounter(g.item).value; var b := Reply(db, User(h), g);
            1 <= c.at <= 16 && |b| == 17 && b[0] == c.code && b[c.at] == Get(db.users[h], c.field)[0]
  {
    hide Get;
    CountersAreVolatile(g.item);
  }

  /** The reply to a pull of a field begins with its item byte and the whole field. */
  lemma ReplyHoldsField(db: Db, h: U32, g: Pull)
    requires h in db.users && PullField(g.item).Some?
    ensures var f := PullField(g.item).value; var b := Reply(db, User(h), g);
            |b| >= 1 + Width(f) && b[0] == g.item && b[1..1 + Width(f)] == Get(db.users[h], f)
  {
    var f := PullField(g.item).value;
    FieldsApart(f, Imsi);
    assert Width(f) <= CopyLength(g.item);
    var b := Reply(db, User(h), g);
    assert PullCounter(g.item).None? && g.item != IMSI && g.item != MSIN && g.item != GET_ENB;
    assert b == CopyReply(g.item, db.users[h]);
    PartStarts(db.users[h], Offset(f), CopyLength(g.item), Width(f));
    assert b[1..1 + Width(f)] == Part(db.users[h], Offset(f), CopyLength(g.item))[..Width(f)];
  }

  lemma PartStarts(r: Record, o: nat, n: nat, w: nat)
    requires w <= n && o + w <= SIZE
    ensures |Part(r, o, n)| >= w && Part(r, o, n)[..w] == r[o..o + w]
  {
  }

  /** After any number of requests of any subscribers, every pull of any further request of a subscriber answers with
      the value last taken for its field, be it in that very request. */
  lemma {:induction false} AnswersHoldLastTaken(random: nat -> Bytes16, db: Db, accesses: seq<Access>, h: U32,
      r: Request, k: nat)
    requires h in db.users && k < |r.pulls| && PullField(r.pulls[k].item).Some?
        && !Volatile(PullField(r.pulls[k].item).value)
    ensures
      var f := PullField(r.pulls[k].item).value;
      var b := AnswersTo(random, RunAll(random, db, accesses), User(h), r)[k];
            && |b| >= 1 + Width(f) && b[0] == r.pulls[k].item
            && b[1..1 + Width(f)] == LastTaken(accesses + [Access(User(h), r)], h, f, Get(db.users[h], f))
  {
    var f := PullField(r.pulls[k].item).value;
    hide PullField, Volatile, Get, AnswersTo;
    FieldsHoldLastTaken(random, db, accesses, h, f);
    assert h in RunAll(random, db, accesses).users.Keys;
    AnswerHolds(random, RunAll(random, db, accesses), h, r, k);
    OneMoreAccess(accesses, Access(User(h), r), h, f, Get(db.users[h], f));
  }

  lemma {:induction false} OneMoreAccess(accesses: seq<Access>, a: Access, h: U32, f: Field, v: seq<Octet>)
    requires a.who == User(h)
    ensures LastTaken(accesses + [a], h, f, v) == LastValue(a.request.pushes, f, LastTaken(accesses, h, f, v))
    decreases |accesses|
  {
    hide LastValue;
    if accesses == [] {
      assert accesses + [a] == [a] && [a][1..] == [];
    } else {
      assert (accesses + [a])[0] == accesses[0] && (accesses + [a])[1..] == accesses[1..] + [a];
      var b := accesses[0];
      OneMoreAccess(accesses[1..], a, h, f, if b.who == User(h) then LastValue(b.request.pushes, f, v) else v);
    }
  }

  lemma {:induction false} NothingTaken(accesses: seq<Access>, h: U32, f: Field, v: seq<Octet>)
    requires forall a :: a in accesses ==> a.who != User(h) || forall p :: p in a.request.pushes ==> !Takes(p, f)
    ensures LastTaken(accesses, h, f, v) == v
    decreases |accesses|
  {
    if accesses != [] {
      var a := accesses[0];
      if a.who == User(h) { NoValue(a.request.pushes, f, v); }
      NothingTaken(accesses[1..], h, f, v);
    }
  }

  lemma {:induction false} NoValue(ps: seq<Push>, f: Field, v: seq<Octet>)
    requires forall p :: p in ps ==> !Takes(p, f)
    ensures LastValue(ps, f, v) == v
    decreases |ps|
  {
    if ps != [] { NoValue(ps[1..], f, v); }
  }
}
