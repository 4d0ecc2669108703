/** db_access of the workers (corekube5g-worker/source/db_accesses.c): a request is formed, carried out by the server,
    and the values pulled are found in its answer. */
module DbClient {
  import opened Bytes
  import opened CoreKubeDb
  import opened DbFields
  import opened DbIntent
  import opened DbProtocol
  import opened DbReplies
  import opened DbTheorems
  import opened LibCk
  import opened Records
  import opened Slices

  // ----- from the answer to the values -----

  /** A pull item the server knows; any other leaves its slot as it was. */
  predicate Answered(g: Pull) {
    g.item == GET_ENB || g.item == IMSI || g.item == MSIN || PullCounter(g.item).Some? || PullField(g.item).Some?
  }

  /** Only the reply to a pull of a field that pulls do not change carries the code of its item. */
  lemma CodeOfReply(db: Db, h: U32, g: Pull, m: Octet)
    requires h in db.users && Answered(g) && Reply(db, User(h), g) != [] && Member(Reply(db, User(h), g)[0]) == Some(m)
    requires PullField(m).Some? && !Volatile(PullField(m).value)
    ensures g.item == m
  {
  }

  lemma AnsweredNotEmpty(db: Db, h: U32, g: Pull)
    requires h in db.users && Answered(g)
    ensures Reply(db, User(h), g) != []
  {
    if PullField(g.item).Some? { ReplyHoldsField(db, h, g); }
  }

  lemma AnswerCode(random: nat -> Bytes16, db: Db, h: U32, r: Request, k: nat, m: Octet)
    requires h in db.users && k < |r.pulls| && Answered(r.pulls[k])
    ensures var b := AnswersTo(random, db, User(h), r)[k];
            && b != []
            && (Member(b[0]) == Some(m) && PullField(m).Some? && !Volatile(PullField(m).value) ==> r.pulls[k].item == m)
  {
    var mid := ApplyPushes(db, User(h), r.pushes);
    var now := ApplyPulls(random, mid, User(h), r.pulls[..k]);
    assert h in now.users.Keys;
    ReplyAt(random, mid, User(h), r.pulls, k);
    hide Reply, Replies, Member, PullField, PullCounter, Volatile, ApplyPushes, ApplyPulls, Answered;
    AnsweredNotEmpty(now, h, r.pulls[k]);
    var b := Reply(now, User(h), r.pulls[k]);
    if Member(b[0]) == Some(m) && PullField(m).Some? && !Volatile(PullField(m).value) {
      CodeOfReply(now, h, r.pulls[k], m);
    }
  }

  lemma SlotBytes(response: seq<Octet>, k: nat, b: seq<Octet>, w: nat)
    requires SlotHolds(response, k, b) && |b| >= 1 + w
    ensures 17 * k + 1 + w <= |response| && response[17 * k] == b[0]
        && response[17 * k + 1..17 * k + 1 + w] == b[1..1 + w]
  {
    assert response[17 * k..17 * k + |b|][0] == response[17 * k];
    Inner(response, 17 * k, 17 * k + |b|, 1, 1 + w);
  }

  /** What a reply slot holds behind the code of a member that stands for a field. */
  lemma ExtractedValue(random: nat -> Bytes16, db: Db, h: U32, r: Request, response: seq<Octet>, m: Octet, k: nat)
    requires h in db.users && forall i :: 0 <= i < |r.pulls| ==> Answered(r.pulls[i])
    requires 17 * |r.pulls| <= |response| && SlotsHold(response, AnswersTo(random, db, User(h), r), |r.pulls|)
    requires LastSlot(response, 17 * |r.pulls|, m, k) && PullField(m).Some? && !Volatile(PullField(m).value)
    ensures var f := PullField(m).value;
            && k < |r.pulls| && r.pulls[k].item == m && 17 * k + 1 + Width(f) <= |response|
            && response[17 * k + 1..17 * k + 1 + Width(f)] == LastValue(r.pushes, f, Get(db.users[h], f))
  {
    hide Reply, Replies, Member, PullField, Volatile, LastValue, Get, Width, Answered, SlotHolds;
    var b := AnswersTo(random, db, User(h), r)[k];
    assert SlotHolds(response, k, b);
    AnswerCode(random, db, h, r, k, m);
    SlotBytes(response, k, b, 0);
    AnswerHolds(random, db, h, r, k);
    SlotBytes(response, k, b, Width(PullField(m).value));
  }

  /** Only the reply to a pull of a counter carries the code of one. */
  lemma CounterOfReply(db: Db, h: U32, g: Pull, c: Counter)
    requires h in db.users && Answered(g) && Reply(db, User(h), g) != [] && PullCounter(c.code) == Some(c)
    requires Member(Reply(db, User(h), g)[0]) == Some(c.code)
    ensures PullCounter(g.item).Some? && PullCounter(g.item).value.(increments := true) == c
  {
  }

  lemma CounterCode(random: nat -> Bytes16, db: Db, h: U32, r: Request, k: nat, c: Counter)
    requires h in db.users && k < |r.pulls| && Answered(r.pulls[k]) && PullCounter(c.code) == Some(c)
    ensures var b := AnswersTo(random, db, User(h), r)[k];
            && b != []
            && (Member(b[0]) == Some(c.code) ==>
                  && PullCounter(r.pulls[k].item).Some?
                  && PullCounter(r.pulls[k].item).value.(increments := true) == c)
  {
    var mid := ApplyPushes(db, User(h), r.pushes);
    var now := ApplyPulls(random, mid, User(h), r.pulls[..k]);
    assert h in now.users.Keys;
    ReplyAt(random, mid, User(h), r.pulls, k);
    hide Reply, Replies, Member, PullField, PullCounter, ApplyPushes, ApplyPulls, Answered;
    AnsweredNotEmpty(now, h, r.pulls[k]);
    var b := Reply(now, User(h), r.pulls[k]);
    if Member(b[0]) == Some(c.code) { CounterOfReply(now, h, r.pulls[k], c); }
  }

  /** The count of a field in its k-th reply. */
  function CountShown(db: Db, h: U32, r: Request, f: Field, k: nat): Octet
    requires h in db.users && k <= |r.pulls|
  {
    var v := Get(db.users[h], f);
    Shown(TallyPulls(r.pulls[..k], f, TallyPushes(r.pushes, f, Tally(v[0], 0))))
  }

  /** What a reply slot holds behind the code of a counter. */
  lemma ExtractedCount(random: nat -> Bytes16, db: Db, h: U32, r: Request, response: seq<Octet>, c: Counter, k: nat)
    requires h in db.users && forall i :: 0 <= i < |r.pulls| ==> Answered(r.pulls[i])
    requires 17 * |r.pulls| <= |response| && SlotsHold(response, AnswersTo(random, db, User(h), r), |r.pulls|)
    requires LastSlot(response, 17 * |r.pulls|, c.code, k) && PullCounter(c.code) == Some(c)
    ensures k < |r.pulls| && 17 * k + c.at < |response|
    ensures response[17 * k + c.at] == CountShown(db, h, r, c.field, k)
  {
    hide Reply, Replies, Member, PullCounter, TallyPulls, TallyPushes, Get, Width, Answered, SlotHolds, Shown;
    var b := AnswersTo(random, db, User(h), r)[k];
    assert SlotHolds(response, k, b);
    CounterCode(random, db, h, r, k, c);
    SlotBytes(response, k, b, 0);
    var v := Get(db.users[h], c.field);
    CounterAt(c.code);
    OldCount(v);
    AnswerCounts(random, db, h, r, k, Tally(v[0], 0));
    SlotBytes(response, k, b, 16);
    assert b[1..17][c.at - 1] == b[c.at];
  }

  /** What the k-th reply holds for the members of IMSI, MSIN and RAND, the pulls before it being given. */
  function OwnValue(random: nat -> Bytes16, db: Db, h: U32, before: seq<Pull>, m: Octet): seq<Octet>
    requires h in db.users
  {
    if m == IMSI then Get(db.users[h], Imsi)[..15] + [0]
    else if m == MSIN then Get(db.users[h], Imsi)[5..]
    else if Draws(before) > 0 then random(db.draws + Draws(before) - 1)
    else Get(db.users[h], Rand)
  }

  predicate IsOwn(m: Octet) {
    m == IMSI || m == MSIN || m == RAND
  }

  /** Position p holds it. */
  predicate HoldsOwn(random: nat -> Bytes16, db: Db, h: U32, gs: seq<Pull>, response: seq<Octet>, m: Octet, p: nat)
    requires h in db.users
  {
    IsOwn(m) ==>
      && p % 17 == 1 && p / 17 < |gs|
      && var v := OwnValue(random, db, h, gs[..p / 17], m);
         p + |v| <= |response| && response[p..p + |v|] == v
  }

  lemma OwnCode(db: Db, h: U32, g: Pull, m: Octet)
    requires h in db.users && Answered(g) && Reply(db, User(h), g) != [] && IsOwn(m)
    requires Member(Reply(db, User(h), g)[0]) == Some(m)
    ensures g.item == m || (m == RAND && g.item == RAND_UPDATE)
  {
  }

  lemma OwnReply(r: Record, g: Pull, m: Octet)
    requires IsOwn(m) && (g.item == m || (m == RAND && g.item == RAND_UPDATE))
    ensures g.item != GET_ENB
    ensures RecordReply(r, g.item)[1..] ==
            if m == IMSI then Get(r, Imsi)[..15] + [0] else if m == MSIN then Get(r, Imsi)[5..] else Get(r, Rand)
  {
    ReplyBytes(r);
    ImsiBytes(r);
    hide RecordReply;
  }

  lemma ExtractedOwn(random: nat -> Bytes16, db: Db, h: U32, r: Request, response: seq<Octet>, m: Octet, k: nat)
    requires h in db.users && forall i :: 0 <= i < |r.pulls| ==> Answered(r.pulls[i])
    requires 17 * |r.pulls| <= |response| && SlotsHold(response, AnswersTo(random, db, User(h), r), |r.pulls|)
    requires LastSlot(response, 17 * |r.pulls|, m, k) && IsOwn(m)
    ensures HoldsOwn(random, db, h, r.pulls, response, m, 17 * k + 1)
  {
    hide Reply, Replies, Member, Get, Answered, SlotHolds, RecordReply, Found, AnswersTo, Draws, IsOwn;
    var b, found := AnswersTo(random, db, User(h), r)[k], Found(random, db, h, r, k);
    assert SlotHolds(response, k, b);
    OwnItem(random, db, h, r, k, m);
    SlotBytes(response, k, b, 0);
    OwnReply(found, r.pulls[k], m);
    ReplyFromFound(random, db, h, r, k);
    FoundKeeps(random, db, h, r, k, Imsi);
    FoundRand(random, db, h, r, k);
    SlotBytes(response, k, b, |b| - 1);
    assert b[1..1 + (|b| - 1)] == b[1..];
  }

  lemma OwnItem(random: nat -> Bytes16, db: Db, h: U32, r: Request, k: nat, m: Octet)
    requires h in db.users && k < |r.pulls| && Answered(r.pulls[k]) && IsOwn(m)
    ensures var b := AnswersTo(random, db, User(h), r)[k];
            && b != []
            && (Member(b[0]) == Some(m) ==> r.pulls[k].item == m || (m == RAND && r.pulls[k].item == RAND_UPDATE))
  {
    var mid := ApplyPushes(db, User(h), r.pushes);
    var now := ApplyPulls(random, mid, User(h), r.pulls[..k]);
    assert h in now.users.Keys;
    ReplyAt(random, mid, User(h), r.pulls, k);
    hide Reply, Replies, Member, ApplyPushes, ApplyPulls, Answered;
    AnsweredNotEmpty(now, h, r.pulls[k]);
    var b := Reply(now, User(h), r.pulls[k]);
    if Member(b[0]) == Some(m) { OwnCode(now, h, r.pulls[k], m); }
  }

  // ----- db_access -----

  /** The zeroed rest of a request buffer ends every identifier. */
  lemma FormedTerminated(key: Octet, keyValue: seq<Octet>)
    requires IdWidth(key).Some? && |keyValue| >= IdWidth(key).value
    ensures Terminated(IdBytes(key, keyValue, Zeros(17)))
  {
    var id := IdBytes(key, keyValue, Zeros(17));
    if key == IMSI { assert id[7..][9] == 0; }
    if key == MSIN { assert id[2..][14] == 0; }
  }

  /** The request a worker means by its arguments. */
  function Asked(key: Octet, keyValue: seq<Octet>, args: seq<PushArg>, items: seq<Octet>): Request
    requires IdWidth(key).Some? && |keyValue| >= IdWidth(key).value
  {
    var size := DbBufferInputSize(|args|, |items|) + 1;
    Request(IdBytes(key, keyValue, Zeros(17)), PushesOf(args, Zeros(size), 17), Meant(items))
  }

  /** What callers pass: known items only. */
  predicate Askable(args: seq<PushArg>, items: seq<Octet>) {
    && (forall a :: a in args ==> a.Item? && Supported(a) && Readable(a))
    && (forall i :: 0 <= i < |items| ==>
       items[i] != EOM && items[i] != GET_ENB && Answered(Pull(items[i], [0, 0, 0, 0])))
  }

  lemma AskedIsProper(key: Octet, keyValue: seq<Octet>, args: seq<PushArg>, items: seq<Octet>, h: U32, capacity: nat)
    requires IdWidth(key).Some? && |keyValue| >= IdWidth(key).value && Askable(args, items)
    requires 17 * |items| <= capacity && capacity >= 1
    ensures Proper(Asked(key, keyValue, args, items), User(h), capacity)
  {
    hide IdBytes, Answered;
    PushedItems(args, Zeros(DbBufferInputSize(|args|, |items|) + 1), 17);
  }

  lemma {:induction false} PushedItems(args: seq<PushArg>, b: seq<Octet>, at: nat)
    requires at + 17 * |args| <= |b| && forall a :: a in args ==> a.Item? && Supported(a)
    ensures forall p :: p in PushesOf(args, b, at) ==> p.item != 0
  {
    hide Front;
    if args != [] {
      var n := |args| - 1;
      assert args == args[..n] + [args[n]];
      PushedItems(args[..n], b, at);
    }
  }

  lemma AskedAboutUser(db: Db, key: Octet, keyValue: seq<Octet>, q: seq<Octet>)
    requires IdWidth(key).Some? && |keyValue| >= IdWidth(key).value && IdBytes(key, keyValue, Zeros(17)) <= q
    ensures Identify(db, q) == Identify(db, IdBytes(key, keyValue, Zeros(17)))
    ensures Identify(db, q).Some? ==> Identify(db, q).value.User? && Identify(db, q).value.h in db.users
  {
    var id := IdBytes(key, keyValue, Zeros(17));
    FormedTerminated(key, keyValue);
    assert id[0] == key;
    hide IdBytes, Terminated, IdHash;
    IdentifyByPrefix(db, id, q);
  }

  /** A pull item whose reply reads the subscriber's record. */
  predicate Reads(item: Octet) {
    PullCounter(item).Some? || PullField(item).Some? || item == IMSI || item == MSIN
  }

  /** The member that its reply fills. */
  function MemberOf(item: Octet): Octet {
    if PullCounter(item).Some? then PullCounter(item).value.code else if item == RAND_UPDATE then RAND else item
  }

  /** Every reply code fills a member. */
  lemma MemberOfItem(item: Octet)
    requires Reads(item)
    ensures Member(if PullCounter(item).Some? then PullCounter(item).value.code else item) == Some(MemberOf(item))
  {
  }

  /** Position p holds the field that member m stands for, after the request's pushes, or its count, after these and the
      earlier pulls of the request. */
  ghost predicate Delivers(db: Db, h: U32, r: Request, response: seq<Octet>, m: Octet, p: nat)
    requires h in db.users
  {
    && (PullField(m).Some? && !Volatile(PullField(m).value) ==>
          var f := PullField(m).value;
          p + Width(f) <= |response| && response[p..p + Width(f)] == LastValue(r.pushes, f, Get(db.users[h], f)))
    && (PullCounter(m).Some? && PullCounter(m).value.code == m ==>
          var c := PullCounter(m).value;
          && p % 17 == 1 && p / 17 < |r.pulls| && p + c.at - 1 < |response|
          && response[p + c.at - 1] == CountShown(db, h, r, c.field, p / 17))
  }

  /** The members found in an answer point at what the server took last, and none that was pulled is missing. */
  lemma AllDelivered(random: nat -> Bytes16, db: Db, h: U32, r: Request, response: seq<Octet>, pulls: map<Octet, nat>,
                     slots: map<Octet, nat>)
    requires h in db.users && forall i :: 0 <= i < |r.pulls| ==> Answered(r.pulls[i])
    requires 17 * |r.pulls| <= |response| && SlotsHold(response, AnswersTo(random, db, User(h), r), |r.pulls|)
    requires pulls.Keys == slots.Keys
    requires forall m :: m in pulls ==> pulls[m] == 17 * slots[m] + 1 && LastSlot(response, 17 * |r.pulls|, m, slots[m])
    requires forall k: nat :: 17 * k < 17 * |r.pulls| && Member(response[17 * k]).Some? ==>
        Member(response[17 * k]).value in pulls
    ensures forall m :: m in pulls ==> Delivers(db, h, r, response, m, pulls[m])
    ensures forall m :: m in pulls ==> HoldsOwn(random, db, h, r.pulls, response, m, pulls[m])
    ensures forall g :: g in r.pulls && Reads(g.item) ==> MemberOf(g.item) in pulls
  {
    hide *;
    forall m | m in pulls
      ensures Delivers(db, h, r, response, m, pulls[m]) && HoldsOwn(random, db, h, r.pulls, response, m, pulls[m]) {
      DeliveredAt(random, db, h, r, response, m, slots[m]);
    }
    forall g | g in r.pulls && Reads(g.item) ensures MemberOf(g.item) in pulls {
      var k :| 0 <= k < |r.pulls| && r.pulls[k] == g;
      ReplyMember(random, db, h, r, response, k);
      assert 17 * k < 17 * |r.pulls|;
    }
  }

  lemma DeliveredAt(random: nat -> Bytes16, db: Db, h: U32, r: Request, response: seq<Octet>, m: Octet, k: nat)
    requires h in db.users && forall i :: 0 <= i < |r.pulls| ==> Answered(r.pulls[i])
    requires 17 * |r.pulls| <= |response| && SlotsHold(response, AnswersTo(random, db, User(h), r), |r.pulls|)
    requires LastSlot(response, 17 * |r.pulls|, m, k)
    ensures Delivers(db, h, r, response, m, 17 * k + 1)
    ensures HoldsOwn(random, db, h, r.pulls, response, m, 17 * k + 1)
  {
    hide Member, PullField, PullCounter, Volatile, AnswersTo, LastValue, Get, Width, Answered, LastSlot, SlotsHold,
        CountShown, IsOwn;
    if IsOwn(m) { ExtractedOwn(random, db, h, r, response, m, k); }
    if PullField(m).Some? && !Volatile(PullField(m).value) {
      ExtractedValue(random, db, h, r, response, m, k);
    }
    if PullCounter(m).Some? && PullCounter(m).value.code == m {
      ExtractedCount(random, db, h, r, response, PullCounter(m).value, k);
    }
  }

  lemma ReplyMember(random: nat -> Bytes16, db: Db, h: U32, r: Request, response: seq<Octet>, k: nat)
    requires h in db.users && k < |r.pulls| && Reads(r.pulls[k].item)
    requires 17 * |r.pulls| <= |response| && SlotsHold(response, AnswersTo(random, db, User(h), r), |r.pulls|)
    ensures Member(response[17 * k]) == Some(MemberOf(r.pulls[k].item))
  {
    hide Member, PullField, PullCounter, AnswersTo, SlotHolds, Reads, MemberOf, Found, RecordReply;
    var item, b := r.pulls[k].item, AnswersTo(random, db, User(h), r)[k];
    assert SlotHolds(response, k, b);
    ReplyCode(Found(random, db, h, r, k), item);
    ReplyFromFound(random, db, h, r, k);
    SlotBytes(response, k, b, 0);
    MemberOfItem(item);
  }

  lemma ReplyCode(r: Record, item: Octet)
    requires Reads(item)
    ensures var b := RecordReply(r, item);
            && item != GET_ENB && b != []
            && b[0] == if PullCounter(item).Some? then PullCounter(item).value.code else item
  {
    hide Part;
  }

  /** What the server made of a request, in its tables and in the response. */
  ghost predicate Handled(random: nat -> Bytes16, db: Db, r: Request, after: Db, response: seq<Octet>, n: nat) {
    var who := Identify(db, r.id);
    if who.None? then after == db && n == 1
    else
      && who.value.User? && who.value.h in db.users
      && after == Effect(random, db, who.value, r) && n == 17 * |r.pulls| <= |response|
      && SlotsHold(response, AnswersTo(random, db, who.value, r), |r.pulls|)
  }

  /** The server's part: what it makes of the bytes that are sent. */
  method Exchange(server: Server, response: array<Octet>, q: seq<Octet>, ghost r: Request) returns (n: nat)
    requires server.Valid() && (response as object) !in server.Repr() && response.Length >= 1
    requires q == Body(r.id, r.pushes, r.pulls) && |q| >= 17
    requires var who := Identify(server.View(), q);
             && who == Identify(server.View(), r.id)
             && (who.Some? ==>
                   who.value.User? && who.value.h in server.View().users && Proper(r, who.value, response.Length))
    modifies server.Repr(), response
    ensures server.Valid() && fresh(server.Repr() - old(server.Repr()))
    ensures Handled(server.random, old(server.View()), r, server.View(), response[..], n)
  {
    hide Server.Valid, Server.Repr, Server.View, Proper, Body, SlotsHold, Identify;
    ghost var db, who := server.View(), Identify(server.View(), q);
    if who.Some? { WorkerRequest(server.random, db, who.value, r, response.Length); }
    assert |q| >= 18 by { BodyLength(r); }
    var consumed;
    consumed, n := server.AnalyzeRequest(q, |q|, response);
  }

  lemma BodyLength(r: Request)
    ensures |Body(r.id, r.pushes, r.pulls)| >= 18 && r.id <= Body(r.id, r.pushes, r.pulls)
  {
    assert Body(r.id, r.pushes, r.pulls) == r.id + (EncodePushes(r.pushes) + [0] + EncodePulls(r.pulls));
  }

  lemma AskedBody(key: Octet, keyValue: seq<Octet>, args: seq<PushArg>, items: seq<Octet>, q: seq<Octet>)
    requires IdWidth(key).Some? && |keyValue| >= IdWidth(key).value && Askable(args, items)
    requires |q| == DbBufferInputSize(|args|, |items|) && Leading(Formed(key, keyValue, args, items, |q| + 1), q)
    ensures var r := Asked(key, keyValue, args, items);
            && q == Body(r.id, r.pushes, r.pulls) && r.id == IdBytes(key, keyValue, Zeros(17)) && |r.pulls| == |items|
            && forall i :: 0 <= i < |items| ==> Answered(r.pulls[i])
  {
    hide Answered, Supported, Readable, IdWidth, IdBytes, Formed, Leading, PushesOf, Meant, Body;
    DbRequestIsBody(key, keyValue, args, items, q);
  }

  /** For a known subscriber the request is carried out, every member that the pulls fill points at the value last
      taken for its field, be it of this request, and no pulled field or counter is missing. For an unknown one nothing
      changes, and the assertion on the length of the answer fails if anything was pulled. */
  ghost predicate Served(random: nat -> Bytes16, db: Db, r: Request, after: Db, response: seq<Octet>, complete: bool,
                         pulls: map<Octet, nat>)
  {
    var who := Identify(db, r.id);
    if who.None? then after == db && pulls == map[] && (complete <==> r.pulls == [])
    else
      && complete && who.value.User? && who.value.h in db.users
      && after == Effect(random, db, who.value, r)
      && (forall m :: m in pulls ==> Delivers(db, who.value.h, r, response, m, pulls[m]))
      && (forall m :: m in pulls ==> HoldsOwn(random, db, who.value.h, r.pulls, response, m, pulls[m]))
      && forall g :: g in r.pulls && Reads(g.item) ==> MemberOf(g.item) in pulls
  }

  /** The end of db_access: the check of the answer's length and the search for its values. */
  method Collect(response: array<Octet>, n: nat, numPull: nat, ghost random: nat -> Bytes16, ghost db: Db,
                 ghost r: Request, ghost after: Db)
      returns (complete: bool, pulls: map<Octet, nat>)
    requires Handled(random, db, r, after, response[..], n) && numPull == |r.pulls|
    requires forall i :: 0 <= i < |r.pulls| ==> Answered(r.pulls[i])
    ensures Served(random, db, r, after, response[..], complete, pulls)
  {
    hide Identify, Delivers, HoldsOwn, Reads, MemberOf, LastSlot, Member, Answered, SlotHolds;
    complete, pulls := true, map[];
    if numPull > 0 {
      complete := n == 17 * numPull;
      if complete {
        ghost var slots;
        pulls, slots := ExtractDbValues(response[..], n);
        AllDelivered(random, db, Identify(db, r.id).value.h, r, response[..], pulls, slots);
      }
    }
  }

  /** Position p of an answer holds what the caller of a request with these arguments expects of a field: the value last
      given by the arguments, or else the stored one. It does if and only if the field is not the PDN IP, or the
      arguments give none, or the one they give is stored already. */
  ghost predicate ReturnsField(db: Db, h: U32, args: seq<PushArg>, response: seq<Octet>, m: Octet, p: nat)
    requires h in db.users && PullField(m).Some?
  {
    var f := PullField(m).value;
    var v, g := Get(db.users[h], f), LastArg(args, f);
    && p + Width(f) <= |response|
    && (response[p..p + Width(f)] == Or(g, v) <==> m != PDN_IP || g.None? || g.value == v)
  }

  /** The same of a counter: that value plus the pulls before. It does if and only if the counter is not a NAS count, or
      the arguments give none, or they give zero. */
  ghost predicate ReturnsCount(db: Db, h: U32, args: seq<PushArg>, items: seq<Octet>, response: seq<Octet>, m: Octet,
                               p: nat)
    requires h in db.users && PullCounter(m).Some?
  {
    var c := PullCounter(m).value;
    var v, g := Get(db.users[h], c.field), LastArg(args, c.field);
    && p % 17 == 1 && p / 17 < |items| && |v| == |Or(g, v)| == 1 && 1 <= p + c.at <= |response|
    && (response[p + c.at - 1] == Shown(Tally(Or(g, v)[0], CountPulls(Meant(items)[..p / 17], c.field)))
        <==> m == NEXT_HOP_CHAINING_COUNT || g.None? || g.value == [0])
  }

  ghost predicate Returns(db: Db, h: U32, args: seq<PushArg>, items: seq<Octet>, response: seq<Octet>, m: Octet, p: nat)
    requires h in db.users
  {
    && (PullField(m).Some? && !Volatile(PullField(m).value) ==> ReturnsField(db, h, args, response, m, p))
    && (PullCounter(m).Some? && PullCounter(m).value.code == m ==> ReturnsCount(db, h, args, items, response, m, p))
  }

  lemma {:induction false} FieldReturns(db: Db, h: U32, args: seq<PushArg>, size: nat, r: Request,
                                        response: seq<Octet>, m: Octet, p: nat)
    requires 17 + 17 * |args| <= size && r.pushes == PushesOf(args, Zeros(size), 17)
    requires h in db.users && Delivers(db, h, r, response, m, p)
    requires PullField(m).Some? && !Volatile(PullField(m).value)
    ensures ReturnsField(db, h, args, response, m, p)
  {
    hide PullField, PullCounter, Volatile, Get, Width, PushesOf, LastArg, LastGiven, LastValue, NasCount, CountShown;
    var f := PullField(m).value;
    PulledPdnIp(m);
    ArgsAreGiven(args, Zeros(size), 17, f);
    TakenIsGiven(r.pushes, f, None, Get(db.users[h], f));
  }

  lemma {:induction false} CountReturns(db: Db, h: U32, args: seq<PushArg>, items: seq<Octet>, size: nat, r: Request,
                     response: seq<Octet>, m: Octet, p: nat)
    requires 17 + 17 * |args| <= size && r.pushes == PushesOf(args, Zeros(size), 17) && r.pulls == Meant(items)
    requires h in db.users && Delivers(db, h, r, response, m, p)
    requires PullCounter(m).Some? && PullCounter(m).value.code == m
    ensures ReturnsCount(db, h, args, items, response, m, p)
  {
    hide PullField, PullCounter, Volatile, Get, Width, PushesOf, LastArg, TallyPushes, TallyPulls, CountPulls, NasCount,
        IsCounter, Meant, Shown;
    var c := PullCounter(m).value;
    var v, g := Get(db.users[h], c.field), LastArg(args, c.field);
    var t := Tally(v[0], 0);
    CounterAt(m);
    NasCode(m);
    ArgsTallied(args, size, c.field, t);
    var base := if g.None? then v[0] else if NasCount(c.field) then 0 else g.value[0];
    PullsOnlyCount(r.pulls[..p / 17], c.field, Tally(base, 0));
    SameShown(base, Or(g, v)[0], CountPulls(r.pulls[..p / 17], c.field));
  }

  lemma NasCode(m: Octet)
    requires PullCounter(m).Some? && PullCounter(m).value.code == m
    ensures NasCount(PullCounter(m).value.field) <==> m != NEXT_HOP_CHAINING_COUNT
  {
  }

  lemma DeliveredReturns(db: Db, h: U32, key: Octet, keyValue: seq<Octet>, args: seq<PushArg>, items: seq<Octet>,
                         response: seq<Octet>, m: Octet, p: nat)
    requires IdWidth(key).Some? && |keyValue| >= IdWidth(key).value
    requires h in db.users && Delivers(db, h, Asked(key, keyValue, args, items), response, m, p)
    ensures Returns(db, h, args, items, response, m, p)
  {
    hide PullField, PullCounter, Volatile, PushesOf, Meant, IdBytes, Delivers, ReturnsField, ReturnsCount, IdWidth;
    var r, size := Asked(key, keyValue, args, items), DbBufferInputSize(|args|, |items|) + 1;
    if PullField(m).Some? && !Volatile(PullField(m).value) {
      FieldReturns(db, h, args, size, r, response, m, p);
    }
    if PullCounter(m).Some? && PullCounter(m).value.code == m {
      CountReturns(db, h, args, items, size, r, response, m, p);
    }
  }

  /** What db_access promises its caller about the members it fills. */
  ghost predicate AllReturned(random: nat -> Bytes16, db: Db, who: Option<Subject>, args: seq<PushArg>,
                              items: seq<Octet>, response: seq<Octet>, pulls: map<Octet, nat>)
  {
    who.Some? ==>
      && who.value.User? && who.value.h in db.users
      && (forall m :: m in pulls ==> Returns(db, who.value.h, args, items, response, m, pulls[m]))
      && forall m :: m in pulls ==> HoldsOwn(random, db, who.value.h, Meant(items), response, m, pulls[m])
  }

  lemma ServedReturns(random: nat -> Bytes16, db: Db, key: Octet, keyValue: seq<Octet>, args: seq<PushArg>,
                      items: seq<Octet>, after: Db, response: seq<Octet>, complete: bool, pulls: map<Octet, nat>)
    requires IdWidth(key).Some? && |keyValue| >= IdWidth(key).value
    requires Served(random, db, Asked(key, keyValue, args, items), after, response, complete, pulls)
    ensures AllReturned(random, db, Identify(db, IdBytes(key, keyValue, Zeros(17))), args, items, response, pulls)
  {
    hide Identify, IdBytes, IdWidth, PushesOf, Meant, Delivers, Returns, HoldsOwn, Effect, MemberOf, Reads;
    var who := Identify(db, Asked(key, keyValue, args, items).id);
    if who.Some? {
      forall m | m in pulls ensures Returns(db, who.value.h, args, items, response, m, pulls[m]) {
        DeliveredReturns(db, who.value.h, key, keyValue, args, items, response, m, pulls[m]);
      }
    }
  }

  lemma AskedReady(db: Db, key: Octet, keyValue: seq<Octet>, args: seq<PushArg>, items: seq<Octet>, q: seq<Octet>,
      capacity: nat)
    requires IdWidth(key).Some? && |keyValue| >= IdWidth(key).value && Askable(args, items)
    requires |q| == DbBufferInputSize(|args|, |items|) && Leading(Formed(key, keyValue, args, items, |q| + 1), q)
    requires 17 * |items| <= capacity && capacity >= 1
    ensures var r := Asked(key, keyValue, args, items); var who := Identify(db, r.id);
            && q == Body(r.id, r.pushes, r.pulls) && |q| >= 17 && |r.pulls| == |items|
            && (forall i :: 0 <= i < |r.pulls| ==> Answered(r.pulls[i]))
            && who == Identify(db, q)
            && (who.Some? ==> who.value.User? && who.value.h in db.users && Proper(r, who.value, capacity))
  {
    hide Askable, Answered, Identify, Asked, Body, IdWidth, Proper;
    AskedBody(key, keyValue, args, items, q);
    BodyLength(Asked(key, keyValue, args, items));
    AskedAboutUser(db, key, keyValue, q);
    if Identify(db, q).Some? { AskedIsProper(key, keyValue, args, items, Identify(db, q).value.h, capacity); }
  }

  /** db_access. */
  method DbAccess(server: Server, response: array<Octet>, key: Octet, keyValue: seq<Octet>, args: seq<PushArg>,
                  items: seq<Octet>) returns (complete: bool, pulls: map<Octet, nat>)
    requires server.Valid() && (response as object) !in server.Repr() && response.Length >= 1
        && 17 * |items| <= response.Length
    requires IdWidth(key).Some? && |keyValue| >= IdWidth(key).value && Askable(args, items)
    modifies server.Repr(), response
    ensures server.Valid() && fresh(server.Repr() - old(server.Repr()))
    ensures Served(server.random, old(server.View()), Asked(key, keyValue, args, items), server.View(), response[..],
                   complete, pulls)
    ensures
      var who := Identify(old(server.View()), IdBytes(key, keyValue, Zeros(17)));
      AllReturned(server.random, old(server.View()), who, args, items, response[..], pulls)
  {
    hide Answered, Served, Handled, AllReturned, Identify, Asked, Body, IdWidth, Supported, Readable, IdBytes, Formed,
        Leading, Proper, Server.View, Server.Valid, Zeros, Meant, Sent;
    ghost var db := server.View();
    var q := DbRequest(key, keyValue, args, items);
    AskedReady(server.View(), key, keyValue, args, items, q, response.Length);
    complete, pulls := SendAndCollect(server, response, q, |items|, Asked(key, keyValue, args, items));
    ServedReturns(server.random, db, key, keyValue, args, items, server.View(), response[..], complete, pulls);
  }

  /** The part of db_access under the lock of the socket. */
  method SendAndCollect(server: Server, response: array<Octet>, q: seq<Octet>, numPull: nat, ghost r: Request)
      returns (complete: bool, pulls: map<Octet, nat>)
    requires server.Valid() && (response as object) !in server.Repr() && response.Length >= 1
    requires q == Body(r.id, r.pushes, r.pulls) && |q| >= 17 && numPull == |r.pulls|
    requires forall i :: 0 <= i < |r.pulls| ==> Answered(r.pulls[i])
    requires var who := Identify(server.View(), q);
             && who == Identify(server.View(), r.id)
             && (who.Some? ==>
                   who.value.User? && who.value.h in server.View().users && Proper(r, who.value, response.Length))
    modifies server.Repr(), response
    ensures server.Valid() && fresh(server.Repr() - old(server.Repr()))
    ensures Served(server.random, old(server.View()), r, server.View(), response[..], complete, pulls)
  {
    hide Server.View, Answered, Served, Handled, Identify, Body, Proper;
    ghost var db := server.View();
    var n := Exchange(server, response, q, r);
    complete, pulls := Collect(response, n, numPull, server.random, db, r, server.View());
  }
}
