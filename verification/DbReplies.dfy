/** What a subscriber's pulls are answered with, item by item, in every state that requests reach from a loaded file. */
module DbReplies {
  import opened Bytes
  import opened DbFields
  import opened DbIdentities
  import opened DbProtocol
  import opened DbTheorems
  import opened LibCk
  import opened Records
  import opened Slices

  // ----- one reply -----

  /** The record that the k-th pull of a request finds. */
  function Found(random: nat -> Bytes16, db: Db, h: U32, r: Request, k: nat): Record
    requires h in db.users && k <= |r.pulls|
  {
    var now := ApplyPulls(random, ApplyPushes(db, User(h), r.pushes), User(h), r.pulls[..k]);
    assert h in now.users.Keys;
    now.users[h]
  }

  lemma ReplyFromFound(random: nat -> Bytes16, db: Db, h: U32, r: Request, k: nat)
    requires h in db.users && k < |r.pulls| && r.pulls[k].item != GET_ENB
    ensures AnswersTo(random, db, User(h), r)[k] == RecordReply(Found(random, db, h, r, k), r.pulls[k].item)
  {
    hide ApplyPushes, ApplyPulls, Replies, RecordReply;
    var mid := ApplyPushes(db, User(h), r.pushes);
    ReplyAt(random, mid, User(h), r.pulls, k);
    assert h in ApplyPulls(random, mid, User(h), r.pulls[..k]).users.Keys;
  }

  /** Fields that no push writes and no pull changes are found as they were. */
  lemma {:induction false} FoundKeeps(random: nat -> Bytes16, db: Db, h: U32, r: Request, k: nat, f: Field)
    requires h in db.users && k <= |r.pulls| && f in {Imsi, Key, Opc, Tmsi, EpcTeid, PdnIpv4}
    ensures Get(Found(random, db, h, r, k), f) == Get(db.users[h], f)
  {
    hide ApplyPushes, ApplyPulls, Get, LastValue, Volatile;
    var mid := ApplyPushes(db, User(h), r.pushes);
    assert h in mid.users.Keys;
    NeverWritten(f);
    NoValue(r.pushes, f, Get(db.users[h], f));
    AllPushes(db, User(h), r.pushes, h, f);
    AllPulls(random, mid, User(h), r.pulls[..k], h, f);
  }

  lemma NeverWritten(f: Field)
    requires f in {Imsi, Key, Opc, Tmsi, EpcTeid, PdnIpv4}
    ensures !Volatile(f) && forall p: Push :: !Takes(p, f)
  {
  }

  lemma {:induction false} FoundRand(random: nat -> Bytes16, db: Db, h: U32, r: Request, k: nat)
    requires h in db.users && k <= |r.pulls|
    ensures var d := Draws(r.pulls[..k]);
            Get(Found(random, db, h, r, k), Rand) ==
            if d > 0 then random(db.draws + d - 1) else Get(db.users[h], Rand)
  {
    hide ApplyPushes, ApplyPulls, Get, Draws;
    var mid := ApplyPushes(db, User(h), r.pushes);
    assert h in mid.users.Keys && mid.draws == db.draws;
    AllPushes(db, User(h), r.pushes, h, Rand);
    RandNotTaken(r.pushes, Get(db.users[h], Rand));
    PullsDraw(random, mid, User(h), r.pulls[..k], h);
  }

  /** A reply that copies from the record. */
  lemma CopyBytes(r: Record, item: Octet, f: Field)
    requires PullField(item) == Some(f)
    ensures Offset(f) <= SIZE && RecordReply(r, item) == [item] + Part(r, Offset(f), CopyLength(item))
    ensures CopyLength(item) == Width(f) ==> RecordReply(r, item) == [item] + Get(r, f)
  {
    FieldsApart(f, Imsi);
    hide Part, Width, Offset;
    WholePart(r, f);
  }

  lemma WholePart(r: Record, f: Field)
    ensures Offset(f) <= SIZE && Part(r, Offset(f), Width(f)) == Get(r, f)
  {
    FieldsApart(f, Imsi);
    hide Offset, Width;
  }

  /** The replies that are one field behind their item. */
  lemma ReplyBytes(r: Record)
    ensures RecordReply(r, KEY) == [KEY] + Get(r, Key) && RecordReply(r, OPC) == [OPC] + Get(r, Opc)
    ensures RecordReply(r, RAND) == [RAND] + Get(r, Rand)
    ensures RecordReply(r, RAND_UPDATE) == [RAND_UPDATE] + Get(r, Rand)
    ensures RecordReply(r, TMSI) == [TMSI] + Get(r, Tmsi) && RecordReply(r, EPC_TEID) == [EPC_TEID] + Get(r, EpcTeid)
    ensures RecordReply(r, MME_UE_S1AP_ID) == [MME_UE_S1AP_ID] + Get(r, MmeUeId)
  {
    hide RecordReply, Part, Get, Offset;
    CopyBytes(r, KEY, Key);
    CopyBytes(r, OPC, Opc);
    CopyBytes(r, RAND, Rand);
    CopyBytes(r, RAND_UPDATE, Rand);
    CopyBytes(r, TMSI, Tmsi);
    CopyBytes(r, EPC_TEID, EpcTeid);
    CopyBytes(r, MME_UE_S1AP_ID, MmeUeId);
  }

  lemma ImsiBytes(r: Record)
    ensures RecordReply(r, IMSI) == [IMSI] + Get(r, Imsi)[..15] + [0]
    ensures RecordReply(r, MSIN) == [MSIN] + Get(r, Imsi)[5..]
  {
    assert Part(r, Offset(Imsi) + 5, 11) == Get(r, Imsi)[5..];
  }

  lemma LongReply(r: Record, item: Octet, f: Field, g: Field, b: nat)
    requires PullField(item) == Some(f) && Offset(g) == Offset(f) + Width(f)
    requires CopyLength(item) == Width(f) + b && b <= Width(g)
    ensures RecordReply(r, item) == [item] + (Get(r, f) + Get(r, g)[..b])
  {
    CopyBytes(r, item, f);
    FieldsApart(g, Imsi);
    hide RecordReply, Width, Offset, CopyLength, PullField;
    var o, m := Offset(f), Offset(g);
    assert Part(r, o, Width(f) + b) == r[o..m + b];
    Join(r, o, m, m + b);
    Inner(r, m, m + Width(g), 0, b);
  }

  /** The replies that copy more than their field: behind it come the bytes of the next one, up to the record's end. */
  lemma LongReplies(r: Record)
    ensures RecordReply(r, SPGW_IP) == [SPGW_IP] + (Get(r, SpgwIp) + Get(r, EnbIp)[..3])
    ensures RecordReply(r, ENB_IP) == [ENB_IP] + (Get(r, EnbIp) + Get(r, PdnIpv4)[..4])
    ensures RecordReply(r, PDN_IP) == [PDN_IP] + (Get(r, PdnIpv4) + Get(r, AuthRes)[..5])
  {
    hide RecordReply, Get;
    LongReply(r, SPGW_IP, SpgwIp, EnbIp, 3);
    LongReply(r, ENB_IP, EnbIp, PdnIpv4, 4);
    LongReply(r, PDN_IP, PdnIpv4, AuthRes, 5);
  }

  lemma SocketReplies(r: Record)
    ensures RecordReply(r, ENB_SOURCE_SOCKET) == [ENB_SOURCE_SOCKET] + (Get(r, SourceSocket) + Get(r, TargetSocket))
    ensures RecordReply(r, ENB_TARGET_SOCKET) == [ENB_TARGET_SOCKET] + Get(r, TargetSocket)
  {
    hide RecordReply;
    CopyBytes(r, ENB_SOURCE_SOCKET, SourceSocket);
    CopyBytes(r, ENB_TARGET_SOCKET, TargetSocket);
    assert r[207..215] == r[207..211] + r[211..215];
  }

  /** A pull without increment is answered as the other pull of the uplink count, and changes nothing; the other one
      counts that count up and nothing else. */
  lemma {:induction false} PeekedCount(random: nat -> Bytes16, db: Db, h: U32, arg: Bytes4)
    requires h in db.users
    ensures var peek, pull := Pull(UE_NAS_SEQUENCE_NUMBER_NO_INC, arg), Pull(UE_NAS_SEQUENCE_NUMBER, arg);
            && Reply(db, User(h), peek) == Reply(db, User(h), pull) && ApplyPull(random, db, User(h), peek) == db
            && var now := ApplyPull(random, db, User(h), pull);
               && h in now.users
               && Get(now.users[h], UeNasCount) == [(Get(db.users[h], UeNasCount)[0] as int + 1) % 256]
               && forall f: Field :: f != UeNasCount ==> Get(now.users[h], f) == Get(db.users[h], f)
  {
    var r, v := db.users[h], [(Get(db.users[h], UeNasCount)[0] as int + 1) % 256];
    hide Get, Set;
    forall f: Field ensures Get(Set(r, UeNasCount, v), f) == if f == UeNasCount then v else Get(r, f) {
      GetSet(r, UeNasCount, f, v);
    }
  }

  // ----- a subscriber of a file -----

  /** The replies that tell a subscriber's identities and keys, in terms of its line. */
  predicate TellsLine(b: seq<Octet>, item: Octet, line: Record, h: U32) {
    && (item == KEY ==> b == [KEY] + Get(line, Key))
    && (item == OPC ==> b == [OPC] + Get(line, Opc))
    && (item == TMSI ==> b == [TMSI] + Pack32(h))
    && (item == EPC_TEID ==> b == [EPC_TEID] + Pack32(h))
    && (item == IMSI ==> b == [IMSI] + Get(line, Imsi))
    && (item == MSIN ==> b == [MSIN] + Get(line, Imsi)[5..])
    && (item == PDN_IP ==> |b| >= 5 && b[..5] == [PDN_IP] + PdnIp(h))
  }

  /** In every state that any requests reach from a file, any request of one of its subscribers is answered with the
      key, the OPc and the IMSI of the first line with its last nine digits, and with the identities made of these
      digits. */
  lemma {:induction false} RepliesTellLine(random: nat -> Bytes16, rs: seq<Record>, accesses: seq<Access>, i: nat,
                                           r: Request, k: nat)
    requires AllProperImsi(rs) && i < |rs| && k < |r.pulls|
    ensures var db, h := RunAll(random, LoadAll(random, EMPTY, rs), accesses), Number(rs[i]);
            && h in db.users
            && TellsLine(AnswersTo(random, db, User(h), r)[k], r.pulls[k].item, rs[FirstLike(rs, i)], h)
  {
    hide RunAll, LoadAll, RecordReply, Get, FirstLike, Number, ProperImsi, Pack32, PdnIp, Found, AnswersTo;
    var db, h := RunAll(random, LoadAll(random, EMPTY, rs), accesses), Number(rs[i]);
    var line := rs[FirstLike(rs, i)];
    assert ProperImsi(Get(line, Imsi));
    LineIsKept(random, rs, accesses, i);
    if r.pulls[k].item in {KEY, OPC, TMSI, EPC_TEID, IMSI, MSIN, PDN_IP} {
      var found := Found(random, db, h, r, k);
      NoEnbPull(r.pulls[k].item);
      ReplyFromFound(random, db, h, r, k);
      FoundKeeps(random, db, h, r, k, Key);
      FoundKeeps(random, db, h, r, k, Opc);
      FoundKeeps(random, db, h, r, k, Imsi);
      FoundKeeps(random, db, h, r, k, Tmsi);
      FoundKeeps(random, db, h, r, k, EpcTeid);
      FoundKeeps(random, db, h, r, k, PdnIpv4);
      ReplyBytes(found);
      ImsiBytes(found);
      PdnIpBytes(found);
      ImsiEnds(Get(line, Imsi));
      PdnIpStays(random, rs, accesses, i);
    }
  }

  lemma PdnIpBytes(r: Record)
    ensures var b := RecordReply(r, PDN_IP); |b| >= 5 && b[..5] == [PDN_IP] + Get(r, PdnIpv4)
  {
    hide RecordReply;
    LongReplies(r);
    assert |Get(r, PdnIpv4)| == 4;
  }

  lemma NoEnbPull(item: Octet)
    requires item in {KEY, OPC, TMSI, EPC_TEID, IMSI, MSIN, PDN_IP}
    ensures item != GET_ENB
  {
  }

  lemma ImsiEnds(imsi: seq<Octet>)
    requires ProperImsi(imsi)
    ensures imsi[..15] + [0] == imsi
  {
  }

  /** The identities and keys of a loaded subscriber after any requests. */
  lemma {:induction false} LineIsKept(random: nat -> Bytes16, rs: seq<Record>, accesses: seq<Access>, i: nat)
    requires AllProperImsi(rs) && i < |rs|
    ensures var db, h := RunAll(random, LoadAll(random, EMPTY, rs), accesses), Number(rs[i]);
            var line := rs[FirstLike(rs, i)];
            && h in db.users
            && Get(db.users[h], Imsi) == Get(line, Imsi)
            && Get(db.users[h], Key) == Get(line, Key) && Get(db.users[h], Opc) == Get(line, Opc)
            && Get(db.users[h], Tmsi) == Get(db.users[h], EpcTeid) == Pack32(h)
  {
    hide RunAll, LoadAll, Get, FirstLike, Number, ProperImsi, Pack32, Complete, RecordKey, Volatile, SameNine;
    var start, db := LoadAll(random, EMPTY, rs), RunAll(random, LoadAll(random, EMPTY, rs), accesses);
    var h, f := Number(rs[i]), FirstLike(rs, i);
    LineIsLoaded(random, rs, i);
    assert h in start.users.Keys && h in db.users.Keys;
    forall x | x in {Imsi, Key, Opc, Tmsi, EpcTeid} ensures Get(db.users[h], x) == Get(start.users[h], x) {
      NeverWritten(x);
      FieldsHoldLastTaken(random, start, accesses, h, x);
      NothingTaken(accesses, h, x, Get(start.users[h], x));
    }
  }

  /** A record as loading makes it of a line with table key h. */
  ghost predicate LoadedAs(c: Record, line: Record, h: U32, rand: Bytes16) {
    && (forall f: Field :: !Derived(f) ==> Get(c, f) == Get(line, f))
    && Get(c, Tmsi) == Get(c, EpcTeid) == Pack32(h) && Get(c, Rand) == rand
  }

  lemma {:induction false} LineIsLoaded(random: nat -> Bytes16, rs: seq<Record>, i: nat)
    requires AllProperImsi(rs) && i < |rs|
    ensures var db, h, f := LoadAll(random, EMPTY, rs), Number(rs[i]), FirstLike(rs, i);
            h in db.users && db.draws == |rs| && LoadedAs(db.users[h], rs[f], h, random(f))
  {
    hide *;
    var f := FirstLike(rs, i);
    FileLines(random, rs);
    KeyIsNumber(rs, i, f);
    LineCompleted(rs[f], random(f));
  }

  lemma LineCompleted(r: Record, rand: Bytes16)
    ensures LoadedAs(Complete(r, rand), r, RecordKey(r), rand)
  {
    hide Complete, Get, RecordKey, Pack32, Derived;
    CompleteKeepsKey(r, rand);
  }

  /** A pull of RAND or RAND_UPDATE is answered with the RAND drawn last for the subscriber: at loading, by an earlier
      request or by an earlier pull of this one. RAND_UPDATE gives the old one and then draws. */
  lemma {:induction false} RepliesTellRand(random: nat -> Bytes16, rs: seq<Record>, accesses: seq<Access>, i: nat,
                                           r: Request, k: nat)
    requires AllProperImsi(rs) && i < |rs|
    requires k < |r.pulls| && (r.pulls[k].item == RAND || r.pulls[k].item == RAND_UPDATE)
    ensures var start, h := LoadAll(random, EMPTY, rs), Number(rs[i]);
            var drawn := DrawnAll(start.users.Keys, accesses, h, |rs|, FirstLike(rs, i));
            var d := Draws(r.pulls[..k]);
            && h in RunAll(random, start, accesses).users
            && AnswersTo(random, RunAll(random, start, accesses), User(h), r)[k] ==
               [r.pulls[k].item] + random(if d > 0 then drawn.0 + d - 1 else drawn.1)
  {
    hide RunAll, LoadAll, Get, FirstLike, Number, ProperImsi, Pack32, RecordReply, AnswersTo, Draws, DrawnAll, Found;
    var start, h := LoadAll(random, EMPTY, rs), Number(rs[i]);
    var db := RunAll(random, start, accesses);
    LineIsLoaded(random, rs, i);
    assert h in start.users.Keys && h in db.users.Keys;
    RandIsDrawn(random, start, accesses, h, FirstLike(rs, i));
    assert r.pulls[k].item != GET_ENB;
    ReplyFromFound(random, db, h, r, k);
    FoundRand(random, db, h, r, k);
    ReplyBytes(Found(random, db, h, r, k));
  }

  // ----- eNBs -----

  /** An eNB, which has no record, may pull exactly the items whose reply takes nothing from a record, and push exactly
      those that a record does not take. */
  lemma {:induction false} EnbMayAsk(p: Push, g: Pull)
    ensures PullAllowed(NewEnb, g) <==> forall r :: RecordReply(r, g.item) == []
    ensures PushAllowed(NewEnb, p) <==> forall f :: !Takes(p, f)
  {
    var blank: Record := Zeros(SIZE);
    assert PullAllowed(NewEnb, g) || RecordReply(blank, g.item) != [] by { hide Part, Get, Zeros; }
    if PushField(p.item).Some? { assert Takes(p, PushField(p.item).value); }
  }

  /** The socket of the first record of a new eNB with the given number, among those of a request, and of a run. */
  function FirstSock(ps: seq<Push>, id: Bytes4): Option<Bytes4> {
    if ps == [] then None
    else if ps[0].item == NEW_ENB && ps[0].payload[..4] == id then Some(ps[0].payload[4..8])
    else FirstSock(ps[1..], id)
  }

  function FirstSockOfAll(accesses: seq<Access>, id: Bytes4): Option<Bytes4> {
    if accesses == [] then None
    else
      var s := FirstSock(accesses[0].request.pushes, id);
      if s.Some? then s else FirstSockOfAll(accesses[1..], id)
  }

  /** The socket stored for an eNB. */
  function SockOf(db: Db, id: Bytes4): Option<Bytes4> {
    if Unpack32(id) in db.enbs then Some(db.enbs[Unpack32(id)].sockNum) else None
  }

  function Earlier(s: Option<Bytes4>, t: Option<Bytes4>): Option<Bytes4> {
    if s.Some? then s else t
  }

  lemma {:induction false} OnePushStores(db: Db, who: Subject, p: Push, id: Bytes4)
    ensures SockOf(ApplyPush(db, who, p), id) == Earlier(SockOf(db, id), FirstSock([p], id))
  {
    Unpack32RoundTrip(id);
    Unpack32RoundTrip(p.payload[..4]);
    assert [p][1..] == [];
    hide Unpack32, Pack32, PushField, Set;
  }

  lemma {:induction false} PushesStore(db: Db, who: Subject, ps: seq<Push>, id: Bytes4)
    ensures SockOf(ApplyPushes(db, who, ps), id) == Earlier(SockOf(db, id), FirstSock(ps, id))
    decreases |ps|
  {
    hide ApplyPush, SockOf;
    if ps != [] {
      OnePushStores(db, who, ps[0], id);
      assert [ps[0]][1..] == [];
      PushesStore(ApplyPush(db, who, ps[0]), who, ps[1..], id);
    }
  }

  lemma {:induction false} RunStores(random: nat -> Bytes16, db: Db, accesses: seq<Access>, id: Bytes4)
    ensures SockOf(RunAll(random, db, accesses), id) == Earlier(SockOf(db, id), FirstSockOfAll(accesses, id))
    decreases |accesses|
  {
    hide ApplyPushes, ApplyPulls, FirstSock;
    if accesses != [] {
      var a := accesses[0];
      PushesStore(db, a.who, a.request.pushes, id);
      RunStores(random, Effect(random, db, a.who, a.request), accesses[1..], id);
    }
  }

  /** After any requests of any subscribers and eNBs, GET_ENB is answered with the socket of the first new eNB of that
      number, be it of this very request, or with no more than the item when there was none. */
  lemma {:induction false} EnbIsFound(random: nat -> Bytes16, accesses: seq<Access>, db: Db, who: Subject, r: Request,
                                      k: nat)
    requires k < |r.pulls| && r.pulls[k].item == GET_ENB
    ensures var s := Earlier(SockOf(db, r.pulls[k].arg), FirstSockOfAll(accesses + [Access(who, r)], r.pulls[k].arg));
            AnswersTo(random, RunAll(random, db, accesses), who, r)[k] ==
            [GET_ENB] + if s.Some? then s.value else []
  {
    hide ApplyPushes, ApplyPulls, FirstSock, RunAll, Replies;
    var before, id := RunAll(random, db, accesses), r.pulls[k].arg;
    var mid := ApplyPushes(before, who, r.pushes);
    RunStores(random, db, accesses, id);
    PushesStore(before, who, r.pushes, id);
    ReplyAt(random, mid, who, r.pulls, k);
    LastOfAll(accesses, Access(who, r), id);
  }

  lemma {:induction false} LastOfAll(accesses: seq<Access>, a: Access, id: Bytes4)
    ensures FirstSockOfAll(accesses + [a], id) ==
            Earlier(FirstSockOfAll(accesses, id), FirstSock(a.request.pushes, id))
    decreases |accesses|
  {
    hide FirstSock;
    if accesses == [] {
      assert accesses + [a] == [a] && [a][1..] == [];
    } else {
      assert (accesses + [a])[0] == accesses[0] && (accesses + [a])[1..] == accesses[1..] + [a];
      LastOfAll(accesses[1..], a, id);
    }
  }

  /** What a client forms for a new eNB is its record. */
  lemma {:induction false} EnbRecord(id: Bytes4, sock: Bytes4, slot: Bytes17)
    ensures var p := PushOf(Enb(id, sock), slot); FirstSock([p], id) == Some(sock)
  {
  }
}
