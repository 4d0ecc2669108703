/** The request language of CoreKubeDB and what a request does: analyze_request and attend_request of
    corekube-db/source/corekubeDB.c as functions on the two tables and the bytes of a buffer. */
module DbProtocol {
  import opened Bytes
  import opened Records

  // ----- items (api.h) -----

  const EOM: Octet := 0x01
  const IMSI: Octet := 0x02
  const MSIN: Octet := 0x03
  const TMSI: Octet := 0x04
  const ENB_UE_S1AP_ID: Octet := 0x05
  const UE_TEID: Octet := 0x06
  const SPGW_IP: Octet := 0x07
  const ENB_IP: Octet := 0x08
  const PDN_IP: Octet := 0x09
  const UE_NAS_SEQUENCE_NUMBER: Octet := 0x0A
  const EPC_NAS_SEQUENCE_NUMBER: Octet := 0x0B
  const UE_NAS_SEQUENCE_NUMBER_NO_INC: Octet := 0x0C
  const KEY: Octet := 0x0D
  const OPC: Octet := 0x0E
  const RAND: Octet := 0x0F
  const RAND_UPDATE: Octet := 0x10
  const MME_UE_S1AP_ID: Octet := 0x11
  const EPC_TEID: Octet := 0x12
  const AUTH_RES: Octet := 0x13
  const ENC_KEY: Octet := 0x14
  const INT_KEY: Octet := 0x15
  const KASME_1: Octet := 0x16
  const KASME_2: Octet := 0x17
  const NEW_ENB: Octet := 0x18
  const GET_ENB: Octet := 0x19
  const KNH_1: Octet := 0x1A
  const KNH_2: Octet := 0x1B
  const TARGET_ENB_UE_S1AP_ID: Octet := 0x1C
  const NEXT_HOP_CHAINING_COUNT: Octet := 0x1D
  const ENB_SOURCE_SOCKET: Octet := 0x1E
  const ENB_TARGET_SOCKET: Octet := 0x1F

  /** The codes of libck.h, counted from 1. */
  const CODES: seq<Octet> := [
    EOM, IMSI, MSIN, TMSI, ENB_UE_S1AP_ID, UE_TEID, SPGW_IP, ENB_IP, PDN_IP, UE_NAS_SEQUENCE_NUMBER,
    EPC_NAS_SEQUENCE_NUMBER, UE_NAS_SEQUENCE_NUMBER_NO_INC, KEY, OPC, RAND, RAND_UPDATE, MME_UE_S1AP_ID, EPC_TEID,
    AUTH_RES, ENC_KEY, INT_KEY, KASME_1, KASME_2, NEW_ENB, GET_ENB, KNH_1, KNH_2, TARGET_ENB_UE_S1AP_ID,
    NEXT_HOP_CHAINING_COUNT, ENB_SOURCE_SOCKET, ENB_TARGET_SOCKET]

  lemma CodesCount(k: nat)
    requires k < 31
    ensures |CODES| == 31 && CODES[k] == k + 1
  {
  }

  // ----- state -----

  type Bytes4 = s: seq<Octet> | |s| == 4 witness [0, 0, 0, 0]

  datatype EnbInfo = EnbInfo(enbId: U32, sockNum: Bytes4)

  type Bytes16 = s: seq<Octet> | |s| == 16 witness seq(16, _ => 0)

  /** The contents of the two tables, and how often RAND has been drawn. */
  datatype Db = Db(users: map<U32, Record>, enbs: map<U32, EnbInfo>, draws: nat)

  const EMPTY: Db := Db(map[], map[], 0)

  /** process_line once the IMSI and keys are read: the completed record is added unless its key is taken. */
  function Load(random: nat -> Bytes16, db: Db, r: Record): Db {
    var h, c := RecordKey(r), Complete(r, random(db.draws));
    db.(users := if h in db.users then db.users else db.users[h := c], draws := db.draws + 1)
  }

  /** read_db_file: one line after the other. */
  function LoadAll(random: nat -> Bytes16, db: Db, rs: seq<Record>): Db {
    if rs == [] then db else Load(random, LoadAll(random, db, rs[..|rs| - 1]), rs[|rs| - 1])
  }

  /** Who a request is about: a subscriber in the table, or an eNB to be stored. */
  datatype Subject = User(h: U32) | NewEnb

  // ----- pushes -----

  /** One 17-byte push record: item and payload. */
  datatype Push = Push(item: Octet, payload: Bytes16)

  /** The field a push item writes. */
  function PushField(item: Octet): Option<Field> {
    if item == MME_UE_S1AP_ID then Some(MmeUeId)
    else if item == ENB_UE_S1AP_ID then Some(EnbUeId)
    else if item == TARGET_ENB_UE_S1AP_ID then Some(TargetEnbUeId)
    else if item == UE_TEID then Some(UeTeid)
    else if item == SPGW_IP then Some(SpgwIp)
    else if item == ENB_IP then Some(EnbIp)
    else if item == EPC_NAS_SEQUENCE_NUMBER then Some(EpcNasCount)
    else if item == UE_NAS_SEQUENCE_NUMBER then Some(UeNasCount)
    else if item == NEXT_HOP_CHAINING_COUNT then Some(NextHopCount)
    else if item == AUTH_RES then Some(AuthRes)
    else if item == ENC_KEY then Some(EncKey)
    else if item == INT_KEY then Some(IntKey)
    else if item == KASME_1 then Some(Kasme1)
    else if item == KASME_2 then Some(Kasme2)
    else if item == KNH_1 then Some(Knh1)
    else if item == KNH_2 then Some(Knh2)
    else if item == ENB_SOURCE_SOCKET then Some(SourceSocket)
    else if item == ENB_TARGET_SOCKET then Some(TargetSocket)
    else None
  }

  /** Where in the payload the value starts: the two NAS counters are read at byte 6 of the record. */
  function PushStart(item: Octet): nat {
    if item == EPC_NAS_SEQUENCE_NUMBER || item == UE_NAS_SEQUENCE_NUMBER then 5 else 0
  }

  function PushValue(p: Push): (v: seq<Octet>)
    requires PushField(p.item).Some?
    ensures |v| == Width(PushField(p.item).value)
  {
    p.payload[PushStart(p.item)..PushStart(p.item) + Width(PushField(p.item).value)]
  }

  function PushedEnb(p: Push): EnbInfo {
    EnbInfo(Unpack32(p.payload[..4]), p.payload[4..8])
  }

  /** An item that touches the subscriber is meaningless when the request has none. */
  predicate PushAllowed(who: Subject, p: Push) {
    who.NewEnb? ==> PushField(p.item).None?
  }

  predicate Known(db: Db, who: Subject) {
    who.User? && who.h in db.users
  }

  /** One push; without a subscriber record, which analyze_request needs, nothing happens here. */
  function ApplyPush(db: Db, who: Subject, p: Push): (r: Db)
    ensures r.users.Keys == db.users.Keys && r.draws == db.draws
  {
    if p.item == NEW_ENB then
      var enb := PushedEnb(p);
      if enb.enbId in db.enbs then db else db.(enbs := db.enbs[enb.enbId := enb])
    else if PushField(p.item).None? || !Known(db, who) then db
    else db.(users := db.users[who.h := Set(db.users[who.h], PushField(p.item).value, PushValue(p))])
  }

  function ApplyPushes(db: Db, who: Subject, ps: seq<Push>): (r: Db)
    ensures r.users.Keys == db.users.Keys && r.draws == db.draws
    decreases |ps|
  {
    if ps == [] then db else ApplyPushes(ApplyPush(db, who, ps[0]), who, ps[1..])
  }

  // ----- pulls -----

  /** A pull item; the argument is the eNB number of GET_ENB and zero for any other item. */
  datatype Pull = Pull(item: Octet, arg: Bytes4)

  /** The items whose reply copies bytes out of the record: from which field on. */
  function PullField(item: Octet): Option<Field> {
    if item == TMSI then Some(Tmsi)
    else if item == ENB_UE_S1AP_ID then Some(EnbUeId)
    else if item == TARGET_ENB_UE_S1AP_ID then Some(TargetEnbUeId)
    else if item == UE_TEID then Some(UeTeid)
    else if item == SPGW_IP then Some(SpgwIp)
    else if item == ENB_IP then Some(EnbIp)
    else if item == PDN_IP then Some(PdnIpv4)
    else if item == KEY then Some(Key)
    else if item == OPC then Some(Opc)
    else if item == RAND || item == RAND_UPDATE then Some(Rand)
    else if item == MME_UE_S1AP_ID then Some(MmeUeId)
    else if item == EPC_TEID then Some(EpcTeid)
    else if item == AUTH_RES then Some(AuthRes)
    else if item == ENC_KEY then Some(EncKey)
    else if item == INT_KEY then Some(IntKey)
    else if item == KASME_1 then Some(Kasme1)
    else if item == KASME_2 then Some(Kasme2)
    else if item == KNH_1 then Some(Knh1)
    else if item == KNH_2 then Some(Knh2)
    else if item == ENB_SOURCE_SOCKET then Some(SourceSocket)
    else if item == ENB_TARGET_SOCKET then Some(TargetSocket)
    else None
  }

  /** How many bytes that copy takes: not always the field's width. */
  function CopyLength(item: Octet): nat
    requires PullField(item).Some?
  {
    if item == SPGW_IP || item == ENB_IP || item == PDN_IP then item
    else if item == ENB_SOURCE_SOCKET || item == ENB_TARGET_SOCKET then 16
    else Width(PullField(item).value)
  }

  /** The counters: reply code, field, and the byte of the reply that holds the count. */
  datatype Counter = Counter(code: Octet, field: Field, at: nat, increments: bool)

  function PullCounter(item: Octet): Option<Counter> {
    if item == EPC_NAS_SEQUENCE_NUMBER then Some(Counter(EPC_NAS_SEQUENCE_NUMBER, EpcNasCount, 6, true))
    else if item == UE_NAS_SEQUENCE_NUMBER then Some(Counter(UE_NAS_SEQUENCE_NUMBER, UeNasCount, 1, true))
    else if item == UE_NAS_SEQUENCE_NUMBER_NO_INC then Some(Counter(UE_NAS_SEQUENCE_NUMBER, UeNasCount, 1, false))
    else if item == NEXT_HOP_CHAINING_COUNT then Some(Counter(NEXT_HOP_CHAINING_COUNT, NextHopCount, 1, true))
    else None
  }

  /** The part of the record that a copy of n bytes from offset o can take; what lies behind is not the record's. */
  function Part(r: Record, o: nat, n: nat): seq<Octet>
    requires o <= SIZE
  {
    r[o..if o + n <= SIZE then o + n else SIZE]
  }

  predicate PullAllowed(who: Subject, g: Pull) {
    who.NewEnb? ==> g.item != IMSI && g.item != MSIN && PullField(g.item).None? && PullCounter(g.item).None?
  }

  /** The bytes at the start of the 17-byte reply slot that the request defines. */
  function Reply(db: Db, who: Subject, g: Pull): (b: seq<Octet>)
    ensures |b| <= 17
  {
    if g.item == GET_ENB then
      var id := Unpack32(g.arg);
      [GET_ENB] + if id in db.enbs then db.enbs[id].sockNum else []
    else if !Known(db, who) then []
    else RecordReply(db.users[who.h], g.item)
  }

  /** The same for the items that read the subscriber's record. */
  function RecordReply(r: Record, item: Octet): (b: seq<Octet>)
    ensures |b| <= 17
  {
    if item == IMSI then [IMSI] + Get(r, Imsi)[..15] + [0]
    else if item == MSIN then [MSIN] + Part(r, Offset(Imsi) + 5, 11)
    else if PullCounter(item).Some? then CounterReply(PullCounter(item).value, r)
    else if PullField(item).Some? then CopyReply(item, r)
    else []
  }

  function CounterReply(c: Counter, r: Record): (b: seq<Octet>)
    requires 1 <= c.at <= 16
    ensures |b| == 16 + Width(c.field)
  {
    [c.code] + Zeros(c.at - 1) + Get(r, c.field) + Zeros(16 - c.at)
  }

  function CopyReply(item: Octet, r: Record): (b: seq<Octet>)
    requires PullField(item).Some?
    ensures |b| <= 17
  {
    FieldsApart(PullField(item).value, Imsi);
    [item] + Part(r, Offset(PullField(item).value), CopyLength(item))
  }

  function ApplyPull(random: nat -> Bytes16, db: Db, who: Subject, g: Pull): (r: Db)
    ensures r.users.Keys == db.users.Keys && r.enbs == db.enbs
  {
    if !Known(db, who) then db
    else
      var r := db.users[who.h];
      if PullCounter(g.item).Some? && PullCounter(g.item).value.increments then
        db.(users := db.users[who.h := Increment(r, PullCounter(g.item).value.field)])
      else if g.item == RAND_UPDATE then
        db.(users := db.users[who.h := Set(r, Rand, random(db.draws))], draws := db.draws + 1)
      else db
  }

  /** A counter field read as uint8_t, plus one. */
  function Increment(r: Record, f: Field): Record
  {
    if Width(f) == 1 then Set(r, f, [(Get(r, f)[0] as int + 1) % 256]) else r
  }

  function ApplyPulls(random: nat -> Bytes16, db: Db, who: Subject, gs: seq<Pull>): (r: Db)
    ensures r.users.Keys == db.users.Keys && r.enbs == db.enbs
    decreases |gs|
  {
    if gs == [] then db else ApplyPulls(random, ApplyPull(random, db, who, gs[0]), who, gs[1..])
  }

  function Replies(random: nat -> Bytes16, db: Db, who: Subject, gs: seq<Pull>): (b: seq<seq<Octet>>)
    ensures |b| == |gs| && forall k :: 0 <= k < |b| ==> |b[k]| <= 17
    decreases |gs|
  {
    if gs == [] then [] else [Reply(db, who, gs[0])] + Replies(random, ApplyPull(random, db, who, gs[0]), who, gs[1..])
  }

  // ----- requests as bytes -----

  /** The push records from offset o up to the zero byte; None when they would run out of the buffer. */
  function ParsePushes(q: seq<Octet>, o: nat): (ps: Option<seq<Push>>)
    ensures ps.Some? ==> o + 17 * |ps.value| < |q|
    decreases |q| - o
  {
    if o >= |q| then None
    else if q[o] == 0 then Some([])
    else if o + 17 > |q| then None
    else
      var rest := ParsePushes(q, o + 17);
      if rest.None? then None else Some([Push(q[o], q[o + 1..o + 17])] + rest.value)
  }

  function PullSize(g: Pull): nat {
    if g.item == GET_ENB then 5 else 1
  }

  function PullsSize(gs: seq<Pull>): nat {
    if gs == [] then 0 else PullSize(gs[0]) + PullsSize(gs[1..])
  }

  /** The pull items from offset o up to EOM or the end of the n received bytes. */
  function ParsePulls(q: seq<Octet>, n: nat, o: nat): (gs: Option<seq<Pull>>)
    requires n <= |q|
    decreases |q| - o
  {
    if o >= n || q[o] == EOM then Some([])
    else if q[o] == GET_ENB then
      if o + 5 > |q| then None
      else
        var rest := ParsePulls(q, n, o + 5);
        if rest.None? then None else Some([Pull(GET_ENB, q[o + 1..o + 5])] + rest.value)
    else
      var rest := ParsePulls(q, n, o + 1);
      if rest.None? then None else Some([Pull(q[o], [0, 0, 0, 0])] + rest.value)
  }

  /** The hash that the identifier at the front of a request stands for. */
  function IdHash(q: seq<Octet>): U32
    requires |q| >= 17
  {
    if q[0] == IMSI then HashImsi(q[1..])
    else if q[0] == MSIN then HashMsin(q[1..])
    else Unpack32(q[1..5])
  }

  predicate KnownKind(id: Octet) {
    id == IMSI || id == MSIN || id == TMSI || id == MME_UE_S1AP_ID || id == NEW_ENB
  }

  function Identify(db: Db, q: seq<Octet>): Option<Subject>
    requires |q| >= 17
  {
    if !KnownKind(q[0]) then None
    else if q[0] == NEW_ENB then Some(NewEnb)
    else if IdHash(q) in db.users then Some(User(IdHash(q)))
    else None
  }

  /** The first EOM byte after byte 0, or the end of the received bytes. */
  function Skip(q: seq<Octet>, n: nat, i: nat): (r: nat)
    requires i <= n <= |q|
    ensures i <= r <= n
    decreases n - i
  {
    if i == n || q[i] == EOM then i else Skip(q, n, i + 1)
  }

  /** What analyze_request returns and sends; a refused identifier is answered by a single zero byte. */
  datatype Outcome = Outcome(db: Db, consumed: nat, replies: seq<seq<Octet>>, length: nat)

  /** A request that analyze_request can process without leaving its buffers. */
  ghost predicate Analyzable(db: Db, q: seq<Octet>, n: nat, capacity: nat) {
    && 1 <= n <= |q| && 17 <= |q| && 1 <= capacity
    && (Identify(db, q).Some? ==>
          var who := Identify(db, q).value;
          var ps := ParsePushes(q, 17);
          && ps.Some? && (forall p :: p in ps.value ==> PushAllowed(who, p))
          && var gs := ParsePulls(q, n, 18 + 17 * |ps.value|);
             && gs.Some? && (forall g :: g in gs.value ==> PullAllowed(who, g))
             && 17 * |gs.value| <= capacity)
  }

  ghost function Analyze(random: nat -> Bytes16, db: Db, q: seq<Octet>, n: nat, capacity: nat): (out: Outcome)
    requires Analyzable(db, q, n, capacity)
    ensures out.consumed >= 1
  {
    var who := Identify(db, q);
    if who.None? then Outcome(db, Skip(q, n, 1) + 1, [[0]], 1)
    else
      var ps := ParsePushes(q, 17).value;
      var gs := ParsePulls(q, n, 18 + 17 * |ps|).value;
      var mid := ApplyPushes(db, who.value, ps);
      Outcome(ApplyPulls(random, mid, who.value, gs), 19 + 17 * |ps| + PullsSize(gs),
              Replies(random, mid, who.value, gs), 17 * |gs|)
  }

  // ----- a received buffer that holds several requests -----

  /** Every request that attend_request meets in n received bytes can be analysed. */
  ghost predicate Servable(random: nat -> Bytes16, db: Db, q: seq<Octet>, n: nat, capacity: nat)
    decreases n
  {
    n == 0 ||
    (Analyzable(db, q, n, capacity) &&
     var out := Analyze(random, db, q, n, capacity);
     out.consumed >= n || Servable(random, out.db, q[out.consumed..], n - out.consumed, capacity))
  }

  /** The outcomes of the loop of attend_request, in order. */
  ghost function Serve(random: nat -> Bytes16, db: Db, q: seq<Octet>, n: nat, capacity: nat): (outs: seq<Outcome>)
    requires Servable(random, db, q, n, capacity)
    decreases n
  {
    if n == 0 then []
    else
      var out := Analyze(random, db, q, n, capacity);
      [out] + if out.consumed >= n then [] else Serve(random, out.db, q[out.consumed..], n - out.consumed, capacity)
  }

  /** The tables after the last of some outcomes. */
  ghost function Final(db: Db, outs: seq<Outcome>): Db {
    if outs == [] then db else outs[|outs| - 1].db
  }
}
