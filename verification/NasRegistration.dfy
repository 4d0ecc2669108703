/** The key part of nas_handle_registration_request (nas_registration_request.c): the subscriber's OPc, key and RAND are
    pulled through db_access, the KAMF is derived from them, and a second db_access stores it and resets the counts. */
module NasRegistration {
  import opened Bytes
  import opened CoreKubeDb
  import opened DbClient
  import opened DbFields
  import opened DbIdentities
  import opened DbIntent
  import opened DbProtocol
  import opened DbReplies
  import opened DbTheorems
  import opened LibCk
  import opened NasCounter
  import opened Records

  const ZERO_COUNT: seq<Octet> := [0, 0, 0, 0, 0, 0]

  // ----- the two requests -----

  function FetchArgs(ranUeId: seq<Octet>, ident: seq<Octet>): seq<PushArg> {
    [Item(ENB_UE_S1AP_ID, ranUeId), Item(KNH_1, ident)]
  }

  const FETCH_ITEMS: seq<Octet> := [MME_UE_S1AP_ID, RAND, KEY, OPC]

  function StoreArgs(kamf: Kamf): seq<PushArg> {
    [Item(KASME_1, kamf[..16]), Item(KASME_2, kamf[16..]),
     Item(EPC_NAS_SEQUENCE_NUMBER, ZERO_COUNT), Item(UE_NAS_SEQUENCE_NUMBER, ZERO_COUNT)]
  }

  lemma FetchAskable(ranUeId: seq<Octet>, ident: seq<Octet>)
    requires |ranUeId| >= 4 && |ident| >= 16
    ensures Askable(FetchArgs(ranUeId, ident), FETCH_ITEMS) && |FETCH_ITEMS| == 4
  {
    hide Answered;
    forall i | 0 <= i < 4 ensures Answered(Pull(FETCH_ITEMS[i], [0, 0, 0, 0])) { ItemAnswered(FETCH_ITEMS[i]); }
  }

  lemma StoreAskable(kamf: Kamf)
    ensures Askable(StoreArgs(kamf), [SPGW_IP])
  {
    hide Answered;
    ItemAnswered(SPGW_IP);
  }

  lemma ItemAnswered(item: Octet)
    requires item in {MME_UE_S1AP_ID, RAND, KEY, OPC, SPGW_IP}
    ensures Answered(Pull(item, [0, 0, 0, 0]))
  {
  }

  // ----- what the first request brings -----

  lemma {:induction false} NothingForKeys(ranUeId: seq<Octet>, ident: seq<Octet>, f: Field)
    requires f == Key || f == Opc
    ensures LastArg(FetchArgs(ranUeId, ident), f) == None
  {
    var args := FetchArgs(ranUeId, ident);
    hide Front, LastArg;
    NotNamed(args, f);
    NotNamed(args[..1], f);
    NothingLast(args[..1][..0], f);
  }

  lemma {:induction false} NotNamed(args: seq<PushArg>, f: Field)
    requires args != [] && args[|args| - 1].Item? && Named(args[|args| - 1].item) != Some(f)
    ensures LastArg(args, f) == LastArg(args[..|args| - 1], f)
  {
  }

  lemma {:induction false} NothingLast(args: seq<PushArg>, f: Field)
    requires args == []
    ensures LastArg(args, f) == None
  {
  }

  lemma {:induction false} PulledItems()
    ensures var gs := Meant(FETCH_ITEMS);
            && gs == [Plain(MME_UE_S1AP_ID), Plain(RAND), Plain(KEY), Plain(OPC)]
            && Draws(gs[..1]) == 0 && Draws(gs[..2]) == 0 && Draws(gs[..3]) == 0 && Draws(gs[..0]) == 0
  {
    var gs := Meant(FETCH_ITEMS);
    assert gs[..1] == [gs[0]] && gs[..2] == [gs[0], gs[1]] && gs[..3] == [gs[0], gs[1], gs[2]];
    NoDraws(gs[..0]);
    NoDraws(gs[..1]);
    NoDraws(gs[..2]);
    NoDraws(gs[..3]);
    hide Meant;
  }

  lemma FieldsOfItems()
    ensures PullField(KEY) == Some(Key) && PullField(OPC) == Some(Opc) && !Volatile(Key) && !Volatile(Opc)
    ensures KEY != PDN_IP && OPC != PDN_IP && IsOwn(RAND)
    ensures Reads(KEY) && Reads(OPC) && Reads(RAND)
    ensures MemberOf(KEY) == KEY && MemberOf(OPC) == OPC && MemberOf(RAND) == RAND
  {
  }

  /** OPc, key and RAND are where the members point. */
  lemma FetchBrings(random: nat -> Bytes16, db: Db, h: U32, ranUeId: seq<Octet>, ident: seq<Octet>,
                    response: seq<Octet>, pulls: map<Octet, nat>)
    requires h in db.users
    requires forall m :: m in pulls ==> Returns(db, h, FetchArgs(ranUeId, ident), FETCH_ITEMS, response, m, pulls[m])
    requires forall m :: m in pulls ==> HoldsOwn(random, db, h, Meant(FETCH_ITEMS), response, m, pulls[m])
    requires forall g :: g in Meant(FETCH_ITEMS) && Reads(g.item) ==> MemberOf(g.item) in pulls
    ensures KEY in pulls && pulls[KEY] + 16 <= |response|
    ensures OPC in pulls && pulls[OPC] + 16 <= |response|
    ensures RAND in pulls && pulls[RAND] + 16 <= |response|
    ensures response[pulls[KEY]..pulls[KEY] + 16] == Get(db.users[h], Key)
    ensures response[pulls[OPC]..pulls[OPC] + 16] == Get(db.users[h], Opc)
    ensures response[pulls[RAND]..pulls[RAND] + 16] == Get(db.users[h], Rand)
  {
    hide Meant, FetchArgs, LastArg, Reads, MemberOf, PullField, PullCounter, Get, Volatile, Draws, IsOwn, ReturnsCount;
    PulledItems();
    FieldsOfItems();
    NothingForKeys(ranUeId, ident, Key);
    NothingForKeys(ranUeId, ident, Opc);
    var gs := Meant(FETCH_ITEMS);
    assert gs[1] in gs && gs[2] in gs && gs[3] in gs;
    assert ReturnsField(db, h, FetchArgs(ranUeId, ident), response, KEY, pulls[KEY]);
    assert ReturnsField(db, h, FetchArgs(ranUeId, ident), response, OPC, pulls[OPC]);
    var k := pulls[RAND] / 17;
    assert HoldsOwn(random, db, h, gs, response, RAND, pulls[RAND]) && k < 4;
    assert Draws(gs[..k]) == 0;
    assert RAND != IMSI && RAND != MSIN;
  }

  // ----- what the second request stores -----

  lemma {:induction false} StoredPushes(kamf: Kamf, size: nat)
    requires size >= 85
    ensures PushesOf(StoreArgs(kamf), Zeros(size), 17) == InstallPushes(kamf)
    ensures Meant([SPGW_IP]) == [Plain(SPGW_IP)]
  {
    var args, b := StoreArgs(kamf), Zeros(size);
    var blank: Bytes17 := seq(17, _ => 0);
    assert SlotAt(b, 17) == blank && SlotAt(b, 34) == blank && SlotAt(b, 51) == blank && SlotAt(b, 68) == blank;
    assert args[..3] == [args[0], args[1], args[2]] && args[..3][..2] == [args[0], args[1]];
    assert args[..3][..2][..1] == [args[0]] && args[..3][..2][..1][..0] == [];
    hide PushOf;
    assert PushesOf([args[0]], b, 17) == [PushOf(args[0], blank)];
    assert PushesOf([args[0], args[1]], b, 17) == [PushOf(args[0], blank), PushOf(args[1], blank)];
  }

  /** The server finds the same subscriber again. */
  lemma SameSubject(random: nat -> Bytes16, db: Db, who: Subject, r: Request, q: seq<Octet>)
    requires |q| >= 17
    ensures Identify(Effect(random, db, who, r), q) == Identify(db, q)
  {
    EffectKeepsKeys(random, db, who, r);
    hide Effect, IdHash;
    assert forall h :: h in Effect(random, db, who, r).users.Keys <==> h in db.users.Keys;
  }

  lemma StoreInstalls(random: nat -> Bytes16, db: Db, h: U32, imsi: seq<Octet>, kamf: Kamf)
    requires h in db.users && |imsi| >= 16
    ensures var next := Effect(random, db, User(h), Asked(IMSI, imsi, StoreArgs(kamf), [SPGW_IP]));
            h in next.users && KamfOf(next, h) == kamf && CountOf(next, h) == 0
  {
    StoredPushes(kamf, DbBufferInputSize(4, 1) + 1);
    InstallWrites(random, db, h, kamf);
    hide PushesOf, InstallPushes, ApplyPushes, ApplyPulls, StoreArgs, Meant, KamfOf, CountOf, IdBytes;
  }

  // ----- the handler -----

  /** For a known subscriber the KAMF is the one that belongs to its record, and it is in force with a count of zero;
      for an unknown one the handler's assertion fails and nothing has changed. */
  ghost predicate Registered(derive: Derivation, db: Db, who: Option<Subject>, after: Db, stored: bool, kamf: Kamf) {
    if who.None? then !stored && after == db
    else
      && stored && who.value.User? && who.value.h in db.users
      && kamf == RegistrationKamf(derive, db.users[who.value.h])
      && who.value.h in after.users && KamfOf(after, who.value.h) == kamf && CountOf(after, who.value.h) == 0
  }

  method Register(server: Server, response: array<Octet>, derive: Derivation, imsi: seq<Octet>, ranUeId: seq<Octet>,
                  ident: seq<Octet>) returns (stored: bool, kamf: Kamf)
    requires server.Valid() && (response as object) !in server.Repr() && response.Length >= 68
    requires |imsi| >= 16 && |ranUeId| >= 4 && |ident| >= 16
    modifies server.Repr(), response
    ensures server.Valid() && fresh(server.Repr() - old(server.Repr()))
    ensures
      var who := Identify(old(server.View()), IdBytes(IMSI, imsi, Zeros(17)));
      Registered(derive, old(server.View()), who, server.View(), stored, kamf)
  {
    hide Registered, AllReturned, Served, Identify, IdBytes, IdWidth, FetchArgs, StoreArgs, Askable, Fetched,
        Server.View, Server.Valid;
    ghost var db := server.View();
    ImsiWidth();
    FetchAskable(ranUeId, ident);
    var complete, pulls := DbAccess(server, response, IMSI, imsi, FetchArgs(ranUeId, ident), FETCH_ITEMS);
    ghost var mid := server.View();
    FetchDone(server.random, derive, db, imsi, ranUeId, ident, mid, response[..], complete, pulls);
    if !complete {
      return false, seq(32, _ => 0);
    }
    var opc := response[pulls[OPC]..pulls[OPC] + 16];
    var key := response[pulls[KEY]..pulls[KEY] + 16];
    var rand := response[pulls[RAND]..pulls[RAND] + 16];
    kamf := derive(opc, key, rand);
    StoreAskable(kamf);
    complete, pulls := DbAccess(server, response, IMSI, imsi, StoreArgs(kamf), [SPGW_IP]);
    StoreDone(server.random, derive, db, imsi, ranUeId, ident, mid, kamf, server.View(), response[..], complete, pulls);
    stored := complete;
  }

  lemma ImsiWidth()
    ensures IdWidth(IMSI) == Some(16)
  {
  }

  /** What the first request leaves: the parts of the key, or the failed assertion. */
  ghost predicate Fetched(random: nat -> Bytes16, db: Db, imsi: seq<Octet>, ranUeId: seq<Octet>, ident: seq<Octet>,
                          mid: Db)
    requires |imsi| >= 16
  {
    var who := Identify(db, IdBytes(IMSI, imsi, Zeros(17)));
    if who.None? then mid == db
    else
      && who.value.User? && who.value.h in db.users
      && mid == Effect(random, db, who.value, Asked(IMSI, imsi, FetchArgs(ranUeId, ident), FETCH_ITEMS))
  }

  lemma FetchDone(random: nat -> Bytes16, derive: Derivation, db: Db, imsi: seq<Octet>, ranUeId: seq<Octet>,
                  ident: seq<Octet>, mid: Db, response: seq<Octet>, complete: bool, pulls: map<Octet, nat>)
    requires |imsi| >= 16 && |ranUeId| >= 4 && |ident| >= 16
    requires Served(random, db, Asked(IMSI, imsi, FetchArgs(ranUeId, ident), FETCH_ITEMS), mid, response, complete,
                    pulls)
    requires AllReturned(random, db, Identify(db, IdBytes(IMSI, imsi, Zeros(17))), FetchArgs(ranUeId, ident),
                         FETCH_ITEMS, response, pulls)
    ensures Fetched(random, db, imsi, ranUeId, ident, mid)
    ensures complete <==> Identify(db, IdBytes(IMSI, imsi, Zeros(17))).Some?
    ensures !complete ==> forall kamf :: Registered(derive, db, None, mid, false, kamf)
    ensures complete ==>
              var who := Identify(db, IdBytes(IMSI, imsi, Zeros(17))).value;
              && who.User? && who.h in db.users
              && KEY in pulls && pulls[KEY] + 16 <= |response|
              && OPC in pulls && pulls[OPC] + 16 <= |response|
              && RAND in pulls && pulls[RAND] + 16 <= |response|
              && response[pulls[KEY]..pulls[KEY] + 16] == Get(db.users[who.h], Key)
              && response[pulls[OPC]..pulls[OPC] + 16] == Get(db.users[who.h], Opc)
              && response[pulls[RAND]..pulls[RAND] + 16] == Get(db.users[who.h], Rand)
  {
    hide Identify, IdBytes, IdWidth, PushesOf, Meant, Delivers, Returns, HoldsOwn, Effect, MemberOf, Reads, FetchArgs,
        Get;
    ImsiWidth();
    var r := Asked(IMSI, imsi, FetchArgs(ranUeId, ident), FETCH_ITEMS);
    var who := Identify(db, r.id);
    if who.Some? {
      FetchBrings(random, db, who.value.h, ranUeId, ident, response, pulls);
    }
  }

  lemma StoreDone(random: nat -> Bytes16, derive: Derivation, db: Db, imsi: seq<Octet>, ranUeId: seq<Octet>,
                  ident: seq<Octet>, mid: Db, kamf: Kamf, after: Db, response: seq<Octet>, complete: bool,
                  pulls: map<Octet, nat>)
    requires |imsi| >= 16 && Fetched(random, db, imsi, ranUeId, ident, mid)
    requires Identify(db, IdBytes(IMSI, imsi, Zeros(17))).Some?
    requires var who := Identify(db, IdBytes(IMSI, imsi, Zeros(17))).value;
             && who.User? && who.h in db.users
             && kamf == derive(Get(db.users[who.h], Opc), Get(db.users[who.h], Key), Get(db.users[who.h], Rand))
    requires Served(random, mid, Asked(IMSI, imsi, StoreArgs(kamf), [SPGW_IP]), after, response, complete, pulls)
    ensures Registered(derive, db, Identify(db, IdBytes(IMSI, imsi, Zeros(17))), after, complete, kamf)
  {
    hide Identify, IdBytes, IdWidth, PushesOf, Meant, Delivers, HoldsOwn, Effect, MemberOf, Reads, FetchArgs, StoreArgs,
        Get, KamfOf, CountOf;
    ImsiWidth();
    var id := IdBytes(IMSI, imsi, Zeros(17));
    var who := Identify(db, id).value;
    SameSubject(random, db, who, Asked(IMSI, imsi, FetchArgs(ranUeId, ident), FETCH_ITEMS), id);
    StoreInstalls(random, mid, who.h, imsi, kamf);
  }

  /** In every state that any requests reach from a file: the KAMF of a subscriber's registration is derived from the
      OPc and the key of its line and from the RAND drawn last for it. */
  lemma {:induction false} KamfOfLine(random: nat -> Bytes16, rs: seq<Record>, accesses: seq<Access>, i: nat,
                                      derive: Derivation)
    requires AllProperImsi(rs) && i < |rs|
    ensures var start, h, f := LoadAll(random, EMPTY, rs), Number(rs[i]), FirstLike(rs, i);
            && h in RunAll(random, start, accesses).users
            && RegistrationKamf(derive, RunAll(random, start, accesses).users[h]) ==
               derive(Get(rs[f], Opc), Get(rs[f], Key),
                      random(DrawnAll(start.users.Keys, accesses, h, |rs|, f).1))
  {
    hide RunAll, LoadAll, Get, FirstLike, Number, ProperImsi, Pack32, DrawnAll;
    var start, h, f := LoadAll(random, EMPTY, rs), Number(rs[i]), FirstLike(rs, i);
    LineIsKept(random, rs, accesses, i);
    LineIsLoaded(random, rs, i);
    RandIsDrawn(random, start, accesses, h, f);
  }
}
