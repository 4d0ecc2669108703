/** corekubeDB.c: the request analyser and the loop that serves a client, over the two hash tables. */
module CoreKubeDb {
  import opened Bytes
  import opened DbProtocol
  import opened HashMap
  import opened HashTable
  import opened Records

  function EnbKey(e: EnbInfo): U32 {
    e.enbId
  }

  /** The first n reply slots of the response buffer begin with the given bytes. */
  ghost predicate SlotsHold(response: seq<Octet>, replies: seq<seq<Octet>>, n: nat)
    requires n <= |replies|
  {
    forall k :: 0 <= k < n ==> SlotHolds(response, k, replies[k])
  }

  ghost predicate SlotHolds(response: seq<Octet>, k: nat, reply: seq<Octet>) {
    17 * k + |reply| <= |response| && response[17 * k..17 * k + |reply|] == reply
  }

  class Server {
    const imsiMap: HashMap<Record>
    const enbs: HashMap<EnbInfo>
    const random: nat -> Bytes16
    var draws: nat

    ghost function Repr(): set<object>
      reads this, imsiMap, enbs
    {
      {this, imsiMap, imsiMap.table, enbs, enbs.table} + (set n | n in imsiMap.nodes :: n as object) +
          (set n | n in enbs.nodes :: n as object)
    }

    /** Both tables are sound and share nothing. */
    ghost predicate Valid()
      reads Repr()
    {
      && imsiMap.Valid() && imsiMap.hash == RecordKey
      && enbs.Valid() && enbs.hash == EnbKey
      && (imsiMap as object) != enbs && (imsiMap.table as object) != enbs.table
      && (this as object) !in {imsiMap as object, enbs, imsiMap.table, enbs.table}
      && (forall n, m :: n in imsiMap.nodes && m in enbs.nodes ==> (n as object) != m)
      && (forall n :: n in imsiMap.nodes ==> (n as object) !in {this, enbs, enbs.table, imsiMap.table, imsiMap})
      && (forall n :: n in enbs.nodes ==> (n as object) !in {this, imsiMap, imsiMap.table, enbs.table, enbs})
    }

    ghost function View(): Db
      reads this, imsiMap, enbs
    {
      Db(imsiMap.view, enbs.view, draws)
    }

    /** init_db before any line is read. */
    constructor (size: nat, mix: U32 -> nat, mixEnb: U32 -> nat, random: nat -> Bytes16)
      requires size > 0
      ensures Valid() && View() == Db(map[], map[], 0)
      ensures fresh(Repr())
    {
      var users := new HashMap<Record>(size, RecordKey, mix);
      var enbs := new HashMap<EnbInfo>(size, EnbKey, mixEnb);
      imsiMap, this.enbs, this.random, draws := users, enbs, random, 0;
    }

    method AddUser(c: Record)
      requires Valid()
      modifies Repr()
      ensures Valid() && fresh(Repr() - old(Repr())) && draws == old(draws) && enbs.view == old(enbs.view)
      ensures
        var h := RecordKey(c);
        imsiMap.view == if h in old(imsiMap.view) then old(imsiMap.view) else old(imsiMap.view)[h := c]
    {
      hide HashMap.Valid, RecordKey, Noticed, AddTo, Bucket;
      var ok := imsiMap.Add(c);
    }

    /** process_line once the IMSI and keys are read: complete the record and add it to the table. */
    method LoadUser(r: Record)
      requires Valid()
      modifies Repr()
      ensures Valid() && fresh(Repr() - old(Repr()))
      ensures View() == Load(random, old(View()), r)
    {
      hide HashMap.Valid, Complete, RecordKey, Get;
      CompleteKeepsKey(r, random(draws));
      var c := Complete(r, random(draws));
      draws := draws + 1;
      AddUser(c);
    }

    /** read_db_file, with its lines read. */
    method LoadUsers(rs: seq<Record>)
      requires Valid()
      modifies Repr()
      ensures Valid() && fresh(Repr() - old(Repr()))
      ensures View() == LoadAll(random, old(View()), rs)
    {
      hide Valid, View, Load;
      assert rs[..0] == [];
      for i := 0 to |rs|
        invariant Valid() && fresh(Repr() - old(Repr()))
        invariant View() == LoadAll(random, old(View()), rs[..i])
      {
        assert rs[..i + 1][..i] == rs[..i];
        LoadUser(rs[i]);
      }
      assert rs[..|rs|] == rs;
    }

    /** The user pointer of analyze_request: the record of the request's subject, if it has one. */
    ghost predicate Holds(node: ListNode?<Record>, who: Subject)
      reads this, imsiMap, node
    {
      who.User? ==> && node != null && node in imsiMap.nodes && imsiMap.First(node)
                    && who.h in imsiMap.view && imsiMap.view[who.h] == node.data && RecordKey(node.data) == who.h
    }

    /** Copying new contents into the record behind the user pointer. */
    method Store(who: Subject, node: ListNode<Record>, r: Record)
      requires Valid() && who.User? && Holds(node, who) && RecordKey(r) == who.h
      modifies Repr()
      ensures Valid() && Repr() == old(Repr()) && Holds(node, who) && draws == old(draws)
      ensures View() == old(View()).(users := old(View()).users[who.h := r])
    {
      imsiMap.Write(node, r);
    }

    /** One push record of the first loop of analyze_request. */
    method PushItem(who: Subject, node: ListNode?<Record>, p: Push)
      requires Valid() && PushAllowed(who, p) && Holds(node, who)
      modifies Repr()
      ensures Valid() && fresh(Repr() - old(Repr())) && Holds(node, who)
      ensures View() == ApplyPush(old(View()), who, p)
    {
      hide HashMap.Valid, PushField;
      if p.item == NEW_ENB {
        var ok := enbs.Add(PushedEnb(p));
      } else if PushField(p.item).Some? {
        var f := PushField(p.item).value;
        PushKeepsImsi(p.item);
        KeyKept(node.data, f, PushValue(p));
        Store(who, node, Set(node.data, f, PushValue(p)));
      }
    }

    /** The bytes a pull item puts into its slot. */
    method WriteReply(who: Subject, node: ListNode?<Record>, g: Pull, response: array<Octet>, at: nat)
      requires Valid() && PullAllowed(who, g) && Holds(node, who)
      requires at + 17 <= response.Length && (response as object) !in Repr()
      modifies response
      ensures var b := Reply(View(), who, g); response[at..at + |b|] == b
      ensures response[..at] == old(response[..at]) && response[at + 17..] == old(response[at + 17..])
    {
      hide HashMap.Valid, RecordReply, Unpack32;
      if g.item == GET_ENB {
        response[at] := GET_ENB;
        var enb := enbs.Get(Unpack32(g.arg));
        if enb != null {
          WriteBytes(response, at + 1, enb.data.sockNum);
        }
      } else if node != null && who.User? {
        WriteRecordReply(node.data, g.item, response, at);
      }
    }

    /** What a pull item changes besides answering: a counter goes up, a new RAND is drawn. */
    method PullEffect(who: Subject, node: ListNode?<Record>, g: Pull)
      requires Valid() && Holds(node, who)
      modifies Repr()
      ensures Valid() && Repr() == old(Repr()) && Holds(node, who)
      ensures View() == ApplyPull(random, old(View()), who, g)
    {
      hide HashMap.Valid, PullCounter;
      if node != null && who.User? {
        if PullCounter(g.item).Some? && PullCounter(g.item).value.increments {
          CounterFacts(g.item);
          var f := PullCounter(g.item).value.field;
          KeyKept(node.data, f, [(Get(node.data, f)[0] as int + 1) % 256]);
          Store(who, node, Increment(node.data, f));
        } else if g.item == RAND_UPDATE {
          KeyKept(node.data, Rand, random(draws));
          Store(who, node, Set(node.data, Rand, random(draws)));
          draws := draws + 1;
        }
      }
    }

    /** One pull item of the second loop of analyze_request, answered in the slot at the given place. */
    method PullItem(who: Subject, node: ListNode?<Record>, g: Pull, response: array<Octet>, at: nat)
      requires Valid() && PullAllowed(who, g) && Holds(node, who)
      requires at + 17 <= response.Length && (response as object) !in Repr()
      modifies Repr(), response
      ensures Valid() && Repr() == old(Repr()) && Holds(node, who)
      ensures View() == ApplyPull(random, old(View()), who, g)
      ensures var b := Reply(old(View()), who, g); response[at..at + |b|] == b
      ensures response[..at] == old(response[..at]) && response[at + 17..] == old(response[at + 17..])
    {
      hide HashMap.Valid, Reply, ApplyPull;
      WriteReply(who, node, g, response, at);
      PullEffect(who, node, g);
    }

    /** The PUSH loop of analyze_request. */
    method PushLoop(q: seq<Octet>, who: Subject, node: ListNode?<Record>) returns (offset: nat)
      requires Valid() && Holds(node, who) && ParsePushes(q, 17).Some?
      requires forall p :: p in ParsePushes(q, 17).value ==> PushAllowed(who, p)
      modifies Repr()
      ensures Valid() && fresh(Repr() - old(Repr())) && Holds(node, who)
      ensures View() == ApplyPushes(old(View()), who, ParsePushes(q, 17).value)
      ensures offset == 17 + 17 * |ParsePushes(q, 17).value| && offset < |q|
    {
      hide Valid, Holds, View, ApplyPush, PushAllowed;
      ghost var all := ParsePushes(q, 17).value;
      ghost var rest := all;
      offset := 17;
      while q[offset] != 0
        invariant offset < |q| && ParsePushes(q, offset) == Some(rest) && offset + 17 * |rest| == 17 + 17 * |all|
        invariant forall p :: p in rest ==> PushAllowed(who, p)
        invariant Valid() && fresh(Repr() - old(Repr())) && Holds(node, who)
        invariant ApplyPushes(View(), who, rest) == ApplyPushes(old(View()), who, all)
        decreases |rest|
      {
        var p := Push(q[offset], q[offset + 1..offset + 17]);
        assert rest[0] == p;
        PushItem(who, node, p);
        offset := offset + 17;
        rest := rest[1..];
      }
    }

    /** The PULL loop of analyze_request, from the byte after the separator. */
    method PullLoop(q: seq<Octet>, n: nat, start: nat, who: Subject, node: ListNode?<Record>, response: array<Octet>)
      returns (offset: nat, resOffset: nat)
      requires Valid() && Holds(node, who) && n <= |q| && ParsePulls(q, n, start).Some?
      requires forall g :: g in ParsePulls(q, n, start).value ==> PullAllowed(who, g)
      requires 17 * |ParsePulls(q, n, start).value| <= response.Length && (response as object) !in Repr()
      modifies Repr(), response
      ensures Valid() && Repr() == old(Repr())
      ensures var gs := ParsePulls(q, n, start).value;
              && View() == ApplyPulls(random, old(View()), who, gs)
              && SlotsHold(response[..], Replies(random, old(View()), who, gs), |gs|)
              && offset == start + PullsSize(gs) && resOffset == 17 * |gs|
    {
      hide Valid, Holds, View, Repr, ApplyPulls, Replies, PullsSize, PullSize, ApplyPull, PullAllowed, Reply,
          ParsePulls, SlotsHold;
      ghost var all := ParsePulls(q, n, start).value;
      ghost var rest, answers, k := all, Replies(random, View(), who, all), 0;
      NoSlots(response[..], answers);
      offset, resOffset := start, 0;
      while offset < n && q[offset] != EOM
        invariant ParsePulls(q, n, offset) == Some(rest) && k + |rest| == |all| && resOffset == 17 * k
        invariant offset + PullsSize(rest) == start + PullsSize(all)
        invariant forall g :: g in rest ==> PullAllowed(who, g)
        invariant Valid() && Repr() == old(Repr()) && Holds(node, who)
        invariant ApplyPulls(random, View(), who, rest) == ApplyPulls(random, old(View()), who, all)
        invariant 0 <= k <= |answers| == |all| && Replies(random, View(), who, rest) == answers[k..]
        invariant SlotsHold(response[..], answers, k)
        decreases |rest|
      {
        ghost var was := response[..];
        PullStep(q, n, offset);
        PullOnce(random, View(), who, rest);
        var g := if q[offset] == GET_ENB then Pull(GET_ENB, q[offset + 1..offset + 5])
            else Pull(q[offset], [0, 0, 0, 0]);
        PullItem(who, node, g, response, resOffset);
        OneMoreSlot(was, response[..], answers, k);
        resOffset := resOffset + 17;
        offset := offset + PullSize(g);
        rest := rest[1..];
        k := k + 1;
      }
      PullsDone(q, n, offset);
      NoPulls(random, View(), who);
    }

    /** The identifier switch of analyze_request: the subject, and the record of a subscriber. */
    method IdentifySubject(q: seq<Octet>) returns (who: Option<Subject>, node: ListNode?<Record>)
      requires Valid() && |q| >= 17
      ensures who == Identify(View(), q) && (who.Some? ==> Holds(node, who.value))
    {
      hide HashMap.Valid, IdHash;
      node := null;
      if !KnownKind(q[0]) {
        who := None;
      } else if q[0] == NEW_ENB {
        who := Some(NewEnb);
      } else {
        node := imsiMap.Get(IdHash(q));
        who := if node == null then None else Some(User(IdHash(q)));
      }
    }

    /** analyze_request */
    method AnalyzeRequest(q: seq<Octet>, n: nat, response: array<Octet>) returns (consumed: nat, responseLen: nat)
      requires Valid() && (response as object) !in Repr() && Analyzable(View(), q, n, response.Length)
      modifies Repr(), response
      ensures Valid() && fresh(Repr() - old(Repr()))
      ensures var out := Analyze(random, old(View()), q, n, response.Length);
              && View() == out.db && consumed == out.consumed && responseLen == out.length
              && SlotsHold(response[..], out.replies, |out.replies|)
    {
      hide Valid, Holds, View, Identify, ApplyPushes, ApplyPulls, Replies, ParsePushes, ParsePulls;
      var who, node := IdentifySubject(q);
      if who.None? {
        var i := 1;
        while i < n && q[i] != EOM
          invariant 1 <= i <= n && Skip(q, n, i) == Skip(q, n, 1)
          modifies {}
        {
          i := i + 1;
        }
        response[0] := 0;
        assert response[0..1] == [0];
        return i + 1, 1;
      }
      var offset := PushLoop(q, who.value, node);
      consumed, responseLen := PullLoop(q, n, offset + 1, who.value, node, response);
      consumed := consumed + 1;
    }

    /** One turn of the inner loop of attend_request: a request is analysed and its answer sent. */
    method ServeOne(q: seq<Octet>, n: nat, response: array<Octet>) returns (consumed: nat, answer: seq<Octet>)
      requires Valid() && (response as object) !in Repr() && Analyzable(View(), q, n, response.Length)
      modifies Repr(), response
      ensures Valid() && fresh(Repr() - old(Repr()))
      ensures var out := Analyze(random, old(View()), q, n, response.Length);
              View() == out.db && consumed == out.consumed && Answers(answer, out)
    {
      hide Valid, View, Analyze, Analyzable, SlotsHold, Answers;
      ghost var out := Analyze(random, View(), q, n, response.Length);
      AnswerFits(random, View(), q, n, response.Length);
      var responseLen;
      consumed, responseLen := AnalyzeRequest(q, n, response);
      Prefix(response[..], responseLen, out);
      answer := response[..responseLen];
    }

    /** The inner loop of attend_request: what is sent for each request of a received buffer (an empty answer is
        not sent). It ends because every request consumes at least one byte. */
    method AttendRequest(buffer: seq<Octet>, n: nat, response: array<Octet>) returns (sent: seq<seq<Octet>>)
      requires Valid() && (response as object) !in Repr() && n <= |buffer|
          && Servable(random, View(), buffer, n, response.Length)
      modifies Repr(), response
      ensures Valid() && fresh(Repr() - old(Repr()))
      ensures var outs := Serve(random, old(View()), buffer, n, response.Length);
              && View() == Final(old(View()), outs) && |sent| == |outs|
              && forall k :: 0 <= k < |outs| ==> Answers(sent[k], outs[k])
    {
      hide Valid, View, Analyze, Analyzable, Serve, Servable, SlotsHold, Answers, Rest, Final, SoFar;
      ghost var start := View();
      ghost var outs := Serve(random, start, buffer, n, response.Length);
      NothingServed(start, outs);
      WholeRest(buffer, n);
      var multi := 0;
      sent := [];
      while multi < n
        invariant Valid() && fresh(Repr() - old(Repr())) && (response as object) !in Repr()
        invariant Servable(random, View(), Rest(buffer, n, multi), Left(n, multi), response.Length)
        invariant SoFar(start, View(), outs, sent,
            Serve(random, View(), Rest(buffer, n, multi), Left(n, multi), response.Length))
        decreases n - multi
      {
        NextRest(random, View(), buffer, n, multi, response.Length);
        ghost var out := Analyze(random, View(), buffer[multi..], n - multi, response.Length);
        var consumed, answer := ServeOne(buffer[multi..], n - multi, response);
        OneMoreServed(start, outs, sent, answer, out,
                      Serve(random, View(), Rest(buffer, n, multi + consumed), Left(n, multi + consumed),
                          response.Length));
        sent := sent + [answer];
        multi := multi + consumed;
      }
      ServeNothing(random, View(), Rest(buffer, n, multi), response.Length);
      AllServed(start, View(), outs, sent);
    }
  }

  /** What is left of the received bytes at some offset, and how many bytes that is. */
  function Rest(buffer: seq<Octet>, n: nat, multi: nat): seq<Octet>
    requires n <= |buffer|
  {
    buffer[if multi < n then multi else n..]
  }

  function Left(n: nat, multi: nat): nat {
    if multi < n then n - multi else 0
  }

  lemma WholeRest(buffer: seq<Octet>, n: nat)
    requires n <= |buffer|
    ensures Rest(buffer, n, 0) == buffer
  {
  }

  lemma {:induction false} NextRest(random: nat -> Bytes16, db: Db, buffer: seq<Octet>, n: nat, multi: nat,
      capacity: nat)
    requires multi < n <= |buffer| && Servable(random, db, Rest(buffer, n, multi), Left(n, multi), capacity)
    ensures Rest(buffer, n, multi) == buffer[multi..] && Analyzable(db, buffer[multi..], n - multi, capacity)
    ensures var out := Analyze(random, db, buffer[multi..], n - multi, capacity); var next := multi + out.consumed;
            && Servable(random, out.db, Rest(buffer, n, next), Left(n, next), capacity)
            && Serve(random, db, Rest(buffer, n, multi), Left(n, multi), capacity) ==
               [out] + Serve(random, out.db, Rest(buffer, n, next), Left(n, next), capacity)
  {
    hide Analyze, Analyzable, Serve, Servable, Rest, Left;
    RestHere(buffer, n, multi);
    ServeStep(random, db, buffer[multi..], n - multi, capacity);
    RestAfter(buffer, n, multi, Analyze(random, db, buffer[multi..], n - multi, capacity).consumed);
  }

  lemma RestHere(buffer: seq<Octet>, n: nat, multi: nat)
    requires multi < n <= |buffer|
    ensures Rest(buffer, n, multi) == buffer[multi..] && Left(n, multi) == n - multi
  {
  }

  lemma RestAfter(buffer: seq<Octet>, n: nat, multi: nat, consumed: nat)
    requires multi < n <= |buffer|
    ensures var m := if consumed < n - multi then consumed else n - multi;
            buffer[multi..][m..] == Rest(buffer, n, multi + consumed) && n - multi - m == Left(n, multi + consumed)
  {
  }

  /** Some outcomes have been served and sent, and the rest is to come. */
  ghost predicate SoFar(start: Db, db: Db, outs: seq<Outcome>, sent: seq<seq<Octet>>, rest: seq<Outcome>) {
    && |sent| + |rest| == |outs| && outs[|sent|..] == rest
    && db == Final(start, outs[..|sent|])
    && forall k :: 0 <= k < |sent| ==> Answers(sent[k], outs[k])
  }

  lemma NothingServed(start: Db, outs: seq<Outcome>)
    ensures SoFar(start, start, outs, [], outs)
  {
  }

  lemma OneMoreServed(start: Db, outs: seq<Outcome>, sent: seq<seq<Octet>>, answer: seq<Octet>, out: Outcome,
      rest: seq<Outcome>)
    requires exists db :: SoFar(start, db, outs, sent, [out] + rest)
    requires Answers(answer, out)
    ensures SoFar(start, out.db, outs, sent + [answer], rest)
  {
    hide Answers;
    assert outs[|sent|..][0] == out && outs[|sent|..][1..] == rest;
    assert outs[..|sent| + 1][|sent|] == out;
  }

  lemma AllServed(start: Db, db: Db, outs: seq<Outcome>, sent: seq<seq<Octet>>)
    requires SoFar(start, db, outs, sent, [])
    ensures db == Final(start, outs) && |sent| == |outs| && forall k :: 0 <= k < |outs| ==> Answers(sent[k], outs[k])
  {
    assert outs[..|outs|] == outs;
  }

  lemma {:induction false} ServeNothing(random: nat -> Bytes16, db: Db, q: seq<Octet>, capacity: nat)
    ensures Servable(random, db, q, 0, capacity) && Serve(random, db, q, 0, capacity) == []
  {
  }

  lemma ServeStep(random: nat -> Bytes16, db: Db, q: seq<Octet>, n: nat, capacity: nat)
    requires n > 0 && Servable(random, db, q, n, capacity)
    ensures Analyzable(db, q, n, capacity) && n <= |q|
    ensures var out := Analyze(random, db, q, n, capacity);
            var m := if out.consumed < n then out.consumed else n;
            && Servable(random, out.db, q[m..], n - m, capacity)
            && Serve(random, db, q, n, capacity) == [out] + Serve(random, out.db, q[m..], n - m, capacity)
  {
    hide Analyze;
    var out := Analyze(random, db, q, n, capacity);
    if out.consumed >= n { ServeNothing(random, out.db, q[n..], capacity); }
  }

  /** An answer of the right length whose slots begin as they should. */
  ghost predicate Answers(sent: seq<Octet>, out: Outcome) {
    |sent| == out.length && SlotsHold(sent, out.replies, |out.replies|)
  }

  lemma AnswerFits(random: nat -> Bytes16, db: Db, q: seq<Octet>, n: nat, capacity: nat)
    requires Analyzable(db, q, n, capacity)
    ensures var out := Analyze(random, db, q, n, capacity);
            out.length <= capacity && forall k :: 0 <= k < |out.replies| ==> 17 * k + |out.replies[k]| <= out.length
  {
  }

  lemma Prefix(response: seq<Octet>, length: nat, out: Outcome)
    requires length == out.length <= |response| && SlotsHold(response, out.replies, |out.replies|)
    requires forall k :: 0 <= k < |out.replies| ==> 17 * k + |out.replies[k]| <= length
    ensures Answers(response[..length], out)
  {
    var sent := response[..length];
    forall k | 0 <= k < |out.replies| ensures SlotHolds(sent, k, out.replies[k]) {
      assert SlotHolds(response, k, out.replies[k]);
      assert sent[17 * k..17 * k + |out.replies[k]|] == response[17 * k..17 * k + |out.replies[k]|];
    }
  }

  function PullAt(q: seq<Octet>, o: nat): Pull
    requires o < |q| && (q[o] == GET_ENB ==> o + 5 <= |q|)
  {
    if q[o] == GET_ENB then Pull(GET_ENB, q[o + 1..o + 5]) else Pull(q[o], [0, 0, 0, 0])
  }

  lemma PullStep(q: seq<Octet>, n: nat, o: nat)
    requires o < n <= |q| && q[o] != EOM && ParsePulls(q, n, o).Some?
    ensures q[o] == GET_ENB ==> o + 5 <= |q|
    ensures var rest := ParsePulls(q, n, o).value;
            |rest| > 0 && rest[0] == PullAt(q, o) && ParsePulls(q, n, o + PullSize(rest[0])) == Some(rest[1..])
  {
  }

  lemma {:induction false} PullOnce(random: nat -> Bytes16, db: Db, who: Subject, gs: seq<Pull>)
    requires |gs| > 0
    ensures var next := ApplyPull(random, db, who, gs[0]);
            && ApplyPulls(random, db, who, gs) == ApplyPulls(random, next, who, gs[1..])
            && Replies(random, db, who, gs) == [Reply(db, who, gs[0])] + Replies(random, next, who, gs[1..])
    ensures PullsSize(gs) == PullSize(gs[0]) + PullsSize(gs[1..])
  {
    hide ApplyPull, Reply;
  }

  lemma {:induction false} NoPulls(random: nat -> Bytes16, db: Db, who: Subject)
    ensures ApplyPulls(random, db, who, []) == db && Replies(random, db, who, []) == [] && PullsSize([]) == 0
  {
  }

  lemma {:induction false} PullsDone(q: seq<Octet>, n: nat, o: nat)
    requires n <= |q| && (o >= n || q[o] == EOM)
    ensures ParsePulls(q, n, o) == Some([])
  {
  }

  lemma NoSlots(response: seq<Octet>, answers: seq<seq<Octet>>)
    ensures SlotsHold(response, answers, 0)
  {
  }

  lemma Taken(s: seq<Octet>, k: nat, lo: nat, hi: nat)
    requires lo <= hi <= k <= |s|
    ensures s[..k][lo..hi] == s[lo..hi]
  {
  }

  lemma OneMoreSlot(was: seq<Octet>, now: seq<Octet>, answers: seq<seq<Octet>>, k: nat)
    requires k < |answers| && |was| == |now| >= 17 * k + 17 && now[..17 * k] == was[..17 * k] && |answers[k]| <= 17
    requires SlotsHold(was, answers, k) && now[17 * k..17 * k + |answers[k]|] == answers[k]
    requires forall j :: 0 <= j < k ==> |answers[j]| <= 17
    ensures SlotsHold(now, answers, k + 1)
  {
    forall j | 0 <= j < k + 1 ensures SlotHolds(now, j, answers[j]) {
      if j < k {
        assert SlotHolds(was, j, answers[j]);
        var lo, hi := 17 * j, 17 * j + |answers[j]|;
        Taken(now, 17 * k, lo, hi);
        Taken(was, 17 * k, lo, hi);
      }
    }
  }

  /** The cases of the second switch of analyze_request that read the record. */
  method WriteRecordReply(r: Record, item: Octet, response: array<Octet>, at: nat)
    requires at + 17 <= response.Length
    modifies response
    ensures var b := RecordReply(r, item); response[at..at + |b|] == b
    ensures response[..at] == old(response[..at]) && response[at + 17..] == old(response[at + 17..])
  {
    hide PullField, PullCounter, CopyLength, CounterReply, Part;
    if item == IMSI {
      response[at] := IMSI;
      CopyOut(response, at + 1, r, Offset(Imsi), 16);
      assert Part(r, 0, 16) == r[0..16] by { WholePart(r); }
      ImsiReply(r, response[at..at + 17]);
      response[at + 16] := 0;
    } else if item == MSIN {
      WriteCopy(response, at, MSIN, r, Offset(Imsi) + 5, 11);
    } else if PullCounter(item).Some? {
      CounterFacts(item);
      WriteBytes(response, at, CounterReply(PullCounter(item).value, r));
    } else if PullField(item).Some? {
      FieldsApart(PullField(item).value, Imsi);
      CopyBounds(item);
      WriteCopy(response, at, item, r, Offset(PullField(item).value), CopyLength(item));
    }
  }

  /** The item byte and a memcpy from the record behind it. */
  method WriteCopy(response: array<Octet>, at: nat, item: Octet, r: Record, o: nat, n: nat)
    requires at + 1 + n <= response.Length && o <= SIZE
    modifies response
    ensures var b := [item] + Part(r, o, n); response[at..at + |b|] == b
    ensures response[..at] == old(response[..at])
    ensures forall k :: at + 1 + n <= k < response.Length ==> response[k] == old(response[k])
  {
    response[at] := item;
    CopyOut(response, at + 1, r, o, n);
    HeadAndPart(response[..], at, item, Part(r, o, n));
  }

  lemma WholePart(r: Record)
    ensures Part(r, 0, 16) == r[0..16]
  {
  }

  lemma ImsiReply(r: Record, slot: seq<Octet>)
    requires |slot| == 17 && slot[0] == IMSI && slot[1..17] == r[0..16]
    ensures slot[16 := 0] == [IMSI] + Get(r, Imsi)[..15] + [0]
  {
    assert forall k :: 1 <= k < 17 ==> slot[k] == slot[1..17][k - 1];
  }

  lemma HeadAndPart(s: seq<Octet>, at: nat, item: Octet, part: seq<Octet>)
    requires at + 1 + |part| <= |s| && s[at] == item && s[at + 1..at + 1 + |part|] == part
    ensures s[at..at + |[item] + part|] == [item] + part
  {
  }

  /** A memcpy of known bytes. */
  method WriteBytes(response: array<Octet>, at: nat, b: seq<Octet>)
    requires at + |b| <= response.Length
    modifies response
    ensures response[at..at + |b|] == b
    ensures forall k :: 0 <= k < response.Length && !(at <= k < at + |b|) ==> response[k] == old(response[k])
  {
    for i := 0 to |b|
      invariant forall k :: 0 <= k < i ==> response[at + k] == b[k]
      invariant forall k :: 0 <= k < response.Length && !(at <= k < at + i) ==> response[k] == old(response[k])
    {
      response[at + i] := b[i];
    }
  }

  /** A memcpy of n bytes from offset o of a record; what lies behind the record is unspecified. */
  method CopyOut(response: array<Octet>, at: nat, r: Record, o: nat, n: nat)
    requires at + n <= response.Length && o <= SIZE
    modifies response
    ensures response[at..at + |Part(r, o, n)|] == Part(r, o, n)
    ensures forall k :: 0 <= k < response.Length && !(at <= k < at + n) ==> response[k] == old(response[k])
  {
    for i := 0 to n
      invariant response[at..at + |Part(r, o, i)|] == Part(r, o, i)
      invariant forall k :: 0 <= k < response.Length && !(at <= k < at + i) ==> response[k] == old(response[k])
    {
      ghost var done := Part(r, o, i);
      if o + i < SIZE {
        response[at + i] := r[o + i];
        assert Part(r, o, i + 1) == done + [r[o + i]];
        assert response[at..at + |done| + 1] == response[at..at + |done|] + [r[o + i]];
      } else {
        response[at + i] := *;
      }
    }
  }

  lemma CounterFacts(item: Octet)
    requires PullCounter(item).Some?
    ensures var c := PullCounter(item).value; 1 <= c.at <= 16 && Width(c.field) == 1 && c.field != Imsi
  {
  }

  lemma CopyBounds(item: Octet)
    requires PullField(item).Some?
    ensures CopyLength(item) <= 16 && PullField(item) != Some(Imsi)
  {
  }

  lemma PushKeepsImsi(item: Octet)
    ensures PushField(item) != Some(Imsi)
  {
  }

  /** No push or pull writes the IMSI, so the key of a record never changes. */
  lemma KeyKept(r: Record, f: Field, v: seq<Octet>)
    requires |v| == Width(f) && f != Imsi
    ensures RecordKey(Set(r, f, v)) == RecordKey(r)
  {
    GetSet(r, f, Imsi, v);
  }
}
