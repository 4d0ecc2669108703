/** The client and the server of CoreKubeDB together: encoded requests are read back exactly, pipelined requests
    are served one by one, pulls return what was pushed, and every identity of a subscriber leads to its record. */
module DbTheorems {
  import opened Bytes
  import opened DbProtocol
  import opened LibCk
  import opened Records
  import opened Slices

  // ----- reading back an encoded request -----

  lemma {:induction false} PushesFromFront(p: Push, ps: seq<Push>)
    ensures EncodePushes([p] + ps) == [p.item] + p.payload + EncodePushes(ps)
  {
    if ps == [] {
      assert [p] + ps == [p] && [p][..0] == [];
      assert EncodePushes([p]) == EncodePushes([]) + [p.item] + p.payload;
    } else {
      var front, x := ps[..|ps| - 1], ps[|ps| - 1];
      assert ([p] + ps)[..|ps|] == [p] + front;
      PushesFromFront(p, front);
      assert EncodePushes([p] + ps) == EncodePushes([p] + front) + [x.item] + x.payload;
    }
  }

  lemma {:induction false} PullsFromFront(g: Pull, gs: seq<Pull>)
    ensures EncodePulls([g] + gs) == EncodePull(g) + EncodePulls(gs)
  {
    hide EncodePull;
    if gs == [] {
      assert [g] + gs == [g] && [g][..0] == [];
      assert EncodePulls([g]) == EncodePulls([]) + EncodePull(g);
    } else {
      var front, x := gs[..|gs| - 1], gs[|gs| - 1];
      assert ([g] + gs)[..|gs|] == [g] + front;
      PullsFromFront(g, front);
      Assoc(EncodePull(g), EncodePulls(front), EncodePull(x));
    }
  }

  lemma {:induction false} ParseEncodedPushes(q: seq<Octet>, pre: seq<Octet>, ps: seq<Push>, rest: seq<Octet>)
    requires q == pre + EncodePushes(ps) + [0] + rest && forall p :: p in ps ==> p.item != 0
    ensures ParsePushes(q, |pre|) == Some(ps)
    decreases |ps|
  {
    if ps == [] {
      assert q[|pre|] == 0;
    } else {
      var p, tail := ps[0], ps[1..];
      assert ps == [p] + tail;
      PushesFromFront(p, tail);
      var record := [p.item] + p.payload;
      assert q == (pre + record) + EncodePushes(tail) + [0] + rest;
      ParseEncodedPushes(q, pre + record, tail, rest);
      assert q[|pre|] == p.item && q[|pre| + 1..|pre| + 17] == p.payload;
    }
  }

  /** A pull item as analyze_request can read it: not EOM, and an argument only with GET_ENB. */
  predicate Canonical(g: Pull) {
    g.item != EOM && (g.item != GET_ENB ==> g.arg == [0, 0, 0, 0])
  }

  /** Parsing encoded pull items continues with what follows them. */
  lemma {:induction false} ParseEncodedPulls(q: seq<Octet>, n: nat, pre: seq<Octet>, gs: seq<Pull>, rest: seq<Octet>)
    requires q == pre + EncodePulls(gs) + rest && |pre| + |EncodePulls(gs)| <= n <= |q|
    requires forall g :: g in gs ==> Canonical(g)
    ensures var after := ParsePulls(q, n, |pre| + |EncodePulls(gs)|);
            ParsePulls(q, n, |pre|) == if after.None? then None else Some(gs + after.value)
    decreases |gs|
  {
    hide ParsePulls, EncodePull;
    if gs != [] {
      var g, tail := gs[0], gs[1..];
      assert gs == [g] + tail;
      PullsFromFront(g, tail);
      hide EncodePulls;
      var e := EncodePull(g);
      assert q == (pre + e) + EncodePulls(tail) + rest;
      ParseEncodedPulls(q, n, pre + e, tail, rest);
      assert q == pre + e + (EncodePulls(tail) + rest);
      OnePull(q, n, pre, g, EncodePulls(tail) + rest);
      var after := ParsePulls(q, n, |pre| + |EncodePulls(gs)|);
      if after.Some? { Assoc([g], tail, after.value); }
    } else {
      var after := ParsePulls(q, n, |pre|);
      if after.Some? { assert [] + after.value == after.value; }
    }
  }

  lemma {:induction false} OnePull(q: seq<Octet>, n: nat, pre: seq<Octet>, g: Pull, rest: seq<Octet>)
    requires q == pre + EncodePull(g) + rest && |pre| + PullSize(g) <= n <= |q| && Canonical(g)
    ensures var after := ParsePulls(q, n, |pre| + PullSize(g));
            ParsePulls(q, n, |pre|) == if after.None? then None else Some([g] + after.value)
  {
    assert q[|pre|] == g.item;
    if g.item == GET_ENB { assert q[|pre| + 1..|pre| + 5] == g.arg; }
  }

  lemma {:induction false} PullsSizeIsLength(gs: seq<Pull>)
    ensures PullsSize(gs) == |EncodePulls(gs)|
  {
    if gs != [] {
      PullsSizeIsLength(gs[1..]);
      assert gs == [gs[0]] + gs[1..];
      PullsFromFront(gs[0], gs[1..]);
    }
  }

  // ----- one request -----

  datatype Request = Request(id: Bytes17, pushes: seq<Push>, pulls: seq<Pull>)

  function Wire(r: Request): seq<Octet> {
    Encode(r.id, r.pushes, r.pulls)
  }

  /** A request about the given subject that analyze_request can process. */
  ghost predicate Proper(r: Request, who: Subject, capacity: nat) {
    && (forall p :: p in r.pushes ==> p.item != 0 && PushAllowed(who, p))
    && (forall g :: g in r.pulls ==> Canonical(g) && PullAllowed(who, g))
    && 17 * |r.pulls| <= capacity && capacity >= 1
  }

  function Effect(random: nat -> Bytes16, db: Db, who: Subject, r: Request): Db {
    ApplyPulls(random, ApplyPushes(db, who, r.pushes), who, r.pulls)
  }

  function AnswersTo(random: nat -> Bytes16, db: Db, who: Subject, r: Request): (b: seq<seq<Octet>>)
    ensures |b| == |r.pulls|
  {
    Replies(random, ApplyPushes(db, who, r.pushes), who, r.pulls)
  }

  /** analyze_request applied to a request in front of any further bytes consumes exactly the request, applies its
      pushes in order and then its pulls, and answers one 17-byte slot a pull. */
  lemma RequestRoundTrip(random: nat -> Bytes16, db: Db, who: Subject, r: Request, q: seq<Octet>, n: nat, capacity: nat)
    requires Proper(r, who, capacity) && Wire(r) <= q && |Wire(r)| <= n <= |q|
    requires Identify(db, q) == Some(who)
    ensures Analyzable(db, q, n, capacity)
    ensures Analyze(random, db, q, n, capacity) ==
            Outcome(Effect(random, db, who, r), |Wire(r)|, AnswersTo(random, db, who, r), 17 * |r.pulls|)
  {
    hide Body, EncodePulls, ApplyPulls, ApplyPushes, Replies, Identify, ParsePulls, ParsePushes, PushAllowed,
        PullAllowed;
    WireParses(r, q, n);
  }

  lemma WireParses(r: Request, q: seq<Octet>, n: nat)
    requires Wire(r) <= q && |Wire(r)| <= n <= |q|
    requires forall p :: p in r.pushes ==> p.item != 0
    requires forall g :: g in r.pulls ==> Canonical(g)
    ensures ParsePushes(q, 17) == Some(r.pushes) && ParsePulls(q, n, 18 + 17 * |r.pushes|) == Some(r.pulls)
    ensures |Wire(r)| == 19 + 17 * |r.pushes| + PullsSize(r.pulls) <= |q|
  {
    var b := Body(r.id, r.pushes, r.pulls);
    assert |b| == 18 + 17 * |r.pushes| + |EncodePulls(r.pulls)|;
    hide Body, EncodePulls, ParsePulls, ParsePushes;
    var rest := q[|b|..];
    assert q[..|b| + 1] == b + [EOM];
    assert q == b + rest && q[|b|] == EOM;
    ParseWhole(q, n, r, rest);
    PullsEnd(q, n, |b|);
    assert r.pulls + [] == r.pulls;
    PullsSizeIsLength(r.pulls);
  }

  lemma {:induction false} PullsEnd(q: seq<Octet>, n: nat, o: nat)
    requires o < n <= |q| && q[o] == EOM
    ensures ParsePulls(q, n, o) == Some([])
  {
  }

  /** Both parsers on a request that some bytes follow. */
  lemma {:induction false} ParseWhole(q: seq<Octet>, n: nat, r: Request, rest: seq<Octet>)
    requires q == Body(r.id, r.pushes, r.pulls) + rest && |Body(r.id, r.pushes, r.pulls)| <= n <= |q|
    requires forall p :: p in r.pushes ==> p.item != 0
    requires forall g :: g in r.pulls ==> Canonical(g)
    ensures ParsePushes(q, 17) == Some(r.pushes)
    ensures var after := ParsePulls(q, n, |Body(r.id, r.pushes, r.pulls)|);
            ParsePulls(q, n, 18 + 17 * |r.pushes|) == if after.None? then None else Some(r.pulls + after.value)
  {
    hide ParsePushes, ParsePulls, EncodePushes, EncodePulls;
    assert q == r.id + EncodePushes(r.pushes) + [0] + (EncodePulls(r.pulls) + rest);
    ParseEncodedPushes(q, r.id, r.pushes, EncodePulls(r.pulls) + rest);
    var pre := r.id + EncodePushes(r.pushes) + [0];
    assert q == pre + EncodePulls(r.pulls) + rest;
    ParseEncodedPulls(q, n, pre, r.pulls, rest);
  }

  // ----- identifiers -----

  /** The identifier's digits end inside its 17 bytes. */
  predicate Terminated(id: Bytes17) {
    (id[0] == IMSI ==> 0 in id[7..]) && (id[0] == MSIN ==> 0 in id[2..])
  }

  lemma {:induction false} DigitsEnd(s: seq<Octet>, t: seq<Octet>, n: nat)
    requires 0 in s
    ensures Digits(s + t, n) == Digits(s, n)
  {
    assert (s + t)[0] == s[0];
    if IsDigit(s[0]) {
      assert s[0] != 0 && (s + t)[1..] == s[1..] + t;
      assert s == [s[0]] + s[1..];
      DigitsEnd(s[1..], t, 10 * n + (s[0] - 48));
    }
  }

  lemma {:induction false} AtoiEnds(s: seq<Octet>, t: seq<Octet>)
    requires 0 in s
    ensures Atoi(s + t) == Atoi(s)
  {
    assert (s + t)[0] == s[0] && (s + t)[1..] == s[1..] + t && s == [s[0]] + s[1..];
    if IsSpace(s[0]) {
      AtoiEnds(s[1..], t);
    } else if s[0] == 45 || s[0] == 43 {
      DigitsEnd(s[1..], t, 0);
    } else {
      DigitsEnd(s, t, 0);
    }
  }

  /** Only the 17 identifier bytes decide whom a request is about. */
  lemma IdentifyByPrefix(db: Db, id: Bytes17, q: seq<Octet>)
    requires id <= q && Terminated(id)
    ensures Identify(db, q) == Identify(db, id)
  {
    assert q[0] == id[0] && q[1..5] == id[1..5];
    if id[0] == IMSI {
      assert q[1..][6..] == id[1..][6..] + q[17..] && id[1..][6..] == id[7..];
      AtoiEnds(id[7..], q[17..]);
    } else if id[0] == MSIN {
      assert q[1..][1..] == id[1..][1..] + q[17..] && id[1..][1..] == id[2..];
      AtoiEnds(id[2..], q[17..]);
    }
  }

  // ----- pipelined requests -----

  datatype Access = Access(who: Subject, request: Request)

  function WireAll(accesses: seq<Access>): seq<Octet> {
    if accesses == [] then [] else Wire(accesses[0].request) + WireAll(accesses[1..])
  }

  /** Every request names a subject the tables know, and can be processed. */
  ghost predicate AllProper(db: Db, accesses: seq<Access>, capacity: nat) {
    forall a :: a in accesses ==>
      Proper(a.request, a.who, capacity) && Terminated(a.request.id) && Identify(db, a.request.id) == Some(a.who)
  }

  /** The requests carried out one after the other. */
  function Outcomes(random: nat -> Bytes16, db: Db, accesses: seq<Access>): seq<Outcome>
    decreases |accesses|
  {
    if accesses == [] then []
    else
      var a := accesses[0];
      var next := Effect(random, db, a.who, a.request);
      [Outcome(next, |Wire(a.request)|, AnswersTo(random, db, a.who, a.request), 17 * |a.request.pulls|)]
        + Outcomes(random, next, accesses[1..])
  }

  lemma IdentifyByKeys(db: Db, db': Db, q: seq<Octet>)
    requires |q| >= 17 && db.users.Keys == db'.users.Keys
    ensures Identify(db, q) == Identify(db', q)
  {
    if IdHash(q) in db.users { assert IdHash(q) in db'.users.Keys; }
    if IdHash(q) in db'.users { assert IdHash(q) in db.users.Keys; }
  }

  /** A buffer holding any number of requests back to back is served exactly as the requests one by one. */
  lemma {:induction false} Pipelined(random: nat -> Bytes16, db: Db, accesses: seq<Access>, capacity: nat)
    requires AllProper(db, accesses, capacity)
    ensures var q := WireAll(accesses);
            Servable(random, db, q, |q|, capacity)
                && Serve(random, db, q, |q|, capacity) == Outcomes(random, db, accesses)
    decreases |accesses|
  {
    hide Proper, Terminated, Identify, Effect, AnswersTo, Wire, Analyze, Analyzable;
    if accesses != [] {
      var a, tail := accesses[0], accesses[1..];
      var q := WireAll(accesses);
      var next := Effect(random, db, a.who, a.request);
      WireStart(a.request, q, WireAll(tail));
      IdentifyByPrefix(db, a.request.id, q);
      RequestRoundTrip(random, db, a.who, a.request, q, |q|, capacity);
      EffectKeepsKeys(random, db, a.who, a.request);
      forall b | b in tail ensures Identify(next, b.request.id) == Some(b.who) {
        assert b in accesses;
        IdentifyByKeys(db, next, b.request.id);
      }
      assert q[|Wire(a.request)|..] == WireAll(tail);
      Pipelined(random, next, tail, capacity);
    }
  }

  lemma WireStart(r: Request, q: seq<Octet>, rest: seq<Octet>)
    requires q == Wire(r) + rest
    ensures Wire(r) <= q && r.id <= q && |Wire(r)| >= 19
  {
    assert Wire(r) == r.id + (EncodePushes(r.pushes) + [0] + EncodePulls(r.pulls) + [EOM]);
  }

  lemma EffectKeepsKeys(random: nat -> Bytes16, db: Db, who: Subject, r: Request)
    ensures Effect(random, db, who, r).users.Keys == db.users.Keys
  {
  }

  // ----- the worker's requests lack EOM -----

  /** A request as db_access sends it, without EOM, is processed the same when nothing follows it. */
  lemma WorkerRequest(random: nat -> Bytes16, db: Db, who: Subject, r: Request, capacity: nat)
    requires Proper(r, who, capacity) && Identify(db, Body(r.id, r.pushes, r.pulls)) == Some(who)
    ensures var q := Body(r.id, r.pushes, r.pulls);
            && Analyzable(db, q, |q|, capacity)
            && Analyze(random, db, q, |q|, capacity) ==
               Outcome(Effect(random, db, who, r), |q| + 1, AnswersTo(random, db, who, r), 17 * |r.pulls|)
  {
    hide Body, EncodePulls, ApplyPulls, ApplyPushes, Replies, Identify, ParsePulls, ParsePushes, PushAllowed,
        PullAllowed;
    BodyParses(r, Body(r.id, r.pushes, r.pulls));
  }

  lemma {:induction false} BodyParses(r: Request, q: seq<Octet>)
    requires q == Body(r.id, r.pushes, r.pulls)
    requires forall p :: p in r.pushes ==> p.item != 0
    requires forall g :: g in r.pulls ==> Canonical(g)
    ensures ParsePushes(q, 17) == Some(r.pushes) && ParsePulls(q, |q|, 18 + 17 * |r.pushes|) == Some(r.pulls)
    ensures |q| == 18 + 17 * |r.pushes| + PullsSize(r.pulls)
  {
    assert |q| == 18 + 17 * |r.pushes| + |EncodePulls(r.pulls)|;
    hide Body, EncodePulls, ParsePushes;
    assert q == q + [];
    ParseWhole(q, |q|, r, []);
    assert ParsePulls(q, |q|, |q|) == Some([]) && r.pulls + [] == r.pulls;
    PullsSizeIsLength(r.pulls);
  }

  /** When other bytes do follow, they are taken for further pull items of this request, the first of them for one
      certainly unless it is EOM: the request is carried out and answered with all these pulls. So requests of this
      kind must arrive one a buffer. */
  lemma WorkerRequestsMerge(random: nat -> Bytes16, db: Db, who: Subject, r: Request, next: seq<Octet>, capacity: nat)
    requires var q := Body(r.id, r.pushes, r.pulls) + next;
             Proper(r, who, capacity) && Identify(db, q) == Some(who) && Analyzable(db, q, |q|, capacity)
    requires next != [] && next[0] != EOM
    ensures var b := Body(r.id, r.pushes, r.pulls); var q := b + next;
            && ParsePulls(q, |q|, |b|).Some?
            && var extra := ParsePulls(q, |q|, |b|).value; var all := r.(pulls := r.pulls + extra);
               && extra != [] && extra[0].item == next[0]
               && Analyze(random, db, q, |q|, capacity).db == Effect(random, db, who, all)
               && Analyze(random, db, q, |q|, capacity).replies == AnswersTo(random, db, who, all)
  {
    var b := Body(r.id, r.pushes, r.pulls);
    hide Body, EncodePulls, ApplyPulls, ApplyPushes, Replies, Identify, PushAllowed, PullAllowed, ParsePulls,
        ParsePushes;
    ParseWhole(b + next, |b + next|, r, next);
    MergedParse(r, next);
  }

  lemma MergedParse(r: Request, next: seq<Octet>)
    requires forall p :: p in r.pushes ==> p.item != 0
    requires forall g :: g in r.pulls ==> Canonical(g)
    requires var q := Body(r.id, r.pushes, r.pulls) + next;
             next != [] && next[0] != EOM && ParsePulls(q, |q|, 18 + 17 * |r.pushes|).Some?
    ensures var b := Body(r.id, r.pushes, r.pulls); var q := b + next; var after := ParsePulls(q, |q|, |b|);
            && ParsePushes(q, 17) == Some(r.pushes)
            && after.Some? && after.value != [] && after.value[0].item == next[0]
            && ParsePulls(q, |q|, 18 + 17 * |r.pushes|) == Some(r.pulls + after.value)
  {
    var b := Body(r.id, r.pushes, r.pulls);
    var q := b + next;
    assert |b| == 18 + 17 * |r.pushes| + |EncodePulls(r.pulls)|;
    hide Body, EncodePulls, ParsePushes;
    ParseWhole(q, |q|, r, next);
    assert q[|b|] == next[0];
    MorePulls(q, |q|, |b|);
  }

  lemma {:induction false} MorePulls(q: seq<Octet>, n: nat, o: nat)
    requires o < n <= |q| && q[o] != EOM && ParsePulls(q, n, o).Some?
    ensures |ParsePulls(q, n, o).value| > 0 && ParsePulls(q, n, o).value[0].item == q[o]
  {
  }
}
