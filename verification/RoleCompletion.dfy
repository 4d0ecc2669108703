/** Runs without error messages, in which as many slaves start as kubernetes_thread creates pods and every granted
    thread sends one cp_mode message: nobody is refused, and in the end every eNB and UE is assigned exactly once. */
module RoleCompletion {
  import opened Counting
  import opened RoleAllocation
  import opened RoleSafety
  import opened RoleWaiting
  import opened ThreadGrants

  // ----- counted things -----

  function EnbOf(h: Handler): int { if h.place.Done? && h.place.outcome.EnbRole? then 1 else 0 }
  function ThreadsOf(h: Handler): int { if h.place.Done? && h.place.outcome.Threads? then 1 else 0 }
  function UeOf(h: Handler): int { if HasUe(h.place) then 1 else 0 }
  function InitOf(h: Handler): int { if h.kind == Init then 1 else 0 }
  function CpOf(h: Handler): int { if h.kind == CpMode then 1 else 0 }
  function TakenOf(x: Status): int { if x == Stopped then 0 else 1 }
  function ZeroOf(h: Handler): int { 0 }

  predicate HasUe(p: Place) {
    p.Waiting? || (p.Done? && (p.outcome.UeRole? || p.outcome.NoEnb?))
  }

  predicate AllTaken(s: seq<Status>) {
    forall i :: 0 <= i < |s| ==> s[i] != Stopped
  }

  /** The UE pods that kubernetes_thread creates for n UEs. */
  function Pods(cfg: Config, n: nat): int
    requires cfg.threads > 0
  {
    if cfg.cpMode then UePods(n, cfg.threads) else n
  }

  // ----- the runs -----

  /** At most one init message a pod, at most one cp_mode message a granted thread, no errors, and status messages only
      from slaves that have the role. */
  predicate Orderly(cfg: Config, s: State, step: Step, e: nat, n: nat)
    requires cfg.threads > 0
  {
    match step
    case Arrive(Init) => Sum(s.handlers, InitOf) < e + Pods(cfg, n)
    case Arrive(CpMode) => cfg.cpMode && Sum(s.handlers, CpOf) < Total(s.grants)
    case Advance(m) => true
    case EnbRun(i) => i < |s.c.enbs| && s.c.enbs[i] != Stopped
    case UeReport(j, status) => j < |s.c.ues| && s.c.ues[j] != Stopped
    case _ => false
  }

  predicate AllOrderly(cfg: Config, s: State, steps: seq<Step>, e: nat, n: nat)
    requires cfg.threads > 0
    decreases |steps|
  {
    steps == [] || (Orderly(cfg, s, steps[0], e, n) && AllOrderly(cfg, Next(cfg, s, steps[0]), steps[1..], e, n))
  }

  // ----- what every step keeps -----

  /** Where handlers of each kind can be; nobody is refused. */
  predicate Shaped(cfg: Config, h: Handler) {
    && (ThreadsOf(h) == 1 ==> cfg.cpMode)
    && (EnbOf(h) + ThreadsOf(h) == 1 ==> h.kind == Init)
    && (h.place == Third || HasUe(h.place) ==> (h.kind == CpMode <==> cfg.cpMode))
    && (h.kind == CpMode ==> cfg.cpMode)
    && h.place != Done(Refused)
  }

  /** Past the first section without an eNB role. */
  predicate Beyond(p: Place) {
    p != First && !(p.Done? && p.outcome.EnbRole?)
  }

  predicate Counted(s: State) {
    && Sum(s.handlers, EnbOf) == Sum(s.c.enbs, TakenOf)
    && Sum(s.handlers, ThreadsOf) == |s.grants|
    && Sum(s.handlers, UeOf) == Sum(s.c.ues, TakenOf)
  }

  predicate Budgeted(cfg: Config, s: State, e: nat, n: nat)
    requires cfg.threads > 0
  {
    && |s.c.enbs| == e && |s.c.ues| == n
    && Sum(s.handlers, InitOf) <= e + Pods(cfg, n) && Sum(s.handlers, CpOf) <= Total(s.grants)
    && s.c.numUes >= NONE_LEFT && s.grants + GrantsFrom(s.c.numUes, cfg.threads) == GrantsFrom(n, cfg.threads)
  }

  ghost predicate Placed(cfg: Config, s: State) {
    && (forall m :: 0 <= m < |s.handlers| ==> Shaped(cfg, s.handlers[m]))
    && (forall m :: 0 <= m < |s.handlers| && Beyond(s.handlers[m].place) ==> AllTaken(s.c.enbs))
    && (s.grants != [] ==> AllTaken(s.c.enbs))
  }

  ghost predicate Invariant(cfg: Config, s: State, e: nat, n: nat)
    requires cfg.threads > 0
  {
    Counted(s) && Budgeted(cfg, s, e, n) && Placed(cfg, s)
  }

  lemma MoveCounts(s: State, m: nat, place: Place, w: Handler -> int)
    requires m < |s.handlers|
    ensures Sum(Move(s, m, place).handlers, w) == Sum(s.handlers, w) - w(s.handlers[m]) +
        w(s.handlers[m].(place := place))
  {
    Update(s.handlers, m, s.handlers[m].(place := place), w);
  }

  lemma MovesCount(s: State, m: nat, place: Place)
    requires m < |s.handlers|
    ensures var h := s.handlers[m]; var h' := h.(place := place); var t := Move(s, m, place).handlers;
            && Sum(t, EnbOf) == Sum(s.handlers, EnbOf) - EnbOf(h) + EnbOf(h')
            && Sum(t, ThreadsOf) == Sum(s.handlers, ThreadsOf) - ThreadsOf(h) + ThreadsOf(h')
            && Sum(t, UeOf) == Sum(s.handlers, UeOf) - UeOf(h) + UeOf(h')
            && Sum(t, InitOf) == Sum(s.handlers, InitOf) && Sum(t, CpOf) == Sum(s.handlers, CpOf)
  {
    MoveCounts(s, m, place, EnbOf);
    MoveCounts(s, m, place, ThreadsOf);
    MoveCounts(s, m, place, UeOf);
    MoveCounts(s, m, place, InitOf);
    MoveCounts(s, m, place, CpOf);
  }

  /** A cp_mode message comes from a granted thread, so all eNBs are taken. */
  lemma CpModeMeansTaken(cfg: Config, s: State, e: nat, n: nat, m: nat)
    requires cfg.threads > 0 && Invariant(cfg, s, e, n) && m < |s.handlers| && s.handlers[m].kind == CpMode
    ensures AllTaken(s.c.enbs)
  {
    CompareStrictly(s.handlers, ZeroOf, ZeroOf, CpOf, m);
    Nothing(s.handlers, ZeroOf);
  }

  lemma AllEnbs(s: State)
    requires Counted(s) && AllTaken(s.c.enbs)
    ensures Sum(s.handlers, EnbOf) == |s.c.enbs|
  {
    Full(s.c.enbs, TakenOf);
  }

  /** An init message in section 2 of the control-plane only mode finds threads to be granted. */
  lemma ThreadsAreLeft(cfg: Config, s: State, e: nat, n: nat, m: nat)
    requires cfg.threads > 0 && Invariant(cfg, s, e, n)
    requires m < |s.handlers| && s.handlers[m] == Handler(Init, Second) && cfg.cpMode
    ensures s.c.numUes != NONE_LEFT
  {
    assert Beyond(s.handlers[m].place);
    AllEnbs(s);
    CompareStrictly(s.handlers, EnbOf, ThreadsOf, InitOf, m);
    GrantedAndLeft(s.grants, s.c.numUes, n, cfg.threads);
  }

  /** A handler in section 3 finds a UE. */
  lemma UesAreLeft(cfg: Config, s: State, e: nat, n: nat, m: nat)
    requires cfg.threads > 0 && Invariant(cfg, s, e, n) && m < |s.handlers| && s.handlers[m].place == Third
    ensures !AllTaken(s.c.ues)
  {
    var h := s.handlers[m];
    assert Shaped(cfg, h);
    if AllTaken(s.c.ues) {
      Full(s.c.ues, TakenOf);
      if cfg.cpMode {
        CompareStrictly(s.handlers, ZeroOf, UeOf, CpOf, m);
        Nothing(s.handlers, ZeroOf);
        GrantedAndLeft(s.grants, s.c.numUes, n, cfg.threads);
      } else {
        assert Beyond(h.place);
        AllEnbs(s);
        CompareStrictly(s.handlers, EnbOf, UeOf, InitOf, m);
      }
    }
  }

  lemma FirstKeeps(cfg: Config, s: State, e: nat, n: nat, m: nat)
    requires cfg.threads > 0 && Invariant(cfg, s, e, n) && m < |s.handlers| && s.handlers[m].place == First
    ensures Invariant(cfg, FirstSection(s, m), e, n)
  {
    hide Sum, Total, GrantsFrom;
    var i := FirstStopped(s.c.enbs, 0);
    if i.None? {
      MovesCount(s, m, Second);
    } else {
      MovesCount(s, m, Done(EnbRole(i.value)));
      Update(s.c.enbs, i.value, Pending, TakenOf);
      if s.handlers[m].kind == CpMode { CpModeMeansTaken(cfg, s, e, n, m); }
    }
  }

  lemma SecondKeeps(cfg: Config, s: State, e: nat, n: nat, m: nat)
    requires cfg.threads > 0 && Invariant(cfg, s, e, n) && m < |s.handlers| && s.handlers[m].place == Second
    ensures Invariant(cfg, SecondSection(cfg, s, m), e, n)
  {
    hide Sum;
    assert Beyond(s.handlers[m].place) && Shaped(cfg, s.handlers[m]);
    if Grants(cfg, s.c, s.handlers[m].kind) {
      var g := GrantSize(s.c.numUes, cfg.threads);
      MovesCount(s, m, Done(Threads(g)));
      assert (s.grants + [g])[..|s.grants|] == s.grants;
      assert s.grants + [g] + GrantsFrom(AfterGrant(s.c.numUes, cfg.threads), cfg.threads) == s.grants +
          GrantsFrom(s.c.numUes, cfg.threads);
    } else {
      MovesCount(s, m, Third);
      if cfg.cpMode && s.handlers[m].kind == Init { ThreadsAreLeft(cfg, s, e, n, m); }
    }
  }

  lemma ThirdKeeps(cfg: Config, s: State, e: nat, n: nat, m: nat)
    requires cfg.threads > 0 && Invariant(cfg, s, e, n) && m < |s.handlers| && s.handlers[m].place == Third
    ensures Invariant(cfg, ThirdSection(s, m), e, n)
  {
    assert Beyond(s.handlers[m].place) && Shaped(cfg, s.handlers[m]);
    UesAreLeft(cfg, s, e, n, m);
    var j := FirstStopped(s.c.ues, 0);
    MovesCount(s, m, Waiting(j.value));
    Update(s.c.ues, j.value, Pending, TakenOf);
  }

  lemma WaitKeeps(cfg: Config, s: State, e: nat, n: nat, m: nat, ue: nat)
    requires cfg.threads > 0 && Invariant(cfg, s, e, n) && m < |s.handlers| && s.handlers[m].place == Waiting(ue)
    ensures Invariant(cfg, Wait(cfg, s, m, ue), e, n)
  {
    hide Sum, Total, GrantsFrom;
    assert Beyond(s.handlers[m].place) && Shaped(cfg, s.handlers[m]);
    MovesCount(s, m, Done(NoEnb(ue)));
    MovesCount(s, m, Done(UeRole(ue)));
  }

  lemma ArriveKeeps(cfg: Config, s: State, e: nat, n: nat, kind: Kind)
    requires cfg.threads > 0 && Invariant(cfg, s, e, n) && Orderly(cfg, s, Arrive(kind), e, n)
    ensures Invariant(cfg, Next(cfg, s, Arrive(kind)), e, n)
  {
    var h := Handler(kind, First);
    Append(s.handlers, h, EnbOf);
    Append(s.handlers, h, ThreadsOf);
    Append(s.handlers, h, UeOf);
    Append(s.handlers, h, InitOf);
    Append(s.handlers, h, CpOf);
  }

  lemma StepKeeps(cfg: Config, s: State, step: Step, e: nat, n: nat)
    requires cfg.threads > 0 && Invariant(cfg, s, e, n) && Orderly(cfg, s, step, e, n)
    ensures Invariant(cfg, Next(cfg, s, step), e, n)
  {
    hide Sum, Total, GrantsFrom;
    match step
    case Arrive(kind) => ArriveKeeps(cfg, s, e, n, kind);
    case EnbRun(i) => Update(s.c.enbs, i, Connected, TakenOf);
    case UeReport(j, status) => if status != Stopped { Update(s.c.ues, j, status, TakenOf); }
    case Advance(m) =>
      if m < |s.handlers| {
        match s.handlers[m].place
        case First => FirstKeeps(cfg, s, e, n, m);
        case Second => SecondKeeps(cfg, s, e, n, m);
        case Third => ThirdKeeps(cfg, s, e, n, m);
        case Waiting(ue) => WaitKeeps(cfg, s, e, n, m, ue);
        case _ =>
      }
    case _ =>
  }

  lemma {:induction false} RunKeeps(cfg: Config, s: State, steps: seq<Step>, e: nat, n: nat)
    requires cfg.threads > 0 && Invariant(cfg, s, e, n) && AllOrderly(cfg, s, steps, e, n)
    ensures Invariant(cfg, After(cfg, s, steps), e, n)
    decreases |steps|
  {
    hide Counted, Budgeted, Placed, Orderly, Next;
    if steps != [] {
      StepKeeps(cfg, s, steps[0], e, n);
      RunKeeps(cfg, Next(cfg, s, steps[0]), steps[1..], e, n);
    }
  }

  lemma StartInvariant(cfg: Config, e: nat, n: nat)
    requires cfg.threads > 0
    ensures Invariant(cfg, Started(e, n), e, n)
  {
    var s := Started(e, n);
    Nothing(s.c.enbs, TakenOf);
    Nothing(s.c.ues, TakenOf);
    if n > 0 { GrantsConserve(n, cfg.threads); } else { NoUes(cfg.threads); }
  }

  // ----- roles that are taken are held -----

  ghost predicate Tracked(s: State) {
    && (forall k :: 0 <= k < |s.log| ==> s.log[k].Given?)
    && (forall i :: 0 <= i < |s.c.enbs| && s.c.enbs[i] != Stopped ==> Gave(s.log, Enb(i)))
    && (forall j :: 0 <= j < |s.c.ues| && s.c.ues[j] != Stopped ==> Gave(s.log, Ue(j)))
  }

  ghost predicate Gave(log: seq<Event>, r: Role) {
    exists k :: 0 <= k < |log| && log[k].Given? && log[k].role == r
  }

  lemma GaveMore(log: seq<Event>, e: Event)
    ensures forall r :: Gave(log, r) ==> Gave(log + [e], r)
    ensures e.Given? ==> Gave(log + [e], e.role)
  {
    var l := log + [e];
    assert l[|log|] == e;
    forall r | Gave(log, r) ensures Gave(l, r) {
      var k :| 0 <= k < |log| && log[k].Given? && log[k].role == r;
      assert l[k] == log[k];
    }
  }

  lemma StepKeepsTracked(cfg: Config, s: State, step: Step, e: nat, n: nat)
    requires cfg.threads > 0 && Tracked(s) && Orderly(cfg, s, step, e, n)
    ensures Tracked(Next(cfg, s, step))
  {
    var t := Next(cfg, s, step);
    hide Gave, Sum, Total, Pods;
    if t.log != s.log { GaveMore(s.log, t.log[|s.log|]); }
  }

  lemma {:induction false} RunKeepsTracked(cfg: Config, s: State, steps: seq<Step>, e: nat, n: nat)
    requires cfg.threads > 0 && Tracked(s) && AllOrderly(cfg, s, steps, e, n)
    ensures Tracked(After(cfg, s, steps))
    decreases |steps|
  {
    hide Tracked, Orderly, Next;
    if steps != [] {
      StepKeepsTracked(cfg, s, steps[0], e, n);
      RunKeepsTracked(cfg, Next(cfg, s, steps[0]), steps[1..], e, n);
    }
  }

  // ----- the theorems -----

  /** No slave is ever refused. */
  lemma {:induction false} NobodyRefused(cfg: Config, e: nat, n: nat, steps: seq<Step>, m: nat)
    requires cfg.threads > 0 && AllOrderly(cfg, Started(e, n), steps, e, n)
    requires m < |After(cfg, Started(e, n), steps).handlers|
    ensures After(cfg, Started(e, n), steps).handlers[m].place != Done(Refused)
  {
    StartInvariant(cfg, e, n);
    RunKeeps(cfg, Started(e, n), steps, e, n);
    assert Shaped(cfg, After(cfg, Started(e, n), steps).handlers[m]);
  }

  /** All slaves have started and all their messages are dealt with. */
  ghost predicate Finished(cfg: Config, s: State, e: nat, n: nat)
    requires cfg.threads > 0
  {
    && Sum(s.handlers, InitOf) == e + Pods(cfg, n) && (cfg.cpMode ==> Sum(s.handlers, CpOf) == n)
    && forall m :: 0 <= m < |s.handlers| ==> s.handlers[m].place.Done?
  }

  predicate OneOfEach(cfg: Config, h: Handler) {
    if cfg.cpMode then InitOf(h) <= EnbOf(h) + ThreadsOf(h) && CpOf(h) <= UeOf(h) else InitOf(h) <= EnbOf(h) + UeOf(h)
  }

  lemma DoneHasOne(cfg: Config, h: Handler)
    requires Shaped(cfg, h) && h.place.Done?
    ensures OneOfEach(cfg, h)
  {
  }

  lemma FinishedMeansTaken(cfg: Config, s: State, e: nat, n: nat)
    requires cfg.threads > 0 && Invariant(cfg, s, e, n) && Finished(cfg, s, e, n)
    ensures AllTaken(s.c.enbs) && AllTaken(s.c.ues)
  {
    hide Sum, HasUe, Shaped, GrantsFrom, Total;
    Full(s.c.enbs, TakenOf);
    Full(s.c.ues, TakenOf);
    Nothing(s.handlers, ZeroOf);
    forall m | 0 <= m < |s.handlers| ensures OneOfEach(cfg, s.handlers[m]) {
      assert Shaped(cfg, s.handlers[m]);
      DoneHasOne(cfg, s.handlers[m]);
    }
    if cfg.cpMode {
      Covered(s.handlers, EnbOf, ThreadsOf, InitOf);
      Covered(s.handlers, ZeroOf, UeOf, CpOf);
    } else {
      Covered(s.handlers, EnbOf, UeOf, InitOf);
    }
  }

  predicate Valid(r: Role, e: nat, n: nat) {
    match r
    case Enb(i) => i < e
    case Ue(j) => j < n
  }

  /** Every eNB and every UE is assigned, each to exactly one slave, and no slave has two of them. */
  lemma {:induction false} EveryRoleOnce(cfg: Config, e: nat, n: nat, steps: seq<Step>)
    requires cfg.threads > 0 && AllOrderly(cfg, Started(e, n), steps, e, n)
        && Finished(cfg, After(cfg, Started(e, n), steps), e, n)
    ensures var s := After(cfg, Started(e, n), steps);
            && (forall r :: Valid(r, e, n) ==> Gave(s.log, r))
            && (forall k :: 0 <= k < |s.log| ==> s.log[k].Given?)
            && (forall k, l :: 0 <= k < l < |s.log| ==>
               s.log[k].role != s.log[l].role && s.log[k].message != s.log[l].message)
            && (forall k :: 0 <= k < |s.log| ==>
               s.log[k].message < |s.handlers| && Holds(s.handlers[s.log[k].message].place, s.log[k].role))
  {
    hide After, AllOrderly, Next, Finished, Counted, Placed;
    var start := Started(e, n);
    var s := After(cfg, start, steps);
    StartInvariant(cfg, e, n);
    RunKeeps(cfg, start, steps, e, n);
    FinishedMeansTaken(cfg, s, e, n);
    RunKeepsTracked(cfg, start, steps, e, n);
    RunKeepsRecorded(cfg, start, steps);
    forall k, l | 0 <= k < l < |s.log| ensures s.log[k].role != s.log[l].role && s.log[k].message != s.log[l].message {
      if s.log[k].role == s.log[l].role {
        GivenAgainAfterReturn(cfg, e, n, steps, k, l);
      }
    }
  }

  /** Some slave is sent the message of each UE that has an eNB, after that eNB has reported that it runs. */
  lemma {:induction false} EveryUeServed(cfg: Config, e: nat, n: nat, steps: seq<Step>, j: nat)
    requires cfg.threads > 0 && AllOrderly(cfg, Started(e, n), steps, e, n)
        && Finished(cfg, After(cfg, Started(e, n), steps), e, n)
    requires j < n && j < |cfg.homes| && cfg.homes[j] < e
    ensures exists m, k ::
              && Sends(After(cfg, Started(e, n), steps), m, j)
              && 0 <= k < |steps| && steps[k] == Advance(m) && Reported(steps[..k], cfg.homes[j])
  {
    hide After, AllOrderly, Reported;
    var s := After(cfg, Started(e, n), steps);
    EveryRoleOnce(cfg, e, n, steps);
    RunKeepsServed(cfg, Started(e, n), steps);
    assert Valid(Ue(j), e, n);
    var k :| 0 <= k < |s.log| && s.log[k].Given? && s.log[k].role == Ue(j);
    var m := s.log[k].message;
    assert Holds(s.handlers[m].place, Ue(j)) && Sends(s, m, j);
    var l := SentAfterReport(cfg, e, n, steps, m, j);
  }
}
