/** Orderly runs never get stuck: every one of them can be carried on until all slaves are dealt with. */
module RoleProgress {
  import opened Counting
  import opened RoleAllocation
  import opened RoleCompletion
  import opened ThreadGrants

  // ----- how much is left to do -----

  /** Sections that are still in front of a handler. */
  function SectionsOf(h: Handler): int {
    match h.place
    case First => 4
    case Second => 3
    case Third => 2
    case Waiting(_) => 1
    case Done(_) => 0
  }

  function UnconnectedOf(x: Status): int { if x == Connected then 0 else 1 }

  /** Messages that are still to arrive, counted with their sections, sections, and eNBs that are not connected. */
  function Left(cfg: Config, s: State, e: nat, n: nat): int
    requires cfg.threads > 0
  {
    5 * (e + Pods(cfg, n) - Sum(s.handlers, InitOf)) + 5 * (n - Sum(s.handlers, CpOf))
    + Sum(s.handlers, SectionsOf) + Sum(s.c.enbs, UnconnectedOf)
  }

  /** An orderly step that changes the state and leaves less to do. */
  ghost predicate Helps(cfg: Config, s: State, step: Step, e: nat, n: nat)
    requires cfg.threads > 0
  {
    && Orderly(cfg, s, step, e, n) && Next(cfg, s, step) != s
    && Left(cfg, Next(cfg, s, step), e, n) < Left(cfg, s, e, n)
  }

  lemma {:induction false} NotNegative<T>(s: seq<T>, w: T -> int)
    requires forall i :: 0 <= i < |s| ==> w(s[i]) >= 0
    ensures Sum(s, w) >= 0
  {
    if s != [] {
      var t := s[..|s| - 1];
      assert forall i :: 0 <= i < |t| ==> t[i] == s[i];
      NotNegative(t, w);
    }
  }

  lemma LeftIsNat(cfg: Config, s: State, e: nat, n: nat)
    requires cfg.threads > 0 && Invariant(cfg, s, e, n)
    ensures Left(cfg, s, e, n) >= 0 && Sum(s.handlers, CpOf) <= Total(s.grants) <= n
  {
    hide Sum, Total, Counted, Placed, GrantsFrom;
    GrantedAndLeft(s.grants, s.c.numUes, n, cfg.threads);
    NotNegative(s.handlers, SectionsOf);
    NotNegative(s.c.enbs, UnconnectedOf);
  }

  // ----- a step that helps -----

  lemma ArriveHelps(cfg: Config, s: State, e: nat, n: nat, kind: Kind)
    requires cfg.threads > 0 && Orderly(cfg, s, Arrive(kind), e, n)
    ensures Helps(cfg, s, Arrive(kind), e, n)
  {
    var h := Handler(kind, First);
    Append(s.handlers, h, InitOf);
    Append(s.handlers, h, CpOf);
    Append(s.handlers, h, SectionsOf);
    hide Sum, Pods, Total;
    assert |Next(cfg, s, Arrive(kind)).handlers| != |s.handlers|;
  }

  /** A handler that moves on, while no eNB gets disconnected. */
  lemma MoveHelps(cfg: Config, s: State, e: nat, n: nat, m: nat, place: Place)
    requires cfg.threads > 0 && m < |s.handlers|
    requires Next(cfg, s, Advance(m)).handlers == Move(s, m, place).handlers
    requires SectionsOf(Handler(Init, place)) < SectionsOf(s.handlers[m])
    requires Sum(Next(cfg, s, Advance(m)).c.enbs, UnconnectedOf) == Sum(s.c.enbs, UnconnectedOf)
    ensures Helps(cfg, s, Advance(m), e, n)
  {
    MoveCounts(s, m, place, InitOf);
    MoveCounts(s, m, place, CpOf);
    MoveCounts(s, m, place, SectionsOf);
    hide Sum, Pods, Total, Next;
    assert Next(cfg, s, Advance(m)).handlers[m].place == place != s.handlers[m].place;
  }

  lemma FirstHelps(cfg: Config, s: State, e: nat, n: nat, m: nat)
    requires cfg.threads > 0 && m < |s.handlers| && s.handlers[m].place == First
    ensures Helps(cfg, s, Advance(m), e, n)
  {
    var i := FirstStopped(s.c.enbs, 0);
    if i.None? {
      MoveHelps(cfg, s, e, n, m, Second);
    } else {
      Update(s.c.enbs, i.value, Pending, UnconnectedOf);
      MoveHelps(cfg, s, e, n, m, Done(EnbRole(i.value)));
    }
  }

  lemma SectionHelps(cfg: Config, s: State, e: nat, n: nat, m: nat)
    requires cfg.threads > 0 && m < |s.handlers| && (s.handlers[m].place == Second || s.handlers[m].place == Third)
    ensures Helps(cfg, s, Advance(m), e, n)
  {
    hide Sum, GrantSize, AfterGrant;
    MoveHelps(cfg, s, e, n, m, Next(cfg, s, Advance(m)).handlers[m].place);
  }

  /** A waiting handler goes on, or the eNB it waits for, which is taken, reports that it runs. */
  lemma WaitingHelps(cfg: Config, s: State, e: nat, n: nat, m: nat, ue: nat) returns (step: Step)
    requires cfg.threads > 0 && Invariant(cfg, s, e, n) && m < |s.handlers| && s.handlers[m].place == Waiting(ue)
    ensures Helps(cfg, s, step, e, n)
  {
    hide Sum;
    step := Advance(m);
    if ue >= |cfg.homes| || cfg.homes[ue] >= |s.c.enbs| {
      MoveHelps(cfg, s, e, n, m, Done(NoEnb(ue)));
    } else if s.c.enbs[cfg.homes[ue]] == Connected {
      MoveHelps(cfg, s, e, n, m, Done(UeRole(ue)));
    } else {
      var i := cfg.homes[ue];
      step := EnbRun(i);
      assert Beyond(s.handlers[m].place);
      Update(s.c.enbs, i, Connected, UnconnectedOf);
      assert Next(cfg, s, step).c.enbs[i] == Connected;
    }
  }

  /** When all messages so far are dealt with and the run is not over, another message can arrive. */
  lemma MessageHelps(cfg: Config, s: State, e: nat, n: nat) returns (step: Step)
    requires cfg.threads > 0 && Invariant(cfg, s, e, n) && !Finished(cfg, s, e, n)
    requires forall m :: 0 <= m < |s.handlers| ==> s.handlers[m].place.Done?
    ensures Helps(cfg, s, step, e, n)
  {
    if Sum(s.handlers, InitOf) < e + Pods(cfg, n) {
      step := Arrive(Init);
      ArriveHelps(cfg, s, e, n, Init);
    } else {
      step := Arrive(CpMode);
      AllGranted(cfg, s, e, n);
      LeftIsNat(cfg, s, e, n);
      ArriveHelps(cfg, s, e, n, CpMode);
    }
  }

  /** After all init messages every thread has been granted. */
  lemma AllGranted(cfg: Config, s: State, e: nat, n: nat)
    requires cfg.threads > 0 && Invariant(cfg, s, e, n) && cfg.cpMode
    requires Sum(s.handlers, InitOf) == e + Pods(cfg, n)
    requires forall m :: 0 <= m < |s.handlers| ==> s.handlers[m].place.Done?
    ensures Total(s.grants) == n
  {
    Full(s.c.enbs, TakenOf);
    forall m | 0 <= m < |s.handlers| ensures OneOfEach(cfg, s.handlers[m]) {
      assert Shaped(cfg, s.handlers[m]);
    }
    hide Sum, HasUe, Shaped;
    Covered(s.handlers, EnbOf, ThreadsOf, InitOf);
    assert |s.grants| >= UePods(n, cfg.threads);
    GrantedAndLeft(s.grants, s.c.numUes, n, cfg.threads);
    if n > 0 { GrantsConserve(n, cfg.threads); }
  }

  /** No orderly state is stuck: unless the run is over, some orderly step changes it and leaves less to do. */
  lemma SomeStepHelps(cfg: Config, s: State, e: nat, n: nat) returns (step: Step)
    requires cfg.threads > 0 && Invariant(cfg, s, e, n) && !Finished(cfg, s, e, n)
    ensures Helps(cfg, s, step, e, n)
  {
    hide Invariant, Helps, Finished;
    if m :| 0 <= m < |s.handlers| && !s.handlers[m].place.Done? {
      step := Advance(m);
      if s.handlers[m].place == First {
        FirstHelps(cfg, s, e, n, m);
      } else if s.handlers[m].place.Waiting? {
        step := WaitingHelps(cfg, s, e, n, m, s.handlers[m].place.ue);
      } else {
        SectionHelps(cfg, s, e, n, m);
      }
    } else {
      step := MessageHelps(cfg, s, e, n);
    }
  }

  lemma {:induction false} Completes(cfg: Config, s: State, e: nat, n: nat) returns (steps: seq<Step>)
    requires cfg.threads > 0 && Invariant(cfg, s, e, n)
    ensures AllOrderly(cfg, s, steps, e, n) && Finished(cfg, After(cfg, s, steps), e, n)
    decreases Left(cfg, s, e, n)
  {
    hide Invariant, Finished, Next, Orderly, Left;
    LeftIsNat(cfg, s, e, n);
    if Finished(cfg, s, e, n) {
      steps := [];
    } else {
      var step := SomeStepHelps(cfg, s, e, n);
      StepKeeps(cfg, s, step, e, n);
      var rest := Completes(cfg, Next(cfg, s, step), e, n);
      steps := [step] + rest;
      assert steps[0] == step && steps[1..] == rest;
    }
  }

  /** Every orderly run can be carried on to its end, and then every eNB and every UE has been given exactly once. */
  lemma {:induction false} EveryRunCompletes(cfg: Config, e: nat, n: nat, steps: seq<Step>) returns (more: seq<Step>)
    requires cfg.threads > 0 && AllOrderly(cfg, Started(e, n), steps, e, n)
    ensures AllOrderly(cfg, Started(e, n), steps + more, e, n)
    ensures Finished(cfg, After(cfg, Started(e, n), steps + more), e, n)
  {
    hide Invariant, Finished, Next, Orderly;
    StartInvariant(cfg, e, n);
    RunKeeps(cfg, Started(e, n), steps, e, n);
    more := Completes(cfg, After(cfg, Started(e, n), steps), e, n);
    Continued(cfg, Started(e, n), steps, more, e, n);
  }

  lemma {:induction false} Continued(cfg: Config, s: State, a: seq<Step>, b: seq<Step>, e: nat, n: nat)
    requires cfg.threads > 0 && AllOrderly(cfg, s, a, e, n) && AllOrderly(cfg, After(cfg, s, a), b, e, n)
    ensures AllOrderly(cfg, s, a + b, e, n) && After(cfg, s, a + b) == After(cfg, After(cfg, s, a), b)
    decreases |a|
  {
    hide Next, Orderly;
    if a == [] {
      assert a + b == b;
    } else {
      assert (a + b)[0] == a[0] && (a + b)[1..] == a[1..] + b;
      Continued(cfg, Next(cfg, s, a[0]), a[1..], b, e, n);
    }
  }
}
