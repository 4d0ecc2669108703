/** When slaves are sent their UE message, in terms of the messages that have arrived: only once the eNB of the UE has
    reported that it runs and no error message has come about it since. */
module RoleWaiting {
  import opened RoleAllocation

  /** eNB i has reported that it runs, and has not failed since. */
  predicate Reported(steps: seq<Step>, i: nat) {
    exists k :: 0 <= k < |steps| && steps[k] == EnbRun(i) && forall l :: k < l < |steps| ==> steps[l] != EnbError(i)
  }

  lemma {:induction false} ReportedMore(steps: seq<Step>, step: Step, i: nat)
    ensures Reported(steps + [step], i) <==> step == EnbRun(i) || (Reported(steps, i) && step != EnbError(i))
  {
    var more := steps + [step];
    assert more[|steps|] == step;
    if Reported(steps, i) && step != EnbError(i) {
      var k :| 0 <= k < |steps| && steps[k] == EnbRun(i) && forall l :: k < l < |steps| ==> steps[l] != EnbError(i);
      assert more[k] == EnbRun(i);
    }
    if Reported(more, i) && step != EnbRun(i) {
      var k :| 0 <= k < |more| && more[k] == EnbRun(i) && forall l :: k < l < |more| ==> more[l] != EnbError(i);
      assert k < |steps| && steps[k] == EnbRun(i);
      forall l | k < l < |steps| ensures steps[l] != EnbError(i) { assert more[l] == steps[l]; }
    }
  }

  lemma StepConnects(cfg: Config, s: State, step: Step, i: nat)
    requires i < |s.c.enbs|
    ensures var t := Next(cfg, s, step);
            && |t.c.enbs| == |s.c.enbs|
            && (t.c.enbs[i] == Connected <==> step == EnbRun(i) || (s.c.enbs[i] == Connected && step != EnbError(i)))
  {
  }

  /** In every run an eNB is connected exactly when it has reported so and not failed since. */
  lemma {:induction false} ConnectedIsReported(cfg: Config, e: nat, n: nat, steps: seq<Step>, i: nat)
    requires i < e
    ensures var s := After(cfg, Started(e, n), steps);
            |s.c.enbs| == e && (s.c.enbs[i] == Connected <==> Reported(steps, i))
    decreases |steps|
  {
    hide Next, Reported;
    if steps == [] {
      NothingReported(i);
    } else {
      var front, last := steps[..|steps| - 1], steps[|steps| - 1];
      assert steps == front + [last];
      ConnectedIsReported(cfg, e, n, front, i);
      OneMoreStep(cfg, Started(e, n), front, last);
      StepConnects(cfg, After(cfg, Started(e, n), front), last, i);
      ReportedMore(front, last, i);
    }
  }

  lemma NothingReported(i: nat)
    ensures !Reported([], i)
  {
  }

  /** Handler m is waiting for the eNB of UE j, or has been told to send the UE's message. */
  predicate Waits(s: State, m: nat, j: nat) {
    m < |s.handlers| && s.handlers[m].place == Waiting(j)
  }

  predicate Sends(s: State, m: nat, j: nat) {
    m < |s.handlers| && s.handlers[m].place == Done(UeRole(j))
  }

  /** A step after which a handler sends is the handler's own, or leaves it as it was. */
  lemma StepSends(cfg: Config, s: State, step: Step, m: nat, j: nat)
    requires Sends(Next(cfg, s, step), m, j) && !Sends(s, m, j)
    ensures step == Advance(m) && Waits(s, m, j)
  {
  }

  /** A waiting handler that is looked at goes on exactly when the eNB has reported. */
  lemma {:induction false} WaitEnds(cfg: Config, e: nat, n: nat, steps: seq<Step>, m: nat, j: nat)
    requires Waits(After(cfg, Started(e, n), steps), m, j)
    ensures Sends(After(cfg, Started(e, n), steps + [Advance(m)]), m, j) <==>
            j < |cfg.homes| && cfg.homes[j] < e && Reported(steps, cfg.homes[j])
  {
    var s := After(cfg, Started(e, n), steps);
    OneMoreStep(cfg, Started(e, n), steps, Advance(m));
    EnbsStay(cfg, e, n, steps);
    if j < |cfg.homes| && cfg.homes[j] < e { ConnectedIsReported(cfg, e, n, steps, cfg.homes[j]); }
    hide After, Reported;
  }

  lemma {:induction false} EnbsStay(cfg: Config, e: nat, n: nat, steps: seq<Step>)
    ensures |After(cfg, Started(e, n), steps).c.enbs| == e
  {
    if e > 0 {
      ConnectedIsReported(cfg, e, n, steps, 0);
    } else {
      NoEnbs(cfg, Started(e, n), steps);
    }
  }

  lemma {:induction false} NoEnbs(cfg: Config, s: State, steps: seq<Step>)
    requires s.c.enbs == []
    ensures After(cfg, s, steps).c.enbs == []
    decreases |steps|
  {
    if steps != [] { NoEnbs(cfg, Next(cfg, s, steps[0]), steps[1..]); }
  }

  /** In every run: before a slave is sent UE j, the eNB of UE j has reported that it runs, with no error message about
      it between that report and the step that sends. */
  lemma {:induction false} SentAfterReport(cfg: Config, e: nat, n: nat, steps: seq<Step>, m: nat, j: nat)
      returns (k: nat)
    requires Sends(After(cfg, Started(e, n), steps), m, j)
    ensures k < |steps| && steps[k] == Advance(m) && Waits(After(cfg, Started(e, n), steps[..k]), m, j)
    ensures j < |cfg.homes| && cfg.homes[j] < e && Reported(steps[..k], cfg.homes[j])
    decreases |steps|
  {
    hide Next, Reported;
    assert steps != [];
    var front, last := steps[..|steps| - 1], steps[|steps| - 1];
    assert steps == front + [last];
    OneMoreStep(cfg, Started(e, n), front, last);
    if Sends(After(cfg, Started(e, n), front), m, j) {
      k := SentAfterReport(cfg, e, n, front, m, j);
      assert front[..k] == steps[..k];
    } else {
      k := |front|;
      StepSends(cfg, After(cfg, Started(e, n), front), last, m, j);
      WaitEnds(cfg, e, n, front, m, j);
    }
  }

  // ----- the status of a UE -----

  /** The step tells a new status of UE j, or takes the role away. */
  predicate Tells(step: Step, j: nat) {
    (step.UeReport? && step.j == j && step.status != Stopped) || step == UeError(j)
  }

  lemma StepKeepsStatus(cfg: Config, s: State, step: Step, j: nat)
    requires j < |s.c.ues| && s.c.ues[j] != Stopped && !Tells(step, j)
    ensures var t := Next(cfg, s, step); |t.c.ues| == |s.c.ues| && t.c.ues[j] == s.c.ues[j]
  {
  }

  /** A UE has the status that it reported last, as long as no error message takes its role away. */
  lemma {:induction false} StatusIsReported(cfg: Config, s: State, status: Status, j: nat, later: seq<Step>)
    requires j < |s.c.ues| && status != Stopped && forall k :: 0 <= k < |later| ==> !Tells(later[k], j)
    ensures var t := After(cfg, Next(cfg, s, UeReport(j, status)), later); j < |t.c.ues| && t.c.ues[j] == status
  {
    KeepsStatus(cfg, Next(cfg, s, UeReport(j, status)), j, later);
  }

  lemma {:induction false} KeepsStatus(cfg: Config, s: State, j: nat, steps: seq<Step>)
    requires j < |s.c.ues| && s.c.ues[j] != Stopped && forall k :: 0 <= k < |steps| ==> !Tells(steps[k], j)
    ensures var t := After(cfg, s, steps); j < |t.c.ues| && t.c.ues[j] == s.c.ues[j]
    decreases |steps|
  {
    hide Next, Tells;
    if steps != [] {
      StepKeepsStatus(cfg, s, steps[0], j);
      KeepsStatus(cfg, Next(cfg, s, steps[0]), j, steps[1..]);
    }
  }
}
