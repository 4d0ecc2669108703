/** In every run, with any error and status messages in any order: a role is given to a second slave only after an
    error message about it has arrived. */
module RoleSafety {
  import opened RoleAllocation

  /** Is the last event about the role that it was given? */
  predicate Held(log: seq<Event>, r: Role) {
    if log == [] then false
    else
      var e := log[|log| - 1];
      if e.role == r then e.Given? else Held(log[..|log| - 1], r)
  }

  /** No event gives a role that is held. */
  predicate Clean(log: seq<Event>) {
    forall k :: 0 <= k < |log| && log[k].Given? ==> !Held(log[..k], log[k].role)
  }

  predicate Free(c: Controller, r: Role) {
    match r
    case Enb(i) => i < |c.enbs| && c.enbs[i] == Stopped
    case Ue(j) => j < |c.ues| && c.ues[j] == Stopped
  }

  ghost predicate Safe(s: State) {
    Clean(s.log) && forall r: Role :: Held(s.log, r) ==> !Free(s.c, r)
  }

  lemma {:induction false} HeldAfter(log: seq<Event>, e: Event, r: Role)
    ensures Held(log + [e], r) == if e.role == r then e.Given? else Held(log, r)
  {
    assert (log + [e])[..|log|] == log;
  }

  lemma {:induction false} CleanAfter(log: seq<Event>, e: Event)
    requires Clean(log) && (e.Given? ==> !Held(log, e.role))
    ensures Clean(log + [e])
  {
    var l := log + [e];
    forall k | 0 <= k < |l| && l[k].Given? ensures !Held(l[..k], l[k].role) {
      if k < |log| { assert l[..k] == log[..k]; } else { assert l[..k] == log; }
    }
  }

  /** A role is given while it is free, and not free afterwards; a returned one may be free or unknown. */
  lemma EventKeepsSafe(s: State, t: State, e: Event)
    requires Safe(s) && t.log == s.log + [e]
    requires e.Given? ==> Free(s.c, e.role) && !Free(t.c, e.role)
    requires forall r: Role :: r != e.role ==> (Free(t.c, r) <==> Free(s.c, r))
    ensures Safe(t)
  {
    CleanAfter(s.log, e);
    forall r: Role | Held(t.log, r) ensures !Free(t.c, r) { HeldAfter(s.log, e, r); }
  }

  lemma StepKeepsSafe(cfg: Config, s: State, step: Step)
    requires Safe(s)
    ensures Safe(Next(cfg, s, step))
  {
    var t := Next(cfg, s, step);
    match step
    case EnbError(i) => EventKeepsSafe(s, t, Returned(Enb(i)));
    case UeError(j) => EventKeepsSafe(s, t, Returned(Ue(j)));
    case Advance(m) =>
      if m < |s.handlers| {
        match s.handlers[m].place
        case First =>
          var i := FirstStopped(s.c.enbs, 0);
          if i.Some? { EventKeepsSafe(s, t, Given(Enb(i.value), m)); }
        case Third =>
          var j := FirstStopped(s.c.ues, 0);
          if j.Some? { EventKeepsSafe(s, t, Given(Ue(j.value), m)); }
        case _ =>
      }
    case _ =>
  }

  lemma {:induction false} RunKeepsSafe(cfg: Config, s: State, steps: seq<Step>)
    requires Safe(s)
    ensures Safe(After(cfg, s, steps))
    decreases |steps|
  {
    if steps != [] {
      StepKeepsSafe(cfg, s, steps[0]);
      RunKeepsSafe(cfg, Next(cfg, s, steps[0]), steps[1..]);
    }
  }

  /** Once held, a role stays held until it is returned. */
  lemma {:induction false} HeldUntilReturned(log: seq<Event>, r: Role, i: nat, j: nat)
    requires i <= j <= |log| && Held(log[..i], r) && forall k :: i <= k < j ==> log[k] != Returned(r)
    ensures Held(log[..j], r)
    decreases j
  {
    if i < j {
      HeldUntilReturned(log, r, i, j - 1);
      assert log[..j][..j - 1] == log[..j - 1];
    }
  }

  /** Between two gifts of the same role lies an error message about it. */
  lemma {:induction false} GivenAgainAfterReturn(cfg: Config, e: nat, n: nat, steps: seq<Step>, i: nat, j: nat)
    requires var log := After(cfg, Started(e, n), steps).log;
             i < j < |log| && log[i].Given? && log[j].Given? && log[i].role == log[j].role
    ensures var log := After(cfg, Started(e, n), steps).log; exists k :: i < k < j && log[k] == Returned(log[i].role)
  {
    var s := After(cfg, Started(e, n), steps);
    RunKeepsSafe(cfg, Started(e, n), steps);
    var log, r := s.log, s.log[i].role;
    assert log[..i + 1][..i] == log[..i] && Held(log[..i + 1], r);
    if forall k :: i < k < j ==> log[k] != Returned(r) {
      HeldUntilReturned(log, r, i + 1, j);
      assert false;
    }
  }

  // ----- roles that come back -----

  function ErrorOf(r: Role): Step {
    match r
    case Enb(i) => EnbError(i)
    case Ue(j) => UeError(j)
  }

  /** A status message from a slave that claims the role. */
  predicate Claims(step: Step, r: Role) {
    match r
    case Enb(i) => step == EnbRun(i)
    case Ue(j) => step.UeReport? && step.j == j && step.status != Stopped
  }

  /** The events from position k on give role r to somebody. */
  predicate Gives(log: seq<Event>, k: nat, r: Role) {
    exists l :: k <= l < |log| && log[l].Given? && log[l].role == r
  }

  predicate Exists(c: Controller, r: Role) {
    match r
    case Enb(i) => i < |c.enbs|
    case Ue(j) => j < |c.ues|
  }

  /** A role is free after a step exactly when the step is its error message, or it was free and the step neither gives
      it nor claims it. */
  lemma StepFrees(cfg: Config, s: State, step: Step, r: Role)
    requires Exists(s.c, r)
    ensures var t := Next(cfg, s, step);
            && Exists(t.c, r) && s.log <= t.log
            && (Free(t.c, r) <==>
                step == ErrorOf(r) || (Free(s.c, r) && !Gives(t.log, |s.log|, r) && !Claims(step, r)))
  {
    var t := Next(cfg, s, step);
    if |t.log| > |s.log| { assert t.log == s.log + [t.log[|s.log|]]; }
  }

  /** After an error message about a role it is free for as long as nobody is given it or claims it. */
  lemma {:induction false} ReturnedIsFree(cfg: Config, s: State, r: Role, later: seq<Step>)
    requires Exists(s.c, r)
    ensures var back := Next(cfg, s, ErrorOf(r)); var t := After(cfg, back, later);
            && Exists(t.c, r)
            && (!Gives(t.log, |back.log|, r) && (forall k :: 0 <= k < |later| ==> !Claims(later[k], r)) ==>
                Free(t.c, r))
  {
    StepFrees(cfg, s, ErrorOf(r), r);
    StaysFree(cfg, Next(cfg, s, ErrorOf(r)), r, later);
  }

  lemma {:induction false} StaysFree(cfg: Config, s: State, r: Role, steps: seq<Step>)
    requires Exists(s.c, r)
    ensures var t := After(cfg, s, steps);
            && Exists(t.c, r) && s.log <= t.log
            && (Free(s.c, r) && !Gives(t.log, |s.log|, r) && (forall k :: 0 <= k < |steps| ==> !Claims(steps[k], r)) ==>
                Free(t.c, r))
    decreases |steps|
  {
    hide Next, Free, Claims;
    if steps != [] {
      StepFrees(cfg, s, steps[0], r);
      var mid := Next(cfg, s, steps[0]);
      StaysFree(cfg, mid, r, steps[1..]);
      var t := After(cfg, s, steps);
      if Gives(mid.log, |s.log|, r) {
        var l :| |s.log| <= l < |mid.log| && mid.log[l].Given? && mid.log[l].role == r;
        assert t.log[l] == mid.log[l];
      }
    }
  }

  /** The handler that looks next is given the first free role of its kind. */
  lemma FirstFreeIsGiven(cfg: Config, s: State, m: nat, r: Role)
    requires m < |s.handlers| && s.handlers[m].place == (if r.Enb? then First else Third) && Free(s.c, r)
    requires match r
             case Enb(i) => forall k :: 0 <= k < i ==> !Free(s.c, Enb(k))
             case Ue(j) => forall k :: 0 <= k < j ==> !Free(s.c, Ue(k))
    ensures Next(cfg, s, Advance(m)).log == s.log + [Given(r, m)]
  {
    if r.Enb? { assert forall k :: 0 <= k < r.i ==> s.c.enbs[k] != Stopped by { NotFreeEnbs(s.c, r.i); } }
    else { assert forall k :: 0 <= k < r.j ==> s.c.ues[k] != Stopped by { NotFreeUes(s.c, r.j); } }
  }

  lemma NotFreeEnbs(c: Controller, i: nat)
    requires i <= |c.enbs| && forall k :: 0 <= k < i ==> !Free(c, Enb(k))
    ensures forall k :: 0 <= k < i ==> c.enbs[k] != Stopped
  {
    forall k | 0 <= k < i ensures c.enbs[k] != Stopped { assert !Free(c, Enb(k)); }
  }

  lemma NotFreeUes(c: Controller, j: nat)
    requires j <= |c.ues| && forall k :: 0 <= k < j ==> !Free(c, Ue(k))
    ensures forall k :: 0 <= k < j ==> c.ues[k] != Stopped
  {
    forall k | 0 <= k < j ensures c.ues[k] != Stopped { assert !Free(c, Ue(k)); }
  }

  // ----- events and handlers -----

  /** The handler holds the role. */
  predicate Holds(p: Place, r: Role) {
    match r
    case Enb(i) => p == Done(EnbRole(i))
    case Ue(j) => p == Waiting(j) || p == Done(UeRole(j)) || p == Done(NoEnb(j))
  }

  /** Every given role is with the handler it was given to, and no handler was given two. */
  ghost predicate Recorded(s: State) {
    && (forall k :: 0 <= k < |s.log| && s.log[k].Given? ==>
          s.log[k].message < |s.handlers| && Holds(s.handlers[s.log[k].message].place, s.log[k].role))
    && (forall k, l :: 0 <= k < l < |s.log| && s.log[k].Given? && s.log[l].Given? ==>
       s.log[k].message != s.log[l].message)
  }

  lemma StepHolds(cfg: Config, s: State, step: Step, m: nat, r: Role)
    requires m < |s.handlers| && Holds(s.handlers[m].place, r)
    ensures var t := Next(cfg, s, step); m < |t.handlers| && Holds(t.handlers[m].place, r)
  {
  }

  /** A step logs at most one event; a role it gives goes to a handler that had none. */
  lemma StepLogs(cfg: Config, s: State, step: Step)
    ensures var t := Next(cfg, s, step);
            t.log == s.log ||
            (t.log == s.log + [t.log[|s.log|]] &&
             var e := t.log[|s.log|];
             e.Given? ==> e.message < |s.handlers| && (forall r: Role :: !Holds(s.handlers[e.message].place, r))
                          && e.message < |t.handlers| && Holds(t.handlers[e.message].place, e.role))
  {
  }

  lemma {:induction false} StepKeepsRecorded(cfg: Config, s: State, step: Step)
    requires Recorded(s)
    ensures Recorded(Next(cfg, s, step))
  {
    var t := Next(cfg, s, step);
    StepLogs(cfg, s, step);
    hide Next, Holds;
    forall k | 0 <= k < |s.log| && s.log[k].Given?
      ensures s.log[k].message < |t.handlers| && Holds(t.handlers[s.log[k].message].place, s.log[k].role) {
      StepHolds(cfg, s, step, s.log[k].message, s.log[k].role);
    }
  }

  lemma {:induction false} RunKeepsRecorded(cfg: Config, s: State, steps: seq<Step>)
    requires Recorded(s)
    ensures Recorded(After(cfg, s, steps))
    decreases |steps|
  {
    hide Recorded, Next;
    if steps != [] {
      StepKeepsRecorded(cfg, s, steps[0]);
      RunKeepsRecorded(cfg, Next(cfg, s, steps[0]), steps[1..]);
    }
  }

  /** Does UE j have an eNB? */
  predicate Homed(cfg: Config, c: Controller, j: nat) {
    j < |cfg.homes| && cfg.homes[j] < |c.enbs|
  }

  /** A slave gets its UE message exactly when the UE has an eNB. */
  predicate Served(cfg: Config, s: State) {
    forall m :: 0 <= m < |s.handlers| && s.handlers[m].place.Done? ==>
      match s.handlers[m].place.outcome
      case UeRole(j) => Homed(cfg, s.c, j)
      case NoEnb(j) => !Homed(cfg, s.c, j)
      case _ => true
  }

  lemma StepKeepsServed(cfg: Config, s: State, step: Step)
    requires Served(cfg, s)
    ensures Served(cfg, Next(cfg, s, step)) && |Next(cfg, s, step).c.enbs| == |s.c.enbs|
  {
  }

  lemma {:induction false} RunKeepsServed(cfg: Config, s: State, steps: seq<Step>)
    requires Served(cfg, s)
    ensures Served(cfg, After(cfg, s, steps)) && |After(cfg, s, steps).c.enbs| == |s.c.enbs|
    decreases |steps|
  {
    hide Served, Next;
    if steps != [] {
      StepKeepsServed(cfg, s, steps[0]);
      RunKeepsServed(cfg, Next(cfg, s, steps[0]), steps[1..]);
    }
  }
}
