/** How the RAN controller hands out roles to slaves (ran_controller.py): the three locked sections of analyze_msg
    as atomic steps of concurrent message handlers. */
module RoleAllocation {
  import opened Bytes
  import opened ThreadGrants

  // ----- eNBs and UEs -----

  datatype Status = Stopped | Connected | Idle | Traffic | Pending | Disconnected

  /** The part of the controller that the locked sections share. */
  datatype Controller = Controller(enbs: seq<Status>, ues: seq<Status>, numUes: int)

  /** Fixed during an experiment; homes gives each UE the position of its eNB, or a number too large when it
      has none. */
  datatype Config = Config(cpMode: bool, threads: int, homes: seq<nat>)

  function FirstStopped(s: seq<Status>, from: nat): (i: Option<nat>)
    requires from <= |s|
    ensures i.Some? ==> from <= i.value < |s| && s[i.value] == Stopped && forall k :: from <= k < i.value ==>
        s[k] != Stopped
    ensures i.None? ==> forall k :: from <= k < |s| ==> s[k] != Stopped
    decreases |s| - from
  {
    if from == |s| then None else if s[from] == Stopped then Some(from) else FirstStopped(s, from + 1)
  }

  /** The status list after its first stopped entry became pending. */
  function Take(s: seq<Status>): seq<Status> {
    var i := FirstStopped(s, 0);
    if i.None? then s else s[i.value := Pending]
  }

  // ----- message handlers -----

  datatype Kind = Init | CpMode

  datatype Outcome = EnbRole(enb: nat) | Threads(count: int) | UeRole(ue: nat) | NoEnb(ue: nat) | Refused

  /** Where a handler is: in front of a locked section, waiting for its UE's eNB, or finished. */
  datatype Place = First | Second | Third | Waiting(ue: nat) | Done(outcome: Outcome)

  datatype Handler = Handler(kind: Kind, place: Place)

  datatype Role = Enb(i: nat) | Ue(j: nat)

  /** A role is given to the slave of a message, or an error message about it arrives. */
  datatype Event = Given(role: Role, message: nat) | Returned(role: Role)

  /** The handlers by order of arrival, and what has happened: role events and thread grants. */
  datatype State = State(c: Controller, handlers: seq<Handler>, log: seq<Event>, grants: seq<int>)

  function Move(s: State, m: nat, place: Place): State
    requires m < |s.handlers|
  {
    s.(handlers := s.handlers[m := s.handlers[m].(place := place)])
  }

  /** Critical section 1: the first stopped eNB, if any. */
  function FirstSection(s: State, m: nat): State
    requires m < |s.handlers|
  {
    var i := FirstStopped(s.c.enbs, 0);
    if i.None? then Move(s, m, Second)
    else Move(s.(c := s.c.(enbs := Take(s.c.enbs)), log := s.log + [Given(Enb(i.value), m)]), m, Done(EnbRole(i.value)))
  }

  /** Does critical section 2 grant threads? */
  predicate Grants(cfg: Config, c: Controller, kind: Kind) {
    cfg.cpMode && kind == Init && c.numUes != NONE_LEFT
  }

  /** Critical section 2: threads in a container, when the mode is on and the message is an init message. */
  function SecondSection(cfg: Config, s: State, m: nat): State
    requires m < |s.handlers|
  {
    if Grants(cfg, s.c, s.handlers[m].kind) then
      var n := GrantSize(s.c.numUes, cfg.threads);
      Move(s.(c := s.c.(numUes := AfterGrant(s.c.numUes, cfg.threads)), grants := s.grants + [n]), m, Done(Threads(n)))
    else Move(s, m, Third)
  }

  /** Critical section 3: the first stopped UE, or CODE_ERROR. */
  function ThirdSection(s: State, m: nat): State
    requires m < |s.handlers|
  {
    var j := FirstStopped(s.c.ues, 0);
    if j.None? then Move(s, m, Done(Refused))
    else Move(s.(c := s.c.(ues := Take(s.c.ues)), log := s.log + [Given(Ue(j.value), m)]), m, Waiting(j.value))
  }

  /** The UE message is sent once the UE's eNB is connected. */
  function Wait(cfg: Config, s: State, m: nat, ue: nat): State
    requires m < |s.handlers|
  {
    if ue >= |cfg.homes| || cfg.homes[ue] >= |s.c.enbs| then Move(s, m, Done(NoEnb(ue)))
    else if s.c.enbs[cfg.homes[ue]] == Connected then Move(s, m, Done(UeRole(ue)))
    else s
  }

  datatype Step =
    | Arrive(kind: Kind)                    // an init or cp_mode message
    | Advance(m: nat)                       // the next section of a handler
    | EnbRun(i: nat)                        // status messages of slaves
    | UeReport(j: nat, status: Status)
    | EnbError(i: nat)
    | UeError(j: nat)

  function SetAt(s: seq<Status>, i: nat, x: Status): seq<Status> {
    if i < |s| then s[i := x] else s
  }

  function Next(cfg: Config, s: State, step: Step): State {
    match step
    case Arrive(kind) => s.(handlers := s.handlers + [Handler(kind, First)])
    case Advance(m) =>
      if m >= |s.handlers| then s
      else (match s.handlers[m].place
            case First => FirstSection(s, m)
            case Second => SecondSection(cfg, s, m)
            case Third => ThirdSection(s, m)
            case Waiting(ue) => Wait(cfg, s, m, ue)
            case Done(_) => s)
    case EnbRun(i) => s.(c := s.c.(enbs := SetAt(s.c.enbs, i, Connected)))
    case UeReport(j, status) => if status == Stopped then s else s.(c := s.c.(ues := SetAt(s.c.ues, j, status)))
    case EnbError(i) => s.(c := s.c.(enbs := SetAt(s.c.enbs, i, Stopped)), log := s.log + [Returned(Enb(i))])
    case UeError(j) => s.(c := s.c.(ues := SetAt(s.c.ues, j, Stopped)), log := s.log + [Returned(Ue(j))])
  }

  function After(cfg: Config, s: State, steps: seq<Step>): State
    decreases |steps|
  {
    if steps == [] then s else After(cfg, Next(cfg, s, steps[0]), steps[1..])
  }

  lemma {:induction false} OneMoreStep(cfg: Config, s: State, steps: seq<Step>, step: Step)
    ensures After(cfg, s, steps + [step]) == Next(cfg, After(cfg, s, steps), step)
    decreases |steps|
  {
    hide Next;
    if steps == [] {
      assert steps + [step] == [step] && [step][1..] == [];
    } else {
      assert (steps + [step])[1..] == steps[1..] + [step];
      OneMoreStep(cfg, Next(cfg, s, steps[0]), steps[1..], step);
    }
  }

  /** start_controller with e eNBs and n UEs. */
  function Started(e: nat, n: nat): State {
    State(Controller(seq(e, _ => Stopped), seq(n, _ => Stopped), n), [], [], [])
  }
}
