/** The controller object (ran_controller.py): the scans and updates that its locked sections perform in place. */
module RanController {
  import opened Bytes
  import opened RoleAllocation
  import opened ThreadGrants

  class RanController {
    const cfg: Config
    const enbs: array<Status>
    const ues: array<Status>
    var numUes: int

    ghost predicate Valid() {
      enbs != ues
    }

    ghost function Contents(): Controller
      reads this, enbs, ues
    {
      Controller(enbs[..], ues[..], numUes)
    }

    /** start_controller: everything is stopped and all UEs are to be handed out. */
    constructor (cfg: Config, e: nat, n: nat)
      ensures Valid() && fresh(enbs) && fresh(ues) && this.cfg == cfg && Contents() == Started(e, n).c
    {
      this.cfg := cfg;
      enbs := new Status[e](_ => Stopped);
      ues := new Status[n](_ => Stopped);
      numUes := n;
    }

    /** Critical section 1: the first stopped eNB becomes pending. */
    method TakeEnb() returns (i: Option<nat>)
      requires Valid()
      modifies enbs
      ensures i == FirstStopped(old(enbs[..]), 0)
      ensures Contents() == old(Contents()).(enbs := Take(old(enbs[..])))
    {
      i := TakeFirst(enbs);
    }

    /** Critical section 2: the number of threads for a container, if it is to run some. */
    method GrantThreads(kind: Kind) returns (count: Option<int>)
      modifies this`numUes
      ensures count.Some? <==> Grants(cfg, old(Contents()), kind)
      ensures count.Some? ==> count.value == GrantSize(old(numUes), cfg.threads)
                              && Contents() == old(Contents()).(numUes := AfterGrant(old(numUes), cfg.threads))
      ensures count.None? ==> Contents() == old(Contents())
    {
      count := None;
      if cfg.cpMode && kind == Init {
        if numUes != NONE_LEFT {
          if numUes <= cfg.threads {
            count := Some(numUes);
            numUes := NONE_LEFT;
          } else {
            count := Some(cfg.threads);
            numUes := numUes - cfg.threads;
          }
        }
      }
    }

    /** Critical section 3: the first stopped UE becomes pending. */
    method TakeUe() returns (j: Option<nat>)
      requires Valid()
      modifies ues
      ensures j == FirstStopped(old(ues[..]), 0)
      ensures Contents() == old(Contents()).(ues := Take(old(ues[..])))
    {
      j := TakeFirst(ues);
    }

    /** A handler that is not interrupted between its sections does what its steps do one by one. */
    method Analyze(kind: Kind, ghost s: State) returns (place: Place, ghost sections: nat)
      requires Valid() && s.c == Contents()
      modifies this`numUes, enbs, ues
      ensures var t := After(cfg, s, Sections(kind, |s.handlers|, sections));
              && Contents() == t.c && t.handlers == s.handlers + [Handler(kind, place)]
      ensures place.Done? || place.Waiting?
    {
      ghost var m := |s.handlers|;
      ghost var s0 := Next(cfg, s, Arrive(kind));
      ghost var s1 := Next(cfg, s0, Advance(m));
      ghost var s2 := Next(cfg, s1, Advance(m));
      Unfold(cfg, s, kind, s0, s1, s2);
      var i := TakeEnb();
      sections := 1;
      if i.Some? { return Done(EnbRole(i.value)), 1; }
      assert s1.c == Contents() && s1.handlers == s.handlers + [Handler(kind, Second)];
      var count := GrantThreads(kind);
      if count.Some? { return Done(Threads(count.value)), 2; }
      assert s2.c == Contents() && s2.handlers == s.handlers + [Handler(kind, Third)];
      var j := TakeUe();
      sections := 3;
      place := if j.Some? then Waiting(j.value) else Done(Refused);
    }
  }

  /** The arrival of a message and the first n steps of its handler. */
  function Sections(kind: Kind, m: nat, n: nat): seq<Step> {
    if n == 0 then [Arrive(kind)] else Sections(kind, m, n - 1) + [Advance(m)]
  }

  lemma {:induction false} Unfold(cfg: Config, s: State, kind: Kind, s0: State, s1: State, s2: State)
    requires var m := |s.handlers|;
             s0 == Next(cfg, s, Arrive(kind)) && s1 == Next(cfg, s0, Advance(m)) && s2 == Next(cfg, s1, Advance(m))
    ensures var m := |s.handlers|;
            && After(cfg, s, Sections(kind, m, 1)) == s1 && After(cfg, s, Sections(kind, m, 2)) == s2
            && After(cfg, s, Sections(kind, m, 3)) == Next(cfg, s2, Advance(m))
  {
    hide Next;
    var m := |s.handlers|;
    assert [Arrive(kind)][1..] == [];
    assert After(cfg, s, Sections(kind, m, 0)) == s0;
    OneMoreStep(cfg, s, Sections(kind, m, 0), Advance(m));
    OneMoreStep(cfg, s, Sections(kind, m, 1), Advance(m));
    OneMoreStep(cfg, s, Sections(kind, m, 2), Advance(m));
  }

  /** The scan for the first stopped slave. */
  method TakeFirst(a: array<Status>) returns (i: Option<nat>)
    modifies a
    ensures i == FirstStopped(old(a[..]), 0)
    ensures a[..] == Take(old(a[..]))
  {
    for k := 0 to a.Length
      invariant a[..] == old(a[..])
      invariant FirstStopped(a[..], 0) == FirstStopped(a[..], k)
    {
      if a[k] == Stopped {
        a[k] := Pending;
        return Some(k);
      }
    }
    return None;
  }
}
