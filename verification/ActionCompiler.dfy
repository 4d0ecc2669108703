/** serialize_control_plane of ran_controller/UserInput.py, the byte interpreter control_plane of
    ran-emulator/source/ue_emulator.c, and the theorem that the two together carry out the source program. */
module ActionCompiler {
  import opened ActionLanguage
  import opened ActionValidator
  import opened Bytes

  // ----- the compiled form -----

  function EncodeDelay(d: Delay): (b: seq<Octet>)
    ensures |b| == 3
  {
    match d
    case Seconds(n) => Pack24(n)
    case Inf => [0xFF, 0xFF, 0xFF]
  }

  function Enb(a: Action): nat {
    if NamesEnb(a) then a.enb else 0
  }

  function EncodeAction(a: Action): (b: seq<Octet>)
    ensures |b| == if NamesEnb(a) then 5 else 1
  {
    if NamesEnb(a) then [Code(a)] + Pack24(Enb(a)) + [0] else [Code(a)]
  }

  /** Four bytes, or eight when an eNB number precedes the delay. */
  function Encode(c: Command): (b: seq<Octet>)
    ensures |b| == if NamesEnb(c.action) then 8 else 4
  {
    EncodeAction(c.action) + EncodeDelay(c.delay)
  }

  /** How many commands come up to and including the first inf. */
  function Stop(p: Program, k: nat): (r: nat)
    requires k <= |p|
    ensures k <= r <= |p| && (k < |p| ==> k < r)
    ensures forall j :: k <= j < r - 1 ==> !p[j].delay.Inf?
    ensures r < |p| ==> r > k && p[r - 1].delay.Inf?
    decreases |p| - k
  {
    if k == |p| then k else if p[k].delay.Inf? then k + 1 else Stop(p, k + 1)
  }

  lemma StopStep(p: Program, k: nat)
    requires k < |p|
    ensures Stop(p, k) == if p[k].delay.Inf? then k + 1 else Stop(p, k + 1)
  {
  }

  function Layout(p: Program, k: nat): seq<Octet>
    requires k <= |p|
  {
    if k == 0 then [] else Layout(p, k - 1) + Encode(p[k - 1])
  }

  function Compile(p: Program): seq<Octet> {
    Layout(p, Stop(p, 0))
  }

  /** The first half of the loop body of serialize_control_plane. */
  method SerializeAction(t: string) returns (data: seq<Octet>)
    requires ParseAction(t).Some?
    ensures data == EncodeAction(ParseAction(t).value)
  {
    ActionToken(t);
    hide Split, IsDigits, ParseAction, PlainAction, SpecialAction, Code;
    var act := PlainAction(t);
    if act.Some? {
      data := [Code(act.value)];
    } else {
      var ho := Split(t, '_');
      var enbId := ToNat(ho[1]);
      data := [Code(SpecialAction(ho[0], enbId).value)];
      data := data + [enbId / 0x1_0000 % 256];
      data := data + [enbId / 0x100 % 256];
      data := data + [enbId % 256];
      data := data + [0];
    }
  }

  /** The second half of the loop body of serialize_control_plane. */
  method SerializeDelay(t: string) returns (data: seq<Octet>)
    requires IsDelay(t)
    ensures data == EncodeDelay(ParseDelay(t))
  {
    if t == "inf" {
      data := [0xFF, 0xFF, 0xFF];
    } else {
      var n := ToNat(t);
      data := [n / 0x1_0000 % 256, n / 0x100 % 256, n % 256];
    }
  }

  /** serialize_control_plane, which its caller applies to validated strings only. */
  method Serialize(actions: string) returns (data: seq<Octet>)
    requires Accepted(actions)
    ensures data == Compile(Commands(Split(actions, '-')))
  {
    hide Stop, Split, ParseAction, IsDelay, ParseDelay, EncodeAction, EncodeDelay, Accepted, WellFormed, Commands;
    var ts := Split(actions, '-');
    assert WellFormed(ts) && |ts| % 2 == 0 by { AcceptedParses(actions); }
    ghost var p := Commands(ts);
    data := [];
    var i := 0;
    while i < |ts|
      invariant 0 <= i <= |ts| && i % 2 == 0
      invariant data == Layout(p, i / 2) && Stop(p, i / 2) == Stop(p, 0)
      decreases |ts| - i
    {
      ghost var k := i / 2;
      TokensAt(ts, k);
      var action := SerializeAction(ts[i]);
      data := data + action;
      var delay := SerializeDelay(ts[i + 1]);
      data := data + delay;
      assert data == Layout(p, k) + Encode(p[k]) == Layout(p, k + 1);
      InfOnly(ts[i + 1]);
      StopStep(p, k);
      if ts[i + 1] == "inf" {
        return;
      }
      i := i + 2;
    }
  }

  lemma TokensAt(ts: seq<string>, k: nat)
    requires WellFormed(ts) && k < |ts| / 2
    ensures ParseAction(ts[2 * k]).Some? && IsDelay(ts[2 * k + 1])
    ensures Commands(ts)[k] == Command(ParseAction(ts[2 * k]).value, ParseDelay(ts[2 * k + 1]))
  {
    assert Commands(ts)[k] == CommandAt(ts, k);
    assert TokenFits(ts, 2 * k) && TokenFits(ts, 2 * k + 1);
    InitOnlyFirst(ts[2 * k]);
  }

  lemma {:induction false} AcceptedParses(s: string)
    requires Accepted(s)
    ensures WellFormed(Split(s, '-')) && |Split(s, '-')| % 2 == 0
  {
  }

  /** An action token is a name of the first table, or a name of the second with an eNB number. */
  lemma {:induction false} ActionToken(t: string)
    requires ParseAction(t).Some?
    ensures PlainAction(t).Some? ==> ParseAction(t) == PlainAction(t) && !NamesEnb(PlainAction(t).value)
    ensures PlainAction(t).None? ==>
              var ho := Split(t, '_');
              && |ho| == 2 && IsDigits(ho[1]) && ParseAction(t) == SpecialAction(ho[0], ToNat(ho[1]))
              && NamesEnb(ParseAction(t).value) && ParseAction(t).value.enb == ToNat(ho[1])
  {
  }

  // ----- the interpreter -----

  /** What one turn of the interpreter does: an action (none for an unknown byte), then a sleep, if it gets there. */
  datatype Event = Event(action: Option<Action>, sleep: Option<Delay>)

  /** do_control_plane_action: the action that the bytes at i stand for. */
  function ActionAt(code: seq<Octet>, i: nat): Option<Action>
    requires i + 4 <= |code|
  {
    match code[i]
    case 0 => Some(Init)
    case 1 => Some(Detach)
    case 2 => Some(DetachSwitchOff)
    case 3 => Some(Attach)
    case 4 => Some(MoveToIdle)
    case 5 => Some(MoveToConnected)
    case 6 => Some(X2Handover(Unpack24(code[i + 1..i + 4])))
    case 7 => Some(AttachToEnb(Unpack24(code[i + 1..i + 4])))
    case 8 => Some(S1Handover(Unpack24(code[i + 1..i + 4])))
    case _ => None
  }

  function SleepAt(code: seq<Octet>, i: nat): nat
    requires i + 4 <= |code|
  {
    Unpack24(code[i + 1..i + 4])
  }

  predicate TakesEnb(b: Octet) {
    6 <= b <= 8
  }

  /** The interpreter between two turns. */
  datatype Machine = Machine(events: seq<Event>, pc: nat, halted: bool)

  predicate Aligned(i: int) {
    i % 4 == 0
  }

  lemma WholeWord(i: int, n: int)
    requires Aligned(i) && Aligned(n)
    ensures Aligned(i + 4) && (i < n ==> i + 4 <= n)
  {
  }

  lemma ZeroAligned()
    ensures Aligned(0)
  {
  }

  ghost predicate Loaded(code: seq<Octet>) {
    |code| > 0 && Aligned(|code|)
  }

  ghost predicate Fits(code: seq<Octet>, m: Machine) {
    Aligned(m.pc) && m.pc < |code|
  }

  /** One turn of the two nested loops of control_plane. */
  function Turn(code: seq<Octet>, m: Machine): (m': Machine)
    requires Loaded(code) && Fits(code, m) && !m.halted
    ensures Fits(code, m') && |m'.events| == |m.events| + 1
  {
    var action := ActionAt(code, m.pc);
    var i := if TakesEnb(code[m.pc]) then m.pc + 4 else m.pc;
    if i >= |code| then Machine(m.events + [Event(action, None)], 0, false)
    else
      var sleep := SleepAt(code, i);
      if sleep == 16777215 then Machine(m.events + [Event(action, Some(Inf))], m.pc, true)
      else Machine(m.events + [Event(action, Some(Seconds(sleep)))], if i + 4 >= |code| then 0 else i + 4, false)
  }

  function Execute(code: seq<Octet>, n: nat): (m: Machine)
    requires Loaded(code)
    ensures Fits(code, m) && (!m.halted ==> |m.events| == n)
  {
    if n == 0 then Machine([], 0, false)
    else
      var m := Execute(code, n - 1);
      if m.halted then m else Turn(code, m)
  }

  lemma {:induction false} StaysHalted(code: seq<Octet>, n: nat, m: nat)
    requires Loaded(code) && n <= m && Execute(code, n).halted
    ensures Execute(code, m) == Execute(code, n)
  {
    hide Turn;
    if n < m { StaysHalted(code, n, m - 1); }
  }

  /** control_plane, watched for n turns of its endless loop. */
  method ControlPlane(code: array<Octet>, n: nat) returns (events: seq<Event>)
    requires Loaded(code[..])
    ensures events == Execute(code[..], n).events
  {
    hide ActionAt, SleepAt, Aligned;
    assert Aligned(0) by { ZeroAligned(); }
    events := [];
    while |events| < n
      invariant |events| <= n && Execute(code[..], |events|) == Machine(events, 0, false)
      decreases n - |events|
    {
      var i := 0;
      ghost var before := |events|;
      while i < code.Length && |events| < n
        invariant 0 <= i <= code.Length && Aligned(i) && before <= |events| <= n && (i > 0 ==> before < |events|)
        invariant Execute(code[..], |events|) == Machine(events, if i == code.Length then 0 else i, false)
        decreases n - |events|
      {
        ghost var was := Machine(events, i, false);
        WholeWord(i, code.Length);
        WholeWord(i + 4, code.Length);
        assert Execute(code[..], |events| + 1) == Turn(code[..], was);
        var action := ActionAt(code[..], i);
        if TakesEnb(code[i]) {
          i := i + 4;
          if i >= code.Length {
            events := events + [Event(action, None)];
            break;
          }
        }
        var sleep := SleepAt(code[..], i);
        if sleep == 16777215 {
          events := events + [Event(action, Some(Inf))];
          StaysHalted(code[..], |events|, n);
          return;
        }
        events := events + [Event(action, Some(Seconds(sleep)))];
        i := i + 4;
      }
      if |events| == n {
        return;
      }
    }
  }

  // ----- compiler correctness -----

  /** What survives the 24-bit fields: numbers modulo 2^24, and the largest delay reads as inf. */
  function Wire(c: Command): Command {
    Command(WireAction(c.action), WireDelay(c.delay))
  }

  function WireAction(a: Action): Action {
    match a
    case X2Handover(e) => X2Handover(e % 0x100_0000)
    case AttachToEnb(e) => AttachToEnb(e % 0x100_0000)
    case S1Handover(e) => S1Handover(e % 0x100_0000)
    case _ => a
  }

  function WireDelay(d: Delay): Delay {
    if d.Inf? || d.n % 0x100_0000 == 16777215 then Inf else Seconds(d.n % 0x100_0000)
  }

  function WireProgram(p: Program): (q: Program)
    ensures |q| == |p|
  {
    seq(|p|, k requires 0 <= k < |p| => Wire(p[k]))
  }

  function EventOf(c: Command): Event {
    Event(Some(c.action), Some(c.delay))
  }

  function Events(r: seq<Command>): (es: seq<Event>)
    ensures |es| == |r|
  {
    seq(|r|, k requires 0 <= k < |r| => EventOf(r[k]))
  }

  lemma {:induction false} LayoutGrows(p: Program, j: nat, k: nat)
    requires j <= k <= |p|
    ensures Layout(p, j) <= Layout(p, k) && |Layout(p, j)| % 4 == 0
  {
    hide Encode;
    if j < k { LayoutGrows(p, j, k - 1); }
    else if j > 0 { LayoutGrows(p, j - 1, j - 1); }
  }

  /** Record k of the compiled program sits where the commands before it end. */
  lemma RecordAt(p: Program, k: nat, stop: nat)
    requires k < stop <= |p|
    ensures var i := |Layout(p, k)|; var code := Layout(p, stop);
            i + |Encode(p[k])| == |Layout(p, k + 1)| <= |code| && code[i..i + |Encode(p[k])|] == Encode(p[k])
  {
    hide Encode;
    LayoutGrows(p, k + 1, stop);
  }

  /** One record is one turn: the interpreter reads back the command and lands on the next record. */
  lemma OneTurn(p: Program, k: nat, stop: nat, m: Machine)
    requires k < stop <= |p| && !m.halted && m.pc == |Layout(p, k)|
    ensures var code := Layout(p, stop); var w := Wire(p[k]);
            && Loaded(code) && Fits(code, m)
            && Turn(code, m).events == m.events + [EventOf(w)]
            && Turn(code, m).halted == w.delay.Inf?
            && (!w.delay.Inf? ==> Turn(code, m).pc == if k + 1 == stop then 0 else |Layout(p, k + 1)|)
  {
    hide Encode, Layout, Wire, Turn;
    var c, code, i := p[k], Layout(p, stop), m.pc;
    var e := Encode(c);
    RecordAt(p, k, stop);
    LayoutGrows(p, k, k);
    LayoutGrows(p, stop, stop);
    if k + 1 < stop { RecordAt(p, k + 1, stop); }
    assert code[i..i + |e|] == e && forall j :: 0 <= j < |e| ==> code[i + j] == e[j];
    TurnAt(c, code, m);
  }

  /** A turn at a record carries out its command and moves on behind it, or to the start when it is the last. */
  lemma TurnAt(c: Command, code: seq<Octet>, m: Machine)
    requires Aligned(|code|) && Aligned(m.pc) && !m.halted && m.pc + |Encode(c)| <= |code|
    requires forall j :: 0 <= j < |Encode(c)| ==> code[m.pc + j] == Encode(c)[j]
    ensures Loaded(code) && Fits(code, m)
    ensures Turn(code, m).events == m.events + [EventOf(Wire(c))] && Turn(code, m).halted == Wire(c).delay.Inf?
    ensures var next := m.pc + |Encode(c)|;
            !Wire(c).delay.Inf? ==> Turn(code, m).pc == if next == |code| then 0 else next
  {
    hide EncodeAction, EncodeDelay, Code, WireAction, WireDelay, ActionAt, SleepAt;
    ReadAction(c, code, m.pc);
    ReadDelay(c, code, m.pc);
  }

  lemma ReadAction(c: Command, code: seq<Octet>, i: nat)
    requires i + |Encode(c)| <= |code| && forall j :: 0 <= j < |Encode(c)| ==> code[i + j] == Encode(c)[j]
    ensures ActionAt(code, i) == Some(Wire(c).action) && (TakesEnb(code[i]) <==> NamesEnb(c.action))
  {
    var e := Encode(c);
    assert code[i + 0] == e[0] == Code(c.action);
    if NamesEnb(c.action) {
      assert code[i + 1..i + 4] == Pack24(c.action.enb) by {
        assert code[i + 1] == e[1] && code[i + 2] == e[2] && code[i + 3] == e[3];
      }
      Pack24RoundTrip(c.action.enb);
    }
  }

  lemma ReadDelay(c: Command, code: seq<Octet>, i: nat)
    requires i + |Encode(c)| <= |code| && forall j :: 0 <= j < |Encode(c)| ==> code[i + j] == Encode(c)[j]
    ensures var at := if NamesEnb(c.action) then i + 4 else i;
            var sleep := SleepAt(code, at);
            Wire(c).delay == if sleep == 16777215 then Inf else Seconds(sleep)
  {
    var e, o := Encode(c), if NamesEnb(c.action) then 4 else 0;
    assert code[i + (o + 1)] == e[o + 1] && code[i + (o + 2)] == e[o + 2] && code[i + (o + 3)] == e[o + 3];
    assert code[i + o + 1..i + o + 4] == EncodeDelay(c.delay);
    if c.delay.Seconds? { Pack24RoundTrip(c.delay.n); }
  }

  /** Running the compiled bytes is running the source program as its 24-bit fields can express it: for every
      program and every number of turns, with four- and eight-byte records never misaligned. */
  lemma {:induction false} CompiledRun(p: Program, n: nat)
    requires p != []
    ensures var r := Run(WireProgram(p), n);
            && Loaded(Compile(p)) && Execute(Compile(p), n).events == Events(r)
            && Execute(Compile(p), n).halted == Stopped(r)
            && (!Stopped(r) ==>
                  Place(|r|, |p|) < Stop(p, 0) && Execute(Compile(p), n).pc == |Layout(p, Place(|r|, |p|))|)
  {
    hide Place, Turn, EncodeAction, EncodeDelay, WireAction, Stop;
    var q, stop := WireProgram(p), Stop(p, 0);
    var start := Machine([], 0, false);
    OneTurn(p, 0, stop, start);
    if n > 0 {
      CompiledRun(p, n - 1);
      var r, m := Run(q, n - 1), Execute(Compile(p), n - 1);
      if !Stopped(r) {
        var k := Place(|r|, |p|);
        OneTurn(p, k, stop, m);
        assert Events(r + [q[k]]) == Events(r) + [EventOf(q[k])];
        NextPlace(|r|, |p|);
        if k + 1 == stop < |p| { assert q[k].delay.Inf?; }
      }
    }
  }

  // ----- when nothing is lost -----

  /** Every command that can be reached fits its fields. */
  ghost predicate InRange(p: Program) {
    forall k :: 0 <= k < Stop(p, 0) ==> CommandInRange(p[k])
  }

  predicate CommandInRange(c: Command) {
    Enb(c.action) < 0x100_0000 && (c.delay.Seconds? ==> c.delay.n < 16777215)
  }

  lemma InRangeIsExact(c: Command)
    ensures CommandInRange(c) <==> Wire(c) == c
  {
  }

  /** As long as the commands met so far fit, both runs are the same. */
  lemma {:induction false} SameRun(p: Program, n: nat)
    requires p != [] && forall k :: 0 <= k < Stop(p, 0) && k < n ==> CommandInRange(p[k])
    ensures Run(WireProgram(p), n) == Run(p, n)
    ensures !Stopped(Run(p, n)) ==> Place(n, |p|) < Stop(p, 0)
  {
    hide Place, WireAction, WireDelay, Stop, CommandInRange;
    if n > 0 {
      SameRun(p, n - 1);
      var r := Run(p, n - 1);
      if !Stopped(r) {
        var k, stop := Place(|r|, |p|), Stop(p, 0);
        InRangeIsExact(p[k]);
        NextPlace(|r|, |p|);
        if k + 1 == stop < |p| { assert p[k].delay.Inf?; }
      }
    }
  }

  /** Compiler correctness, both ways: the emulated subscriber carries out the source program, for every number
      of turns, if and only if every reachable delay is below 2^24 - 1 and every eNB number below 2^24. */
  lemma {:induction false} CompilerCorrect(p: Program)
    requires p != []
    ensures Loaded(Compile(p))
    ensures InRange(p) <==> forall n: nat :: Execute(Compile(p), n).events == Events(Run(p, n))
  {
    hide Place, Execute, Run, Stop, Compile, CommandInRange, WireAction, WireDelay;
    CompiledRun(p, 0);
    if InRange(p) {
      forall n: nat ensures Execute(Compile(p), n).events == Events(Run(p, n)) {
        CompiledRun(p, n);
        SameRun(p, n);
      }
    } else {
      var k := FirstOutOfRange(p, 0);
      SameRun(p, k);
      NotYetStopped(p, k);
      RunReaches(p, k);
      RunReaches(WireProgram(p), k);
      CompiledRun(p, k + 1);
      InRangeIsExact(p[k]);
      assert Events(Run(p, k + 1))[k] == EventOf(p[k]);
      assert Execute(Compile(p), k + 1).events != Events(Run(p, k + 1));
    }
  }

  lemma FirstOutOfRange(p: Program, from: nat) returns (k: nat)
    requires from <= Stop(p, 0) && !InRange(p)
    requires forall j :: 0 <= j < from ==> CommandInRange(p[j])
    ensures k < Stop(p, 0) && !CommandInRange(p[k]) && forall j :: 0 <= j < k ==> CommandInRange(p[j])
    decreases Stop(p, 0) - from
  {
    if !CommandInRange(p[from]) { k := from; } else { k := FirstOutOfRange(p, from + 1); }
  }

  /** A run reaches the command at k in k + 1 turns unless an inf comes before it. */
  lemma {:induction false} RunReaches(p: Program, k: nat)
    requires k < |p| && !Stopped(Run(p, k))
    ensures |Run(p, k + 1)| == k + 1 && Run(p, k + 1)[k] == p[k]
  {
    hide Place;
  }

  lemma {:induction false} NotYetStopped(p: Program, k: nat)
    requires p != [] && k < Stop(p, 0)
    ensures !Stopped(Run(p, k))
  {
    hide Stop, Place;
    if k > 0 {
      NotYetStopped(p, k - 1);
      assert !p[k - 1].delay.Inf?;
    }
  }

  /** The first delay that does not survive: a sleep of 2^24 - 1 seconds ends the program instead. */
  lemma LargestDelayStops()
    ensures var p := [Command(Init, Seconds(16777215))];
            !InRange(p) && Execute(Compile(p), 1).halted && !Stopped(Run(p, 1))
  {
    var p := [Command(Init, Seconds(16777215))];
    assert Stop(p, 0) == 1 && !CommandInRange(p[0]);
    CompiledRun(p, 1);
    assert WireProgram(p)[0].delay.Inf? && Run(WireProgram(p), 0) == [];
    RunReaches(WireProgram(p), 0);
    assert Run(p, 0) == [];
    RunReaches(p, 0);
  }
}
