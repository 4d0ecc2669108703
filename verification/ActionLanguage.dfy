/** The control-plane action language of the RAN emulator: strings such as "init-5-detach-2-attach-inf" that
    ran_controller/UserInput.py validates, and whose meaning is an endless repetition of their commands. */
module ActionLanguage {
  import opened Arithmetic
  import opened Bytes

  datatype Action =
    | Init | Detach | DetachSwitchOff | Attach | MoveToIdle | MoveToConnected
    | X2Handover(enb: nat) | AttachToEnb(enb: nat) | S1Handover(enb: nat)

  datatype Delay = Seconds(n: nat) | Inf

  datatype Command = Command(action: Action, delay: Delay)

  type Program = seq<Command>

  // ----- strings -----

  /** Python's s.split(sep) for a one-character separator. */
  function Split(s: string, sep: char): (r: seq<string>)
    ensures |r| >= 1
  {
    if s == "" then [""]
    else
      var r := Split(s[1..], sep);
      if s[0] == sep then [""] + r else [[s[0]] + r[0]] + r[1..]
  }

  function Join(ts: seq<string>, sep: char): string
    requires |ts| >= 1
  {
    if |ts| == 1 then ts[0] else ts[0] + [sep] + Join(ts[1..], sep)
  }

  /** Splitting loses nothing and leaves no separator behind. */
  lemma {:induction false} SplitJoin(s: string, sep: char)
    ensures Join(Split(s, sep), sep) == s
    ensures forall t :: t in Split(s, sep) ==> sep !in t
  {
    if s != "" {
      SplitJoin(s[1..], sep);
      var r := Split(s[1..], sep);
      if s[0] != sep {
        assert ([[s[0]] + r[0]] + r[1..])[1..] == r[1..];
      } else {
        assert ([""] + r)[1..] == r;
      }
    }
  }

  predicate IsDigit(c: char) { '0' <= c <= '9' }

  /** str.isdigit on ASCII text. */
  predicate IsDigits(s: string) {
    s != "" && forall c :: c in s ==> IsDigit(c)
  }

  /** int(s) */
  function ToNat(s: string): nat
    requires forall c :: c in s ==> IsDigit(c)
  {
    if s == "" then 0
    else
      assert forall c :: c in s[..|s| - 1] ==> c in s;
      assert IsDigit(s[|s| - 1]);
      ToNat(s[..|s| - 1]) * 10 + (s[|s| - 1] as int - '0' as int)
  }

  // ----- the two tables of actions -----

  function PlainAction(a: string): Option<Action> {
    if a == "init" then Some(Init)
    else if a == "detach" then Some(Detach)
    else if a == "detach_switch_off" then Some(DetachSwitchOff)
    else if a == "attach" then Some(Attach)
    else if a == "move_to_idle" then Some(MoveToIdle)
    else if a == "move_to_connected" then Some(MoveToConnected)
    else None
  }

  /** The special table; an eNB number follows the name. */
  function SpecialAction(a: string, enb: nat): Option<Action> {
    if a == "x2handover" then Some(X2Handover(enb))
    else if a == "attach" then Some(AttachToEnb(enb))
    else if a == "s1handover" then Some(S1Handover(enb))
    else None
  }

  /** The change of the validator's counter: column 0 of the tables. */
  function Delta(a: Action): int {
    match a
    case Detach => 1
    case DetachSwitchOff => 1
    case Attach => -1
    case AttachToEnb(_) => -1
    case MoveToIdle => 3
    case MoveToConnected => -3
    case _ => 0
  }

  /** The action byte: column 1 of the tables. */
  function Code(a: Action): Octet {
    match a
    case Init => 0
    case Detach => 1
    case DetachSwitchOff => 2
    case Attach => 3
    case MoveToIdle => 4
    case MoveToConnected => 5
    case X2Handover(_) => 6
    case AttachToEnb(_) => 7
    case S1Handover(_) => 8
  }

  predicate NamesEnb(a: Action) {
    a.X2Handover? || a.AttachToEnb? || a.S1Handover?
  }

  // ----- the grammar -----

  function ParseAction(a: string): Option<Action> {
    if PlainAction(a).Some? then PlainAction(a)
    else
      var ho := Split(a, '_');
      if |ho| == 2 && IsDigits(ho[1]) then SpecialAction(ho[0], ToNat(ho[1])) else None
  }

  predicate IsDelay(t: string) {
    IsDigits(t) || t == "inf"
  }

  function ParseDelay(t: string): Delay
    requires IsDelay(t)
  {
    if t == "inf" then Inf else Seconds(ToNat(t))
  }

  /** Token k of a program: init first and only there, actions at even places, delays at odd ones. */
  predicate TokenFits(ts: seq<string>, k: nat)
    requires k < |ts|
  {
    if k == 0 then ts[0] == "init"
    else if k % 2 == 0 then ParseAction(ts[k]).Some? && ts[k] != "init"
    else IsDelay(ts[k])
  }

  ghost predicate WellFormed(ts: seq<string>) {
    |ts| % 2 == 0 && |ts| > 0 && forall k :: 0 <= k < |ts| ==> TokenFits(ts, k)
  }

  ghost function Commands(ts: seq<string>): (p: Program)
    requires WellFormed(ts)
    ensures |p| == |ts| / 2
  {
    seq(|ts| / 2, k requires 0 <= k < |ts| / 2 => CommandAt(ts, k))
  }

  ghost function CommandAt(ts: seq<string>, k: nat): Command
    requires WellFormed(ts) && k < |ts| / 2
  {
    assert TokenFits(ts, 2 * k) && TokenFits(ts, 2 * k + 1);
    Command(ParseAction(ts[2 * k]).value, ParseDelay(ts[2 * k + 1]))
  }

  // ----- which programs are legal -----

  /** The sum of the first k deltas. */
  function Sum(p: Program, k: nat): int
    requires k <= |p|
  {
    if k == 0 then 0 else Sum(p, k - 1) + Delta(p[k - 1].action)
  }

  /** The five values of the validator's counter: at home, or one change away from it. */
  predicate Legal(state: int) {
    state == 0 || state == 1 || state == -1 || state == 3 || state == -3
  }

  predicate LegalUpTo(p: Program, k: nat)
    requires k <= |p|
  {
    forall j :: 0 <= j <= k ==> Legal(Sum(p, j))
  }

  /** The same in terms of the validator's counter. */
  ghost predicate Balanced(p: Program)
    requires p != []
  {
    && LegalUpTo(p, |p|)
    && (Sum(p, |p|) == 0 || p[|p| - 1].delay.Inf?)
  }

  /** Where a subscriber is: at home, or away from it by one change that is still open. */
  datatype Phase = Home | Detached | Attached | Idle | Connected

  /** The five-state automaton: what each action does, and None where it must not come. */
  function Move(o: Phase, a: Action): Option<Phase> {
    match a
    case Init | X2Handover(_) | S1Handover(_) => Some(o)
    case Detach | DetachSwitchOff => Opens(o, Detached, Attached)
    case Attach | AttachToEnb(_) => Opens(o, Attached, Detached)
    case MoveToIdle => Opens(o, Idle, Connected)
    case MoveToConnected => Opens(o, Connected, Idle)
  }

  /** A change is opened at home, and closes the opposite one. */
  function Opens(o: Phase, made: Phase, undone: Phase): Option<Phase> {
    if o == Home then Some(made) else if o == undone then Some(Home) else None
  }

  /** Where the first k commands lead, if they may follow each other. */
  function Walk(p: Program, k: nat): Option<Phase>
    requires k <= |p|
  {
    if k == 0 then Some(Home)
    else if Walk(p, k - 1).None? then None
    else Move(Walk(p, k - 1).value, p[k - 1].action)
  }

  /** Every command may follow those before it, and only a program that stops may end away from home. */
  predicate Walks(p: Program)
    requires p != []
  {
    Walk(p, |p|).Some? && (Walk(p, |p|) == Some(Home) || p[|p| - 1].delay.Inf?)
  }

  ghost predicate Accepted(s: string) {
    var ts := Split(s, '-');
    WellFormed(ts) && Walks(Commands(ts))
  }

  // ----- meaning -----

  /** The place of step i in a program of n commands that repeats. */
  function Place(i: nat, n: nat): (k: nat)
    requires n > 0
    ensures k < n && k <= i && (i < n ==> k == i)
  {
    i % n
  }

  lemma NextPlace(i: nat, n: nat)
    requires n > 0
    ensures Place(i + 1, n) == if Place(i, n) + 1 == n then 0 else Place(i, n) + 1
  {
    var q, r := i / n, i % n;
    assert i == q * n + r;
    if r + 1 == n {
      Distribute(q, 1, n);
      DivUnique(i + 1, n, q + 1, 0);
    } else {
      DivUnique(i + 1, n, q, r + 1);
    }
  }

  /** The first n commands a subscriber carries out: the program over and over, up to the first inf. */
  ghost function Run(p: Program, n: nat): (r: seq<Command>)
    requires p != []
    ensures |r| <= n && (!Stopped(r) ==> |r| == n)
  {
    if n == 0 then []
    else
      var r := Run(p, n - 1);
      if Stopped(r) then r else r + [p[Place(|r|, |p|)]]
  }

  predicate Stopped(r: seq<Command>) {
    r != [] && r[|r| - 1].delay.Inf?
  }
}
