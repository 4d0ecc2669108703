/** Programs of the action language as text: every program can be written down and is read, validated and compiled as
    what it is. */
module ActionText {
  import opened ActionCompiler
  import opened ActionLanguage
  import opened ActionValidator
  import opened Bytes
  import opened Decimals

  // ----- numbers -----

  function Numeral(n: nat): (s: string)
    ensures s != "" && IsDigits(s)
  {
    var t := Decimal(n);
    var s: string := seq(|t|, k requires 0 <= k < |t| => t[k] as char);
    assert forall k :: 0 <= k < |s| ==> IsDigit(s[k]);
    s
  }

  function OctetsOf(s: string): (t: seq<Octet>)
    requires forall c :: c in s ==> IsDigit(c)
    ensures |t| == |s| && AllDigits(t)
  {
    assert forall k :: 0 <= k < |s| ==> IsDigit(s[k]);
    seq(|s|, k requires 0 <= k < |s| && IsDigit(s[k]) => s[k] as int)
  }

  /** int(s) is the decimal number that the digits write. */
  lemma {:induction false} ToNatIsDecimal(s: string)
    requires forall c :: c in s ==> IsDigit(c)
    ensures ToNat(s) == DecimalValue(OctetsOf(s))
  {
    if s != "" {
      var n := |s| - 1;
      assert forall c :: c in s[..n] ==> c in s;
      ToNatIsDecimal(s[..n]);
      assert OctetsOf(s)[..n] == OctetsOf(s[..n]);
      assert IsDigit(s[n]);
    }
  }

  /** Every number is read back from its numeral, and numerals are the only digits without leading zeros. */
  lemma {:induction false} NumeralRoundTrip(n: nat)
    ensures ToNat(Numeral(n)) == n
  {
    DecimalRoundTrip(n);
    ToNatIsDecimal(Numeral(n));
    assert OctetsOf(Numeral(n)) == Decimal(n);
  }

  lemma {:induction false} NumeralAgain(s: string)
    requires IsDigits(s) && (s[0] == '0' ==> |s| == 1)
    ensures Numeral(ToNat(s)) == s
  {
    var t := OctetsOf(s);
    ToNatIsDecimal(s);
    PrintedAgain(t);
    forall k | 0 <= k < |s| ensures Numeral(ToNat(s))[k] == s[k] { assert t[k] == s[k] as int; }
  }

  // ----- tokens -----

  function ActionText(a: Action): string {
    match a
    case Init => "init"
    case Detach => "detach"
    case DetachSwitchOff => "detach_switch_off"
    case Attach => "attach"
    case MoveToIdle => "move_to_idle"
    case MoveToConnected => "move_to_connected"
    case X2Handover(enb) => "x2handover_" + Numeral(enb)
    case AttachToEnb(enb) => "attach_" + Numeral(enb)
    case S1Handover(enb) => "s1handover_" + Numeral(enb)
  }

  function DelayText(d: Delay): string {
    match d
    case Seconds(n) => Numeral(n)
    case Inf => "inf"
  }

  lemma {:induction false} SplitAfter(x: string, y: string, sep: char)
    requires sep !in x
    ensures Split(x + [sep] + y, sep) == [x] + Split(y, sep)
  {
    var s := x + [sep] + y;
    if x == "" {
      assert s[1..] == y;
    } else {
      assert s[1..] == x[1..] + [sep] + y;
      SplitAfter(x[1..], y, sep);
      assert [s[0]] + x[1..] == x;
    }
  }

  lemma {:induction false} DigitsSplit(s: string, sep: char)
    requires IsDigits(s) && !IsDigit(sep)
    ensures Split(s, sep) == [s]
  {
    SplitWhole(s, sep);
  }

  /** A name in front of a numeral is one of the special table's tokens. */
  lemma {:induction false} SpecialText(name: string, enb: nat)
    requires '_' !in name && '-' !in name && name != ""
    ensures var t := name + "_" + Numeral(enb);
            && ParseAction(t) == SpecialAction(name, enb) && '-' !in t
            && Split(t, '_') == [name, Numeral(enb)] && !IsDelay(t)
  {
    var t, digits := name + "_" + Numeral(enb), Numeral(enb);
    assert t == name + ['_'] + digits;
    SplitAfter(name, digits, '_');
    DigitsSplit(digits, '_');
    NumeralRoundTrip(enb);
    assert IsDigit(digits[|digits| - 1]) && t[|t| - 1] == digits[|digits| - 1];
    NoDigitEnds(t);
    assert '_' in t && !IsDigit('_');
    assert '_' !in "inf";
    hide Numeral, PlainAction;
  }

  lemma NoDigitEnds(t: string)
    requires t != "" && IsDigit(t[|t| - 1])
    ensures PlainAction(t).None?
  {
  }

  /** What is written for an action is read as that action. */
  lemma {:induction false} ActionRoundTrip(a: Action)
    ensures ParseAction(ActionText(a)) == Some(a) && '-' !in ActionText(a)
  {
    hide ParseAction, Split, Numeral, IsDelay;
    match a
    case X2Handover(enb) => assert "x2handover" + "_" == "x2handover_"; SpecialText("x2handover", enb);
    case AttachToEnb(enb) => assert "attach" + "_" == "attach_"; SpecialText("attach", enb);
    case S1Handover(enb) => assert "s1handover" + "_" == "s1handover_"; SpecialText("s1handover", enb);
    case _ => PlainRoundTrip(a);
  }

  lemma {:induction false} PlainRoundTrip(a: Action)
    requires !NamesEnb(a)
    ensures ParseAction(ActionText(a)) == Some(a) && '-' !in ActionText(a)
  {
    hide Split, IsDigits, SpecialAction;
  }

  lemma DelayRoundTrip(d: Delay)
    ensures IsDelay(DelayText(d)) && ParseDelay(DelayText(d)) == d && '-' !in DelayText(d)
  {
    if d.Seconds? {
      NumeralRoundTrip(d.n);
      assert IsDigit(Numeral(d.n)[0]) && !IsDigit('i');
    }
  }

  // ----- programs -----

  function Tokens(p: Program): (ts: seq<string>)
    ensures |ts| == 2 * |p|
  {
    if p == [] then []
    else Tokens(p[..|p| - 1]) + [ActionText(p[|p| - 1].action), DelayText(p[|p| - 1].delay)]
  }

  lemma {:induction false} TokenOf(p: Program, k: nat)
    requires k < |p|
    ensures Tokens(p)[2 * k] == ActionText(p[k].action) && Tokens(p)[2 * k + 1] == DelayText(p[k].delay)
  {
    hide ActionText, DelayText;
    if k < |p| - 1 { TokenOf(p[..|p| - 1], k); }
  }

  lemma {:induction false} SplitOfJoin(ts: seq<string>, sep: char)
    requires |ts| >= 1 && forall t :: t in ts ==> sep !in t
    ensures Split(Join(ts, sep), sep) == ts
  {
    if |ts| == 1 {
      SplitWhole(ts[0], sep);
    } else {
      assert forall t :: t in ts[1..] ==> t in ts;
      SplitOfJoin(ts[1..], sep);
      SplitAfter(ts[0], Join(ts[1..], sep), sep);
    }
  }

  /** The program as a string. */
  function Source(p: Program): string
    requires p != []
  {
    Join(Tokens(p), '-')
  }

  lemma {:induction false} SourceSplits(p: Program)
    requires p != []
    ensures Split(Source(p), '-') == Tokens(p)
  {
    hide ActionText, DelayText, Split, Join;
    var ts := Tokens(p);
    forall t | t in ts ensures '-' !in t {
      var i :| 0 <= i < |ts| && ts[i] == t;
      TokenOf(p, i / 2);
      ActionRoundTrip(p[i / 2].action);
      DelayRoundTrip(p[i / 2].delay);
    }
    SplitOfJoin(ts, '-');
  }

  /** The first command, and only it, is an init. */
  predicate Starts(p: Program) {
    forall k :: 0 <= k < |p| ==> (p[k].action == Init <==> k == 0)
  }

  /** The string of a program is read as that program, if only its first action is an init. */
  lemma {:induction false} SourceRoundTrip(p: Program)
    requires p != []
    ensures WellFormed(Split(Source(p), '-')) <==> Starts(p)
    ensures Starts(p) ==> Commands(Split(Source(p), '-')) == p
  {
    hide ActionText, DelayText, Split, ParseAction, ParseDelay, IsDelay, Source;
    SourceSplits(p);
    var ts := Tokens(p);
    forall k | 0 <= k < |p|
      ensures TokenFits(ts, 2 * k) <==> (p[k].action == Init <==> k == 0)
      ensures TokenFits(ts, 2 * k + 1)
      ensures ParseAction(ts[2 * k]) == Some(p[k].action) && IsDelay(ts[2 * k + 1])
      ensures ParseDelay(ts[2 * k + 1]) == p[k].delay {
      TokenOf(p, k);
      ActionRoundTrip(p[k].action);
      DelayRoundTrip(p[k].delay);
      InitOnlyFirst(ts[2 * k]);
    }
    if Starts(p) {
      forall i | 0 <= i < |ts| ensures TokenFits(ts, i) {
        if i % 2 == 0 { assert TokenFits(ts, 2 * (i / 2)); } else { assert TokenFits(ts, 2 * (i / 2) + 1); }
      }
      forall k | 0 <= k < |p| ensures Commands(ts)[k] == p[k] { assert Commands(ts)[k] == CommandAt(ts, k); }
    } else {
      var k :| 0 <= k < |p| && !(p[k].action == Init <==> k == 0);
      assert !TokenFits(ts, 2 * k);
    }
  }

  /** The validator accepts the string of a program exactly when only its first action is an init and the automaton
      walks through it. */
  lemma {:induction false} SourceAccepted(p: Program)
    requires p != []
    ensures Accepted(Source(p)) <==> Starts(p) && Walks(p)
  {
    hide Source, Split, Walks, WellFormed, Commands, Starts;
    SourceRoundTrip(p);
  }

  /** From text to behaviour: for every accepted program, the interpreter on the serialized string does what the program
      says, for any number of turns, if and only if every number that it reaches fits 24 bits. */
  lemma {:induction false} SourceRuns(p: Program)
    requires p != [] && Accepted(Source(p))
    ensures var code := Compile(Commands(Split(Source(p), '-')));
            && Loaded(code)
            && (InRange(p) <==> forall n: nat :: Execute(code, n).events == Events(Run(p, n)))
  {
    hide Source, Split, Walks, WellFormed, Commands, Starts, Compile, Execute, Run, InRange, Loaded;
    SourceAccepted(p);
    SourceRoundTrip(p);
    CompilerCorrect(p);
  }

  /** The three bytes of a written number hold it modulo 2^24, in a delay and behind the name of an action. */
  lemma {:induction false} NumberBytes(n: nat, a: Action)
    requires NamesEnb(a) && a.enb == n
    ensures IsDelay(Numeral(n)) && Unpack24(EncodeDelay(ParseDelay(Numeral(n)))) == n % 0x100_0000
    ensures ParseAction(ActionText(a)) == Some(a) && Unpack24(EncodeAction(a)[1..4]) == n % 0x100_0000
  {
    ActionRoundTrip(a);
    DelayRoundTrip(Seconds(n));
    Pack24RoundTrip(n);
    hide ParseAction, ActionText, Numeral;
    assert EncodeAction(a)[1..4] == Pack24(n);
  }

  function BytesOf(t: string): Option<seq<Octet>> {
    if ParseAction(t).Some? then Some(EncodeAction(ParseAction(t).value)) else None
  }

  /** The byte of each name. */
  lemma {:induction false} NameBytes()
    ensures BytesOf("init") == Some([0]) && BytesOf("detach") == Some([1]) && BytesOf("detach_switch_off") == Some([2])
    ensures BytesOf("attach") == Some([3]) && BytesOf("move_to_idle") == Some([4])
    ensures BytesOf("move_to_connected") == Some([5])
  {
    hide ParseAction;
    PlainRoundTrip(Init);
    PlainRoundTrip(Detach);
    PlainRoundTrip(DetachSwitchOff);
    PlainRoundTrip(Attach);
    PlainRoundTrip(MoveToIdle);
    PlainRoundTrip(MoveToConnected);
  }

  lemma {:induction false} NumberedNameBytes(enb: nat)
    ensures BytesOf("x2handover_" + Numeral(enb)) == Some([6] + Pack24(enb) + [0])
    ensures BytesOf("attach_" + Numeral(enb)) == Some([7] + Pack24(enb) + [0])
    ensures BytesOf("s1handover_" + Numeral(enb)) == Some([8] + Pack24(enb) + [0])
  {
    hide ParseAction, Numeral, Pack24;
    ActionRoundTrip(X2Handover(enb));
    ActionRoundTrip(AttachToEnb(enb));
    ActionRoundTrip(S1Handover(enb));
  }
}
