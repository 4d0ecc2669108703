/** validate_control_plane_actions of ran_controller/UserInput.py, and what acceptance means for every run. */
module ActionValidator {
  import opened ActionLanguage
  import opened Bytes

  // ----- the validator -----

  /** The validator's counter after the first i tokens. */
  ghost function TokenSum(ts: seq<string>, i: nat): int
    requires i <= |ts|
  {
    if i == 0 then 0 else TokenSum(ts, i - 1) + TokenDelta(ts[i - 1], i - 1)
  }

  ghost function TokenDelta(t: string, k: nat): int {
    if k % 2 == 0 && ParseAction(t).Some? then Delta(ParseAction(t).value) else 0
  }

  lemma {:induction false} SumOfTokens(ts: seq<string>, k: nat)
    requires WellFormed(ts) && k <= |ts| / 2
    ensures Sum(Commands(ts), k) == TokenSum(ts, 2 * k)
  {
    InitOnlyFirst("init");
    hide ParseAction, IsDelay, ParseDelay, Delta;
    if k > 0 {
      SumOfTokens(ts, k - 1);
      assert Commands(ts)[k - 1] == CommandAt(ts, k - 1);
      assert TokenFits(ts, 2 * k - 2);
      TwoTokens(ts, k - 1);
    }
  }

  lemma {:induction false} TwoTokens(ts: seq<string>, k: nat)
    requires 2 * k + 2 <= |ts|
    ensures TokenSum(ts, 2 * k + 2) == TokenSum(ts, 2 * k) + TokenDelta(ts[2 * k], 2 * k)
    ensures TokenSum(ts, 2 * k + 2) == TokenSum(ts, 2 * k + 1)
  {
    hide ParseAction, Delta;
    assert TokenSum(ts, 2 * k + 1) == TokenSum(ts, 2 * k) + TokenDelta(ts[2 * k], 2 * k);
    assert TokenSum(ts, 2 * k + 2) == TokenSum(ts, 2 * k + 1) + TokenDelta(ts[2 * k + 1], 2 * k + 1);
  }

  lemma {:induction false} SplitWhole(s: string, sep: char)
    requires sep !in s
    ensures Split(s, sep) == [s]
  {
    if s != "" {
      SplitWhole(s[1..], sep);
      assert [s[0]] + s[1..] == s;
    }
  }

  lemma DelayIsNoAction(t: string)
    requires IsDelay(t)
    ensures ParseAction(t).None?
  {
    assert !IsDigit('_') && '_' !in "inf";
    SplitWhole(t, '_');
    if IsDigits(t) {
      assert t[0] in t;
      PlainNames(t);
    }
  }

  lemma PlainNames(t: string)
    requires t != "" && IsDigit(t[0])
    ensures PlainAction(t).None?
  {
  }

  /** Taking one more action keeps the counter legal unless it becomes a nonzero even number. */
  lemma EvenTest(counter: int, a: Action)
    requires Legal(counter)
    ensures var c := counter + Delta(a); !Legal(c) <==> c != 0 && c % 2 == 0
  {
  }

  /** The counter that stands for a phase. */
  function Counter(o: Phase): int {
    match o
    case Home => 0
    case Detached => 1
    case Attached => -1
    case Idle => 3
    case Connected => -3
  }

  /** The counter stays legal exactly as long as the automaton goes on, and it tells the phase. */
  lemma {:induction false} WalkIsSum(p: Program, k: nat)
    requires k <= |p|
    ensures Walk(p, k).Some? <==> LegalUpTo(p, k)
    ensures Walk(p, k).Some? ==> Sum(p, k) == Counter(Walk(p, k).value)
  {
    hide Move, Legal, Delta, Counter;
    if k == 0 {
      MoveIsDelta(Home, Init);
    } else {
      WalkIsSum(p, k - 1);
      if Walk(p, k - 1).Some? {
        var o, a := Walk(p, k - 1).value, p[k - 1].action;
        assert Walk(p, k) == Move(o, a);
        assert Sum(p, k) == Counter(o) + Delta(a);
        MoveIsDelta(o, a);
      }
    }
  }

  lemma MoveIsDelta(o: Phase, a: Action)
    ensures Legal(Counter(o)) && (Move(o, a).Some? <==> Legal(Counter(o) + Delta(a)))
    ensures Move(o, a).Some? ==> Counter(Move(o, a).value) == Counter(o) + Delta(a)
    ensures Counter(o) == 0 <==> o == Home
  {
  }

  lemma {:induction false} BalancedIsWalk(p: Program)
    requires p != []
    ensures Balanced(p) <==> Walks(p)
  {
    WalkIsSum(p, |p|);
    if Walk(p, |p|).Some? {
      MoveIsDelta(Walk(p, |p|).value, Init);
    }
  }

  lemma RejectCounter(ts: seq<string>, i: nat)
    requires i < |ts| && i % 2 == 0 && !Legal(TokenSum(ts, i + 1))
    ensures !(WellFormed(ts) && Walks(Commands(ts)))
  {
    hide ParseAction, IsDelay, ParseDelay, Delta, TokenSum, Walks;
    if WellFormed(ts) {
      BalancedIsWalk(Commands(ts));
      SumOfTokens(ts, i / 2 + 1);
      TwoTokens(ts, i / 2);
    }
  }

  /** The special names are what the three prefix tests let through. */
  lemma {:induction false} SpecialPrefix(a: string)
    requires var ho := Split(a, '_'); |ho| == 2 && SpecialAction(ho[0], 0).Some?
    ensures "x2handover" <= a || "attach" <= a || "s1handover" <= a
  {
    SplitJoin(a, '_');
    var ho := Split(a, '_');
    assert a == ho[0] + ['_'] + Join(ho[1..], '_');
    assert ho[0] <= a;
  }

  /** validate_control_plane_actions: accepts exactly the well-formed programs that the automaton walks through. */
  method Validate(actions: string) returns (ok: bool)
    ensures ok <==> Accepted(actions)
  {
    hide Split, SpecialAction, PlainAction, Delta, IsDigits;
    var ts := Split(actions, '-');
    var counter, numFlag := 0, false;
    if ts[0] != "init" {
      assert !TokenFits(ts, 0);
      return false;
    }
    assert TokenSum(ts, 1) == 0 by { InitIsZero(ts); }
    for i := 1 to |ts|
      invariant forall k :: 0 <= k < i ==> TokenFits(ts, k)
      invariant numFlag == (i % 2 == 0) && counter == TokenSum(ts, i)
      invariant forall k :: 0 <= k <= i ==> Legal(TokenSum(ts, k))
    {
      var a := ts[i];
      if IsDigits(a) || a == "inf" {
        DelayIsNoAction(a);
        if !numFlag {
          numFlag := true;
        } else {
          assert !TokenFits(ts, i);
          return false;
        }
      } else {
        var delta;
        if a == "init" {
          assert !TokenFits(ts, i);
          return false;
        }
        var plain := PlainAction(a);
        if plain.Some? {
          delta := Delta(plain.value);
          EvenTest(counter, plain.value);
        } else {
          if !("x2handover" <= a) && !("attach" <= a) && !("s1handover" <= a) {
            NotSpecial(a);
            assert !TokenFits(ts, i);
            return false;
          }
          var ho := Split(a, '_');
          if |ho| != 2 || (ho[0] != "x2handover" && ho[0] != "attach" && ho[0] != "s1handover") || !IsDigits(ho[1]) {
            NotSpecial(a);
            assert !TokenFits(ts, i);
            return false;
          }
          SpecialName(a);
          delta := Delta(SpecialAction(ho[0], 0).value);
          EvenTest(counter, SpecialAction(ho[0], 0).value);
        }
        counter := counter + delta;
        if !numFlag {
          assert !TokenFits(ts, i);
        } else {
          assert TokenSum(ts, i + 1) == counter;
        }
        if counter != 0 && counter % 2 == 0 {
          if numFlag { RejectCounter(ts, i); }
          return false;
        }
        if !numFlag {
          return false;
        }
        numFlag := false;
      }
    }
    LastToken(ts);
    if (counter != 0 && ts[|ts| - 1] != "inf") || !numFlag {
      return false;
    }
    return true;
  }

  lemma {:induction false} InitIsZero(ts: seq<string>)
    requires |ts| > 0 && ts[0] == "init"
    ensures TokenSum(ts, 0) == TokenSum(ts, 1) == 0
  {
    assert TokenSum(ts, 1) == TokenSum(ts, 0) + TokenDelta(ts[0], 0);
  }

  lemma {:induction false} NotSpecial(a: string)
    requires PlainAction(a).None?
    requires (!("x2handover" <= a) && !("attach" <= a) && !("s1handover" <= a)) || |Split(a, '_')| != 2
             || Split(a, '_')[0] !in ["x2handover", "attach", "s1handover"] || !IsDigits(Split(a, '_')[1])
    ensures ParseAction(a).None?
  {
    var ho := Split(a, '_');
    if |ho| == 2 && SpecialAction(ho[0], 0).Some? { SpecialPrefix(a); }
  }

  lemma {:induction false} SpecialName(a: string)
    requires PlainAction(a).None?
    requires var ho := Split(a, '_');
             |ho| == 2 && (ho[0] == "x2handover" || ho[0] == "attach" || ho[0] == "s1handover") && IsDigits(ho[1])
    ensures ParseAction(a).Some? && SpecialAction(Split(a, '_')[0], 0).Some?
    ensures Delta(ParseAction(a).value) == Delta(SpecialAction(Split(a, '_')[0], 0).value)
  {
  }

  lemma InfOnly(t: string)
    requires IsDelay(t)
    ensures ParseDelay(t).Inf? <==> t == "inf"
  {
  }

  /** After the last token only the end conditions are left. */
  lemma {:induction false} LastToken(ts: seq<string>)
    requires |ts| > 0 && forall k :: 0 <= k < |ts| ==> TokenFits(ts, k)
    requires forall k :: 0 <= k <= |ts| ==> Legal(TokenSum(ts, k))
    ensures (WellFormed(ts) && Walks(Commands(ts)))
            <==> |ts| % 2 == 0 && (TokenSum(ts, |ts|) == 0 || ts[|ts| - 1] == "inf")
  {
    hide TokenFits, Commands, TokenSum, Sum, Legal, Walks;
    if |ts| % 2 == 0 {
      var p, m := Commands(ts), |ts| / 2;
      BalancedIsWalk(p);
      assert 2 * m == |ts|;
      forall k | 0 <= k <= m ensures Legal(Sum(p, k)) { SumOfTokens(ts, k); }
      SumOfTokens(ts, m);
      LastDelay(ts);
    }
  }

  lemma LastDelay(ts: seq<string>)
    requires WellFormed(ts)
    ensures Commands(ts)[|ts| / 2 - 1].delay.Inf? <==> ts[|ts| - 1] == "inf"
  {
    hide ParseAction, IsDelay, ParseDelay;
    var k := |ts| / 2 - 1;
    assert Commands(ts)[k] == CommandAt(ts, k) && TokenFits(ts, 2 * k + 1);
    InfOnly(ts[2 * k + 1]);
  }

  // ----- what acceptance means for a run -----

  predicate Detaches(a: Action) { a == Detach || a == DetachSwitchOff }
  predicate Attaches(a: Action) { a == Attach || a.AttachToEnb? }

  /** All actions but init and the handovers. */
  predicate ChangesState(a: Action) {
    Detaches(a) || Attaches(a) || a == MoveToIdle || a == MoveToConnected
  }

  predicate Undoes(a: Action, b: Action) {
    || (Detaches(a) && Attaches(b)) || (Attaches(a) && Detaches(b))
    || (a == MoveToIdle && b == MoveToConnected) || (a == MoveToConnected && b == MoveToIdle)
  }

  /** The actions among the first m commands of r that attach, detach, go idle or come back. */
  function Changes(r: seq<Command>, m: nat): seq<Action>
    requires m <= |r|
  {
    if m == 0 then [] else Changes(r, m - 1) + if ChangesState(r[m - 1].action) then [r[m - 1].action] else []
  }

  /** Changes come in pairs that cancel; an odd last one may still be open. */
  predicate InversePairs(cs: seq<Action>) {
    forall k :: 0 <= k < |cs| / 2 ==> Undoes(cs[2 * k + 1], cs[2 * k])
  }

  /** Legal sums are exactly what makes every change the inverse of the open one. */
  lemma {:induction false} LegalSumsPair(r: seq<Command>, m: nat)
    requires m <= |r| && forall k :: 0 <= k <= m ==> Legal(Sum(r, k))
    ensures InversePairs(Changes(r, m))
    ensures |Changes(r, m)| % 2 == 0 <==> Sum(r, m) == 0
    ensures Sum(r, m) != 0 ==> Delta(Changes(r, m)[|Changes(r, m)| - 1]) == Sum(r, m)
  {
    if m > 0 {
      LegalSumsPair(r, m - 1);
      assert Legal(Sum(r, m)) && Legal(Sum(r, m - 1));
      OneChange(Changes(r, m - 1), Sum(r, m - 1), r[m - 1].action);
    }
  }

  lemma OneChange(was: seq<Action>, sum: int, a: Action)
    requires InversePairs(was) && (|was| % 2 == 0 <==> sum == 0) && (sum != 0 ==> Delta(was[|was| - 1]) == sum)
    requires Legal(sum) && Legal(sum + Delta(a))
    ensures var cs := was + if ChangesState(a) then [a] else [];
            && InversePairs(cs) && (|cs| % 2 == 0 <==> sum + Delta(a) == 0)
            && (sum + Delta(a) != 0 ==> Delta(cs[|cs| - 1]) == sum + Delta(a))
  {
    if ChangesState(a) && |was| % 2 == 1 {
      assert Undoes(a, was[|was| - 1]);
      var cs := was + [a];
      forall k | 0 <= k < |cs| / 2 ensures Undoes(cs[2 * k + 1], cs[2 * k]) {
        if 2 * k + 1 < |was| { assert Undoes(was[2 * k + 1], was[2 * k]); }
      }
    }
  }

  lemma {:induction false} SumPrefix(r: seq<Command>, x: seq<Command>, k: nat)
    requires k <= |r|
    ensures Sum(r + x, k) == Sum(r, k)
  {
    if k > 0 { SumPrefix(r, x, k - 1); }
  }

  /** Command k of a run is the program's command at that place, met with the counter it has there. */
  ghost predicate Follows(p: Program, r: seq<Command>, k: nat)
    requires p != [] && k < |r|
  {
    Sum(r, k) == Sum(p, Place(k, |p|)) && r[k] == p[Place(k, |p|)]
  }

  /** In a run the counter stays legal, and where the program starts over it is back at zero. */
  lemma {:induction false} RunSums(p: Program, n: nat)
    requires p != [] && Balanced(p)
    ensures var r := Run(p, n);
            && (forall k :: 0 <= k <= |r| ==> Legal(Sum(r, k)))
            && (forall k :: 0 <= k < |r| ==> Follows(p, r, k))
            && (!Stopped(r) ==> Sum(r, |r|) == Sum(p, Place(|r|, |p|)))
  {
    hide Place, Legal, Delta, Follows;
    if n > 0 {
      RunSums(p, n - 1);
      var r := Run(p, n - 1);
      if !Stopped(r) { OneMore(p, r); }
    } else {
      assert Sum(p, 0) == 0;
    }
  }

  lemma {:induction false} OneMore(p: Program, r: seq<Command>)
    requires p != [] && Balanced(p)
    requires Sum(r, |r|) == Sum(p, Place(|r|, |p|))
    requires forall k :: 0 <= k < |r| ==> Follows(p, r, k)
    ensures var r' := r + [p[Place(|r|, |p|)]];
            && (forall k :: 0 <= k <= |r| ==> Sum(r', k) == Sum(r, k))
            && (forall k :: 0 <= k <= |r| ==> Follows(p, r', k))
            && Legal(Sum(r', |r'|)) && (!Stopped(r') ==> Sum(r', |r'|) == Sum(p, Place(|r'|, |p|)))
  {
    hide Place, Legal, Delta;
    var m, c := Place(|r|, |p|), p[Place(|r|, |p|)];
    forall k | 0 <= k <= |r| ensures Sum(r + [c], k) == Sum(r, k) { SumPrefix(r, [c], k); }
    forall k | 0 <= k < |r| ensures Follows(p, r + [c], k) { assert Follows(p, r, k); }
    assert Sum(r + [c], |r| + 1) == Sum(r, |r|) + Delta(c.action) == Sum(p, m + 1);
    NextPlace(|r|, |p|);
  }

  /** Every run of an accepted program, however often it starts over, changes the subscriber's state in inverse
      pairs: detaching and attaching, or going idle and coming back. The commands inside a pair are handovers, never
      the init that starts a new round. */
  lemma {:induction false} AcceptedRunsPair(s: string, n: nat)
    requires Accepted(s)
    ensures var r := Run(Commands(Split(s, '-')), n);
            && InversePairs(Changes(r, |r|))
            && forall k :: 0 <= k < |r| && |Changes(r, k)| % 2 == 1 && !ChangesState(r[k].action) ==>
                 r[k].action.X2Handover? || r[k].action.S1Handover?
  {
    hide Place, Split, Changes, Run, CommandAt, Legal, InversePairs, Walks;
    var ts := Split(s, '-');
    var p := Commands(ts);
    var r := Run(p, n);
    BalancedIsWalk(p);
    RunSums(p, n);
    LegalSumsPair(r, |r|);
    forall k | 0 <= k < |r| && |Changes(r, k)| % 2 == 1 && !ChangesState(r[k].action)
      ensures r[k].action.X2Handover? || r[k].action.S1Handover? {
      LegalSumsPair(r, k);
      assert Follows(p, r, k);
      InsidePair(ts, Place(k, |p|));
    }
  }

  lemma {:induction false} InsidePair(ts: seq<string>, m: nat)
    requires WellFormed(ts) && m < |ts| / 2 && Sum(Commands(ts), m) != 0
    ensures Commands(ts)[m].action != Init
  {
    hide ParseAction, IsDelay, ParseDelay;
    assert Commands(ts)[m] == CommandAt(ts, m) && TokenFits(ts, 2 * m);
    InitOnlyFirst(ts[2 * m]);
  }

  lemma InitOnlyFirst(t: string)
    ensures ParseAction(t) == Some(Init) <==> t == "init"
  {
  }
}
