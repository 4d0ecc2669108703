/** How the UEs of the control-plane only mode are spread over containers (ran_controller.py). */
module ThreadGrants {
  import opened Arithmetic

  /** num_ues after all threads have been granted. */
  const NONE_LEFT: int := -1

  /** One grant: the number of threads, and num_ues afterwards. */
  function GrantSize(numUes: int, threads: int): int {
    if numUes <= threads then numUes else threads
  }

  function AfterGrant(numUes: int, threads: int): int {
    if numUes <= threads then NONE_LEFT else numUes - threads
  }

  /** The grants that are still to come. */
  function GrantsFrom(numUes: int, threads: int): seq<int>
    requires threads > 0 && numUes >= NONE_LEFT
    decreases numUes
  {
    if numUes == NONE_LEFT then [] else [GrantSize(numUes, threads)] + GrantsFrom(AfterGrant(numUes, threads), threads)
  }

  function Total(grants: seq<int>): int {
    if grants == [] then 0 else Total(grants[..|grants| - 1]) + grants[|grants| - 1]
  }

  /** The UE pods that kubernetes_thread starts in this mode: math.ceil(n / threads). */
  function UePods(n: nat, threads: int): int
    requires threads > 0
  {
    (n + threads - 1) / threads
  }

  lemma {:induction false} TotalFromFront(x: int, grants: seq<int>)
    ensures Total([x] + grants) == x + Total(grants)
  {
    if grants == [] {
      assert [x] + grants == [x] && [x][..0] == [];
      assert Total([x]) == Total([]) + x;
    } else {
      assert ([x] + grants)[..|grants|] == [x] + grants[..|grants| - 1];
      TotalFromFront(x, grants[..|grants| - 1]);
    }
  }

  /** For any positive number of UEs and threads a container, the grants sum to exactly the UEs, each is between 1 and
      the threads a container, and there are exactly as many as pods are started. */
  lemma {:induction false} GrantsConserve(n: int, threads: int)
    requires n > 0 && threads > 0
    ensures var gs := GrantsFrom(n, threads);
            && Total(gs) == n && |gs| == UePods(n, threads)
            && forall i :: 0 <= i < |gs| ==> 1 <= gs[i] <= threads
    decreases n
  {
    var gs := GrantsFrom(n, threads);
    var rest := GrantsFrom(AfterGrant(n, threads), threads);
    TotalFromFront(GrantSize(n, threads), rest);
    if n <= threads {
      assert rest == [];
      DivUnique(n + threads - 1, threads, 1, n - 1);
    } else {
      GrantsConserve(n - threads, threads);
      var m := n - threads + threads - 1;
      DivUnique(n + threads - 1, threads, m / threads + 1, m % threads);
    }
  }

  /** Without UEs there is one grant of no threads, but no pod to take it. */
  lemma {:induction false} NoUes(threads: int)
    requires threads > 0
    ensures GrantsFrom(0, threads) == [0] && UePods(0, threads) == 0
  {
    assert GrantsFrom(AfterGrant(0, threads), threads) == [];
    DivUnique(threads - 1, threads, 0, threads - 1);
  }

  lemma {:induction false} TotalOfParts(a: seq<int>, b: seq<int>)
    ensures Total(a + b) == Total(a) + Total(b)
  {
    if b == [] {
      assert a + b == a;
    } else {
      assert (a + b)[..|a + b| - 1] == a + b[..|b| - 1];
      TotalOfParts(a, b[..|b| - 1]);
    }
  }

  /** What has been granted and what is left add up to all UEs, at any time. */
  lemma {:induction false} GrantedAndLeft(grants: seq<int>, left: int, n: nat, threads: int)
    requires threads > 0 && left >= NONE_LEFT && grants + GrantsFrom(left, threads) == GrantsFrom(n, threads)
    ensures Total(grants) + (if left == NONE_LEFT then 0 else left) == n
    ensures left == NONE_LEFT ==> |grants| >= UePods(n, threads)
  {
    var rest := GrantsFrom(left, threads);
    TotalOfParts(grants, rest);
    AllGrants(n, threads);
    if left == NONE_LEFT { assert rest == []; } else { AllGrants(left, threads); }
  }

  lemma {:induction false} AllGrants(n: nat, threads: int)
    requires threads > 0
    ensures Total(GrantsFrom(n, threads)) == n && |GrantsFrom(n, threads)| >= UePods(n, threads)
  {
    if n > 0 {
      GrantsConserve(n, threads);
    } else {
      NoUes(threads);
      assert [0][..0] == [];
    }
  }
}
