/** Sums over the elements of a sequence. */
module Counting {
  function Sum<T>(s: seq<T>, w: T -> int): int {
    if s == [] then 0 else Sum(s[..|s| - 1], w) + w(s[|s| - 1])
  }

  lemma {:induction false} Update<T>(s: seq<T>, i: nat, x: T, w: T -> int)
    requires i < |s|
    ensures Sum(s[i := x], w) == Sum(s, w) - w(s[i]) + w(x)
  {
    var n := |s| - 1;
    if i == n {
      assert s[i := x][..n] == s[..n];
    } else {
      assert s[i := x][..n] == s[..n][i := x];
      Update(s[..n], i, x, w);
    }
  }

  lemma {:induction false} Append<T>(s: seq<T>, x: T, w: T -> int)
    ensures Sum(s + [x], w) == Sum(s, w) + w(x)
  {
    assert (s + [x])[..|s|] == s;
  }

  /** Element by element at most: the sums compare. */
  lemma {:induction false} Compare<T>(s: seq<T>, u: T -> int, v: T -> int, w: T -> int)
    requires forall i :: 0 <= i < |s| ==> u(s[i]) + v(s[i]) <= w(s[i])
    ensures Sum(s, u) + Sum(s, v) <= Sum(s, w)
  {
    if s != [] {
      var t := s[..|s| - 1];
      assert forall i :: 0 <= i < |t| ==> t[i] == s[i];
      Compare(t, u, v, w);
    }
  }

  lemma {:induction false} Covered<T>(s: seq<T>, u: T -> int, v: T -> int, w: T -> int)
    requires forall i :: 0 <= i < |s| ==> w(s[i]) <= u(s[i]) + v(s[i])
    ensures Sum(s, w) <= Sum(s, u) + Sum(s, v)
  {
    if s != [] {
      var t := s[..|s| - 1];
      assert forall i :: 0 <= i < |t| ==> t[i] == s[i];
      Covered(t, u, v, w);
    }
  }

  /** The same as Compare, when one element is strictly less. */
  lemma {:induction false} CompareStrictly<T>(s: seq<T>, u: T -> int, v: T -> int, w: T -> int, k: nat)
    requires forall i :: 0 <= i < |s| ==> u(s[i]) + v(s[i]) <= w(s[i])
    requires k < |s| && u(s[k]) + v(s[k]) < w(s[k])
    ensures Sum(s, u) + Sum(s, v) < Sum(s, w)
  {
    var t := s[..|s| - 1];
    assert forall i :: 0 <= i < |t| ==> t[i] == s[i];
    if k < |t| { CompareStrictly(t, u, v, w, k); } else { Compare(t, u, v, w); }
  }

  lemma {:induction false} Nothing<T>(s: seq<T>, w: T -> int)
    requires forall i :: 0 <= i < |s| ==> w(s[i]) == 0
    ensures Sum(s, w) == 0
  {
    if s != [] {
      var t := s[..|s| - 1];
      assert forall i :: 0 <= i < |t| ==> t[i] == s[i];
      Nothing(t, w);
    }
  }

  /** A sum of zeros and ones is the length exactly when all are ones. */
  lemma {:induction false} Full<T>(s: seq<T>, w: T -> int)
    requires forall i :: 0 <= i < |s| ==> 0 <= w(s[i]) <= 1
    ensures 0 <= Sum(s, w) <= |s|
    ensures Sum(s, w) == |s| <==> forall i :: 0 <= i < |s| ==> w(s[i]) == 1
  {
    if s != [] {
      var t := s[..|s| - 1];
      assert forall i :: 0 <= i < |t| ==> t[i] == s[i];
      Full(t, w);
    }
  }
}
