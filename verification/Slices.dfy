/** Facts about parts of sequences that the solver needs one at a time. */
module Slices {
  lemma Inner<T>(s: seq<T>, a: nat, b: nat, c: nat, d: nat)
    requires a <= b <= |s| && c <= d <= b - a
    ensures s[a..b][c..d] == s[a + c..a + d]
  {
    var u, v := s[a..b][c..d], s[a + c..a + d];
    forall i | 0 <= i < d - c ensures u[i] == v[i] { assert u[i] == s[a..b][c + i]; }
  }

  lemma Same<T>(s: seq<T>, t: seq<T>, a: nat, b: nat)
    requires a <= b <= |s| && b <= |t| && forall k :: a <= k < b ==> s[k] == t[k]
    ensures s[a..b] == t[a..b]
  {
  }

  lemma Join<T>(s: seq<T>, a: nat, b: nat, c: nat)
    requires a <= b <= c <= |s|
    ensures s[a..b] + s[b..c] == s[a..c]
  {
  }

  lemma Assoc<T>(a: seq<T>, b: seq<T>, c: seq<T>)
    ensures a + b + c == a + (b + c)
  {
  }
}
