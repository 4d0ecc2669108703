/** The chained hash table of corekube-db/source/hashmap.c. A chain is searched from its head, but an addition
    compares the new hash with the head and with every node except the last. */
module HashTable {
  import opened Bytes

  // ----- one chain, as the sequence of its data -----

  /** hashmap_get on one chain: the first entry with that hash. */
  function Find<T>(hash: T -> U32, chain: seq<T>, h: U32): Option<T> {
    if chain == [] then None
    else if hash(chain[0]) == h then Some(chain[0])
    else Find(hash, chain[1..], h)
  }

  /** hashmap_add meets the hash: at the head, or before the last node. */
  predicate Noticed<T>(hash: T -> U32, chain: seq<T>, h: U32) {
    exists i :: 0 <= i < |chain| && (i == 0 || i < |chain| - 1) && hash(chain[i]) == h
  }

  function AddTo<T>(hash: T -> U32, chain: seq<T>, x: T): seq<T> {
    if Noticed(hash, chain, hash(x)) then chain else chain + [x]
  }

  lemma {:induction false} FindAppend<T>(hash: T -> U32, chain: seq<T>, x: T, h: U32)
    ensures Find(hash, chain + [x], h) ==
            if Find(hash, chain, h).Some? then Find(hash, chain, h) else if hash(x) == h then Some(x) else None
  {
    if chain == [] {
      assert (chain + [x])[1..] == [];
    } else {
      assert (chain + [x])[1..] == chain[1..] + [x];
      FindAppend(hash, chain[1..], x, h);
    }
  }

  lemma {:induction false} FindMeets<T>(hash: T -> U32, chain: seq<T>, h: U32)
    ensures Find(hash, chain, h).Some? <==> exists i :: 0 <= i < |chain| && hash(chain[i]) == h
  {
    if chain != [] {
      FindMeets(hash, chain[1..], h);
      if exists i :: 0 <= i < |chain| && hash(chain[i]) == h && i > 0 {
        var i :| 0 < i < |chain| && hash(chain[i]) == h;
        assert chain[1..][i - 1] == chain[i];
      }
    }
  }

  /** The entry found is the first one with its hash. */
  lemma {:induction false} FindFirst<T>(hash: T -> U32, chain: seq<T>, i: nat)
    requires i < |chain| && forall j :: 0 <= j < i ==> hash(chain[j]) != hash(chain[i])
    ensures Find(hash, chain, hash(chain[i])) == Some(chain[i])
  {
    if i > 0 {
      assert forall j :: 0 <= j < i - 1 ==> chain[1..][j] == chain[j + 1];
      FindFirst(hash, chain[1..], i - 1);
    }
  }

  /** Overwriting the first entry of a hash with data of the same hash is visible to lookups of that hash only. */
  lemma {:induction false} FindUpdate<T>(hash: T -> U32, chain: seq<T>, i: nat, x: T, h: U32)
    requires i < |chain| && hash(x) == hash(chain[i])
    requires forall j :: 0 <= j < i ==> hash(chain[j]) != hash(x)
    ensures Find(hash, chain[i := x], h) == if h == hash(x) then Some(x) else Find(hash, chain, h)
  {
    if i > 0 {
      assert chain[i := x][1..] == chain[1..][i - 1 := x];
      assert forall j :: 0 <= j < i - 1 ==> chain[1..][j] == chain[j + 1];
      FindUpdate(hash, chain[1..], i - 1, x, h);
    }
  }

  /** However often hashes are added: equal hashes are neighbours, and the head's hash is unique. */
  ghost predicate Sparse<T>(hash: T -> U32, chain: seq<T>) {
    forall i, j :: 0 <= i < j < |chain| && hash(chain[i]) == hash(chain[j]) ==> j == i + 1 && i > 0
  }

  lemma SparseAdd<T>(hash: T -> U32, chain: seq<T>, x: T)
    requires Sparse(hash, chain)
    ensures Sparse(hash, AddTo(hash, chain, x))
  {
    var c := AddTo(hash, chain, x);
    forall i, j | 0 <= i < j < |c| && hash(c[i]) == hash(c[j]) ensures j == i + 1 && i > 0 {
      if j < |chain| { assert c[i] == chain[i] && c[j] == chain[j]; }
    }
  }

  /** So no hash occurs three times in a chain, nor the head's hash twice. */
  lemma SparseMeansAtMostTwice<T>(hash: T -> U32, chain: seq<T>, i: nat, j: nat, k: nat)
    requires Sparse(hash, chain) && i < j < k < |chain|
    ensures !(hash(chain[i]) == hash(chain[j]) == hash(chain[k]))
    ensures hash(chain[0]) != hash(chain[j])
  {
  }

  // ----- the whole table -----

  type Table<T> = seq<seq<T>>

  function Bucket(mix: U32 -> nat, size: nat, h: U32): nat
    requires size > 0
    ensures Bucket(mix, size, h) < size
  {
    mix(h) % size
  }

  /** The table after a run of additions, refused ones included. */
  function Build<T>(hash: T -> U32, mix: U32 -> nat, size: nat, history: seq<T>): (t: Table<T>)
    requires size > 0
    ensures |t| == size
  {
    if history == [] then seq(size, _ => [])
    else
      var t := Build(hash, mix, size, history[..|history| - 1]);
      var x := history[|history| - 1];
      var b := Bucket(mix, size, hash(x));
      t[b := AddTo(hash, t[b], x)]
  }

  /** In every run and for every bucket function, a lookup finds the first entry ever added with its hash, or
      nothing when none was: the table is a first-wins map. */
  lemma {:induction false} FirstAddedWins<T>(hash: T -> U32, mix: U32 -> nat, size: nat, history: seq<T>, h: U32)
    requires size > 0
    ensures Find(hash, Build(hash, mix, size, history)[Bucket(mix, size, h)], h) == Find(hash, history, h)
  {
    hide Bucket;
    if history != [] {
      var past, x := history[..|history| - 1], history[|history| - 1];
      FirstAddedWins(hash, mix, size, past, h);
      var c := Build(hash, mix, size, past)[Bucket(mix, size, h)];
      assert history == past + [x];
      FindAppend(hash, past, x, h);
      FindAppend(hash, c, x, h);
      FindMeets(hash, c, hash(x));
    }
  }

  /** In every run each chain holds only its bucket's hashes, and they stay sparse. */
  lemma {:induction false} ChainsStaySparse<T>(hash: T -> U32, mix: U32 -> nat, size: nat, history: seq<T>, b: nat)
    requires b < size
    ensures var c := Build(hash, mix, size, history)[b];
            Sparse(hash, c) && forall i :: 0 <= i < |c| ==> Bucket(mix, size, hash(c[i])) == b
  {
    hide Bucket, Noticed;
    if history != [] {
      var past, x := history[..|history| - 1], history[|history| - 1];
      ChainsStaySparse(hash, mix, size, past, b);
      SparseAdd(hash, Build(hash, mix, size, past)[b], x);
    }
  }

  /** A chain can hold a hash twice: the last node is the one an addition does not look at. */
  lemma {:induction false} LastNodeIsOverlooked<T>(hash: T -> U32, mix: U32 -> nat, size: nat, x: T, y: T)
    requires size > 0 && hash(x) != hash(y) && Bucket(mix, size, hash(x)) == Bucket(mix, size, hash(y))
    ensures Build(hash, mix, size, [x, y, y])[Bucket(mix, size, hash(x))] == [x, y, y]
  {
    hide Bucket;
    var b := Bucket(mix, size, hash(x));
    assert [x, y, y][..2] == [x, y] && [x, y][..1] == [x] && [x][..0] == [];
    assert Build(hash, mix, size, [x])[b] == [x];
    assert Build(hash, mix, size, [x, y])[b] == [x, y];
    assert !Noticed(hash, [x, y], hash(y));
  }

  // ----- a table together with the map it stands for -----

  /** Each chain holds its bucket's hashes, sparsely, and lookups answer as the map does. */
  ghost predicate Sound<T>(hash: T -> U32, mix: U32 -> nat, t: Table<T>, view: map<U32, T>) {
    && |t| > 0
    && (forall b :: 0 <= b < |t| ==> Sparse(hash, t[b]))
    && (forall b, i :: 0 <= b < |t| && 0 <= i < |t[b]| ==> Bucket(mix, |t|, hash(t[b][i])) == b)
    && (forall h: U32 :: Answer(hash, mix, t, h) == if h in view then Some(view[h]) else None)
  }

  function Answer<T>(hash: T -> U32, mix: U32 -> nat, t: Table<T>, h: U32): Option<T>
    requires |t| > 0
  {
    Find(hash, t[Bucket(mix, |t|, h)], h)
  }

  lemma {:induction false} SoundEmpty<T>(hash: T -> U32, mix: U32 -> nat, size: nat)
    requires size > 0
    ensures Sound(hash, mix, Build(hash, mix, size, []), map[])
  {
  }

  lemma SoundSize<T>(hash: T -> U32, mix: U32 -> nat, t: Table<T>, view: map<U32, T>)
    requires Sound(hash, mix, t, view)
    ensures |t| > 0
  {
  }

  lemma {:induction false} SoundAnswer<T>(hash: T -> U32, mix: U32 -> nat, t: Table<T>, view: map<U32, T>, h: U32)
    requires Sound(hash, mix, t, view)
    ensures |t| > 0 && Find(hash, t[Bucket(mix, |t|, h)], h) == if h in view then Some(view[h]) else None
  {
    assert Answer(hash, mix, t, h) == Find(hash, t[Bucket(mix, |t|, h)], h);
  }

  lemma SoundAdd<T>(hash: T -> U32, mix: U32 -> nat, t: Table<T>, view: map<U32, T>, x: T)
    requires Sound(hash, mix, t, view)
    ensures |t| > 0
    ensures var b := Bucket(mix, |t|, hash(x));
            Sound(hash, mix, t[b := AddTo(hash, t[b], x)], if hash(x) in view then view else view[hash(x) := x])
    ensures Noticed(hash, t[Bucket(mix, |t|, hash(x))], hash(x)) ==> hash(x) in view
  {
    hide Bucket, Sparse, Noticed;
    var k := hash(x);
    var b := Bucket(mix, |t|, k);
    var c := t[b];
    SparseAdd(hash, c, x);
    NoticedMeans(hash, c, k);
    assert Answer(hash, mix, t, k) == Find(hash, c, k);
    var t' := t[b := AddTo(hash, c, x)];
    forall h: U32 ensures Answer(hash, mix, t', h) == if h == k && k !in view then Some(x)
        else Answer(hash, mix, t, h) {
      FindAppend(hash, c, x, h);
    }
  }

  lemma {:induction false} NoticedMeans<T>(hash: T -> U32, chain: seq<T>, h: U32)
    ensures Noticed(hash, chain, h) ==> Find(hash, chain, h).Some?
  {
    FindMeets(hash, chain, h);
  }

  /** Entry i of a chain is the one lookups of its hash find. */
  ghost predicate FirstAt<T>(hash: T -> U32, chain: seq<T>, i: nat) {
    i < |chain| && forall j :: 0 <= j < i ==> hash(chain[j]) != hash(chain[i])
  }

  lemma SoundUpdate<T>(hash: T -> U32, mix: U32 -> nat, t: Table<T>, view: map<U32, T>, b: nat, i: nat, x: T)
    requires Sound(hash, mix, t, view) && b < |t| && FirstAt(hash, t[b], i) && hash(x) == hash(t[b][i])
    ensures Sound(hash, mix, t[b := t[b][i := x]], view[hash(x) := x])
    ensures FirstAt(hash, t[b][i := x], i)
  {
    hide Bucket;
    var k, c, t' := hash(x), t[b], t[b := t[b][i := x]];
    assert Bucket(mix, |t|, k) == b;
    forall h: U32 ensures Answer(hash, mix, t', h) == if h == k then Some(x) else Answer(hash, mix, t, h) {
      FindUpdate(hash, c, i, x, h);
    }
    SparseUpdate(hash, c, i, x);
  }

  lemma SparseUpdate<T>(hash: T -> U32, c: seq<T>, i: nat, x: T)
    requires i < |c| && hash(x) == hash(c[i]) && Sparse(hash, c)
    ensures Sparse(hash, c[i := x])
  {
    assert forall j :: 0 <= j < |c| ==> hash(c[i := x][j]) == hash(c[j]);
  }
}
