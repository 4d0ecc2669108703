/** hashmap.c as linked nodes: init_hashmap, hashmap_add and hashmap_get, and the write through the pointer that
    hashmap_get hands out. The ghost field view is the first-wins map the table stands for. */
module HashMap {
  import opened Bytes
  import opened HashTable

  class ListNode<T> {
    var data: T
    var next: ListNode?<T>
    /** Where the node is linked. */
    ghost var bucket: nat
    ghost var pos: nat

    constructor (data: T)
      ensures this.data == data && next == null
    {
      this.data := data;
      next := null;
    }
  }

  class HashMap<T> {
    const hash: T -> U32
    /** jhash with the table's random start value: any function. */
    const mix: U32 -> nat
    const table: array<ListNode?<T>>
    ghost var chains: seq<seq<ListNode<T>>>
    ghost var contents: Table<T>
    ghost var nodes: set<ListNode<T>>
    ghost var view: map<U32, T>

    /** Node i of chain b holds entry i of contents[b] and points to node i + 1. */
    ghost predicate LinkedAt(b: nat, i: nat, last: ListNode?<T>)
      requires b < |chains| == |contents| && i < |chains[b]| == |contents[b]|
      reads this, chains[b][i]
    {
      var n := chains[b][i];
      && n in nodes && n.bucket == b && n.pos == i && n.data == contents[b][i]
      && n.next == if i + 1 < |chains[b]| then chains[b][i + 1] else last
    }

    /** The pointers of chain b spell out chains[b]; after its nodes comes last. */
    ghost predicate Linked(b: nat, last: ListNode?<T>)
      requires b < |chains| == |contents| == table.Length
      reads this, table, chains[b]
    {
      && |chains[b]| == |contents[b]|
      && table[b] == (if chains[b] == [] then last else chains[b][0])
      && forall i :: 0 <= i < |chains[b]| ==> LinkedAt(b, i, last)
    }

    /** Chain a is complete, or is chain b waiting for node to be recorded at its end. */
    ghost predicate Awaits(a: nat, b: nat, node: ListNode<T>)
      requires a < |chains| == |contents| == table.Length
      reads this, table, chains[a]
    {
      Linked(a, if a == b then node else null)
    }

    ghost predicate Valid()
      reads this, table, nodes
    {
      && |chains| == |contents| == table.Length
      && (forall b, i :: 0 <= b < |chains| && 0 <= i < |chains[b]| ==> chains[b][i] in nodes)
      && (forall b :: 0 <= b < |chains| ==> Linked(b, null))
      && Sound(hash, mix, contents, view)
    }

    /** init_hashmap; a table without buckets cannot be used. */
    constructor (size: nat, hash: T -> U32, mix: U32 -> nat)
      requires size > 0
      ensures Valid() && view == map[] && fresh(table) && nodes == {}
      ensures this.hash == hash && this.mix == mix && table.Length == size
      ensures contents == Build(hash, mix, size, [])
    {
      this.hash := hash;
      this.mix := mix;
      table := new ListNode?<T>[size](_ => null);
      chains := seq(size, _ => []);
      contents := Build(hash, mix, size, []);
      nodes := {};
      view := map[];
      SoundEmpty(hash, mix, size);
    }

    /** hashmap_add: OK or ERROR, and which entry a lookup finds from now on. */
    method Add(x: T) returns (ok: bool)
      requires Valid()
      modifies this, table, nodes
      ensures Valid() && fresh(nodes - old(nodes)) && old(nodes) <= nodes
      ensures view == if hash(x) in old(view) then old(view) else old(view)[hash(x) := x]
      ensures
        var b := Bucket(mix, table.Length, hash(x));
        contents == old(contents)[b := AddTo(hash, old(contents)[b], x)]
      ensures !ok <==> Noticed(hash, old(contents)[Bucket(mix, table.Length, hash(x))], hash(x))
      ensures !ok ==> hash(x) in old(view)
    {
      hide Sound;
      var node := new ListNode<T>(x);
      var h := hash(x);
      assert table.Length > 0 by { SoundSize(hash, mix, contents, view); }
      var index := Bucket(mix, table.Length, h);
      ghost var chain := chains[index];
      assert Linked(index, null);
      SoundAdd(hash, mix, contents, view, x);
      if table[index] == null {
        table[index] := node;
      } else {
        var iter := table[index];
        ghost var k := 0;
        assert LinkedAt(index, 0, null);
        if hash(iter.data) == h {
          return false;
        }
        while iter.next != null
          invariant 0 <= k < |chain| && iter == chain[k]
          invariant forall i :: 0 <= i < |chain| && (i == 0 || i < k) ==> hash(contents[index][i]) != h
          decreases |chain| - k
          modifies {}
        {
          assert LinkedAt(index, k, null);
          if hash(iter.data) == h {
            return false;
          }
          iter := iter.next;
          k := k + 1;
        }
        assert LinkedAt(index, k, null);
        iter.next := node;
      }
      forall a | 0 <= a < |chains| ensures Awaits(a, index, node) {
        assert old(Linked(a, null));
        var last: ListNode?<T> := if a == index then node else null;
        forall i | 0 <= i < |chains[a]| ensures LinkedAt(a, i, last) {
          assert old(LinkedAt(a, i, null));
        }
      }
      Append(x, node, index);
      ok := true;
    }

    /** The ghost side of linking a node at the end of its chain. */
    ghost method Append(x: T, node: ListNode<T>, b: nat)
      requires |chains| == |contents| == table.Length > b && b == Bucket(mix, table.Length, hash(x))
      requires node !in nodes && node.data == x && node.next == null
      requires forall a, i :: 0 <= a < |chains| && 0 <= i < |chains[a]| ==> chains[a][i] in nodes
      requires forall a :: 0 <= a < |chains| ==> Awaits(a, b, node)
      requires !Noticed(hash, contents[b], hash(x))
      requires Sound(hash, mix, contents[b := contents[b] + [x]], if hash(x) in view then view else view[hash(x) := x])
      modifies this, node
      ensures Valid() && nodes == old(nodes) + {node}
      ensures view == if hash(x) in old(view) then old(view) else old(view)[hash(x) := x]
      ensures contents == old(contents)[b := old(contents)[b] + [x]]
    {
      hide Sound;
      node.bucket, node.pos := b, |chains[b]|;
      chains := chains[b := chains[b] + [node]];
      contents := contents[b := contents[b] + [x]];
      nodes := nodes + {node};
      view := if hash(x) in view then view else view[hash(x) := x];
      forall a | 0 <= a < |chains| ensures Linked(a, null) {
        assert old(Awaits(a, b, node));
        forall i | 0 <= i < |chains[a]| ensures LinkedAt(a, i, null) {
          if i < |old(chains[a])| { assert old(LinkedAt(a, i, if a == b then node else null)); }
        }
      }
    }

    /** hashmap_get: the node holding the entry of that hash, or NULL. */
    method Get(h: U32) returns (node: ListNode?<T>)
      requires Valid()
      ensures node == null <==> h !in view
      ensures node != null ==> node in nodes && node.data == view[h] && hash(node.data) == h && First(node)
    {
      hide Sound;
      assert table.Length > 0 by { SoundSize(hash, mix, contents, view); }
      var b := Bucket(mix, table.Length, h);
      ghost var chain := chains[b];
      assert Linked(b, null);
      SoundAnswer(hash, mix, contents, view, h);
      node := table[b];
      ghost var k := 0;
      while node != null
        invariant 0 <= k <= |chain| && node == if k < |chain| then chain[k] else null
        invariant forall i :: 0 <= i < k ==> hash(contents[b][i]) != h
        decreases |chain| - k
      {
        assert LinkedAt(b, k, null);
        if hash(node.data) == h {
          FindFirst(hash, contents[b], k);
          return;
        }
        node := node.next;
        k := k + 1;
      }
      FindMeets(hash, contents[b], h);
    }

    /** The node that a lookup of its hash would find. */
    ghost predicate First(node: ListNode<T>)
      reads this, node
    {
      node.bucket < |contents| && FirstAt(hash, contents[node.bucket], node.pos)
      && node.bucket < |chains| && node.pos < |chains[node.bucket]| && chains[node.bucket][node.pos] == node
    }

    /** A write through the pointer from hashmap_get that leaves the hash alone. */
    method Write(node: ListNode<T>, x: T)
      requires Valid() && node in nodes && First(node) && hash(x) == hash(node.data)
      modifies this`contents, this`view, node`data
      ensures Valid() && view == old(view)[hash(x) := x] && node.data == x && First(node)
    {
      hide Sound, FirstAt;
      ghost var b, i := node.bucket, node.pos;
      assert Linked(b, null) && LinkedAt(b, i, null);
      SoundUpdate(hash, mix, contents, view, b, i, x);
      node.data := x;
      contents := contents[b := contents[b][i := x]];
      view := view[hash(x) := x];
      forall a | 0 <= a < |chains| ensures Linked(a, null) {
        assert old(Linked(a, null));
        forall k | 0 <= k < |chains[a]| ensures LinkedAt(a, k, null) { assert old(LinkedAt(a, k, null)); }
      }
    }
  }
}
