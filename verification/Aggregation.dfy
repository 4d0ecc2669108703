/** What a batch of the Yagra client holds (yagra_observe_metric): which observations open entries and which are
    combined into them, depending on the reference by which a metric is named. */
module Aggregation {
  import opened Arithmetic
  import opened Bytes

  const WORD := 0x1_0000_0000_0000_0000

  type U64 = x: int | 0 <= x < WORD

  /** A C string in memory: the same text can stand in several places. */
  class Name {
    const text: seq<Octet>

    constructor (text: seq<Octet>)
      ensures this.text == text
    {
      this.text := text;
    }
  }

  datatype Strategy = KeepFirst | KeepLast | Min | Max | Average | Sum | NoAggregation

  /** A registered metric; its name is the copy inside the metric. */
  datatype Definition = Definition(name: Name, strategy: Strategy)

  /** An entry of a batch; the count is the extra data of averages. */
  datatype Entry = Entry(name: Name, value: U64, count: nat)

  datatype Batch = Batch(entries: seq<Entry>, num: nat)

  datatype Observation = Observation(name: Name, value: U64)

  // ----- one observation -----

  /** The first registered metric with that text. */
  function Lookup(defs: seq<Definition>, text: seq<Octet>): (d: Option<Definition>)
    ensures d.Some? ==> d.value in defs && d.value.name.text == text
  {
    if defs == [] then None else if defs[0].name.text == text then Some(defs[0]) else Lookup(defs[1..], text)
  }

  /** The first entry whose name is the same reference, or the number of entries. */
  function IndexOf(entries: seq<Entry>, name: Name): (i: nat)
    ensures i <= |entries| && (i < |entries| ==> entries[i].name == name)
    ensures forall k :: 0 <= k < i ==> entries[k].name != name
  {
    if entries == [] || entries[0].name == name then 0 else 1 + IndexOf(entries[1..], name)
  }

  function FirstEntry(d: Definition, v: U64): Entry {
    Entry(d.name, v, if d.strategy == Average then 1 else 0)
  }

  /** The uint64_t arithmetic of the aggregation. */
  function Combine(strategy: Strategy, e: Entry, v: U64): Entry {
    match strategy
    case KeepFirst | NoAggregation => e
    case KeepLast => e.(value := v)
    case Sum => e.(value := (v + e.value as int) % WORD)
    case Min => e.(value := if v < e.value then v else e.value)
    case Max => e.(value := if v > e.value then v else e.value)
    case Average => Averaged(e, v)
  }

  function Averaged(e: Entry, v: U64): (a: Entry)
    ensures a.name == e.name
  {
    var sum: U64 := (v + e.value as int * e.count) % WORD;
    DivFits(sum, e.count + 1);
    e.(value := sum / (e.count + 1), count := e.count + 1)
  }

  lemma DivFits(a: U64, n: int)
    requires n > 0
    ensures 0 <= a / n < WORD
  {
    if a / n > a { MulLe(a + 1, a / n, n); MulLe(1, n, a + 1); }
  }

  function Observe(defs: seq<Definition>, b: Batch, name: Name, v: U64): Batch {
    var d := Lookup(defs, name.text);
    if d.None? then b
    else
      var i := IndexOf(b.entries, name);
      if i < |b.entries| && d.value.strategy != NoAggregation then
        b.(entries := b.entries[i := Combine(d.value.strategy, b.entries[i], v)])
      else
        // without a predecessor the new entry becomes the whole list, even when there was an entry
        Batch(if i == 0 then [FirstEntry(d.value, v)] else b.entries + [FirstEntry(d.value, v)], b.num + 1)
  }

  function ObserveAll(defs: seq<Definition>, obs: seq<Observation>): Batch {
    if obs == [] then Batch([], 0)
    else
      var o := obs[|obs| - 1];
      Observe(defs, ObserveAll(defs, obs[..|obs| - 1]), o.name, o.value)
  }

  // ----- which observations open an entry -----

  /** The fold of a strategy over the values of one entry. */
  function Fold(d: Definition, vs: seq<U64>): (e: Entry)
    requires vs != []
    ensures e.name == d.name
  {
    if |vs| == 1 then FirstEntry(d, vs[0]) else Combine(d.strategy, Fold(d, vs[..|vs| - 1]), vs[|vs| - 1])
  }

  lemma {:induction false} FoldMore(d: Definition, vs: seq<U64>, v: U64)
    ensures Fold(d, vs + [v]) == if vs == [] then FirstEntry(d, v) else Combine(d.strategy, Fold(d, vs), v)
  {
    assert (vs + [v])[..|vs|] == vs;
  }

  /** The first observation under that text. */
  predicate IsFirst(obs: seq<Observation>, k: nat)
    requires k < |obs|
  {
    forall j :: 0 <= j < k ==> obs[j].name.text != obs[k].name.text
  }

  /** The name is the reference that a look-up of its text leads to. */
  predicate ByReference(defs: seq<Definition>, name: Name) {
    Lookup(defs, name.text).Some? && Lookup(defs, name.text).value.name == name
  }

  predicate Aggregates(defs: seq<Definition>, name: Name) {
    Lookup(defs, name.text).Some? && Lookup(defs, name.text).value.strategy != NoAggregation
  }

  /** An observation of a known metric opens an entry when it is the metric's first, when it does not use the registered
      reference, or when the metric is not aggregated. */
  predicate Opens(defs: seq<Definition>, obs: seq<Observation>, k: nat)
    requires k < |obs|
  {
    var name := obs[k].name;
    Lookup(defs, name.text).Some? && !(!IsFirst(obs, k) && ByReference(defs, name) && Aggregates(defs, name))
  }

  lemma OpensBefore(defs: seq<Definition>, obs: seq<Observation>, n: nat, k: nat)
    requires k < n <= |obs|
    ensures IsFirst(obs[..n], k) == IsFirst(obs, k) && Opens(defs, obs[..n], k) == Opens(defs, obs, k)
  {
    assert forall j :: 0 <= j <= k ==> obs[..n][j] == obs[j];
  }

  /** The observations that open entries, in order. */
  function Openings(defs: seq<Definition>, obs: seq<Observation>): seq<nat> {
    if obs == [] then []
    else Openings(defs, obs[..|obs| - 1]) + if Opens(defs, obs, |obs| - 1) then [|obs| - 1] else []
  }

  lemma {:induction false} OpeningsAre(defs: seq<Definition>, obs: seq<Observation>)
    ensures var ks := Openings(defs, obs);
            && |ks| <= |obs|
            && (forall i :: 0 <= i < |ks| ==> ks[i] < |obs| && Opens(defs, obs, ks[i]))
            && (forall i, j :: 0 <= i < j < |ks| ==> ks[i] < ks[j])
            && (forall k :: 0 <= k < |obs| && Opens(defs, obs, k) ==> k in ks)
  {
    if obs != [] {
      var n := |obs| - 1;
      OpeningsAre(defs, obs[..n]);
      forall k | 0 <= k < n ensures Opens(defs, obs[..n], k) == Opens(defs, obs, k) { OpensBefore(defs, obs, n, k); }
      hide Opens;
    }
  }

  /** The last observation goes into the entry that observation k opened: only the first of a text collects others. */
  predicate Joins(defs: seq<Definition>, obs: seq<Observation>, k: nat)
    requires k < |obs|
  {
    IsFirst(obs, k) && obs[|obs| - 1].name.text == obs[k].name.text && !Opens(defs, obs, |obs| - 1)
  }

  /** The values in the entry that observation k opened. */
  function Share(defs: seq<Definition>, obs: seq<Observation>, k: nat): (vs: seq<U64>)
    requires k < |obs|
    ensures vs != []
  {
    if |obs| == k + 1 then [obs[k].value]
    else Share(defs, obs[..|obs| - 1], k) + if Joins(defs, obs, k) then [obs[|obs| - 1].value] else []
  }

  /** The entry that observation k opened. */
  predicate EntryOf(defs: seq<Definition>, obs: seq<Observation>, e: Entry, k: nat) {
    && k < |obs| && Lookup(defs, obs[k].name.text).Some?
    && e == Fold(Lookup(defs, obs[k].name.text).value, Share(defs, obs, k))
  }

  /** The first observation of a text opens an entry if the metric is known. */
  lemma {:induction false} FirstOfText(obs: seq<Observation>, l: nat) returns (k: nat)
    requires l < |obs|
    ensures k <= l && obs[k].name.text == obs[l].name.text && IsFirst(obs, k)
  {
    if IsFirst(obs, l) {
      k := l;
    } else {
      var j :| 0 <= j < l && obs[j].name.text == obs[l].name.text;
      k := FirstOfText(obs, j);
    }
  }

  // ----- batches in which no entry gets lost -----

  /** A metric that is not aggregated leads the list and is observed again by reference: the list is lost. */
  predicate Loses(defs: seq<Definition>, obs: seq<Observation>) {
    var ks := Openings(defs, obs);
    ks != [] && ks[0] < |obs| && !Aggregates(defs, obs[ks[0]].name)
    && exists k :: ks[0] < k < |obs| && obs[k].name.text == obs[ks[0]].name.text && ByReference(defs, obs[k].name)
  }

  lemma LosesLater(defs: seq<Definition>, obs: seq<Observation>, n: nat)
    requires n <= |obs| && Loses(defs, obs[..n])
    ensures Loses(defs, obs)
  {
    LeadingStays(defs, obs, n);
    OpeningsAre(defs, obs[..n]);
    var f := Openings(defs, obs[..n])[0];
    var k :| f < k < n && obs[..n][k].name.text == obs[..n][f].name.text && ByReference(defs, obs[..n][k].name);
    assert obs[k].name.text == obs[f].name.text && ByReference(defs, obs[k].name);
  }

  lemma {:induction false} LeadingStays(defs: seq<Definition>, obs: seq<Observation>, n: nat)
    requires n <= |obs| && Openings(defs, obs[..n]) != []
    ensures Openings(defs, obs) != [] && Openings(defs, obs)[0] == Openings(defs, obs[..n])[0]
    decreases |obs| - n
  {
    if n == |obs| {
      assert obs[..n] == obs;
    } else {
      assert obs[..n + 1][..n] == obs[..n];
      LeadingStays(defs, obs, n + 1);
    }
  }

  /** For every sequence of observations, by registered reference, by literal or mixed, of known and unknown metrics,
      unless the list gets lost: the batch holds one entry for each opening observation, in order, counted right, and
      each is the fold of its share of the values. */
  lemma {:induction false} EntriesExactly(defs: seq<Definition>, obs: seq<Observation>)
    requires !Loses(defs, obs)
    ensures var b, ks := ObserveAll(defs, obs), Openings(defs, obs);
            && b.num == |b.entries| == |ks|
            && forall i :: 0 <= i < |ks| ==> EntryOf(defs, obs, b.entries[i], ks[i])
  {
    if obs != [] {
      var n := |obs| - 1;
      var before, o := obs[..n], obs[n];
      if Loses(defs, before) { LosesLater(defs, obs, n); }
      EntriesExactly(defs, before);
      OpeningsAre(defs, before);
      OldEntries(defs, obs, ObserveAll(defs, before).entries, Openings(defs, before));
      OneMoreEntry(defs, obs, ObserveAll(defs, before), Openings(defs, before));
    }
  }

  lemma {:induction false} OneMoreEntry(defs: seq<Definition>, obs: seq<Observation>, b: Batch, ks: seq<nat>)
    requires obs != [] && b.num == |b.entries| == |ks| && ks == Openings(defs, obs[..|obs| - 1]) && !Loses(defs, obs)
    requires forall i :: 0 <= i < |ks| ==> EntryOf(defs, obs[..|obs| - 1], b.entries[i], ks[i])
    ensures Grown(defs, obs, b, ks)
  {
    var n := |obs| - 1;
    OpeningsAre(defs, obs[..n]);
    forall k | 0 <= k < n ensures Opens(defs, obs[..n], k) == Opens(defs, obs, k) { OpensBefore(defs, obs, n, k); }
    OldEntries(defs, obs, b.entries, ks);
    hide Share, Fold;
    if Opens(defs, obs, n) {
      if ks != [] { assert Openings(defs, obs)[0] == ks[0]; }
      assert forall i :: 0 <= i < |ks| ==> !Joins(defs, obs, ks[i]);
      OpensEntry(defs, obs, b, ks);
    } else if Lookup(defs, obs[n].name.text).Some? {
      var i := JoinsFirst(defs, obs, b, ks);
      JoinsEntry(defs, obs, b, ks, i);
    } else {
      forall i | 0 <= i < |ks| ensures ks[i] < |obs| && !Joins(defs, obs, ks[i]) {
        assert EntryOf(defs, obs[..n], b.entries[i], ks[i]) && obs[..n][ks[i]] == obs[ks[i]];
      }
    }
  }

  /** The last observation leaves the shares of the entries alone that it does not join. */
  lemma OldEntries(defs: seq<Definition>, obs: seq<Observation>, entries: seq<Entry>, ks: seq<nat>)
    requires obs != [] && |entries| == |ks|
    requires forall i :: 0 <= i < |ks| ==> EntryOf(defs, obs[..|obs| - 1], entries[i], ks[i])
    ensures forall i :: 0 <= i < |ks| ==>
        ks[i] < |obs| - 1 && (Joins(defs, obs, ks[i]) || EntryOf(defs, obs, entries[i], ks[i]))
  {
    hide Joins, Fold, Lookup;
    forall i | 0 <= i < |ks|
      ensures ks[i] < |obs| - 1 && (Joins(defs, obs, ks[i]) || EntryOf(defs, obs, entries[i], ks[i])) {
      assert EntryOf(defs, obs[..|obs| - 1], entries[i], ks[i]);
      var vs := Share(defs, obs[..|obs| - 1], ks[i]);
      assert vs + [] == vs;
      assert obs[..|obs| - 1][ks[i]] == obs[ks[i]];
    }
  }

  /** An entry carries the registered reference of the text that opened it. */
  lemma EntryName(defs: seq<Definition>, obs: seq<Observation>, e: Entry, k: nat)
    requires EntryOf(defs, obs, e, k)
    ensures e.name.text == obs[k].name.text && ByReference(defs, e.name)
  {
    hide Share;
  }

  /** The batch after one more observation. */
  predicate Grown(defs: seq<Definition>, obs: seq<Observation>, b: Batch, ks: seq<nat>)
    requires obs != []
  {
    var o := obs[|obs| - 1];
    var c := Observe(defs, b, o.name, o.value);
    var ls := ks + if Opens(defs, obs, |obs| - 1) then [|obs| - 1] else [];
    c.num == |c.entries| == |ls| && forall i :: 0 <= i < |ls| ==> EntryOf(defs, obs, c.entries[i], ls[i])
  }

  lemma OpensEntry(defs: seq<Definition>, obs: seq<Observation>, b: Batch, ks: seq<nat>)
    requires obs != [] && b.num == |b.entries| == |ks| && Opens(defs, obs, |obs| - 1)
    requires forall i :: 0 <= i < |ks| ==> ks[i] < |obs| - 1 && EntryOf(defs, obs[..|obs| - 1], b.entries[i], ks[i])
    requires forall i :: 0 <= i < |ks| ==> EntryOf(defs, obs, b.entries[i], ks[i])
    requires !(ks != [] && !Aggregates(defs, obs[ks[0]].name) && obs[|obs| - 1].name.text == obs[ks[0]].name.text
               && ByReference(defs, obs[|obs| - 1].name))
    ensures Grown(defs, obs, b, ks)
  {
    var n := |obs| - 1;
    var o := obs[n];
    var i := IndexOf(b.entries, o.name);
    if i < |b.entries| {
      EntryName(defs, obs, b.entries[i], ks[i]);
      assert !IsFirst(obs, n);
      assert i > 0;
    }
    hide Share, IndexOf, Opens, IsFirst, Averaged, Aggregates;
    var e := FirstEntry(Lookup(defs, o.name.text).value, o.value);
    assert Observe(defs, b, o.name, o.value) == Batch(b.entries + [e], b.num + 1);
    assert EntryOf(defs, obs, e, n) by { ShareStarts(defs, obs); }
  }

  lemma ShareStarts(defs: seq<Definition>, obs: seq<Observation>)
    requires obs != []
    ensures Share(defs, obs, |obs| - 1) == [obs[|obs| - 1].value]
  {
  }

  lemma {:induction false} JoinsEntry(defs: seq<Definition>, obs: seq<Observation>, b: Batch, ks: seq<nat>, i: nat)
    requires obs != [] && b.num == |b.entries| == |ks| && !Opens(defs, obs, |obs| - 1)
    requires Lookup(defs, obs[|obs| - 1].name.text).Some?
    requires forall j :: 0 <= j < |ks| ==> ks[j] < |obs| - 1 && EntryOf(defs, obs[..|obs| - 1], b.entries[j], ks[j])
    requires forall j :: 0 <= j < |ks| && j != i ==> EntryOf(defs, obs, b.entries[j], ks[j])
    requires i < |ks| && Joins(defs, obs, ks[i]) && IndexOf(b.entries, obs[|obs| - 1].name) == i
    ensures Grown(defs, obs, b, ks)
  {
    var n := |obs| - 1;
    var o, k := obs[n], ks[i];
    var d := Lookup(defs, o.name.text).value;
    hide IndexOf, IsFirst, Averaged;
    assert Share(defs, obs, k) == Share(defs, obs[..n], k) + [o.value];
    FoldMore(d, Share(defs, obs[..n], k), o.value);
    hide Share, Fold, Joins;
    assert EntryOf(defs, obs[..n], b.entries[i], k);
    assert EntryOf(defs, obs, Combine(d.strategy, b.entries[i], o.value), k);
  }

  /** The entry that a joining observation finds is the one its text's first observation opened. */
  lemma JoinsFirst(defs: seq<Definition>, obs: seq<Observation>, b: Batch, ks: seq<nat>) returns (i: nat)
    requires obs != [] && |b.entries| == |ks| && !Opens(defs, obs, |obs| - 1)
    requires Lookup(defs, obs[|obs| - 1].name.text).Some?
    requires forall j :: 0 <= j < |ks| ==> ks[j] < |obs| - 1 && EntryOf(defs, obs[..|obs| - 1], b.entries[j], ks[j])
    requires forall i, j :: 0 <= i < j < |ks| ==> ks[i] < ks[j]
    requires forall k :: 0 <= k < |obs| - 1 && Opens(defs, obs, k) ==> k in ks
    ensures i < |ks| && Joins(defs, obs, ks[i]) && IndexOf(b.entries, obs[|obs| - 1].name) == i
    ensures forall j :: 0 <= j < |ks| && j != i ==> !Joins(defs, obs, ks[j])
  {
    var n := |obs| - 1;
    var name := obs[n].name;
    var f := FirstOfText(obs, n);
    assert f < n && Opens(defs, obs, f);
    var k :| 0 <= k < |ks| && ks[k] == f;
    hide Share, Fold, Opens;
    assert EntryOf(defs, obs[..n], b.entries[k], f);
    EntryName(defs, obs[..n], b.entries[k], f);
    i := IndexOf(b.entries, name);
    assert EntryOf(defs, obs[..n], b.entries[i], ks[i]);
    EntryName(defs, obs[..n], b.entries[i], ks[i]);
    assert obs[..n][ks[i]] == obs[ks[i]];
    assert ks[i] == f;
  }

  // ----- when repeated metrics are aggregated -----

  /** Every metric that is observed is aggregated, or unknown. */
  predicate AllAggregate(defs: seq<Definition>, obs: seq<Observation>) {
    forall k :: 0 <= k < |obs| && Lookup(defs, obs[k].name.text).Some? ==> Aggregates(defs, obs[k].name)
  }

  /** Every observation of a known metric after its first uses the registered reference. */
  predicate RepeatsByReference(defs: seq<Definition>, obs: seq<Observation>) {
    forall k :: 0 <= k < |obs| && Lookup(defs, obs[k].name.text).Some? ==>
        IsFirst(obs, k) || ByReference(defs, obs[k].name)
  }

  predicate OneEntryEach(entries: seq<Entry>) {
    forall i, j :: 0 <= i < j < |entries| ==> entries[i].name != entries[j].name
  }

  /** A batch has at most one entry a metric if and only if every observation of a metric after its first uses the
      registered reference. The first may use any. */
  lemma {:induction false} OneEntryExactly(defs: seq<Definition>, obs: seq<Observation>)
    requires AllAggregate(defs, obs)
    ensures OneEntryEach(ObserveAll(defs, obs).entries) <==> RepeatsByReference(defs, obs)
  {
    var es, ks := ObserveAll(defs, obs).entries, Openings(defs, obs);
    NothingLost(defs, obs);
    EntriesExactly(defs, obs);
    OpeningsAre(defs, obs);
    hide ObserveAll, Openings, Fold, Share, Lookup, Aggregates;
    forall i | 0 <= i < |ks| ensures es[i].name.text == obs[ks[i]].name.text && ByReference(defs, es[i].name) {
      assert EntryOf(defs, obs, es[i], ks[i]);
      EntryName(defs, obs, es[i], ks[i]);
    }
    if RepeatsByReference(defs, obs) {
      forall i | 0 <= i < |ks| ensures IsFirst(obs, ks[i]) { assert Opens(defs, obs, ks[i]); }
    } else {
      var k :| 0 <= k < |obs| && Lookup(defs, obs[k].name.text).Some? && !IsFirst(obs, k)
          && !ByReference(defs, obs[k].name);
      var f := FirstOfText(obs, k);
      assert Opens(defs, obs, k) && Opens(defs, obs, f) && f < k;
      var i :| 0 <= i < |ks| && ks[i] == f;
      var j :| 0 <= j < |ks| && ks[j] == k;
      assert es[i].name == es[j].name;
    }
  }

  lemma NothingLost(defs: seq<Definition>, obs: seq<Observation>)
    requires AllAggregate(defs, obs)
    ensures !Loses(defs, obs)
  {
    OpeningsAre(defs, obs);
  }

  /** All values observed under a text. */
  function Values(obs: seq<Observation>, text: seq<Octet>): seq<U64> {
    if obs == [] then []
    else
      var o := obs[|obs| - 1];
      Values(obs[..|obs| - 1], text) + if o.name.text == text then [o.value] else []
  }

  /** Then each entry holds the fold of all values of its metric. */
  lemma {:induction false} EntriesAreFolds(defs: seq<Definition>, obs: seq<Observation>)
    requires AllAggregate(defs, obs) && RepeatsByReference(defs, obs)
    ensures var b, ks := ObserveAll(defs, obs), Openings(defs, obs);
            && b.num == |b.entries| == |ks| && OneEntryEach(b.entries)
            && forall i :: 0 <= i < |ks| ==>
                 && ks[i] < |obs| && IsFirst(obs, ks[i])
                 && EntryOf(defs, obs, b.entries[i], ks[i])
                 && Share(defs, obs, ks[i]) == Values(obs, obs[ks[i]].name.text)
  {
    NothingLost(defs, obs);
    EntriesExactly(defs, obs);
    OneEntryExactly(defs, obs);
    OpeningsAre(defs, obs);
    hide ObserveAll, Openings, Fold, Lookup, Aggregates;
    forall i | 0 <= i < |Openings(defs, obs)|
      ensures var k := Openings(defs, obs)[i];
              k < |obs| && IsFirst(obs, k) && Share(defs, obs, k) == Values(obs, obs[k].name.text) {
      var k := Openings(defs, obs)[i];
      assert Opens(defs, obs, k);
      WholeShare(defs, obs, k);
    }
  }

  lemma {:induction false} WholeShare(defs: seq<Definition>, obs: seq<Observation>, k: nat)
    requires k < |obs| && Opens(defs, obs, k) && IsFirst(obs, k) && RepeatsByReference(defs, obs)
        && AllAggregate(defs, obs)
    ensures Share(defs, obs, k) == Values(obs, obs[k].name.text)
  {
    var n := |obs| - 1;
    var before := obs[..n];
    if k == n {
      NoValues(before, obs[n].name.text);
    } else {
      OpensBefore(defs, obs, n, k);
      forall j | 0 <= j < n ensures IsFirst(before, j) == IsFirst(obs, j) { OpensBefore(defs, obs, n, j); }
      assert forall j :: 0 <= j < n ==> before[j] == obs[j];
      WholeShare(defs, before, k);
    }
  }

  lemma {:induction false} NoValues(obs: seq<Observation>, text: seq<Octet>)
    requires forall k :: 0 <= k < |obs| ==> obs[k].name.text != text
    ensures Values(obs, text) == []
  {
    if obs != [] { NoValues(obs[..|obs| - 1], text); }
  }

  /** When no observation uses a registered reference, as with literals, each of a known metric has an entry of its
      own. */
  lemma {:induction false} LiteralsPileUp(defs: seq<Definition>, obs: seq<Observation>)
    requires forall k :: 0 <= k < |obs| ==> Lookup(defs, obs[k].name.text).Some? && !ByReference(defs, obs[k].name)
    ensures var b := ObserveAll(defs, obs);
            && b.num == |b.entries| == |obs|
            && forall k :: 0 <= k < |obs| ==>
               b.entries[k] == FirstEntry(Lookup(defs, obs[k].name.text).value, obs[k].value)
  {
    AllOpen(defs, obs);
    EntriesExactly(defs, obs);
    hide ObserveAll, Openings, Lookup;
    forall k | 0 <= k < |obs|
      ensures ObserveAll(defs, obs).entries[k] == FirstEntry(Lookup(defs, obs[k].name.text).value, obs[k].value) {
      assert EntryOf(defs, obs, ObserveAll(defs, obs).entries[k], k);
      LoneShare(defs, obs, k);
    }
  }

  lemma {:induction false} AllOpen(defs: seq<Definition>, obs: seq<Observation>)
    requires forall k :: 0 <= k < |obs| ==> Lookup(defs, obs[k].name.text).Some? && !ByReference(defs, obs[k].name)
    ensures |Openings(defs, obs)| == |obs| && forall k :: 0 <= k < |obs| ==> Openings(defs, obs)[k] == k
    ensures !Loses(defs, obs)
  {
    if obs != [] {
      assert forall k :: 0 <= k < |obs| - 1 ==> obs[..|obs| - 1][k] == obs[k];
      AllOpen(defs, obs[..|obs| - 1]);
    }
  }

  lemma {:induction false} LoneShare(defs: seq<Definition>, obs: seq<Observation>, k: nat)
    requires k < |obs|
    requires forall l :: 0 <= l < |obs| ==> Lookup(defs, obs[l].name.text).Some? && !ByReference(defs, obs[l].name)
    ensures Share(defs, obs, k) == [obs[k].value]
  {
    if k < |obs| - 1 {
      assert forall l :: 0 <= l < |obs| - 1 ==> obs[..|obs| - 1][l] == obs[l];
      LoneShare(defs, obs[..|obs| - 1], k);
    }
  }

  // ----- when the number of metrics is right -----

  /** In any sequence of observations the number of metrics is the number of entries if and only if the list was never
      lost; afterwards it stays too large. */
  lemma {:induction false} CountStaysRight(defs: seq<Definition>, obs: seq<Observation>)
    ensures var b := ObserveAll(defs, obs); b.num == |b.entries| <==> !Loses(defs, obs)
    ensures var b := ObserveAll(defs, obs); b.num >= |b.entries|
  {
    if !Loses(defs, obs) {
      EntriesExactly(defs, obs);
    } else if obs != [] {
      var n := |obs| - 1;
      CountStaysRight(defs, obs[..n]);
      if !Loses(defs, obs[..n]) {
        EntriesExactly(defs, obs[..n]);
        LastLoses(defs, obs);
      }
    }
  }

  /** The observation at which the list is lost leaves only its own entry. */
  lemma {:induction false} LastLoses(defs: seq<Definition>, obs: seq<Observation>)
    requires obs != [] && Loses(defs, obs) && !Loses(defs, obs[..|obs| - 1])
    ensures var before, b, o := ObserveAll(defs, obs[..|obs| - 1]), ObserveAll(defs, obs), obs[|obs| - 1];
            && Lookup(defs, o.name.text).Some? && b.entries == [FirstEntry(Lookup(defs, o.name.text).value, o.value)]
            && before.entries != [] && before.num == |before.entries| && b.num == before.num + 1
  {
    var n := |obs| - 1;
    var before, o := obs[..n], obs[n];
    var b, ks := ObserveAll(defs, before), Openings(defs, before);
    EntriesExactly(defs, before);
    OpeningsAre(defs, before);
    OpeningsAre(defs, obs);
    var f := Openings(defs, obs)[0];
    assert ks != [];
    LeadingStays(defs, obs, n);
    assert EntryOf(defs, before, b.entries[0], ks[0]) && before[f] == obs[f];
    EntryName(defs, before, b.entries[0], f);
    var k :| f < k < |obs| && obs[k].name.text == obs[f].name.text && ByReference(defs, obs[k].name);
    assert forall j :: 0 <= j < n ==> before[j] == obs[j];
    assert k == n;
    assert IndexOf(b.entries, o.name) == 0;
  }

  // ----- what the folds are -----

  function Total(vs: seq<U64>): nat {
    if vs == [] then 0 else Total(vs[..|vs| - 1]) + vs[|vs| - 1]
  }

  lemma {:induction false} KeptValue(d: Definition, vs: seq<U64>)
    requires vs != []
    ensures d.strategy == KeepFirst ==> Fold(d, vs).value == vs[0]
    ensures d.strategy == KeepLast ==> Fold(d, vs).value == vs[|vs| - 1]
  {
    if |vs| > 1 { KeptValue(d, vs[..|vs| - 1]); }
  }

  lemma {:induction false} Extremum(d: Definition, vs: seq<U64>)
    requires vs != []
    ensures d.strategy == Min || d.strategy == Max ==> Fold(d, vs).value in vs
    ensures d.strategy == Min ==> forall v :: v in vs ==> Fold(d, vs).value <= v
    ensures d.strategy == Max ==> forall v :: v in vs ==> Fold(d, vs).value >= v
  {
    if |vs| > 1 {
      var front := vs[..|vs| - 1];
      Extremum(d, front);
      assert vs == front + [vs[|vs| - 1]];
    }
  }

  lemma {:induction false} SumModulo(d: Definition, vs: seq<U64>)
    requires vs != [] && d.strategy == Sum
    ensures Fold(d, vs).value == Total(vs) % Pow256(8)
  {
    WordBytes();
    if |vs| == 1 {
      assert vs[..0] == [];
    } else {
      var front, v: int := vs[..|vs| - 1], vs[|vs| - 1];
      SumModulo(d, front);
      AddModulo(v, Total(front));
    }
  }

  lemma WordBytes()
    ensures Pow256(8) == WORD
  {
    assert Pow256(4) == 0x1_0000_0000;
  }

  lemma AddModulo(a: int, b: int)
    ensures (a + b % WORD) % WORD == (a + b) % WORD
  {
  }

  /** An average counts its values; no other strategy keeps a count. */
  lemma {:induction false} CountedValues(d: Definition, vs: seq<U64>)
    requires vs != []
    ensures Fold(d, vs).count == if d.strategy == Average then |vs| else 0
  {
    if |vs| > 1 { CountedValues(d, vs[..|vs| - 1]); }
  }

  function Minimum(vs: seq<U64>): U64
    requires vs != []
  {
    var v := vs[|vs| - 1];
    if |vs| == 1 then v else
      var m := Minimum(vs[..|vs| - 1]);
      if v < m then v else m
  }

  /** The average never overtakes the mean: after n values, n times the stored value is at most their total, and short
      of it by at most 0 + 1 + ... + (n - 1). It is at least the smallest value. */
  lemma {:induction false} AverageBound(d: Definition, vs: seq<U64>)
    requires vs != [] && d.strategy == Average && Total(vs) < WORD
    ensures var n := |vs|; var e := Fold(d, vs);
            && e.count == n && Minimum(vs) <= e.value
            && 0 <= Total(vs) - n * e.value
            && 2 * (Total(vs) - n * e.value) <= n * (n - 1)
  {
    var n := |vs|;
    if n == 1 {
      assert vs[..0] == [];
    } else {
      var front, v: int := vs[..n - 1], vs[n - 1];
      AverageBound(d, front);
      var e := Fold(d, front);
      hide Fold, Minimum, Total, Averaged;
      AverageStep(e.value, n - 1, v, Total(front), Minimum(front));
      AveragedExact(e, v);
    }
  }

  /** Without overflow the average is computed exactly. */
  lemma AveragedExact(e: Entry, v: U64)
    requires v + e.value as int * e.count < WORD
    ensures Averaged(e, v) == e.(value := (v + e.value as int * e.count) / (e.count + 1), count := e.count + 1)
  {
    var p := e.value as int * e.count;
    assert p >= 0;
    assert (v + p) % WORD == v + p;
  }

  /** One more value v after k of them with total t and stored value s. */
  lemma AverageStep(s: int, k: int, v: int, t: int, m: int)
    requires k > 0 && 0 <= t - k * s && 2 * (t - k * s) <= k * (k - 1)
    requires m <= s
    ensures var n := k + 1; var s' := (v + s * k) / n;
            && v + s * k <= t + v
            && 0 <= t + v - n * s' && 2 * (t + v - n * s') <= n * (n - 1)
            && (if v < m then v else m) <= s'
  {
    var n := k + 1;
    var s', r := (v + s * k) / n, (v + s * k) % n;
    assert v + s * k == n * s' + r;
    assert s * k == k * s;
    assert n * (n - 1) == k * (k - 1) + 2 * k;
    var l := if v < m then v else m;
    assert n * l == k * l + l;
    MulLe(l, s, k);
    assert n * l <= v + s * k;
    if s' < l { MulLe(s' + 1, l, n); }
  }
}
