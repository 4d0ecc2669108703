/** The Yagra client library (yagra.c): linked lists of registered metrics and of a batch's entries, updated in place,
    and the messages built from them. */
module Yagra {
  import opened Aggregation
  import opened Bytes
  import opened MetricsWire
  import opened Slices

  const OK: int := 0
  const FAILED: int := -1

  // ----- registered metrics -----

  class Metric {
    const name: Name
    const strategy: Strategy
    var next: Metric?
    ghost var pos: nat

    constructor (name: Name, strategy: Strategy)
      ensures this.name == name && this.strategy == strategy && next == null
    {
      this.name, this.strategy, next := name, strategy, null;
    }

    function Definition(): Definition {
      Aggregation.Definition(name, strategy)
    }
  }

  function Definitions(list: seq<Metric>): (ds: seq<Definition>)
    ensures |ds| == |list| && forall i :: 0 <= i < |list| ==> ds[i] == list[i].Definition()
  {
    if list == [] then [] else Definitions(list[..|list| - 1]) + [list[|list| - 1].Definition()]
  }

  /** The copy that strncpy makes of a name. */
  function Copied(name: Text): Text {
    if |name| <= LONGEST_NAME then name else name[..LONGEST_NAME]
  }

  /** What a newly defined metric is found by: its name if that has at most 63 bytes, else the first 63 bytes of it, so
      that observations under its own name are refused. */
  lemma {:induction false} DefinedIsFound(defs: seq<Definition>, copy: Name, name: Text, strategy: Strategy)
    requires copy.text == Copied(name) && Lookup(defs, name).None?
    ensures var d := Aggregation.Definition(copy, strategy);
            && (|name| <= 63 ==> Lookup(defs + [d], name) == Some(d))
            && (|name| > 63 ==> Lookup(defs + [d], name) == None)
            && (|name| > 63 && Lookup(defs, name[..63]).None? ==> Lookup(defs + [d], name[..63]) == Some(d))
  {
    var d := Aggregation.Definition(copy, strategy);
    OneMoreDefinition(defs, d, name);
    if |name| > 63 && Lookup(defs, name[..63]).None? { OneMoreDefinition(defs, d, name[..63]); }
  }

  lemma {:induction false} OneMoreDefinition(defs: seq<Definition>, d: Definition, text: Text)
    requires Lookup(defs, text).None?
    ensures Lookup(defs + [d], text) == if d.name.text == text then Some(d) else None
  {
    if defs == [] {
      assert [d][1..] == [];
    } else {
      assert (defs + [d])[0] == defs[0] && (defs + [d])[1..] == defs[1..] + [d];
      OneMoreDefinition(defs[1..], d, text);
    }
  }

  class Connection {
    var metrics: Metric?
    ghost var list: seq<Metric>

    ghost predicate LinkedAt(i: nat)
      requires i < |list|
      reads this, list[i]
    {
      list[i].pos == i && list[i].next == if i + 1 < |list| then list[i + 1] else null
    }

    ghost predicate Valid()
      reads this, list
    {
      metrics == (if list == [] then null else list[0]) && forall i :: 0 <= i < |list| ==> LinkedAt(i)
    }

    constructor ()
      ensures Valid() && list == []
    {
      metrics, list := null, [];
    }

    /** The search by text; the first match counts. */
    method Find(text: Text) returns (metric: Metric?)
      requires Valid()
      ensures metric == null <==> Lookup(Definitions(list), text).None?
      ensures metric != null ==> metric.Definition() == Lookup(Definitions(list), text).value
    {
      metric := metrics;
      ghost var k := 0;
      ghost var ds := Definitions(list);
      assert ds[0..] == ds;
      while metric != null
        invariant 0 <= k <= |list| && metric == if k < |list| then list[k] else null
        invariant Lookup(ds, text) == Lookup(ds[k..], text)
        decreases |list| - k
      {
        assert LinkedAt(k) && ds[k..][1..] == ds[k + 1..];
        if metric.name.text == text { return; }
        metric := metric.next;
        k := k + 1;
      }
    }

    /** yagra_define_metric: the message, unless it is too long, and the metric at the end of the list once the
        message is sent. */
    method Define(name: Text, description: Text, strategy: Strategy, delivered: bool)
        returns (code: int, message: seq<Octet>)
      requires Valid()
      modifies this, list
      ensures Valid()
      ensures var body := DefinitionBody(name, description, strategy);
              && message == (if 4 + |body| > LIMIT then [] else DefinitionMessage(body))
              && code == (if 4 + |body| > LIMIT || !delivered then FAILED else OK)
      ensures code == FAILED ==> Definitions(list) == old(Definitions(list))
      ensures code == OK ==>
                |list| == |old(list)| + 1 && list[..|old(list)|] == old(list) && fresh(list[|old(list)|])
                && list[|old(list)|].name.text == Copied(name) && list[|old(list)|].strategy == strategy
    {
      var body := NAME + [COLON] + AMF + name + [BAR];
      body := body + DESCRIPTION + [COLON] + description + [BAR];
      if strategy == Sum {
        body := body + TYPE + [COLON] + COUNTER + [BAR];
      } else if strategy == NoAggregation || strategy == Average {
        body := body + TYPE + [COLON] + SUMMARY + [BAR];
      }
      DefinitionInParts(name, description, strategy, body);
      if 4 + |body| > LIMIT { return FAILED, []; }
      message := DefinitionMessage(body);
      if !delivered { return FAILED, message; }
      var copy := new Name(Copied(name));
      var metric := new Metric(copy, strategy);
      AddMetric(metric);
      code := OK;
    }

    /** The walk to the end of the list. */
    method AddMetric(metric: Metric)
      requires Valid() && metric !in list && metric.next == null
      modifies this, list, metric
      ensures Valid() && list == old(list) + [metric]
    {
      if metrics == null {
        metrics := metric;
      } else {
        var last := metrics;
        ghost var k := 0;
        assert LinkedAt(0);
        while last.next != null
          invariant 0 <= k < |list| && last == list[k]
          decreases |list| - k
          modifies {}
        {
          assert LinkedAt(k);
          assert LinkedAt(k + 1);
          last := last.next;
          k := k + 1;
        }
        assert LinkedAt(k);
        forall i | 0 <= i < |list| ensures list[i] == last ==> i == k { assert LinkedAt(i); }
        last.next := metric;
      }
      metric.pos := |list|;
      list := list + [metric];
      forall i | 0 <= i < |list| ensures LinkedAt(i) {
        if i < |old(list)| { assert old(LinkedAt(i)); }
      }
    }
  }

  lemma DefinitionInParts(name: Text, description: Text, strategy: Strategy, body: Text)
    requires body == NAME + [COLON] + AMF + name + [BAR] + DESCRIPTION + [COLON] + description + [BAR] +
                     (match strategy
                      case Sum => TYPE + [COLON] + COUNTER + [BAR]
                      case NoAggregation | Average => TYPE + [COLON] + SUMMARY + [BAR]
                      case _ => [])
    ensures body == DefinitionBody(name, description, strategy)
  {
  }

  // ----- batches -----

  class Datum {
    const name: Name
    var value: U64
    var count: nat
    var next: Datum?
    ghost var pos: nat

    constructor (e: Entry)
      ensures name == e.name && value == e.value && count == e.count && next == null
    {
      name, value, count, next := e.name, e.value, e.count, null;
    }

    function Entry(): Entry
      reads this
    {
      Aggregation.Entry(name, value, count)
    }

    /** The update of an existing entry. The count of an average is a 32-bit number. */
    method Fold(strategy: Strategy, v: U64)
      requires strategy != NoAggregation && count < 0xFFFF_FFFF
      modifies this`value, this`count
      ensures Entry() == Combine(strategy, old(Entry()), v)
    {
      match strategy
      case KeepFirst =>
      case KeepLast => value := v;
      case Sum => value := (v + value as int) % WORD;
      case Min => value := if v < value then v else value;
      case Max => value := if v > value then v else value;
      case Average =>
        var sum: U64 := (v + value as int * count) % WORD;
        DivFits(sum, count + 1);
        value := sum / (count + 1);
        count := count + 1;
    }
  }

  function Entries(list: seq<Datum>): (es: seq<Entry>)
    reads list
    ensures |es| == |list| && forall i :: 0 <= i < |list| ==> es[i] == list[i].Entry()
  {
    if list == [] then [] else Entries(list[..|list| - 1]) + [list[|list| - 1].Entry()]
  }

  class Batch {
    const conn: Connection
    var data: Datum?
    var num: nat
    ghost var list: seq<Datum>

    ghost predicate LinkedAt(i: nat)
      requires i < |list|
      reads this`list, list[i]
    {
      list[i].pos == i && list[i].next == if i + 1 < |list| then list[i + 1] else null
    }

    ghost predicate Valid()
      reads this, list
    {
      && data == (if list == [] then null else list[0]) && |list| <= num
      && (forall i :: 0 <= i < |list| ==> LinkedAt(i))
    }

    ghost function Contents(): Aggregation.Batch
      reads this, list
    {
      Aggregation.Batch(Entries(list), num)
    }

    /** yagra_init_batch. */
    constructor (conn: Connection)
      ensures Valid() && this.conn == conn && list == [] && num == 0
    {
      this.conn := conn;
      data, num, list := null, 0, [];
    }

    /** The search by reference: the entry, and the one before it or the last one. */
    method Search(name: Name) returns (existing: Datum?, last: Datum?, ghost k: nat)
      requires Valid()
      ensures k == IndexOf(Entries(list), name) && k <= |list|
      ensures var i := IndexOf(Entries(list), name);
              && existing == (if i < |list| then list[i] else null)
              && last == (if 0 < i <= |list| then list[i - 1] else null)
    {
      existing, last, k := data, null, 0;
      ghost var es := Entries(list);
      assert es[0..] == es;
      while existing != null
        invariant 0 <= k <= |list| && existing == (if k < |list| then list[k] else null)
        invariant last == if k > 0 then list[k - 1] else null
        invariant IndexOf(es, name) == k + IndexOf(es[k..], name)
        decreases |list| - k
      {
        assert LinkedAt(k) && es[k..][1..] == es[k + 1..];
        if existing.name == name { return; }
        last := existing;
        existing := existing.next;
        k := k + 1;
      }
    }

    /** yagra_observe_metric. */
    method Observe(name: Name, v: U64) returns (code: int)
      requires Valid() && conn.Valid() && forall i :: 0 <= i < |list| ==> list[i].count < 0xFFFF_FFFF
      modifies this, list
      ensures Valid()
      ensures Contents() == Aggregation.Observe(Definitions(conn.list), old(Contents()), name, v)
      ensures code == if Lookup(Definitions(conn.list), name.text).None? then FAILED else OK
    {
      var metric := conn.Find(name.text);
      if metric == null { return FAILED; }
      Enter(metric, name, v, Definitions(conn.list));
      code := OK;
    }

    /** An observation of a metric that was found. */
    method Enter(metric: Metric, name: Name, v: U64, ghost defs: seq<Definition>)
      requires Valid() && Lookup(defs, name.text) == Some(metric.Definition())
      requires forall i :: 0 <= i < |list| ==> list[i].count < 0xFFFF_FFFF
      modifies this, list
      ensures Valid()
      ensures Contents() == Aggregation.Observe(defs, old(Contents()), name, v)
    {
      ObserveParts(defs, Contents(), name, v);
      hide Combine, FirstEntry, Lookup, IndexOf, Entries, Aggregation.Observe;
      var existing, last, i := Search(name);
      if existing != null && metric.strategy != NoAggregation {
        FoldAt(existing, i, metric.strategy, v);
      } else {
        Insert(FirstEntry(metric.Definition(), v), last, i);
      }
    }

    /** A new entry; without an entry before it, it becomes the whole list. */
    method Insert(e: Entry, last: Datum?, ghost i: nat)
      requires Valid() && i <= |list| && last == if i > 0 then list[i - 1] else null
      modifies this, list
      ensures Valid() && num == old(num) + 1
      ensures Entries(list) == if i == 0 then [e] else old(Entries(list)) + [e]
    {
      hide Entries;
      var node := new Datum(e);
      num := num + 1;
      if last == null {
        node.pos := 0;
        data, list := node, [node];
        assert LinkedAt(0) && Entries(list)[0] == e;
      } else {
        Link(node, last, i - 1);
      }
    }

    method FoldAt(existing: Datum, ghost i: nat, strategy: Strategy, v: U64)
      requires Valid() && i < |list| && existing == list[i] && strategy != NoAggregation && existing.count < 0xFFFF_FFFF
      modifies existing
      ensures Valid() && Contents() == old(Contents()).(entries :=
          old(Entries(list))[i := Combine(strategy, old(existing.Entry()), v)])
    {
      hide Combine;
      assert LinkedAt(i);
      forall k | 0 <= k < |list| ensures list[k] == existing ==> k == i { assert LinkedAt(k); }
      existing.Fold(strategy, v);
      forall k | 0 <= k < |list| ensures LinkedAt(k) { assert old(LinkedAt(k)); }
      forall k | 0 <= k < |list| ensures Entries(list)[k] == (if k == i then Combine(strategy, old(existing.Entry()), v)
          else old(Entries(list))[k]) { }
    }

    /** The walk from some entry to the end of the list. */
    method Link(node: Datum, from: Datum, ghost i: nat)
      requires Valid() && i < |list| && from == list[i] && node !in list && node.next == null
      modifies this`list, list, node
      ensures data == (if list == [] then null else list[0]) && forall k :: 0 <= k < |list| ==> LinkedAt(k)
      ensures list == old(list) + [node] && Entries(list) == old(Entries(list)) + [old(node.Entry())]
    {
      var last := from;
      ghost var k := i;
      while last.next != null
        invariant 0 <= k < |list| && last == list[k]
        decreases |list| - k
        modifies {}
      {
        assert LinkedAt(k);
        assert LinkedAt(k + 1);
        last := last.next;
        k := k + 1;
      }
      assert LinkedAt(k);
      forall j | 0 <= j < |list| ensures list[j] == last ==> j == k { assert LinkedAt(j); }
      last.next := node;
      node.pos := |list|;
      list := list + [node];
      forall j | 0 <= j < |list| ensures LinkedAt(j) && (j < |old(list)| ==> list[j].Entry() == old(list[j].Entry())) {
        if j < |old(list)| { assert old(LinkedAt(j)); }
      }
    }

    /** yagra_send_batch: nothing for an empty batch, no message that is too long. */
    method Send(delivered: bool) returns (code: int, message: seq<Octet>)
      requires Valid()
      ensures num == 0 ==> code == OK && message == []
      ensures num > 0 ==>
                var full := BatchMessage(num, BatchBody(Items(Entries(list))));
                && message == (if |full| > LIMIT then [] else full)
                && code == (if |full| > LIMIT || !delivered then FAILED else OK)
    {
      hide BatchBody, Items, Entries, BatchMessage;
      if num == 0 { return OK, []; }
      var body := Text();
      var fits;
      fits, message := BuildMessage(num, body);
      code := if fits && delivered then OK else FAILED;
    }

    /** The walk that prints the entries. */
    method Text() returns (body: MetricsWire.Text)
      requires Valid()
      ensures body == BatchBody(Items(Entries(list)))
    {
      body := [];
      var datum := data;
      ghost var k := 0;
      ghost var items := Items(Entries(list));
      while datum != null
        invariant 0 <= k <= |list| && datum == (if k < |list| then list[k] else null)
        invariant body == BatchBody(items[..k])
        decreases |list| - k
      {
        assert LinkedAt(k);
        assert items[..k + 1][..k] == items[..k] && items[k] == Item(datum.name.text, datum.value);
        hide Printed;
        body := body + (AMF + datum.name.text + [COLON] + Printed(datum.value) + [BAR]);
        datum := datum.next;
        k := k + 1;
      }
      assert items[..k] == items;
    }
  }

  /** The branches of one observation. */
  lemma {:induction false} ObserveParts(defs: seq<Definition>, b: Aggregation.Batch, name: Name, v: U64)
    ensures
      var d := Lookup(defs, name.text);
      var i := IndexOf(b.entries, name);
      var c := Aggregation.Observe(defs, b, name, v);
      if d.None? then c == b
      else if i < |b.entries| && d.value.strategy != NoAggregation then
        c == b.(entries := b.entries[i := Combine(d.value.strategy, b.entries[i], v)])
      else
        var entry := FirstEntry(d.value, v);
        c == Aggregation.Batch(if i == 0 then [entry] else b.entries + [entry], b.num + 1)
  {
  }

  lemma {:induction false} MessageParts(num: nat, body: MetricsWire.Text)
    ensures var k := ByteCount(PER_METRIC * num);
            BatchMessage(num, body) == [MARK, MARK, k % 256] + Little(|body|, k) + body
                && |BatchMessage(num, body)| == 3 + k + |body|
  {
  }

  /** The entries as the bus is to see them. */
  function Items(es: seq<Entry>): (items: seq<Item>)
    ensures |items| == |es| && forall i :: 0 <= i < |es| ==> items[i] == Item(es[i].name.text, es[i].value)
  {
    if es == [] then [] else Items(es[..|es| - 1]) + [Item(es[|es| - 1].name.text, es[|es| - 1].value)]
  }

  /** A batch message, if it is not too long. */
  method BuildMessage(num: nat, body: MetricsWire.Text) returns (fits: bool, message: seq<Octet>)
    ensures fits <==> |BatchMessage(num, body)| <= LIMIT
    ensures message == if fits then BatchMessage(num, body) else []
  {
    hide ByteCount, Little;
    var bytes := CountBytes(PER_METRIC * num);
    MessageParts(num, body);
    if 3 + bytes + |body| > LIMIT { return false, []; }
    var length := LengthBytes(|body|, bytes);
    return true, [MARK, MARK, bytes % 256] + length + body;
  }

  /** The loop that writes a length, lowest byte first. */
  method LengthBytes(n: nat, bytes: nat) returns (b: seq<Octet>)
    ensures b == Little(n, bytes)
  {
    b := [];
    var rest := n;
    for i := 0 to bytes
      invariant b + Little(rest, bytes - i) == Little(n, bytes)
    {
      assert Little(rest, bytes - i) == [rest % 256] + Little(rest / 256, bytes - i - 1);
      Assoc(b, [rest % 256], Little(rest / 256, bytes - i - 1));
      var low: Octet := rest % 256;
      b := b + [low];
      rest := rest / 256;
    }
    assert b + [] == b;
  }

  /** The loop that counts the bytes of the estimate. */
  method CountBytes(n: nat) returns (bytes: nat)
    ensures bytes == ByteCount(n)
  {
    bytes := 0;
    var rest := n;
    while rest > 0
      invariant bytes + ByteCount(rest) == ByteCount(n)
    {
      rest := rest / 256;
      bytes := bytes + 1;
    }
  }
}
