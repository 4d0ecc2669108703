/** Client and bus together: any concatenation of Yagra messages is split into exactly their bodies, and every body
    gives back the metric or the name and value list it was made from. */
module MetricsTheorems {
  import opened Aggregation
  import opened Arithmetic
  import opened Bytes
  import opened MetricsBus
  import opened MetricsWire
  import opened Slices
  import Yagra

  // ----- framing -----

  /** A body that a definition message can announce. The bus reads 1024 bytes of it as the body; what is left is taken
      for the next messages. */
  lemma {:induction false} DefinitionFramed(body: Text, rest: seq<Octet>)
    requires 0 < |body| < 0x1_0000
    ensures var n := if |body| <= 1024 then |body| else 1024;
            Frames(DefinitionMessage(body) + rest) == [DefinitionFrame(body[..n])] + Frames(body[n..] + rest)
  {
    var q := DefinitionMessage(body) + rest;
    var n := |body|;
    hide Frames, BodyFrames;
    assert q[0] == MARK && q[1] == DEFINITION_MARK && q[2] == n % 256 && q[3] == n / 256 % 256;
    assert HeadOf(q) == Body(4, n, false) by { assert n == n / 256 * 256 + n % 256 && n / 256 < 256; }
    Turn(q);
    assert q[4..] == body + rest;
    BodyThenRest(body, rest, false);
  }

  lemma {:induction false} BodyThenRest(body: Text, rest: seq<Octet>, batch: bool)
    requires 0 < |body|
    ensures var n := if |body| <= 1024 then |body| else 1024;
            BodyFrames(body + rest, |body|, batch) ==
            [if batch then BatchFrame(body[..n]) else DefinitionFrame(body[..n])] + Frames(body[n..] + rest)
  {
    var n := if |body| <= 1024 then |body| else 1024;
    assert (body + rest)[..n] == body[..n] && (body + rest)[n..] == body[n..] + rest;
  }

  /** A body whose length fits the announced number of length bytes. */
  lemma {:induction false} BatchFramed(num: nat, body: Text, rest: seq<Octet>)
    requires 0 < |body| && 0 < ByteCount(PER_METRIC * num) <= WORD_BYTES
    requires |body| < Pow256(ByteCount(PER_METRIC * num))
    ensures var n := if |body| <= 1024 then |body| else 1024;
            Frames(BatchMessage(num, body) + rest) == [BatchFrame(body[..n])] + Frames(body[n..] + rest)
  {
    var k := ByteCount(PER_METRIC * num);
    var length := Little(|body|, k);
    LittleRoundTrip(|body|, k);
    var q := BatchMessage(num, body) + rest;
    assert q == [MARK, MARK, k] + length + body + rest;
    hide Frames, BodyFrames, ByteCount, Little, LittleValue, Pow256, BatchMessage;
    HeadOfBatch(k, length, body + rest, q);
    Turn(q);
    BodyThenRest(body, rest, true);
  }

  lemma {:induction false} HeadOfBatch(k: nat, length: seq<Octet>, rest: seq<Octet>, q: seq<Octet>)
    requires 0 < k <= WORD_BYTES && |length| == k && q == [MARK, MARK, k] + length + rest
    ensures q != [] && HeadOf(q) == Body(3 + k, LittleValue(length), true) && q[3 + k..] == rest
  {
    hide LittleValue;
    assert q[0] == MARK && q[1] == MARK && q[2] == k && q[3..3 + k] == length;
  }

  // ----- what the client sends -----

  /** Neither separator of the text format. */
  predicate Plain(t: Text) {
    BAR !in t && NEWLINE !in t
  }

  datatype Message = Definition(name: Text, description: Text, strategy: Strategy) | Observations(items: seq<Item>,
      num: nat)

  function BodyOf(m: Message): Text {
    match m
    case Definition(name, description, strategy) => DefinitionBody(name, description, strategy)
    case Observations(items, num) => BatchBody(items)
  }

  function Wire(m: Message): seq<Octet> {
    if m.Definition? then DefinitionMessage(BodyOf(m)) else BatchMessage(m.num, BodyOf(m))
  }

  /** What yagra_define_metric and yagra_send_batch send: not more than 512 bytes, a batch that is not empty, and names
      that are not cut off. num_metrics is at most the largest int. */
  predicate Sendable(m: Message) {
    && |Wire(m)| <= LIMIT
    && (m.Observations? ==> 0 < |m.items| <= m.num < 0x8000_0000 && forall k :: 0 <= k < |m.items| ==>
       |m.items[k].name| <= LONGEST_NAME)
  }

  /** Names and descriptions do not contain what separates them. */
  predicate Readable(m: Message) {
    match m
    case Definition(name, description, _) => Plain(name) && Plain(description)
    case Observations(items, _) => forall k :: 0 <= k < |items| ==> Plain(items[k].name) && COLON !in items[k].name
  }

  function FrameOf(m: Message): Frame {
    if m.Definition? then DefinitionFrame(BodyOf(m)) else BatchFrame(BodyOf(m))
  }

  lemma {:induction false} Framed(m: Message, rest: seq<Octet>)
    requires Sendable(m)
    ensures Frames(Wire(m) + rest) == [FrameOf(m)] + Frames(rest)
  {
    hide Frames, ByteCount, BatchBody, DefinitionBody, BatchMessage, DefinitionMessage, Pow256;
    var body := BodyOf(m);
    WholeBody(body, rest);
    if m.Definition? {
      MessageLength(0, body);
      NoEmptyDefinition(m.name, m.description, m.strategy);
      DefinitionFramed(body, rest);
    } else {
      MessageLength(m.num, body);
      EstimateSuffices(m.items);
      BatchNotEmpty(m.items);
      CountFits(m.num);
      BatchFramed(m.num, body, rest);
    }
  }

  lemma WholeBody(body: Text, rest: seq<Octet>)
    ensures body[..|body|] == body && body[|body|..] + rest == rest
  {
  }

  lemma MessageLength(num: nat, body: Text)
    ensures |DefinitionMessage(body)| >= |body| && |BatchMessage(num, body)| >= |body|
  {
  }

  lemma NoEmptyDefinition(name: Text, description: Text, strategy: Strategy)
    ensures |DefinitionBody(name, description, strategy)| > 0
  {
  }

  lemma {:induction false} BatchNotEmpty(items: seq<Item>)
    requires items != []
    ensures |BatchBody(items)| > 0
  {
  }

  lemma {:induction false} CountFits(num: nat)
    requires 0 < num < 0x8000_0000
    ensures 0 < ByteCount(PER_METRIC * num) <= WORD_BYTES
  {
    assert Pow256(2) == 0x1_0000 && Pow256(4) == 0x1_0000_0000;
    assert Pow256(5) == 0x100_0000_0000;
    hide Pow256;
    ByteCountBounded(PER_METRIC * num, 5);
  }

  function WireAll(ms: seq<Message>): seq<Octet> {
    if ms == [] then [] else Wire(ms[0]) + WireAll(ms[1..])
  }

  function FramesOf(ms: seq<Message>): seq<Frame> {
    if ms == [] then [] else [FrameOf(ms[0])] + FramesOf(ms[1..])
  }

  /** The bus splits any concatenation of messages into their bodies, in order, whatever the bodies contain. */
  lemma {:induction false} StreamSplits(ms: seq<Message>)
    requires forall k :: 0 <= k < |ms| ==> Sendable(ms[k])
    ensures Frames(WireAll(ms)) == FramesOf(ms)
  {
    hide Wire, FrameOf, Sendable, HeadOf, BodyFrames;
    if ms != [] {
      Framed(ms[0], WireAll(ms[1..]));
      StreamSplits(ms[1..]);
    }
  }

  // ----- bodies -----

  lemma {:induction false} FindFirst(t: Text, c: Octet, rest: Text)
    requires c !in t
    ensures Find(t + [c] + rest, c) == |t| && Find(t, c) == |t|
  {
    if t == [] {
      assert t + [c] + rest == [c] + rest;
    } else {
      assert (t + [c] + rest)[1..] == t[1..] + [c] + rest;
      FindFirst(t[1..], c, rest);
    }
  }

  lemma {:induction false} OneLine(t: Text, c: Octet, rest: Text)
    requires c !in t
    ensures GetLines(t + [c] + rest, c) == [t] + GetLines(rest, c)
    ensures t != [] ==> GetLines(t, c) == [t]
  {
    FindFirst(t, c, rest);
    var s := t + [c] + rest;
    assert s[..|t|] == t && s[|t| + 1..] == rest && s[|t|..] == [c] + rest;
    if rest == [] { assert GetLines(rest, c) == []; }
    assert t[..|t|] == t;
  }

  lemma Split(key: Text, value: Text)
    requires COLON !in key
    ensures KeyValue(key + [COLON] + value) == Pair(key, value)
  {
    FindFirst(key, COLON, value);
    var s := key + [COLON] + value;
    assert s[..|key|] == key && s[|key| + 1..] == value;
  }

  function PairsFor(items: seq<Item>): seq<Pair> {
    if items == [] then [] else [Pair(AMF + items[0].name, Printed(items[0].value))] + PairsFor(items[1..])
  }

  lemma {:induction false} BatchFromFront(x: Item, items: seq<Item>)
    ensures BatchBody([x] + items) == ItemText(x) + BatchBody(items)
  {
    hide ItemText;
    if items == [] {
      assert [x] + items == [x] && [x][..0] == [];
      assert BatchBody([x]) == BatchBody([]) + ItemText(x);
    } else {
      var front, y := items[..|items| - 1], items[|items| - 1];
      assert ([x] + items)[..|items|] == [x] + front;
      BatchFromFront(x, front);
      Assoc(ItemText(x), BatchBody(front), ItemText(y));
    }
  }

  lemma PrintedIsPlain(v: U64)
    ensures Plain(Printed(v))
  {
  }

  lemma AmfIsPlain(name: Text)
    ensures Plain(name) ==> Plain(AMF + name)
    ensures COLON !in name ==> COLON !in AMF + name
  {
  }

  lemma {:induction false} BatchPairs(items: seq<Item>)
    requires forall k :: 0 <= k < |items| ==> Plain(items[k].name) && COLON !in items[k].name
    ensures PairsOf(GetLines(BatchBody(items), BAR)) == PairsFor(items) && NEWLINE !in BatchBody(items)
  {
    hide Printed;
    if items != [] {
      var x, tail := items[0], items[1..];
      assert items == [x] + tail;
      BatchFromFront(x, tail);
      BatchPairs(tail);
      hide BatchBody, GetLines;
      PrintedIsPlain(x.value);
      AmfIsPlain(x.name);
      var piece := AMF + x.name + [COLON] + Printed(x.value);
      assert ItemText(x) + BatchBody(tail) == piece + [BAR] + BatchBody(tail);
      OneLine(piece, BAR, BatchBody(tail));
      Split(AMF + x.name, Printed(x.value));
    }
  }

  /** A body without newlines is one line. */
  lemma {:induction false} OneLineBody(body: Text)
    requires body != [] && NEWLINE !in body
    ensures ParseBody(body) == [PairsOf(GetLines(body, BAR))]
  {
    assert GetLines(body, NEWLINE) == [body] by { OneLine(body, NEWLINE, []); }
    hide GetLines, PairsOf;
    assert [body][1..] == [] && PairLines([]) == [];
  }

  /** The bus reads back the name and value list of a batch. */
  lemma {:induction false} BatchRoundTrip(items: seq<Item>)
    requires items != [] && forall k :: 0 <= k < |items| ==> Plain(items[k].name) && COLON !in items[k].name
    ensures ParseBody(BatchBody(items)) == [PairsFor(items)]
  {
    BatchPairs(items);
    BatchNotEmpty(items);
    hide BatchBody;
    OneLineBody(BatchBody(items));
  }

  /** The pairs of a definition body. */
  function DefinitionPairs(name: Text, description: Text, strategy: Strategy): seq<Pair> {
    [Pair(NAME, AMF + name), Pair(DESCRIPTION, description)] + if TypeText(strategy) == [] then []
        else [Pair(TYPE, TypeText(strategy))]
  }

  lemma KeysArePlain(strategy: Strategy)
    ensures Plain(NAME) && Plain(DESCRIPTION) && Plain(TYPE) && Plain(TypeText(strategy))
    ensures COLON !in NAME && COLON !in DESCRIPTION && COLON !in TYPE
  {
  }

  lemma {:induction false} OnePart(key: Text, value: Text, rest: Text)
    requires Plain(key) && COLON !in key && Plain(value)
    ensures PairsOf(GetLines(key + [COLON] + value + [BAR] + rest, BAR)) == [Pair(key, value)] +
        PairsOf(GetLines(rest, BAR))
    ensures NEWLINE !in rest ==> NEWLINE !in key + [COLON] + value + [BAR] + rest
  {
    hide GetLines;
    OneLine(key + [COLON] + value, BAR, rest);
    Split(key, value);
  }

  lemma DefinitionSplits(name: Text, description: Text, strategy: Strategy)
    requires Plain(name) && Plain(description)
    ensures var body := DefinitionBody(name, description, strategy);
            PairsOf(GetLines(body, BAR)) == DefinitionPairs(name, description, strategy) && NEWLINE !in body
                && body != []
  {
    KeysArePlain(strategy);
    AmfIsPlain(name);
    var last := TypePart(strategy);
    var second := DESCRIPTION + [COLON] + description + [BAR] + last;
    TypeSplits(strategy);
    hide GetLines, TypePart, Plain, PairsOf;
    OnePart(DESCRIPTION, description, last);
    OnePart(NAME, AMF + name, second);
    assert DefinitionBody(name, description, strategy) == NAME + [COLON] + (AMF + name) + [BAR] + second;
  }

  lemma TypeSplits(strategy: Strategy)
    ensures NEWLINE !in TypePart(strategy)
    ensures PairsOf(GetLines(TypePart(strategy), BAR)) == if TypeText(strategy) == [] then []
        else [Pair(TYPE, TypeText(strategy))]
  {
    KeysArePlain(strategy);
    var t := TypeText(strategy);
    if t != [] {
      OnePart(TYPE, t, []);
      assert TypePart(strategy) == TYPE + [COLON] + t + [BAR] + [];
    }
  }

  /** The bus reads back the name, the description and the type of a definition. */
  lemma DefinitionRoundTrip(name: Text, description: Text, strategy: Strategy)
    requires Plain(name) && Plain(description)
    ensures ParseBody(DefinitionBody(name, description, strategy)) == [DefinitionPairs(name, description, strategy)]
    ensures DefinedBy(DefinitionPairs(name, description, strategy), Metric([], [], [])) == Metric(AMF + name,
        description, TypeText(strategy))
  {
    DefinitionSplits(name, description, strategy);
    hide DefinitionBody, GetLines, PairsOf, DefinedBy, DefinitionPairs;
    OneLineBody(DefinitionBody(name, description, strategy));
    LastOfEach(name, description, strategy);
  }

  lemma LastOfEach(name: Text, description: Text, strategy: Strategy)
    ensures DefinedBy(DefinitionPairs(name, description, strategy), Metric([], [], [])) == Metric(AMF + name,
        description, TypeText(strategy))
  {
    var pairs := DefinitionPairs(name, description, strategy);
    var t := TypeText(strategy);
    assert NAME[0] != TYPE[0] && |NAME| != |DESCRIPTION| && |TYPE| != |DESCRIPTION|;
    hide TypeText;
    var m1 := Metric(AMF + name, [], []);
    var m2 := Metric(AMF + name, description, []);
    assert pairs[0] == Pair(NAME, AMF + name) && pairs[1..][0] == Pair(DESCRIPTION, description);
    assert DefinedBy(pairs, Metric([], [], [])) == DefinedBy(pairs[1..], m1);
    assert DefinedBy(pairs[1..], m1) == DefinedBy(pairs[1..][1..], m2);
    if t == [] {
      assert pairs[1..][1..] == [];
    } else {
      assert pairs[1..][1..] == [Pair(TYPE, t)] && [Pair(TYPE, t)][1..] == [];
      assert DefinedBy([Pair(TYPE, t)], m2) == DefinedBy([], Metric(AMF + name, description, t));
    }
  }

  // ----- the whole stream -----

  function EventOf(m: Message): Event {
    match m
    case Definition(name, description, strategy) => Defined(Metric(AMF + name, description, TypeText(strategy)))
    case Observations(items, _) => Observed(PairsFor(items))
  }

  function EventsOf(ms: seq<Message>): seq<Event> {
    if ms == [] then [] else [EventOf(ms[0])] + EventsOf(ms[1..])
  }

  lemma FrameRead(m: Message)
    requires Sendable(m) && Readable(m)
    ensures FrameEvents(FrameOf(m)) == [EventOf(m)]
  {
    match m
    case Definition(name, description, strategy) =>
      DefinitionRoundTrip(name, description, strategy);
      OneEvent(DefinitionPairs(name, description, strategy), false);
      hide ParseBody, DefinitionBody, DefinedBy, DefinitionPairs, LineEvents;
    case Observations(items, _) =>
      BatchRoundTrip(items);
      OneEvent(PairsFor(items), true);
      hide ParseBody, BatchBody, PairsFor, LineEvents;
  }

  lemma {:induction false} OneEvent(pairs: seq<Pair>, batch: bool)
    ensures LineEvents([pairs], batch) == [if batch then Observed(pairs)
        else Defined(DefinedBy(pairs, Metric([], [], [])))]
  {
    hide DefinedBy;
    assert [pairs][1..] == [] && LineEvents([], batch) == [];
  }

  /** Whatever metrics a client defines and whatever batches it sends, in any order, the bus registers exactly these
      metrics and observes exactly these values, in that order. */
  lemma {:induction false} BusSeesWhatClientSent(ms: seq<Message>)
    requires forall k :: 0 <= k < |ms| ==> Sendable(ms[k]) && Readable(ms[k])
    ensures Events(Frames(WireAll(ms))) == EventsOf(ms)
  {
    StreamSplits(ms);
    FramesRead(ms);
  }

  lemma {:induction false} FramesRead(ms: seq<Message>)
    requires forall k :: 0 <= k < |ms| ==> Sendable(ms[k]) && Readable(ms[k])
    ensures Events(FramesOf(ms)) == EventsOf(ms)
  {
    hide FrameEvents, FrameOf, Sendable, Readable, EventOf;
    if ms != [] {
      FrameRead(ms[0]);
      FramesRead(ms[1..]);
    }
  }

  /** Every observed metric was defined before. */
  predicate DefinedFirst(ms: seq<Message>, known: set<Text>)
    decreases |ms|
  {
    ms == [] ||
    (match ms[0]
     case Definition(name, _, _) => DefinedFirst(ms[1..], known + {AMF + name})
     case Observations(items, _) => AllKnown(items, known) && DefinedFirst(ms[1..], known))
  }

  predicate AllKnown(items: seq<Item>, known: set<Text>) {
    forall k :: 0 <= k < |items| ==> AMF + items[k].name in known
  }

  function BatchesOf(ms: seq<Message>): seq<seq<Pair>> {
    if ms == [] then [] else (if ms[0].Observations? then [PairsFor(ms[0].items)] else []) + BatchesOf(ms[1..])
  }

  lemma {:induction false} AllPairsKnown(items: seq<Item>, known: map<Text, Text>)
    requires AllKnown(items, known.Keys)
    ensures KnownPairs(PairsFor(items), known) == PairsFor(items)
  {
    hide Printed;
    if items != [] {
      AllPairsKnown(items[1..], known);
      assert PairsFor(items)[1..] == PairsFor(items[1..]);
      assert AMF + items[0].name in known.Keys;
    }
  }

  lemma {:induction false} NothingIgnored(ms: seq<Message>, known: map<Text, Text>)
    requires DefinedFirst(ms, known.Keys)
    ensures Recorded(EventsOf(ms), known) == BatchesOf(ms)
    decreases |ms|
  {
    hide PairsFor, KnownPairs, AllKnown, TypeText;
    if ms != [] {
      assert EventsOf(ms)[0] == EventOf(ms[0]) && EventsOf(ms)[1..] == EventsOf(ms[1..]);
      match ms[0]
      case Definition(name, description, strategy) =>
        var next := Register(known, Metric(AMF + name, description, TypeText(strategy)));
        assert next.Keys == known.Keys + {AMF + name};
        NothingIgnored(ms[1..], next);
      case Observations(items, _) =>
        AllPairsKnown(items, known);
        NothingIgnored(ms[1..], known);
    }
  }

  /** When a client defines each metric before it observes it, the bus records every value of every batch. */
  lemma {:induction false} EverythingRecorded(ms: seq<Message>)
    requires forall k :: 0 <= k < |ms| ==> Sendable(ms[k]) && Readable(ms[k])
    requires DefinedFirst(ms, {})
    ensures Recorded(Events(Frames(WireAll(ms))), map[]) == BatchesOf(ms)
  {
    hide Sendable, Readable, Frames, WireAll, Events, EventsOf, Recorded, BatchesOf, DefinedFirst;
    BusSeesWhatClientSent(ms);
    var none: map<Text, Text> := map[];
    assert none.Keys == {};
    NothingIgnored(ms, none);
  }

  /** The kind with which a metric is first defined. */
  function FirstKind(ms: seq<Message>, key: Text): Option<Text> {
    if ms == [] then None
    else if ms[0].Definition? && AMF + ms[0].name == key then Some(TypeText(ms[0].strategy))
    else FirstKind(ms[1..], key)
  }

  lemma {:induction false} RegistryHolds(ms: seq<Message>, known: map<Text, Text>, key: Text)
    ensures var r := Registry(EventsOf(ms), known);
            if key in known then key in r && r[key] == known[key]
            else if FirstKind(ms, key).Some? then key in r && r[key] == FirstKind(ms, key).value
            else key !in r
    decreases |ms|
  {
    hide TypeText, PairsFor;
    if ms != [] {
      assert EventsOf(ms)[0] == EventOf(ms[0]) && EventsOf(ms)[1..] == EventsOf(ms[1..]);
      match ms[0]
      case Definition(name, description, strategy) =>
        RegistryHolds(ms[1..], Register(known, Metric(AMF + name, description, TypeText(strategy))), key);
      case Observations(items, _) => RegistryHolds(ms[1..], known, key);
    }
  }

  /** The bus registers exactly the metrics that a client defines, each with the kind of its first definition. */
  lemma {:induction false} FirstDefinitionCounts(ms: seq<Message>, key: Text)
    requires forall k :: 0 <= k < |ms| ==> Sendable(ms[k]) && Readable(ms[k])
    ensures var r := Registry(Events(Frames(WireAll(ms))), map[]);
            && (key in r <==> FirstKind(ms, key).Some?)
            && (key in r ==> r[key] == FirstKind(ms, key).value)
  {
    hide Sendable, Readable, Frames, WireAll, Events, EventsOf, Registry, FirstKind;
    BusSeesWhatClientSent(ms);
    RegistryHolds(ms, map[], key);
  }

  // ----- from observations to the bus -----

  lemma {:induction false} PairsAt(items: seq<Item>, i: nat)
    requires i < |items|
    ensures |PairsFor(items)| == |items| && PairsFor(items)[i] == Pair(AMF + items[i].name, Printed(items[i].value))
  {
    hide Printed;
    if i > 0 {
      PairsAt(items[1..], i - 1);
    } else if |items| > 1 {
      PairsAt(items[1..], 0);
    }
  }

  /** A name that the text format can carry. */
  predicate Sound(name: Name) {
    Plain(name.text) && COLON !in name.text && |name.text| <= LONGEST_NAME
  }

  /** The item of an entry: the name and the fold of the values it collected. */
  predicate IsFold(item: Item, defs: seq<Aggregation.Definition>, obs: seq<Observation>, k: nat) {
    && k < |obs| && Lookup(defs, obs[k].name.text).Some? && Sound(obs[k].name)
    && item == Item(obs[k].name.text, Fold(Lookup(defs, obs[k].name.text).value, Share(defs, obs, k)).value)
  }

  /** The pair of an entry: the prefixed name of the metric and the printed fold of the values it collected. */
  predicate Reports(p: Pair, defs: seq<Aggregation.Definition>, obs: seq<Observation>, k: nat) {
    && k < |obs| && Lookup(defs, obs[k].name.text).Some? && p.key == AMF + obs[k].name.text
    && PrintedValue(p.value) == Signed(Fold(Lookup(defs, obs[k].name.text).value, Share(defs, obs, k)).value)
  }

  /** Known metrics have such names. */
  predicate NamesSound(defs: seq<Aggregation.Definition>, obs: seq<Observation>) {
    forall k :: 0 <= k < |obs| && Lookup(defs, obs[k].name.text).Some? ==> Sound(obs[k].name)
  }

  function MessageOf(b: Aggregation.Batch): Message {
    Observations(Yagra.Items(b.entries), b.num)
  }

  /** The bus reads out of the message of a batch, in order, one pair for each opening observation: the metric's name
      and the fold of the values that the entry collected. With EntriesAreFolds these are all values of the metric. */
  lemma {:induction false} AggregatesArrive(defs: seq<Aggregation.Definition>, obs: seq<Observation>)
    requires |obs| < 0x8000_0000 && NamesSound(defs, obs) && !Loses(defs, obs) && Openings(defs, obs) != []
    requires |Wire(MessageOf(ObserveAll(defs, obs)))| <= LIMIT
    ensures var m, ks := MessageOf(ObserveAll(defs, obs)), Openings(defs, obs); var pairs := PairsFor(m.items);
            && Events(Frames(Wire(m))) == [Observed(pairs)]
            && |pairs| == |ks| && forall i :: 0 <= i < |pairs| ==> Reports(pairs[i], defs, obs, ks[i])
  {
    var m := MessageOf(ObserveAll(defs, obs));
    ItemsOfFolds(defs, obs);
    hide ObserveAll, Openings, BatchBody, BatchMessage, PairsFor, Sound, Reports, Frames, FrameEvents, Yagra.Items,
        Loses, Share;
    GoodBatch(m, defs, obs);
    hide Sendable, Readable, Wire, IsFold, MessageOf;
    OneMessage(m);
    PairsReport(defs, obs, m.items);
  }

  lemma {:induction false} GoodBatch(m: Message, defs: seq<Aggregation.Definition>, obs: seq<Observation>)
    requires m.Observations? && 0 < |m.items| <= m.num < 0x8000_0000 && |Wire(m)| <= LIMIT
    requires |m.items| == |Openings(defs, obs)|
    requires forall i :: 0 <= i < |m.items| ==> IsFold(m.items[i], defs, obs, Openings(defs, obs)[i])
    ensures Sendable(m) && Readable(m)
  {
    hide Plain, Wire, Share, Fold, Openings, Lookup;
  }

  lemma {:induction false} PairsReport(defs: seq<Aggregation.Definition>, obs: seq<Observation>, items: seq<Item>)
    requires 0 < |items| == |Openings(defs, obs)|
    requires forall i :: 0 <= i < |items| ==> IsFold(items[i], defs, obs, Openings(defs, obs)[i])
    ensures var pairs := PairsFor(items);
            |pairs| == |items| && forall i :: 0 <= i < |pairs| ==> Reports(pairs[i], defs, obs, Openings(defs, obs)[i])
  {
    hide Openings, Fold, Share, Printed, PrintedValue, Signed, Lookup, PairsFor, Sound;
    PairsAt(items, 0);
    forall i | 0 <= i < |items| ensures Reports(PairsFor(items)[i], defs, obs, Openings(defs, obs)[i]) {
      assert IsFold(items[i], defs, obs, Openings(defs, obs)[i]);
      PairsAt(items, i);
      PrintedRoundTrip(items[i].value);
    }
  }

  lemma {:induction false} ItemsOfFolds(defs: seq<Aggregation.Definition>, obs: seq<Observation>)
    requires NamesSound(defs, obs) && !Loses(defs, obs)
    ensures var b, ks := ObserveAll(defs, obs), Openings(defs, obs); var items := Yagra.Items(b.entries);
            && b.num == |items| == |ks| <= |obs|
            && forall i :: 0 <= i < |ks| ==> IsFold(items[i], defs, obs, ks[i])
  {
    EntriesExactly(defs, obs);
    OpeningsAre(defs, obs);
    hide ObserveAll, Openings, Fold, Share, Lookup, Loses, Sound;
    var b, ks := ObserveAll(defs, obs), Openings(defs, obs);
    forall i | 0 <= i < |ks| ensures IsFold(Yagra.Items(b.entries)[i], defs, obs, ks[i]) {
      assert EntryOf(defs, obs, b.entries[i], ks[i]);
      EntryName(defs, obs, b.entries[i], ks[i]);
    }
  }

  lemma OneMessage(m: Message)
    requires Sendable(m) && Readable(m)
    ensures Events(Frames(Wire(m))) == [EventOf(m)]
  {
    BusSeesWhatClientSent([m]);
    hide Wire, Frames, EventOf;
    assert [m][1..] == [] && WireAll([]) == [] && EventsOf([]) == [];
    assert Wire(m) + [] == Wire(m);
  }
}
