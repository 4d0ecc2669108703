/** The worker of the metrics bus (core-metrics-bus/source/main.cpp): it finds the messages in the stream of bytes of
    a connection and takes them apart. */
module MetricsBus {
  import opened Bytes
  import opened MetricsWire
  import opened Slices

  // ----- framing -----

  /** A message body; Undefined stands for a length field that the worker cannot hold. */
  datatype Frame = DefinitionFrame(body: Text) | BatchFrame(body: Text) | Undefined

  /** The worker's buffer for bodies, and the most length bytes that fit its size_t. */
  const BUFFER: nat := 1024
  const WORD_BYTES: nat := 8

  function Clipped(n: nat): nat {
    if n <= BUFFER then n else BUFFER
  }

  /** What the front of a stream is: bytes to pass over, a body of some length from some byte on, a length field that
      is too long, or the end in the middle of a header. */
  datatype Head = Skip(bytes: nat) | Body(start: nat, length: nat, batch: bool) | TooLong | End

  function HeadOf(q: seq<Octet>): (h: Head)
    requires q != []
    ensures h.Skip? ==> 1 <= h.bytes <= |q|
    ensures h.Body? ==> 1 <= h.start <= |q|
  {
    if q[0] != MARK then Skip(1)
    else if |q| == 1 then End
    else if q[1] == DEFINITION_MARK then
      if |q| < 4 then End else Body(4, q[2] as int + 256 * q[3] as int, false)
    else if q[1] == MARK then
      if |q| < 3 || |q| < 3 + q[2] as int then End
      else if q[2] == 0 then Skip(3)
      else if q[2] as int > WORD_BYTES then TooLong
      else Body(3 + q[2] as int, LittleValue(q[3..3 + q[2] as int]), true)
    else Skip(2)
  }

  /** A body of n bytes, if they all arrive; an empty one is passed over. */
  function BodyFrames(q: seq<Octet>, n: nat, batch: bool): seq<Frame>
    decreases |q|, 1
  {
    if Clipped(n) > |q| then []
    else if n == 0 then Frames(q)
    else [if batch then BatchFrame(q[..Clipped(n)]) else DefinitionFrame(q[..Clipped(n)])] + Frames(q[Clipped(n)..])
  }

  /** The messages in a stream that ends after q. */
  function Frames(q: seq<Octet>): seq<Frame>
    decreases |q|, 0
  {
    if q == [] then []
    else
      match HeadOf(q)
      case Skip(n) => Frames(q[n..])
      case Body(start, n, batch) => BodyFrames(q[start..], n, batch)
      case TooLong => [Undefined]
      case End => []
  }

  /** The reads up to a body. */
  method ReadHead(q: seq<Octet>, i: nat) returns (h: Head)
    requires i < |q|
    ensures h == HeadOf(q[i..])
  {
    ghost var rest := q[i..];
    if q[i] != MARK { return Skip(1); }
    if i + 1 == |q| { return End; }
    if q[i + 1] != MARK && q[i + 1] != DEFINITION_MARK { return Skip(2); }
    if q[i + 1] == DEFINITION_MARK {
      if i + 4 > |q| { return End; }
      return Body(4, q[i + 2] as int + 256 * q[i + 3] as int, false);
    }
    if i + 2 == |q| || i + 3 + q[i + 2] as int > |q| { return End; }
    var k: nat := q[i + 2] as int;
    if k == 0 { return Skip(3); }
    if k > WORD_BYTES { return TooLong; }
    assert rest[3..3 + k] == q[i + 3..i + 3 + k];
    var length := ReadLength(q[i + 3..i + 3 + k]);
    h := Body(3 + k, length, true);
  }

  /** The read of a body; an empty one is dropped, and a stream that ends too early gives None. */
  method ReadBody(q: seq<Octet>, i: nat, length: nat, batch: bool) returns (body: Option<seq<Frame>>)
    requires i <= |q|
    ensures body.None? ==> BodyFrames(q[i..], length, batch) == []
    ensures body.Some? ==> |body.value| <= 1 && i + Clipped(length) <= |q|
                           && BodyFrames(q[i..], length, batch) == body.value + Frames(q[i + Clipped(length)..])
  {
    var n := Clipped(length);
    if i + n > |q| { return None; }
    assert q[i..][..n] == q[i..i + n] && q[i..][n..] == q[i + n..];
    if length == 0 { return Some([]); }
    body := Some([if batch then BatchFrame(q[i..i + n]) else DefinitionFrame(q[i..i + n])]);
  }

  /** One turn of the worker. */
  lemma {:induction false} Turn(q: seq<Octet>)
    requires q != []
    ensures HeadOf(q).Skip? ==> Frames(q) == Frames(q[HeadOf(q).bytes..])
    ensures HeadOf(q).TooLong? ==> Frames(q) == [Undefined]
    ensures HeadOf(q).End? ==> Frames(q) == []
    ensures HeadOf(q).Body? ==> Frames(q) == BodyFrames(q[HeadOf(q).start..], HeadOf(q).length, HeadOf(q).batch)
  {
  }

  /** The length bytes are put together from the lowest on. */
  method ReadLength(b: seq<Octet>) returns (n: nat)
    ensures n == LittleValue(b)
  {
    n := 0;
    var place := 1;
    for k := 0 to |b|
      invariant place > 0 && n + place * LittleValue(b[k..]) == LittleValue(b)
    {
      assert b[k..][1..] == b[k + 1..];
      MulStep(place, b[k] as int, LittleValue(b[k + 1..]));
      n := n + place * b[k] as int;
      place := place * 256;
    }
  }

  lemma MulStep(p: int, a: int, r: int)
    ensures p * (a + 256 * r) == p * a + (p * 256) * r
  {
  }

  // ----- text -----

  function Find(t: Text, c: Octet): (i: nat)
    ensures i <= |t| && (i < |t| ==> t[i] == c) && c !in t[..i]
  {
    if t == [] || t[0] == c then 0
    else
      assert t[..1 + Find(t[1..], c)] == [t[0]] + t[1..][..Find(t[1..], c)];
      1 + Find(t[1..], c)
  }

  /** The pieces std::getline takes from a stream, up to its end. */
  function GetLines(t: Text, c: Octet): seq<Text>
    decreases |t|
  {
    if t == [] then []
    else
      var i := Find(t, c);
      [t[..i]] + if i == |t| then [] else GetLines(t[i + 1..], c)
  }

  datatype Pair = Pair(key: Text, value: Text)

  /** What stands before and after the first colon. */
  function KeyValue(part: Text): Pair {
    var i := Find(part, COLON);
    Pair(part[..i], if i == |part| then [] else part[i + 1..])
  }

  function PairsOf(parts: seq<Text>): seq<Pair> {
    if parts == [] then [] else [KeyValue(parts[0])] + PairsOf(parts[1..])
  }

  /** The pairs of each line of a body. */
  function PairLines(lines: seq<Text>): seq<seq<Pair>> {
    if lines == [] then [] else [PairsOf(GetLines(lines[0], BAR))] + PairLines(lines[1..])
  }

  function ParseBody(body: Text): seq<seq<Pair>> {
    PairLines(GetLines(body, NEWLINE))
  }

  /** What a line defines: the last value of each key. */
  datatype Metric = Metric(name: Text, description: Text, kind: Text)

  function DefinedBy(pairs: seq<Pair>, m: Metric): Metric
    decreases |pairs|
  {
    if pairs == [] then m
    else
      var p := pairs[0];
      DefinedBy(pairs[1..], if p.key == NAME then m.(name := p.value)
                            else if p.key == DESCRIPTION then m.(description := p.value)
                            else if p.key == TYPE then m.(kind := p.value)
                            else m)
  }

  // ----- what the worker makes of a stream -----

  /** A metric to be registered, or a line of observations. */
  datatype Event = Defined(metric: Metric) | Observed(pairs: seq<Pair>)

  function LineEvents(lines: seq<seq<Pair>>, batch: bool): seq<Event> {
    if lines == [] then []
    else
      var event := if batch then Observed(lines[0]) else Defined(DefinedBy(lines[0], Metric([], [], [])));
      [event] + LineEvents(lines[1..], batch)
  }

  function FrameEvents(f: Frame): seq<Event> {
    match f
    case DefinitionFrame(body) => LineEvents(ParseBody(body), false)
    case BatchFrame(body) => LineEvents(ParseBody(body), true)
    case Undefined => []
  }

  function Events(frames: seq<Frame>): seq<Event> {
    if frames == [] then [] else FrameEvents(frames[0]) + Events(frames[1..])
  }

  // ----- registered metrics -----

  /** register_metric: the first definition of a name counts. */
  function Register(known: map<Text, Text>, m: Metric): map<Text, Text> {
    if m.name in known then known else known[m.name := m.kind]
  }

  /** Pairs of unknown metrics are ignored. */
  function KnownPairs(pairs: seq<Pair>, known: map<Text, Text>): seq<Pair> {
    if pairs == [] then []
    else (if pairs[0].key in known then [pairs[0]] else []) + KnownPairs(pairs[1..], known)
  }

  /** What is recorded of each line of observations. */
  function Recorded(events: seq<Event>, known: map<Text, Text>): seq<seq<Pair>>
    decreases |events|
  {
    if events == [] then []
    else
      match events[0]
      case Defined(metric) => Recorded(events[1..], Register(known, metric))
      case Observed(pairs) => [KnownPairs(pairs, known)] + Recorded(events[1..], known)
  }

  /** The metrics registered after some events. */
  function Registry(events: seq<Event>, known: map<Text, Text>): map<Text, Text>
    decreases |events|
  {
    if events == [] then known
    else Registry(events[1..], if events[0].Defined? then Register(known, events[0].metric) else known)
  }

  lemma {:induction false} InTwoParts(a: seq<Event>, b: seq<Event>, known: map<Text, Text>)
    ensures Registry(a + b, known) == Registry(b, Registry(a, known))
    ensures Recorded(a + b, known) == Recorded(a, known) + Recorded(b, Registry(a, known))
    decreases |a|
  {
    hide Register, KnownPairs;
    if a == [] {
      assert a + b == b;
    } else {
      assert (a + b)[0] == a[0] && (a + b)[1..] == a[1..] + b;
      match a[0]
      case Defined(metric) =>
        InTwoParts(a[1..], b, Register(known, metric));
      case Observed(pairs) =>
        InTwoParts(a[1..], b, known);
        Assoc([KnownPairs(pairs, known)], Recorded(a[1..], known), Recorded(b, Registry(a[1..], known)));
    }
  }

  // ----- the bus -----

  class Bus {
    /** The registered metrics and their types, shared by all connections. */
    var metrics: map<Text, Text>
    /** What was observed, a list of pairs for each line. */
    var recorded: seq<seq<Pair>>

    constructor ()
      ensures metrics == map[] && recorded == []
    {
      metrics, recorded := map[], [];
    }

    /** register_metric */
    method RegisterMetric(m: Metric)
      modifies this`metrics
      ensures metrics == Register(old(metrics), m)
    {
      if m.name in metrics { return; }
      metrics := metrics[m.name := m.kind];
    }

    /** process_metric_definition: each line of the body defines a metric. */
    method ProcessDefinition(body: Text)
      modifies this`metrics
      ensures metrics == Registry(LineEvents(ParseBody(body), false), old(metrics))
    {
      hide Register, DefinedBy;
      var lines := ReadLines(body, NEWLINE);
      ghost var events := LineEvents(PairLines(lines), false);
      ghost var rest := lines;
      for i := 0 to |lines|
        invariant rest == lines[i..]
        invariant Registry(LineEvents(PairLines(rest), false), metrics) == Registry(events, old(metrics))
      {
        OneMoreLine(rest, false);
        var pairs := ReadPairs(lines[i]);
        var m := Gather(pairs);
        RegisterMetric(m);
        rest := rest[1..];
      }
    }

    /** process_metric_batch_observation: each line of the body is a list of observations. */
    method ProcessBatch(body: Text)
      modifies this`recorded
      ensures recorded == old(recorded) + Recorded(LineEvents(ParseBody(body), true), metrics)
    {
      hide KnownPairs;
      var lines := ReadLines(body, NEWLINE);
      ghost var all := Recorded(LineEvents(PairLines(lines), true), metrics);
      ghost var rest := lines;
      for i := 0 to |lines|
        invariant rest == lines[i..]
        invariant recorded + Recorded(LineEvents(PairLines(rest), true), metrics) == old(recorded) + all
      {
        OneMoreLine(rest, true);
        var pairs := ReadPairs(lines[i]);
        var known := Observe(pairs);
        Assoc(recorded, [known], Recorded(LineEvents(PairLines(rest[1..]), true), metrics));
        recorded := recorded + [known];
        rest := rest[1..];
      }
      assert recorded + [] == recorded;
    }

    /** The loop over the pairs of a line, which passes over unknown metrics. */
    method Observe(pairs: seq<Pair>) returns (known: seq<Pair>)
      ensures known == KnownPairs(pairs, metrics)
    {
      known := [];
      assert pairs[0..] == pairs && [] + KnownPairs(pairs, metrics) == KnownPairs(pairs, metrics);
      for i := 0 to |pairs|
        invariant known + KnownPairs(pairs[i..], metrics) == KnownPairs(pairs, metrics)
      {
        assert pairs[i..][1..] == pairs[i + 1..];
        if pairs[i].key in metrics {
          Assoc(known, [pairs[i]], KnownPairs(pairs[i + 1..], metrics));
          known := known + [pairs[i]];
        }
      }
      assert known + [] == known;
    }

    /** The branch of threadWorker for a body; an undefined length is not processed. */
    method Process(frame: Frame)
      modifies this
      ensures metrics == Registry(FrameEvents(frame), old(metrics))
      ensures recorded == old(recorded) + Recorded(FrameEvents(frame), old(metrics))
    {
      match frame
      case DefinitionFrame(body) =>
        ProcessDefinition(body);
        DefinitionsRecordNothing(ParseBody(body), old(metrics));
      case BatchFrame(body) =>
        ProcessBatch(body);
        BatchesRegisterNothing(ParseBody(body), metrics);
      case Undefined =>
    }

    /** threadWorker: reads a stream to its end and processes every message on the way. */
    method ThreadWorker(q: seq<Octet>)
      modifies this
      ensures metrics == Registry(Events(Frames(q)), old(metrics))
      ensures recorded == old(recorded) + Recorded(Events(Frames(q)), old(metrics))
    {
      hide HeadOf, BodyFrames, LittleValue, Frames, FrameEvents, Registry, Recorded;
      ghost var known, before := metrics, recorded;
      var i := 0;
      assert q[0..] == q;
      while i < |q|
        invariant 0 <= i <= |q|
        invariant Registry(Events(Frames(q[i..])), metrics) == Registry(Events(Frames(q)), known)
        invariant recorded + Recorded(Events(Frames(q[i..])), metrics) == before + Recorded(Events(Frames(q)), known)
      {
        ghost var rest := q[i..];
        Turn(rest);
        var h := ReadHead(q, i);
        match h
        case Skip(n) =>
          assert rest[n..] == q[i + n..];
          i := i + n;
        case TooLong =>
          UndefinedEnds(metrics);
          assert recorded + [] == recorded;
          return;
        case End =>
          NothingLeft(metrics);
          assert recorded + [] == recorded;
          return;
        case Body(start, length, batch) =>
          assert rest[start..] == q[i + start..];
          var body := ReadBody(q, i + start, length, batch);
          if body.None? {
            NothingLeft(metrics);
            assert recorded + [] == recorded;
            return;
          }
          i := i + start + Clipped(length);
          ghost var was, had := metrics, recorded;
          if body.value != [] {
            Process(body.value[0]);
          }
          OneMoreFrame(body.value, Frames(q[i..]), was, had);
      }
      NoFrames();
      NothingLeft(metrics);
      assert q[i..] == [] && recorded + [] == recorded;
    }
  }

  /** The getline loop. */
  method ReadLines(t: Text, c: Octet) returns (lines: seq<Text>)
    ensures lines == GetLines(t, c)
  {
    lines := [];
    var rest := t;
    while rest != []
      invariant lines + GetLines(rest, c) == GetLines(t, c)
      decreases |rest|
    {
      var i := Find(rest, c);
      var line := rest[..i];
      var next := if i == |rest| then [] else rest[i + 1..];
      assert GetLines(rest, c) == [line] + GetLines(next, c);
      Assoc(lines, [line], GetLines(next, c));
      lines := lines + [line];
      rest := next;
    }
    assert lines + [] == lines;
  }

  method ReadPairs(line: Text) returns (pairs: seq<Pair>)
    ensures pairs == PairsOf(GetLines(line, BAR))
  {
    hide KeyValue;
    var parts := ReadLines(line, BAR);
    pairs := [];
    for i := 0 to |parts|
      invariant pairs + PairsOf(parts[i..]) == PairsOf(parts)
    {
      assert parts[i..][1..] == parts[i + 1..];
      Assoc(pairs, [KeyValue(parts[i])], PairsOf(parts[i + 1..]));
      pairs := pairs + [KeyValue(parts[i])];
    }
    assert pairs + [] == pairs;
  }

  /** The loop that collects name, description and type of a definition. */
  method Gather(pairs: seq<Pair>) returns (m: Metric)
    ensures m == DefinedBy(pairs, Metric([], [], []))
  {
    m := Metric([], [], []);
    for i := 0 to |pairs|
      invariant DefinedBy(pairs[i..], m) == DefinedBy(pairs, Metric([], [], []))
    {
      assert pairs[i..][1..] == pairs[i + 1..];
      if pairs[i].key == NAME {
        m := m.(name := pairs[i].value);
      } else if pairs[i].key == DESCRIPTION {
        m := m.(description := pairs[i].value);
      } else if pairs[i].key == TYPE {
        m := m.(kind := pairs[i].value);
      }
    }
  }

  lemma {:induction false} OneMoreLine(lines: seq<Text>, batch: bool)
    requires lines != []
    ensures var pairs := PairsOf(GetLines(lines[0], BAR));
            LineEvents(PairLines(lines), batch) ==
            [if batch then Observed(pairs) else Defined(DefinedBy(pairs, Metric([], [], [])))] +
                LineEvents(PairLines(lines[1..]), batch)
  {
    hide DefinedBy, GetLines, PairsOf;
  }

  lemma {:induction false} DefinitionsRecordNothing(lines: seq<seq<Pair>>, known: map<Text, Text>)
    ensures Recorded(LineEvents(lines, false), known) == []
    decreases |lines|
  {
    hide DefinedBy, Register;
    if lines != [] {
      DefinitionsRecordNothing(lines[1..], Register(known, DefinedBy(lines[0], Metric([], [], []))));
    }
  }

  lemma {:induction false} BatchesRegisterNothing(lines: seq<seq<Pair>>, known: map<Text, Text>)
    ensures Registry(LineEvents(lines, true), known) == known
    decreases |lines|
  {
    if lines != [] { BatchesRegisterNothing(lines[1..], known); }
  }

  lemma NoFrames()
    ensures Frames([]) == []
  {
  }

  lemma {:induction false} NothingLeft(known: map<Text, Text>)
    ensures Registry(Events([]), known) == known && Recorded(Events([]), known) == []
  {
  }

  lemma {:induction false} UndefinedEnds(known: map<Text, Text>)
    ensures Registry(Events([Undefined]), known) == known && Recorded(Events([Undefined]), known) == []
  {
    assert [Undefined][1..] == [];
    assert Events([Undefined]) == [];
  }

  /** One frame, or none, in front of others. */
  lemma OneMoreFrame(first: seq<Frame>, rest: seq<Frame>, known: map<Text, Text>, had: seq<seq<Pair>>)
    requires |first| <= 1
    ensures Registry([], known) == known && Recorded([], known) == []
    ensures var events := if first == [] then [] else FrameEvents(first[0]);
            && Registry(Events(first + rest), known) == Registry(Events(rest), Registry(events, known))
            && had + Recorded(Events(first + rest), known) == had + Recorded(events, known) + Recorded(Events(rest),
               Registry(events, known))
  {
    hide FrameEvents;
    var events := if first == [] then [] else FrameEvents(first[0]);
    if first == [] {
      assert first + rest == rest;
      assert [] + Events(rest) == Events(rest);
    } else {
      assert (first + rest)[0] == first[0] && (first + rest)[1..] == rest;
    }
    assert Events(first + rest) == events + Events(rest);
    InTwoParts(events, Events(rest), known);
    Assoc(had, Recorded(events, known), Recorded(Events(rest), Registry(events, known)));
  }
}
