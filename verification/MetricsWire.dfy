/** The text and the framing of Yagra messages, as the client writes them (yagra.c) and as the metrics bus reads them
    (core-metrics-bus/source/main.cpp). */
module MetricsWire {
  import opened Aggregation
  import opened Arithmetic
  import opened Bytes
  import opened Decimals

  type Text = seq<Octet>

  const NEWLINE: Octet := 10
  const MINUS: Octet := 45
  const COLON: Octet := 58
  const BAR: Octet := 124
  const AMF: Text := [97, 109, 102, 95]                                              // amf_
  const NAME: Text := [110, 97, 109, 101]                                            // name
  const DESCRIPTION: Text := [100, 101, 115, 99, 114, 105, 112, 116, 105, 111, 110]  // description
  const TYPE: Text := [116, 121, 112, 101]                                           // type
  const COUNTER: Text := [99, 111, 117, 110, 116, 101, 114]                          // counter
  const SUMMARY: Text := [115, 117, 109, 109, 97, 114, 121]                          // summary

  // ----- numbers as text -----

  /** The value as a signed 64-bit number, as %ld reads it. */
  function Signed(v: U64): int {
    if v < WORD / 2 then v else v - WORD
  }

  function Printed(v: U64): Text {
    if Signed(v) >= 0 then Decimal(Signed(v)) else [MINUS] + Decimal(-Signed(v))
  }

  function PrintedValue(t: Text): int {
    if t != [] && t[0] == MINUS then 0 - DecimalValue(t[1..]) else DecimalValue(t)
  }

  /** What is printed reads back as the number of 64-bit two's complement. */
  lemma PrintedRoundTrip(v: U64)
    ensures PrintedValue(Printed(v)) == Signed(v)
    ensures -0x8000_0000_0000_0000 <= Signed(v) < 0x8000_0000_0000_0000
    ensures Signed(v) == v || Signed(v) == v - 0x1_0000_0000_0000_0000
  {
    var n := if Signed(v) >= 0 then Signed(v) else -Signed(v);
    DecimalRoundTrip(n);
    assert ([MINUS] + Decimal(n))[1..] == Decimal(n);
  }

  lemma PrintedLength(v: U64)
    ensures |Printed(v)| <= 20
  {
    assert Ten(3) == 1_000 && Ten(6) == 1_000_000;
    assert Ten(9) == 1_000_000_000 && Ten(12) == 1_000_000_000_000;
    assert Ten(15) == 1_000_000_000_000_000 && Ten(18) == 1_000_000_000_000_000_000;
    DecimalLength(if Signed(v) >= 0 then Signed(v) else -Signed(v), 19);
  }

  // ----- bodies -----

  /** The bytes of a string of the C program. */
  function Ascii(s: string): Text {
    seq(|s|, k requires 0 <= k < |s| => if s[k] as int < 256 then s[k] as int else 0)
  }

  /** An entry of a batch as the bus is to see it. */
  datatype Item = Item(name: Text, value: U64)

  function ItemText(i: Item): Text {
    AMF + i.name + [COLON] + Printed(i.value) + [BAR]
  }

  function BatchBody(items: seq<Item>): Text {
    if items == [] then [] else BatchBody(items[..|items| - 1]) + ItemText(items[|items| - 1])
  }

  function TypeText(strategy: Strategy): Text {
    match strategy
    case Sum => COUNTER
    case NoAggregation | Average => SUMMARY
    case _ => []
  }

  function TypePart(strategy: Strategy): Text {
    if TypeText(strategy) == [] then [] else TYPE + [COLON] + TypeText(strategy) + [BAR]
  }

  function DefinitionBody(name: Text, description: Text, strategy: Strategy): Text {
    NAME + [COLON] + AMF + name + [BAR] + DESCRIPTION + [COLON] + description + [BAR] + TypePart(strategy)
  }

  lemma AsciiJoin(s: string, t: string)
    ensures Ascii(s + t) == Ascii(s) + Ascii(t)
  {
  }

  lemma Words()
    ensures Ascii("name") == NAME && Ascii("amf_") == AMF && Ascii("type") == TYPE
    ensures [BAR] == Ascii("|") && [COLON] == Ascii(":") && [MINUS] == Ascii("-") && [NEWLINE] == Ascii("\n")
  {
  }

  lemma LongWords()
    ensures Ascii("description") == DESCRIPTION && Ascii("counter") == COUNTER && Ascii("summary") == SUMMARY
  {
  }

  /** The bodies as the format strings of yagra.c give them. */
  lemma ItemFormat(i: Item)
    ensures ItemText(i) == Ascii("amf_") + i.name + Ascii(":") + Printed(i.value) + Ascii("|")
  {
    hide Printed, Ascii;
    Words();
  }

  lemma DefinitionFormat(name: Text, description: Text, strategy: Strategy)
    ensures var kind := match strategy
              case Sum => Ascii("type:" + "counter|")
              case NoAggregation | Average => Ascii("type:" + "summary|")
              case _ => [];
            DefinitionBody(name, description, strategy) ==
            Ascii("name:" + "amf_") + name + Ascii("|") + Ascii("description:") + description + Ascii("|") + kind
  {
    hide Ascii;
    Words();
    LongWords();
    AsciiJoin("name", ":");
    AsciiJoin("name:", "amf_");
    AsciiJoin("description", ":");
    AsciiJoin("type", ":");
    AsciiJoin("counter", "|");
    AsciiJoin("summary", "|");
    AsciiJoin("type:", "counter|");
    AsciiJoin("type:", "summary|");
    assert "name" + ":" == "name:" && "type" + ":" == "type:" && "description" + ":" == "description:";
    assert "counter" + "|" == "counter|" && "summary" + "|" == "summary|";
  }

  // ----- little-endian lengths -----

  function Little(n: nat, k: nat): (b: seq<Octet>)
    ensures |b| == k
  {
    if k == 0 then [] else [n % 256] + Little(n / 256, k - 1)
  }

  function LittleValue(b: seq<Octet>): nat {
    if b == [] then 0 else b[0] as int + 256 * LittleValue(b[1..])
  }

  lemma {:induction false} LittleRoundTrip(n: nat, k: nat)
    requires n < Pow256(k)
    ensures LittleValue(Little(n, k)) == n
  {
    if k > 0 {
      LittleRoundTrip(n / 256, k - 1);
      assert Little(n, k)[1..] == Little(n / 256, k - 1);
    }
  }

  /** The loop that counts the bytes of the estimated length. */
  function ByteCount(n: nat): nat {
    if n == 0 then 0 else 1 + ByteCount(n / 256)
  }

  lemma {:induction false} ByteCountSuffices(n: nat)
    ensures n < Pow256(ByteCount(n))
  {
    if n > 0 { ByteCountSuffices(n / 256); }
  }

  lemma {:induction false} ByteCountBounded(n: nat, k: nat)
    requires n < Pow256(k)
    ensures ByteCount(n) <= k
  {
    if n > 0 && k > 0 { ByteCountBounded(n / 256, k - 1); }
  }

  // ----- messages -----

  const MARK: Octet := 0x99
  const DEFINITION_MARK: Octet := 0x98

  /** Reserved for a metric in the estimate: the longest name and 64 bytes for its value. */
  const PER_METRIC: nat := 128
  const LONGEST_NAME: nat := 63
  const LIMIT: nat := 512

  function DefinitionMessage(body: Text): seq<Octet> {
    [MARK, DEFINITION_MARK, |body| % 256, |body| / 256 % 256] + body
  }

  function BatchHeader(num: nat, length: nat): seq<Octet> {
    var k := ByteCount(PER_METRIC * num);
    [MARK, MARK, k % 256] + Little(length, k)
  }

  function BatchMessage(num: nat, body: Text): seq<Octet> {
    BatchHeader(num, |body|) + body
  }

  /** The body of a batch is shorter than the estimate, so its length fits the bytes reserved for it. */
  lemma {:induction false} EstimateSuffices(items: seq<Item>)
    requires forall k :: 0 <= k < |items| ==> |items[k].name| <= LONGEST_NAME
    ensures |BatchBody(items)| <= PER_METRIC * |items|
    ensures forall num :: num >= |items| ==> |BatchBody(items)| < Pow256(ByteCount(PER_METRIC * num))
  {
    BodyLength(items);
    forall num | num >= |items| ensures |BatchBody(items)| < Pow256(ByteCount(PER_METRIC * num)) {
      ByteCountSuffices(PER_METRIC * num);
    }
  }

  lemma {:induction false} BodyLength(items: seq<Item>)
    requires forall k :: 0 <= k < |items| ==> |items[k].name| <= LONGEST_NAME
    ensures |BatchBody(items)| <= PER_METRIC * |items|
  {
    if items != [] {
      BodyLength(items[..|items| - 1]);
      PrintedLength(items[|items| - 1].value);
      hide Printed;
    }
  }
}
