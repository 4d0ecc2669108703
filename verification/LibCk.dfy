/** libck.c and db_accesses.c: the client side of the request language. Requests are written through an advancing
    pointer into a buffer; bytes of a record behind the value keep what the buffer held before. */
module LibCk {
  import opened Bytes
  import opened DbProtocol
  import opened Slices

  // ----- the encoded form -----

  function EncodePushes(ps: seq<Push>): (b: seq<Octet>)
    ensures |b| == 17 * |ps|
  {
    if ps == [] then [] else EncodePushes(ps[..|ps| - 1]) + [ps[|ps| - 1].item] + ps[|ps| - 1].payload
  }

  function EncodePull(g: Pull): (b: seq<Octet>)
    ensures |b| == PullSize(g)
  {
    if g.item == GET_ENB then [GET_ENB] + g.arg else [g.item]
  }

  function EncodePulls(gs: seq<Pull>): seq<Octet> {
    if gs == [] then [] else EncodePulls(gs[..|gs| - 1]) + EncodePull(gs[|gs| - 1])
  }

  type Bytes17 = s: seq<Octet> | |s| == 17 witness seq(17, _ => 0)

  /** A request up to its last pull item. */
  function Body(id: Bytes17, ps: seq<Push>, gs: seq<Pull>): seq<Octet> {
    id + EncodePushes(ps) + [0] + EncodePulls(gs)
  }

  function Encode(id: Bytes17, ps: seq<Push>, gs: seq<Pull>): seq<Octet> {
    Body(id, ps, gs) + [EOM]
  }

  // ----- identifiers -----

  /** Bytes of value that add_identifier copies. */
  function IdWidth(id: Octet): Option<nat> {
    if id == IMSI then Some(16)
    else if id == MSIN then Some(11)
    else if id == TMSI || id == MME_UE_S1AP_ID then Some(4)
    else None
  }

  /** The 17 bytes of an identifier in a buffer that held slot there. */
  function IdBytes(id: Octet, value: seq<Octet>, slot: Bytes17): Bytes17
    requires IdWidth(id).Some? && |value| >= IdWidth(id).value
  {
    var w := IdWidth(id).value;
    if id == IMSI then [id] + value[..15] + [0] else [id] + value[..w] + slot[1 + w..]
  }

  /** add_identifier; an identifier it does not know leaves the buffer alone. */
  method AddIdentifier(buffer: array<Octet>, at: nat, id: Octet, value: seq<Octet>) returns (next: nat)
    requires at + 17 <= buffer.Length && (IdWidth(id).Some? ==> |value| >= IdWidth(id).value)
    modifies buffer
    ensures IdWidth(id).None? ==> next == at && buffer[..] == old(buffer[..])
    ensures IdWidth(id).Some? ==> next == at + 17 && buffer[at..next] == IdBytes(id, value, old(buffer[at..at + 17]))
    ensures forall k :: 0 <= k < buffer.Length && !(at <= k < next) ==> buffer[k] == old(buffer[k])
  {
    if IdWidth(id).None? {
      return at;
    }
    var w := IdWidth(id).value;
    ghost var slot := buffer[at..at + 17];
    buffer[at] := id;
    Memcpy(buffer, at + 1, value[..w]);
    next := at + 17;
    Inner(buffer[..], at, next, 1, 1 + w);
    Overwritten(slot, buffer[at..next], id, value[..w]);
    ghost var written := buffer[at..next];
    if id == IMSI {
      buffer[at + 16] := 0;
      assert buffer[at..next] == written[16 := 0];
    }
  }

  method Memcpy(buffer: array<Octet>, at: nat, value: seq<Octet>)
    requires at + |value| <= buffer.Length
    modifies buffer
    ensures buffer[at..at + |value|] == value
    ensures forall k :: 0 <= k < buffer.Length && !(at <= k < at + |value|) ==> buffer[k] == old(buffer[k])
  {
    for i := 0 to |value|
      invariant forall k :: 0 <= k < i ==> buffer[at + k] == value[k]
      invariant forall k :: 0 <= k < buffer.Length && !(at <= k < at + i) ==> buffer[k] == old(buffer[k])
    {
      buffer[at + i] := value[i];
    }
  }

  // ----- pushes -----

  /** What a caller passes: an item with its value, or a new eNB with its number and socket. */
  datatype PushArg = Item(item: Octet, value: seq<Octet>) | Enb(id: Bytes4, sock: Bytes4)

  /** Bytes of value that push_item copies. */
  function PushWidth(item: Octet): Option<nat> {
    if item == EPC_NAS_SEQUENCE_NUMBER || item == UE_NAS_SEQUENCE_NUMBER || item == NEXT_HOP_CHAINING_COUNT then Some(1)
    else if item == AUTH_RES then Some(8)
    else if item == ENC_KEY || item == INT_KEY || item == KASME_1 || item == KASME_2 || item == KNH_1 || item == KNH_2
        then Some(16)
    else if item == MME_UE_S1AP_ID || item == ENB_UE_S1AP_ID || item == TARGET_ENB_UE_S1AP_ID || item == UE_TEID
      || item == SPGW_IP || item == ENB_IP || item == PDN_IP || item == ENB_SOURCE_SOCKET || item == ENB_TARGET_SOCKET
         then Some(4)
    else None
  }

  predicate Supported(a: PushArg) {
    a.Item? ==> PushWidth(a.item).Some?
  }

  /** The caller's pointer must reach as far as push_item reads. */
  predicate Readable(a: PushArg) {
    a.Item? && PushWidth(a.item).Some? ==> |a.value| >= PushWidth(a.item).value
  }

  /** Items push_item does not know leave no record. */
  function Sent(args: seq<PushArg>): (r: seq<PushArg>)
    ensures |r| <= |args|
  {
    if args == [] then []
    else Sent(args[..|args| - 1]) + if Supported(args[|args| - 1]) then [args[|args| - 1]] else []
  }

  /** The first w bytes behind a pointer to value. */
  function Front(value: seq<Octet>, w: nat): (v: seq<Octet>)
    ensures |v| == w && (w <= |value| ==> v == value[..w])
  {
    seq(w, i requires 0 <= i < w => if i < |value| then value[i] else 0)
  }

  /** The push record that a supported argument becomes in a slot that held the given bytes. */
  function PushOf(a: PushArg, slot: Bytes17): Push {
    match a
    case Item(item, value) =>
      var w := if PushWidth(item).Some? then PushWidth(item).value else 0;
      assert w <= 16;
      Push(item, Front(value, w) + slot[1 + w..])
    case Enb(id, sock) => Push(NEW_ENB, id + sock + slot[9..])
  }

  function SlotAt(b: seq<Octet>, at: nat): Bytes17
    requires at + 17 <= |b|
  {
    b[at..at + 17]
  }

  /** The push records for arguments written one after the other from offset at, over the given buffer contents. */
  function PushesOf(args: seq<PushArg>, b: seq<Octet>, at: nat): (ps: seq<Push>)
    requires at + 17 * |args| <= |b|
    ensures |ps| == |args|
  {
    if args == [] then []
    else
      var n := |args| - 1;
      PushesOf(args[..n], b, at) + [PushOf(args[n], SlotAt(b, at + 17 * n))]
  }

  /** A slot after a memcpy to its front, behind a new first byte. */
  lemma Overwritten(slot: seq<Octet>, s: seq<Octet>, item: Octet, v: seq<Octet>)
    requires |slot| == |s| == 17 && |v| <= 16 && s[0] == item && s[1..1 + |v|] == v
    requires forall k :: 1 + |v| <= k < 17 ==> s[k] == slot[k]
    ensures s == [item] + (v + slot[1 + |v|..]) == [item] + v + slot[1 + |v|..]
  {
    assert s == [s[0]] + s[1..1 + |v|] + s[1 + |v|..];
    assert s[1 + |v|..] == slot[1 + |v|..];
  }

  /** push_item, and the NEW_ENB case of push_items. */
  method PushItem(buffer: array<Octet>, at: nat, a: PushArg) returns (next: nat)
    requires at + 17 <= buffer.Length && Readable(a)
    modifies buffer
    ensures !Supported(a) ==> next == at
    ensures Supported(a) ==> next == at + 17
    ensures Supported(a) ==>
              var p := PushOf(a, old(buffer[at..at + 17])); buffer[at..at + 17] == [p.item] + p.payload
    ensures forall k :: 0 <= k < buffer.Length && !(at <= k < next) ==> buffer[k] == old(buffer[k])
  {
    if !Supported(a) {
      return at;
    }
    ghost var slot := buffer[at..at + 17];
    match a {
      case Item(item, value) =>
        var v := Front(value, PushWidth(item).value);
        buffer[at] := item;
        Memcpy(buffer, at + 1, v);
        Inner(buffer[..], at, at + 17, 1, 1 + |v|);
        Overwritten(slot, buffer[at..at + 17], item, v);
      case Enb(id, sock) =>
        buffer[at] := NEW_ENB;
        Memcpy(buffer, at + 1, id);
        Memcpy(buffer, at + 5, sock);
        Join(buffer[..], at + 1, at + 5, at + 9);
        assert buffer[at + 1..at + 5] == id;
        Inner(buffer[..], at, at + 17, 1, 9);
        Overwritten(slot, buffer[at..at + 17], NEW_ENB, id + sock);
    }
    next := at + 17;
  }

  /** What stands in front of the push records: the identifier, or nothing when add_identifier does not know it. */
  function Heading(id: Octet, value: seq<Octet>, slot: Bytes17): (h: seq<Octet>)
    requires IdWidth(id).Some? ==> |value| >= IdWidth(id).value
    ensures |h| == 17 || |h| == 0
  {
    if id == NEW_ENB then [NEW_ENB] + slot[1..] else if IdWidth(id).Some? then IdBytes(id, value, slot) else []
  }

  /** push_items: the identifier and the push records, over whatever the buffer held. */
  method PushItems(buffer: array<Octet>, id: Octet, idValue: seq<Octet>, args: seq<PushArg>) returns (n: nat)
    requires IdWidth(id).Some? ==> |idValue| >= IdWidth(id).value
    requires forall a :: a in args ==> Readable(a)
    requires 17 + 17 * |args| <= buffer.Length
    modifies buffer
    ensures var b := old(buffer[..]); var h := Heading(id, idValue, b[..17]);
            n == |h| + 17 * |Sent(args)| && buffer[..n] == h + EncodePushes(PushesOf(Sent(args), b, |h|))
    ensures forall k :: n <= k < buffer.Length ==> buffer[k] == old(buffer[k])
  {
    hide IdBytes, PushOf, IdWidth, Supported, Readable, EncodePushes, PushesOf, Sent;
    ghost var b := buffer[..];
    var ptr := 17;
    if id == NEW_ENB {
      buffer[0] := NEW_ENB;
    } else {
      assert b[0..17] == b[..17];
      ptr := AddIdentifier(buffer, 0, id, idValue);
    }
    assert buffer[..ptr] == Heading(id, idValue, b[..17]);
    ghost var headed := buffer[..];
    n := PushAll(buffer, ptr, args);
    SamePushes(Sent(args), headed, b, ptr);
  }

  /** The loop over the push items. */
  method PushAll(buffer: array<Octet>, base: nat, args: seq<PushArg>) returns (n: nat)
    requires forall a :: a in args ==> Readable(a)
    requires base + 17 * |args| <= buffer.Length
    modifies buffer
    ensures n == base + 17 * |Sent(args)|
    ensures buffer[..n] == old(buffer[..base]) + EncodePushes(PushesOf(Sent(args), old(buffer[..]), base))
    ensures forall k :: n <= k < buffer.Length ==> buffer[k] == old(buffer[k])
  {
    hide PushOf, Supported, Readable, EncodePushes, PushesOf, Sent;
    ghost var b := buffer[..];
    ghost var front := buffer[..base];
    assert EncodePushes(PushesOf(Sent([]), b, base)) == [] && Sent([]) == [] by { NothingSent(b, base); }
    var ptr := base;
    for i := 0 to |args|
      invariant ptr == base + 17 * |Sent(args[..i])| <= base + 17 * i
      invariant buffer[..ptr] == front + EncodePushes(PushesOf(Sent(args[..i]), b, base))
      invariant forall k :: ptr <= k < buffer.Length ==> buffer[k] == b[k]
    {
      ghost var done := buffer[..ptr];
      assert args[i] in args;
      Same(buffer[..], b, ptr, ptr + 17);
      SentStep(args, i);
      ghost var p := PushOf(args[i], SlotAt(b, ptr));
      OneMorePush(Sent(args[..i]), args[i], b, base, p);
      assert buffer[ptr..ptr + 17] == SlotAt(b, ptr);
      ghost var pushes := EncodePushes(PushesOf(Sent(args[..i]), b, base));
      var next := PushItem(buffer, ptr, args[i]);
      assert buffer[..ptr] == done;
      if Supported(args[i]) {
        assert Sent(args[..i + 1]) == Sent(args[..i]) + [args[i]];
        MorePushed(buffer[..next], ptr, front, pushes, p);
      } else {
        assert Sent(args[..i + 1]) == Sent(args[..i]);
      }
      ptr := next;
    }
    assert args[..|args|] == args;
    n := ptr;
  }

  lemma {:induction false} SamePushes(args: seq<PushArg>, b: seq<Octet>, c: seq<Octet>, at: nat)
    requires at + 17 * |args| <= |b| == |c| && forall k :: at <= k < |b| ==> b[k] == c[k]
    ensures PushesOf(args, b, at) == PushesOf(args, c, at)
  {
    if args != [] {
      var n := |args| - 1;
      SamePushes(args[..n], b, c, at);
      assert SlotAt(b, at + 17 * n) == SlotAt(c, at + 17 * n);
    }
  }

  lemma MorePushed(now: seq<Octet>, ptr: nat, front: seq<Octet>, pushes: seq<Octet>, p: Push)
    requires ptr <= |now| && now[..ptr] == front + pushes && now[ptr..] == [p.item] + p.payload
    ensures now == front + (pushes + ([p.item] + p.payload))
  {
    assert now == now[..ptr] + now[ptr..];
  }

  lemma {:induction false} NothingSent(b: seq<Octet>, at: nat)
    requires at <= |b|
    ensures Sent([]) == [] && EncodePushes(PushesOf([], b, at)) == []
  {
  }

  lemma {:induction false} OneMorePush(sent: seq<PushArg>, x: PushArg, b: seq<Octet>, base: nat, p: Push)
    requires base + 17 * |sent| + 17 <= |b| && p == PushOf(x, SlotAt(b, base + 17 * |sent|))
    ensures EncodePushes(PushesOf(sent + [x], b, base)) == EncodePushes(PushesOf(sent, b, base)) +
        ([p.item] + p.payload)
  {
    var l := sent + [x];
    assert l[..|l| - 1] == sent && l[|l| - 1] == x;
    LastPushOf(l, b, base);
    hide *;
    EncodeAppend(PushesOf(sent, b, base), p);
  }

  lemma SentStep(args: seq<PushArg>, i: nat)
    requires i < |args|
    ensures Sent(args[..i + 1]) == Sent(args[..i]) + if Supported(args[i]) then [args[i]] else []
    ensures |Sent(args[..i])| <= i
  {
    hide Supported;
    assert args[..i + 1][..i] == args[..i];
  }

  lemma {:induction false} LastPushOf(l: seq<PushArg>, b: seq<Octet>, at: nat)
    requires |l| > 0 && at + 17 * |l| <= |b|
    ensures var n := |l| - 1; PushesOf(l, b, at) == PushesOf(l[..n], b, at) + [PushOf(l[n], SlotAt(b, at + 17 * n))]
  {
    hide PushOf, Supported;
  }

  lemma {:induction false} EncodeAppend(ps: seq<Push>, p: Push)
    ensures EncodePushes(ps + [p]) == EncodePushes(ps) + ([p.item] + p.payload)
  {
    assert (ps + [p])[..|ps|] == ps;
  }

  // ----- pulls -----

  /** One pull item of pull_items: its code, and what GET_ENB asks for. */
  method WritePull(buffer: array<Octet>, ptr: nat, g: Pull) returns (next: nat)
    requires ptr + |EncodePull(g)| <= buffer.Length
    modifies buffer
    ensures next == ptr + |EncodePull(g)|
    ensures buffer[..ptr] == old(buffer[..ptr]) && buffer[ptr..next] == EncodePull(g)
  {
    next := ptr + 1;
    buffer[ptr] := g.item;
    if g.item == GET_ENB {
      Memcpy(buffer, next, g.arg);
      next := next + 4;
    }
  }

  /** pull_items: the separator, the pull items and EOM, behind push_len bytes. */
  method PullItems(buffer: array<Octet>, pushLen: nat, items: seq<Pull>) returns (n: nat)
    requires pushLen + 2 + |EncodePulls(items)| <= buffer.Length
    modifies buffer
    ensures n == pushLen + 2 + |EncodePulls(items)|
    ensures buffer[..n] == old(buffer[..pushLen]) + [0] + EncodePulls(items) + [EOM]
  {
    hide EncodePulls, EncodePull;
    NoPullItems();
    assert items[..0] == [];
    ghost var front := buffer[..pushLen];
    buffer[pushLen] := 0;
    var ptr := pushLen + 1;
    for i := 0 to |items|
      invariant ptr == pushLen + 1 + |EncodePulls(items[..i])| && pushLen < ptr < buffer.Length
      invariant buffer[..ptr] == front + [0] + EncodePulls(items[..i])
    {
      PullsLonger(items, i);
      ghost var done := buffer[..ptr];
      var next := WritePull(buffer, ptr, items[i]);
      Grown(done, buffer[..next], ptr, front, items, i);
      ptr := next;
    }
    assert items[..|items|] == items;
    buffer[ptr] := EOM;
    n := ptr + 1;
  }

  lemma Grown(done: seq<Octet>, now: seq<Octet>, ptr: nat, front: seq<Octet>, items: seq<Pull>, i: nat)
    requires i < |items| && ptr <= |now| && done == now[..ptr] == front + [0] + EncodePulls(items[..i])
    requires now[ptr..] == EncodePull(items[i])
    ensures now == front + [0] + EncodePulls(items[..i + 1])
  {
    hide EncodePull, EncodePulls;
    PullsLonger(items, i);
    Assoc(front + [0], EncodePulls(items[..i]), EncodePull(items[i]));
    assert now == now[..ptr] + now[ptr..];
  }

  lemma NoPullItems()
    ensures EncodePulls([]) == []
  {
  }

  lemma {:induction false} PullsLonger(items: seq<Pull>, i: nat)
    requires i < |items|
    ensures EncodePulls(items[..i + 1]) == EncodePulls(items[..i]) + EncodePull(items[i])
    ensures |EncodePulls(items[..i + 1])| <= |EncodePulls(items)|
    decreases |items|
  {
    assert items[..i + 1][..i] == items[..i];
    if i + 1 < |items| {
      var front := items[..|items| - 1];
      PullsLonger(front, i);
      assert front[..i + 1] == items[..i + 1];
    } else {
      assert items[..i + 1] == items;
    }
  }

  // ----- the worker's requests (db_accesses.c) -----

  function DbBufferInputSize(numPush: nat, numPull: nat): nat {
    18 + 17 * numPush + numPull
  }

  /** All that form_db_request writes into a zeroed buffer of the given size: it takes every push to be an item with
      one value and every pull to be a single byte. */
  function Formed(key: Octet, keyValue: seq<Octet>, args: seq<PushArg>, items: seq<Octet>, size: nat): (f: seq<Octet>)
    requires IdWidth(key).Some? ==> |keyValue| >= IdWidth(key).value
    requires 17 + 17 * |args| <= size
  {
    var h := if IdWidth(key).Some? then IdBytes(key, keyValue, Zeros(17)) else [];
    h + EncodePushes(PushesOf(Sent(args), Zeros(size), |h|)) + [0] + items + [EOM]
  }

  /** form_db_request, on a zeroed buffer. */
  method FormDbRequest(buffer: array<Octet>, key: Octet, keyValue: seq<Octet>, args: seq<PushArg>, items: seq<Octet>)
      returns (n: nat)
    requires IdWidth(key).Some? ==> |keyValue| >= IdWidth(key).value
    requires forall a :: a in args ==> a.Item? && Readable(a)
    requires buffer[..] == Zeros(19 + 17 * |args| + |items|)
    modifies buffer
    ensures n <= buffer.Length && buffer[..n] == Formed(key, keyValue, args, items, buffer.Length)
    ensures forall k :: n <= k < buffer.Length ==> buffer[k] == 0
  {
    hide IdBytes, PushesOf, EncodePushes, Supported, Readable, IdWidth, Sent;
    ghost var b := buffer[..];
    assert b[0..17] == Zeros(17);
    var ptr := AddIdentifier(buffer, 0, key, keyValue);
    ghost var headed, base := buffer[..], ptr;
    ptr := PushAll(buffer, ptr, args);
    SamePushes(Sent(args), headed, b, base);
    n := PullCodes(buffer, ptr, items);
  }

  /** The bytes db_access sends of what it forms: the first db_buffer_input_size bytes. The buffer here has one byte
      more than that, where EOM is stored when every push is of a known item. */
  method DbRequest(key: Octet, keyValue: seq<Octet>, args: seq<PushArg>, items: seq<Octet>) returns (sent: seq<Octet>)
    requires IdWidth(key).Some? ==> |keyValue| >= IdWidth(key).value
    requires forall a :: a in args ==> a.Item? && Readable(a)
    ensures |sent| == DbBufferInputSize(|args|, |items|)
        && Leading(Formed(key, keyValue, args, items, |sent| + 1), sent)
  {
    hide Formed;
    var size := DbBufferInputSize(|args|, |items|);
    var buffer := new Octet[size + 1](_ => 0);
    assert buffer[..] == Zeros(size + 1);
    var n := FormDbRequest(buffer, key, keyValue, args, items);
    sent := buffer[..size];
    FilledUp(buffer[..], Zeros(size + 1), buffer[..n]);
    assert Zeros(size + 1)[n..] == Zeros(size + 1 - n);
  }

  /** All but the last byte of f filled up with zeros. */
  predicate Leading(f: seq<Octet>, sent: seq<Octet>) {
    |f| <= |sent| + 1 && sent == (f + Zeros(|sent| + 1 - |f|))[..|sent|]
  }

  lemma FilledUp(s: seq<Octet>, b: seq<Octet>, f: seq<Octet>)
    requires |f| <= |s| == |b| && s[..|f|] == f && forall k :: |f| <= k < |s| ==> s[k] == b[k]
    ensures s == f + b[|f|..]
  {
  }

  /** The pull loop of form_db_request. */
  method PullCodes(buffer: array<Octet>, at: nat, items: seq<Octet>) returns (n: nat)
    requires at + 2 + |items| <= buffer.Length
    modifies buffer
    ensures n == at + 2 + |items| && buffer[..n] == old(buffer[..at]) + [0] + items + [EOM]
    ensures forall k :: n <= k < buffer.Length ==> buffer[k] == old(buffer[k])
  {
    buffer[at] := 0;
    for i := 0 to |items|
      invariant buffer[..at + 1] == old(buffer[..at]) + [0] && buffer[at + 1..at + 1 + i] == items[..i]
      invariant forall k :: at + 1 + i <= k < buffer.Length ==> buffer[k] == old(buffer[k])
    {
      buffer[at + 1 + i] := items[i];
    }
    buffer[at + 1 + |items|] := EOM;
    n := at + 2 + |items|;
  }

  lemma {:induction false} AllSent(args: seq<PushArg>)
    ensures |Sent(args)| == |args| <==> forall a :: a in args ==> Supported(a)
    ensures |Sent(args)| == |args| ==> Sent(args) == args
  {
    hide Supported;
    if args != [] {
      var front := args[..|args| - 1];
      AllSent(front);
      assert args == front + [args[|args| - 1]];
    }
  }

  /** The request that a worker means: known items only, and no eNB among the pulls. */
  function Meant(items: seq<Octet>): (gs: seq<Pull>)
    ensures |gs| == |items| && forall k :: 0 <= k < |items| ==> gs[k] == Pull(items[k], [0, 0, 0, 0])
  {
    if items == [] then [] else Meant(items[..|items| - 1]) + [Pull(items[|items| - 1], [0, 0, 0, 0])]
  }

  lemma {:induction false} MeantIsSent(items: seq<Octet>)
    requires GET_ENB !in items
    ensures EncodePulls(Meant(items)) == items
  {
    if items != [] {
      var front, gs := items[..|items| - 1], Meant(items);
      MeantIsSent(front);
      assert gs[..|items| - 1] == Meant(front);
      assert EncodePull(gs[|items| - 1]) == [items[|items| - 1]];
      hide EncodePull, Meant;
      assert EncodePulls(gs) == front + [items[|items| - 1]] == items;
    }
  }

  /** For known items only, and without GET_ENB, the bytes sent are the request up to but without its EOM. */
  lemma {:induction false} DbRequestIsBody(key: Octet, keyValue: seq<Octet>, args: seq<PushArg>, items: seq<Octet>,
      sent: seq<Octet>)
    requires IdWidth(key).Some? && |keyValue| >= IdWidth(key).value
    requires (forall a :: a in args ==> Supported(a)) && GET_ENB !in items
    requires |sent| == DbBufferInputSize(|args|, |items|)
        && Leading(Formed(key, keyValue, args, items, |sent| + 1), sent)
    ensures sent == Body(IdBytes(key, keyValue, Zeros(17)), PushesOf(args, Zeros(|sent| + 1), 17), Meant(items))
  {
    AllSent(args);
    MeantIsSent(items);
    hide IdBytes, PushesOf, EncodePushes, EncodePulls, Supported, Meant, Sent, IdWidth, Zeros, Leading;
    var body := Body(IdBytes(key, keyValue, Zeros(17)), PushesOf(args, Zeros(|sent| + 1), 17), Meant(items));
    assert Formed(key, keyValue, args, items, |sent| + 1) == body + [EOM];
    hide Formed, Body;
    EomIsCut(body, sent);
  }

  lemma EomIsCut(body: seq<Octet>, sent: seq<Octet>)
    requires |body| == |sent| && Leading(body + [EOM], sent)
    ensures sent == body
  {
    var f := body + [EOM];
    assert f + Zeros(0) == f && f[..|body|] == body;
  }

  /** Otherwise all that was formed is sent, EOM included. */
  lemma FormedLength(key: Octet, keyValue: seq<Octet>, args: seq<PushArg>, items: seq<Octet>, size: nat)
    requires IdWidth(key).Some? ==> |keyValue| >= IdWidth(key).value
    requires size == DbBufferInputSize(|args|, |items|) + 1
    ensures |Formed(key, keyValue, args, items, size)| <= size
    ensures |Formed(key, keyValue, args, items, size)| == size <==> IdWidth(key).Some? && forall a :: a in args ==>
        Supported(a)
  {
    AllSent(args);
    hide PushesOf, EncodePushes, Supported, Sent, IdWidth;
  }

  // ----- responses -----

  /** The member of corekube_db_pulls_t that a reply code fills; RAND_UPDATE fills the one of RAND. */
  function Member(code: Octet): Option<Octet> {
    if code == RAND_UPDATE then Some(RAND)
    else if IMSI <= code <= EPC_NAS_SEQUENCE_NUMBER || KEY <= code <= RAND || MME_UE_S1AP_ID <= code <= KASME_2
      || GET_ENB <= code <= ENB_TARGET_SOCKET then Some(code)
    else None
  }

  /** Reply slot k is the last one of n bytes that fills the given member. */
  ghost predicate LastSlot(buffer: seq<Octet>, n: nat, member: Octet, k: nat)
    requires n <= |buffer|
  {
    && 17 * k < n && Member(buffer[17 * k]) == Some(member)
    && forall j :: k < j && 17 * j < n ==> Member(buffer[17 * j]) != Some(member)
  }

  /** extract_db_values: where in the buffer each member points; slots numbers the reply it points into. */
  method ExtractDbValues(buffer: seq<Octet>, n: nat) returns (pulls: map<Octet, nat>, ghost slots: map<Octet, nat>)
    requires n <= |buffer|
    ensures pulls.Keys == slots.Keys
    ensures forall m :: m in pulls ==> pulls[m] == 17 * slots[m] + 1 && LastSlot(buffer, n, m, slots[m])
    ensures forall k: nat :: 17 * k < n && Member(buffer[17 * k]).Some? ==> Member(buffer[17 * k]).value in pulls
  {
    hide Member;
    pulls, slots := map[], map[];
    var i := 0;
    ghost var s := 0;
    while i < n
      invariant i == 17 * s && s >= 0 && pulls.Keys == slots.Keys
      invariant forall m :: m in pulls ==> pulls[m] == 17 * slots[m] + 1 && LastUpTo(buffer, n, m, slots[m], s)
      invariant forall k: nat :: k < s && 17 * k < n && Member(buffer[17 * k]).Some? ==>
          Member(buffer[17 * k]).value in pulls
    {
      var m := Member(buffer[i]);
      if m.Some? {
        pulls := pulls[m.value := i + 1];
        slots := slots[m.value := s];
      }
      forall x | x in slots ensures LastUpTo(buffer, n, x, slots[x], s + 1) { }
      i := i + 17;
      s := s + 1;
    }
    forall x | x in slots ensures LastSlot(buffer, n, x, slots[x]) { assert LastUpTo(buffer, n, x, slots[x], s); }
  }

  ghost predicate LastUpTo(buffer: seq<Octet>, n: nat, member: Octet, k: nat, s: nat)
    requires n <= |buffer|
  {
    && 17 * k < n && k < s && Member(buffer[17 * k]) == Some(member)
    && forall j :: k < j < s && 17 * j < n ==> Member(buffer[17 * j]) != Some(member)
  }
}
