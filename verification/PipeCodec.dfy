/** The datagrams of the inter-process pipes (system/util_pipe.cpp:46-64, 95-123, 126-178, 185-213,
    235-259, 267-286, 328-358, 364-410).

    Every sender writes a fixed list of header fields into a packet, appends the payload and sends
    the used bytes as one datagram; the reader fetches the fields and takes the rest, less a header
    length that is written out as a number, for the payload. */
module PipeCodec {
  import opened PacketCodec

  // The header fields of a packet on the incoming and the tcp outgoing pipe.
  datatype Info = Info(ip: int, port: int, sockHdl: int, sockRnd: int, sockType: int, sockEvt: int,
                       fromLocal: int, flapChannel: int, seqNumber: int)

  // The header fields of a packet for the retransmission process.
  datatype Order = Order(ip: int, port: int, retryNum: int, timeOut: int, ackStamp: int, shmIndex: int,
                         toUin: int)

  function IncomingItems(f: Info): seq<Item> {
    [Item(ULong, f.ip), Item(ULong, f.port), Item(Long, f.sockHdl), Item(ULong, f.sockRnd),
     Item(UShort, f.sockType), Item(UShort, f.sockEvt), Item(UShort, f.fromLocal),
     Item(UShort, f.flapChannel), Item(ULong, f.seqNumber)]
  }

  const INCOMING_KINDS: seq<Kind> := [ULong, UInt, Long, ULong, UShort, UShort, UShort, UShort, ULong]

  // On the way back to the tcp process two of the fields are not sent.
  function WritebackItems(f: Info): seq<Item> {
    [Item(ULong, f.ip), Item(ULong, f.port), Item(Long, f.sockHdl), Item(ULong, f.sockRnd),
     Item(UShort, f.sockType), Item(UShort, f.sockEvt), Item(UShort, f.flapChannel)]
  }

  const WRITEBACK_KINDS: seq<Kind> := [ULong, UInt, Long, ULong, UShort, UShort, UShort]

  function OutgoingItems(o: Order): seq<Item> {
    [Item(ULong, o.ip), Item(ULong, o.port), Item(ULong, o.retryNum), Item(ULong, o.timeOut),
     Item(ULong, o.ackStamp), Item(ULong, o.shmIndex), Item(ULong, o.toUin)]
  }

  const OUTGOING_KINDS: seq<Kind> := [ULong, UInt, UInt, UInt, ULong, ULong, ULong]

  // The types of the fields.
  predicate InfoOk(f: Info, wide: nat) {
    && Representable(ULong, f.ip, wide) && Representable(UInt, f.port, wide) && Representable(Long, f.sockHdl, wide)
    && Representable(ULong, f.sockRnd, wide) && Representable(UShort, f.sockType, wide)
    && Representable(UShort, f.sockEvt, wide) && Representable(UShort, f.fromLocal, wide)
    && Representable(UShort, f.flapChannel, wide) && Representable(ULong, f.seqNumber, wide)
  }

  predicate OrderOk(o: Order, wide: nat) {
    && Representable(ULong, o.ip, wide) && Representable(UInt, o.port, wide) && Representable(UInt, o.retryNum, wide)
    && Representable(UInt, o.timeOut, wide) && Representable(ULong, o.ackStamp, wide)
    && Representable(ULong, o.shmIndex, wide) && Representable(ULong, o.toUin, wide)
  }

  const BUFF: nat := 9216

  // ---------------------------------------------------------------- datagrams

  predicate Sendable(old_: seq<Byte>, items: seq<Item>, payload: seq<Byte>, wide: nat) {
    wide in {4, 8} && |old_| == BUFF && Total(Kinds(items), wide) + |payload| <= BUFF
  }

  // What is sent, from a packet whose buffer held old_ before.
  function Sent(old_: seq<Byte>, items: seq<Item>, payload: seq<Byte>, wide: nat): (d: seq<Byte>)
    requires Sendable(old_, items, payload, wide)
    ensures |d| == Total(Kinds(items), wide) + |payload|
  {
    var q := WrittenAll(Pk(old_, 0, 0, 0), items, wide);
    q.bytes[..q.size] + payload
  }

  // The packet after recvfrom, which cuts the datagram at MAX_PACKET_SIZE.
  function Arrived(old_: seq<Byte>, d: seq<Byte>): (p: Pk)
    requires |old_| == BUFF
    ensures |p.bytes| == BUFF && p.size <= 8192 && p.next == 0
  {
    var m := if |d| <= 8192 then |d| else 8192;
    Pk(d[..m] + old_[m..], 0, m, 0)
  }

  // The payload a reader takes that believes the header to be so long; nothing where the copy
  // would leave the buffer or have a negative length.
  function Payload(old_: seq<Byte>, d: seq<Byte>, kinds: seq<Kind>, header: nat, wide: nat): seq<Byte>
    requires |old_| == BUFF
  {
    var p := Arrived(old_, d);
    var from := AdvancedAll(p, kinds, wide).next;
    if header <= p.size && from + p.size - header <= BUFF then p.bytes[from..from + p.size - header] else []
  }

  // What receiving comes to: nothing, a packet, or header fields and a copy of negative length.
  datatype Received<T> = Nothing | Packed(fields: T, payload: seq<Byte>) | Overrun(fields: T)

  // The reader's outcome for a datagram, given what it makes of the header fields.
  function Outcome<T>(old_: seq<Byte>, d: seq<Byte>, kinds: seq<Kind>, header: nat, wide: nat, fields: T)
    : (r: Received<T>)
    requires |old_| == BUFF && header <= 8192
    ensures r.Overrun? <==> |d| < header
    ensures !r.Nothing? && r.fields == fields
  {
    if Arrived(old_, d).size < header then Overrun(fields)
    else Packed(fields, Payload(old_, d, kinds, header, wide))
  }

  // The header part of a datagram, read back.
  lemma HeaderComesBack(old1: seq<Byte>, a: Pk, items: seq<Item>, kinds: seq<Kind>)
    requires |old1| == |a.bytes| == BUFF && a.next == 0 && a.order == 0 && a.size <= BUFF
    requires Matching(items, kinds, 4) && Total(kinds, 4) == Total(Kinds(items), 4) <= a.size
    requires forall i :: 0 <= i < |items| ==> Representable(kinds[i], items[i].value, 4)
    requires a.bytes[..Total(kinds, 4)] == WrittenAll(Pk(old1, 0, 0, 0), items, 4).bytes[..Total(kinds, 4)]
    ensures forall i :: 0 <= i < |items| ==> FetchedAll(a, kinds, 4)[i] == items[i].value
    ensures AdvancedAll(a, kinds, 4).next == Total(kinds, 4)
  {
    ReadsFollowWrites(Pk(old1, 0, 0, 0), items, kinds, 4);
    var q := WrittenAll(Pk(old1, 0, 0, 0), items, 4);
    SamePrefixSameReads(a, q.(next := 0), kinds, 4);
    hide Representable, WrittenAll, FetchedAll, AdvancedAll, Total;
    forall i | 0 <= i < |items| ensures ReadAs(items[i], kinds[i], 0, 4) == items[i].value {
      SameBytes(items[i], kinds[i]);
    }
  }

  // What of a payload gets through behind a header so long.
  function Cut(payload: seq<Byte>, header: nat): seq<Byte> {
    if header + |payload| <= 8192 then payload else if header <= 8192 then payload[..8192 - header] else []
  }

  // With longs of four bytes: the fields come back as they were, and of the payload what fits the
  // datagram with its header.
  lemma DatagramComesBack(old1: seq<Byte>, old2: seq<Byte>, items: seq<Item>, kinds: seq<Kind>, payload: seq<Byte>)
    requires Sendable(old1, items, payload, 4) && |old2| == BUFF
    requires Matching(items, kinds, 4) && Total(kinds, 4) == Total(Kinds(items), 4) <= 8192
    requires forall i :: 0 <= i < |items| ==> Representable(kinds[i], items[i].value, 4)
    ensures var d := Sent(old1, items, payload, 4);
      && (forall i :: 0 <= i < |items| ==> FetchedAll(Arrived(old2, d), kinds, 4)[i] == items[i].value)
      && Payload(old2, d, kinds, Total(kinds, 4), 4) == Cut(payload, Total(kinds, 4))
  {
    hide Representable, WrittenAll, FetchedAll, AdvancedAll, Total, Matching;
    var h := Total(kinds, 4);
    var d := Sent(old1, items, payload, 4);
    var a := Arrived(old2, d);
    var q := WrittenAll(Pk(old1, 0, 0, 0), items, 4);
    assert a.bytes[..h] == q.bytes[..h] by { assert a.bytes[..h] == d[..h]; }
    HeaderComesBack(old1, a, items, kinds);
    var m := if h + |payload| <= 8192 then |payload| else 8192 - h;
    assert a.bytes[h..h + m] == payload[..m] && payload[..|payload|] == payload;
  }

  lemma SameBytes(it: Item, k: Kind)
    requires Stored(it.kind) == Stored(k) && Representable(k, it.value, 4)
    ensures ReadAs(it, k, 0, 4) == it.value
  {
    ValueComesBack(k, it.value, 0, 4);
    FourByteLongsSurvive(k, it.value);
  }

  // Reads that stay inside a common prefix fetch the same values.
  lemma {:induction false} SamePrefixSameReads(a: Pk, b: Pk, kinds: seq<Kind>, wide: nat)
    requires wide in {4, 8} && a.size <= |a.bytes| && b.size <= |b.bytes| && a.next == b.next && a.order == b.order
    requires a.next + Total(kinds, wide) <= b.size <= a.size && a.bytes[..b.size] == b.bytes[..b.size]
    ensures FetchedAll(a, kinds, wide) == FetchedAll(b, kinds, wide)
    ensures AdvancedAll(a, kinds, wide).next == AdvancedAll(b, kinds, wide).next == a.next + Total(kinds, wide)
    decreases kinds
  {
    hide Decoded;
    if kinds != [] {
      var k := kinds[0];
      SliceOfPrefix(a.bytes, b.bytes, b.size, a.next, a.next + Stored(k));
      SamePrefixSameReads(Advanced(a, k, wide), Advanced(b, k, wide), kinds[1..], wide);
    }
  }

  lemma IncomingSent(f: Info, w: nat)
    ensures Total(Kinds(IncomingItems(f)), w) == 5 * w + 8
  {
    assert Kinds(IncomingItems(f)) == [ULong, ULong, Long, ULong, UShort, UShort, UShort, UShort, ULong];
    TotalIsSum(Kinds(IncomingItems(f)), w);
  }

  lemma WritebackSent(f: Info, w: nat)
    ensures Total(Kinds(WritebackItems(f)), w) == 4 * w + 6
  {
    assert Kinds(WritebackItems(f)) == [ULong, ULong, Long, ULong, UShort, UShort, UShort];
    TotalIsSum(Kinds(WritebackItems(f)), w);
  }

  lemma OutgoingSent(o: Order, w: nat)
    ensures Total(Kinds(OutgoingItems(o)), w) == 7 * w
  {
    assert Kinds(OutgoingItems(o)) == [ULong, ULong, ULong, ULong, ULong, ULong, ULong];
    TotalIsSum(Kinds(OutgoingItems(o)), w);
  }

  lemma ReadLengths(w: nat)
    ensures Total(INCOMING_KINDS, w) == 4 * w + 12
    ensures Total(WRITEBACK_KINDS, w) == 3 * w + 10
    ensures Total(OUTGOING_KINDS, w) == 4 * w + 12
  {
    TotalIsSum(INCOMING_KINDS, w);
    TotalIsSum(WRITEBACK_KINDS, w);
    TotalIsSum(OUTGOING_KINDS, w);
  }

  // The written-out header lengths are what is sent and what is read just when a long has four
  // bytes.
  lemma HeaderLengths(f: Info, o: Order, wide: nat)
    requires wide in {4, 8}
    ensures Total(Kinds(IncomingItems(f)), wide) == 28 <==> wide == 4
    ensures Total(Kinds(WritebackItems(f)), wide) == 22 <==> wide == 4
    ensures Total(Kinds(OutgoingItems(o)), wide) == 28 <==> wide == 4
    ensures Total(INCOMING_KINDS, wide) == Total(Kinds(IncomingItems(f)), wide) <==> wide == 4
    ensures Total(WRITEBACK_KINDS, wide) == Total(Kinds(WritebackItems(f)), wide) <==> wide == 4
    ensures Total(OUTGOING_KINDS, wide) == Total(Kinds(OutgoingItems(o)), wide) <==> wide == 4
    ensures wide == 8 ==> Total(Kinds(IncomingItems(f)), wide) == 48
    ensures Total(INCOMING_KINDS, wide) <= 1024 && Total(WRITEBACK_KINDS, wide) <= 1024
    ensures Total(OUTGOING_KINDS, wide) <= 1024
  {
    hide Total, Kinds, IncomingItems, WritebackItems, OutgoingItems;
    IncomingSent(f, wide);
    WritebackSent(f, wide);
    OutgoingSent(o, wide);
    ReadLengths(wide);
  }

  // The size of seven to nine fields, added up.
  lemma TotalIsSum(ks: seq<Kind>, w: nat)
    requires 7 <= |ks| <= 9
    ensures Total(ks, w) == Size(ks[0], w) + Size(ks[1], w) + Size(ks[2], w) + Size(ks[3], w) + Size(ks[4], w)
      + Size(ks[5], w) + Size(ks[6], w) + (if |ks| > 7 then Size(ks[7], w) else 0)
      + (if |ks| > 8 then Size(ks[8], w) else 0)
  {
    DropOne(ks, 0, w); DropOne(ks, 1, w); DropOne(ks, 2, w); DropOne(ks, 3, w); DropOne(ks, 4, w);
    DropOne(ks, 5, w); DropOne(ks, 6, w);
    assert ks[0..] == ks;
    if |ks| > 7 { DropOne(ks, 7, w); }
    if |ks| > 8 { DropOne(ks, 8, w); }
  }

  lemma DropOne(ks: seq<Kind>, i: nat, w: nat)
    requires i < |ks|
    ensures Total(ks[i..], w) == Size(ks[i], w) + Total(ks[i + 1..], w)
  {
    assert ks[i..][1..] == ks[i + 1..];
  }

  // ---------------------------------------------------------------- the fields by name

  function InfoOf(vs: seq<int>): Info
    requires |vs| == 9
  {
    Info(vs[0], vs[1], vs[2], vs[3], vs[4], vs[5], vs[6], vs[7], vs[8])
  }

  // The writeback reader leaves the two fields not sent as they are in its packet.
  function WritebackOf(vs: seq<int>, fromLocal: int, seqNumber: int): Info
    requires |vs| == 7
  {
    Info(vs[0], vs[1], vs[2], vs[3], vs[4], vs[5], fromLocal, vs[6], seqNumber)
  }

  function OrderOf(vs: seq<int>): Order
    requires |vs| == 7
  {
    Order(vs[0], vs[1], vs[2], vs[3], vs[4], vs[5], vs[6])
  }

  // What the three readers make of a datagram.
  function IncomingReceived(old_: seq<Byte>, d: seq<Byte>, wide: nat): Received<Info>
    requires |old_| == BUFF && wide in {4, 8}
  {
    Outcome(old_, d, INCOMING_KINDS, 28, wide, InfoOf(FetchedAll(Arrived(old_, d), INCOMING_KINDS, wide)))
  }

  function WritebackReceived(old_: seq<Byte>, d: seq<Byte>, wide: nat, fromLocal: int, seqNumber: int): Received<Info>
    requires |old_| == BUFF && wide in {4, 8}
  {
    Outcome(old_, d, WRITEBACK_KINDS, 22, wide,
            WritebackOf(FetchedAll(Arrived(old_, d), WRITEBACK_KINDS, wide), fromLocal, seqNumber))
  }

  function OutgoingReceived(old_: seq<Byte>, d: seq<Byte>, wide: nat): Received<Order>
    requires |old_| == BUFF && wide in {4, 8}
  {
    Outcome(old_, d, OUTGOING_KINDS, 28, wide, OrderOf(FetchedAll(Arrived(old_, d), OUTGOING_KINDS, wide)))
  }

  // pipe_receive_packet after pipe_send_packet: every field, and the payload exactly up to
  // 8192 - 28 bytes.
  lemma IncomingComesBack(old1: seq<Byte>, old2: seq<Byte>, f: Info, payload: seq<Byte>)
    requires InfoOk(f, 4) && |old1| == |old2| == BUFF && 28 + |payload| <= BUFF
    ensures Sendable(old1, IncomingItems(f), payload, 4) && Total(INCOMING_KINDS, 4) == 28
    ensures var d := Sent(old1, IncomingItems(f), payload, 4);
      && IncomingReceived(old2, d, 4) == Packed(f, Cut(payload, 28))
      && (IncomingReceived(old2, d, 4) == Packed(f, payload) <==> |payload| <= 8164)
  {
    hide Total, WrittenAll, FetchedAll, AdvancedAll, Payload;
    HeaderLengths(f, Order(0, 0, 0, 0, 0, 0, 0), 4);
    DatagramComesBack(old1, old2, IncomingItems(f), INCOMING_KINDS, payload);
  }

  // toutgoing_receive_packet after tcp_writeback_packet.
  lemma WritebackComesBack(old1: seq<Byte>, old2: seq<Byte>, f: Info, payload: seq<Byte>)
    requires InfoOk(f, 4) && |old1| == |old2| == BUFF && 22 + |payload| <= BUFF
    ensures Sendable(old1, WritebackItems(f), payload, 4) && Total(WRITEBACK_KINDS, 4) == 22
    ensures var d := Sent(old1, WritebackItems(f), payload, 4);
      && WritebackReceived(old2, d, 4, f.fromLocal, f.seqNumber) == Packed(f, Cut(payload, 22))
      && (WritebackReceived(old2, d, 4, f.fromLocal, f.seqNumber) == Packed(f, payload) <==> |payload| <= 8170)
  {
    hide Total, WrittenAll, FetchedAll, AdvancedAll, Payload;
    HeaderLengths(f, Order(0, 0, 0, 0, 0, 0, 0), 4);
    DatagramComesBack(old1, old2, WritebackItems(f), WRITEBACK_KINDS, payload);
  }

  // epacket_receive_packet after event_send_packet.
  lemma OutgoingComesBack(old1: seq<Byte>, old2: seq<Byte>, o: Order, payload: seq<Byte>)
    requires OrderOk(o, 4) && |old1| == |old2| == BUFF && 28 + |payload| <= BUFF
    ensures Sendable(old1, OutgoingItems(o), payload, 4) && Total(OUTGOING_KINDS, 4) == 28
    ensures var d := Sent(old1, OutgoingItems(o), payload, 4);
      && OutgoingReceived(old2, d, 4) == Packed(o, Cut(payload, 28))
      && (OutgoingReceived(old2, d, 4) == Packed(o, payload) <==> |payload| <= 8164)
  {
    hide Total, WrittenAll, FetchedAll, AdvancedAll, Payload;
    HeaderLengths(Info(0, 0, 0, 0, 0, 0, 0, 0, 0), o, 4);
    DatagramComesBack(old1, old2, OutgoingItems(o), OUTGOING_KINDS, payload);
  }

  // With longs of eight bytes an incoming payload never comes back with its own length, unless
  // the datagram was cut.
  lemma WideLongsMisfit(old1: seq<Byte>, old2: seq<Byte>, f: Info, payload: seq<Byte>)
    requires Sendable(old1, IncomingItems(f), payload, 8) && |old2| == BUFF
    requires 48 + |payload| <= 8192
    ensures var d := Sent(old1, IncomingItems(f), payload, 8);
      var r := IncomingReceived(old2, d, 8);
      r.Packed? && |r.payload| == |payload| + 20
  {
    hide Total, Kinds, IncomingItems, WrittenAll, AdvancedAll, FetchedAll, InfoOf;
    IncomingSent(f, 8);
    ReadLengths(8);
  }

  // ---------------------------------------------------------------- the bytes of the datagrams

  function EncodedAll(items: seq<Item>): seq<Byte> {
    if items == [] then [] else Encoded(items[0].kind, items[0].value, 0) + EncodedAll(items[1..])
  }

  lemma {:induction false} WrittenBytes(p: Pk, items: seq<Item>)
    requires p.order == 0 && p.size == p.next && p.next + Total(Kinds(items), 4) <= |p.bytes|
    ensures |EncodedAll(items)| == Total(Kinds(items), 4)
    ensures var q := WrittenAll(p, items, 4);
      && q.size == p.next + Total(Kinds(items), 4) <= |q.bytes|
      && q.bytes[..q.size] == p.bytes[..p.next] + EncodedAll(items)
    decreases items
  {
    hide Encoded;
    if items != [] {
      var it := items[0];
      assert Kinds(items)[1..] == Kinds(items[1..]);
      var p1 := Written(p, it.kind, it.value, 4);
      WrittenBytes(p1, items[1..]);
      assert p1.bytes[..p1.next] == p.bytes[..p.next] + Encoded(it.kind, it.value, 0);
    }
  }

  lemma SentBytes(old_: seq<Byte>, items: seq<Item>, payload: seq<Byte>)
    requires Sendable(old_, items, payload, 4)
    ensures Sent(old_, items, payload, 4) == EncodedAll(items) + payload
  {
    hide EncodedAll, WrittenAll, Total;
    WrittenBytes(Pk(old_, 0, 0, 0), items);
    assert old_[..0] == [];
  }

  lemma FirstEncoded(it: Item, rest: seq<Item>)
    ensures EncodedAll([it] + rest) == Encoded(it.kind, it.value, 0) + EncodedAll(rest)
  {
    assert ([it] + rest)[1..] == rest;
  }

  // Two and four bytes, the low one first.
  function Le2(v: int): seq<Byte> { [v % 256, v / 256 % 256] }

  function Le4(v: int): seq<Byte> { [v % 256, v / 256 % 256, v / 65536 % 256, v / 16777216 % 256] }

  lemma EncodedIs(k: Kind, v: int)
    ensures k in {UInt, Long, ULong} ==> Encoded(k, v, 0) == Le4(v)
    ensures k in {UShort, Short} ==> Encoded(k, v, 0) == Le2(v)
  {}

  // With longs of four bytes, byte by byte what a packet for the packet processors looks like.
  lemma IncomingBytes(old_: seq<Byte>, f: Info, payload: seq<Byte>)
    requires Sendable(old_, IncomingItems(f), payload, 4)
    ensures Sent(old_, IncomingItems(f), payload, 4)
         == Le4(f.ip) + Le4(f.port) + Le4(f.sockHdl) + Le4(f.sockRnd) + Le2(f.sockType) + Le2(f.sockEvt)
            + Le2(f.fromLocal) + Le2(f.flapChannel) + Le4(f.seqNumber) + payload
  {
    SentBytes(old_, IncomingItems(f), payload);
    hide Encoded, EncodedAll, Sent, Le2, Le4;
    var tail: seq<Item> := [Item(UShort, f.fromLocal), Item(UShort, f.flapChannel), Item(ULong, f.seqNumber)];
    SevenEncoded(Item(ULong, f.ip), Item(ULong, f.port), Item(Long, f.sockHdl), Item(ULong, f.sockRnd),
                 Item(UShort, f.sockType), Item(UShort, f.sockEvt), tail[0], tail[1..]);
    TwoEncoded(tail[1], tail[2]);
    assert IncomingItems(f) == [Item(ULong, f.ip), Item(ULong, f.port), Item(Long, f.sockHdl), Item(ULong, f.sockRnd),
                                Item(UShort, f.sockType), Item(UShort, f.sockEvt), tail[0]] + tail[1..];
    EncodedIs(ULong, f.ip); EncodedIs(ULong, f.port); EncodedIs(Long, f.sockHdl); EncodedIs(ULong, f.sockRnd);
    EncodedIs(UShort, f.sockType); EncodedIs(UShort, f.sockEvt); EncodedIs(UShort, f.fromLocal);
    EncodedIs(UShort, f.flapChannel); EncodedIs(ULong, f.seqNumber);
  }

  // And one for the tcp process.
  lemma WritebackBytes(old_: seq<Byte>, f: Info, payload: seq<Byte>)
    requires Sendable(old_, WritebackItems(f), payload, 4)
    ensures Sent(old_, WritebackItems(f), payload, 4)
         == Le4(f.ip) + Le4(f.port) + Le4(f.sockHdl) + Le4(f.sockRnd) + Le2(f.sockType) + Le2(f.sockEvt)
            + Le2(f.flapChannel) + payload
  {
    SentBytes(old_, WritebackItems(f), payload);
    hide Encoded, EncodedAll, Sent, Le2, Le4;
    SevenEncoded(Item(ULong, f.ip), Item(ULong, f.port), Item(Long, f.sockHdl), Item(ULong, f.sockRnd),
                 Item(UShort, f.sockType), Item(UShort, f.sockEvt), Item(UShort, f.flapChannel), []);
    NoneEncoded();
    EncodedIs(ULong, f.ip); EncodedIs(ULong, f.port); EncodedIs(Long, f.sockHdl); EncodedIs(ULong, f.sockRnd);
    EncodedIs(UShort, f.sockType); EncodedIs(UShort, f.sockEvt); EncodedIs(UShort, f.flapChannel);
    assert WritebackItems(f) == WritebackItems(f) + [];
  }

  // And one for the retransmission process.
  lemma OutgoingBytes(old_: seq<Byte>, o: Order, payload: seq<Byte>)
    requires Sendable(old_, OutgoingItems(o), payload, 4)
    ensures Sent(old_, OutgoingItems(o), payload, 4)
         == Le4(o.ip) + Le4(o.port) + Le4(o.retryNum) + Le4(o.timeOut) + Le4(o.ackStamp) + Le4(o.shmIndex)
            + Le4(o.toUin) + payload
  {
    SentBytes(old_, OutgoingItems(o), payload);
    hide Encoded, EncodedAll, Sent, Le2, Le4;
    SevenEncoded(Item(ULong, o.ip), Item(ULong, o.port), Item(ULong, o.retryNum), Item(ULong, o.timeOut),
                 Item(ULong, o.ackStamp), Item(ULong, o.shmIndex), Item(ULong, o.toUin), []);
    NoneEncoded();
    EncodedIs(ULong, o.ip); EncodedIs(ULong, o.port); EncodedIs(ULong, o.retryNum); EncodedIs(ULong, o.timeOut);
    EncodedIs(ULong, o.ackStamp); EncodedIs(ULong, o.shmIndex); EncodedIs(ULong, o.toUin);
    assert OutgoingItems(o) == OutgoingItems(o) + [];
  }

  lemma NoneEncoded()
    ensures EncodedAll([]) == []
  {}

  lemma TwoEncoded(a: Item, b: Item)
    ensures EncodedAll([a, b]) == Encoded(a.kind, a.value, 0) + Encoded(b.kind, b.value, 0)
  {
    FirstEncoded(a, [b]);
    FirstEncoded(b, []);
    assert [a, b] == [a] + [b] && [b] == [b] + [];
  }

  lemma SevenEncoded(a: Item, b: Item, c: Item, d: Item, e: Item, f: Item, g: Item, rest: seq<Item>)
    ensures EncodedAll([a, b, c, d, e, f, g] + rest)
         == Encoded(a.kind, a.value, 0) + Encoded(b.kind, b.value, 0) + Encoded(c.kind, c.value, 0)
            + Encoded(d.kind, d.value, 0) + Encoded(e.kind, e.value, 0) + Encoded(f.kind, f.value, 0)
            + Encoded(g.kind, g.value, 0) + EncodedAll(rest)
  {
    hide EncodedAll, Encoded;
    var r6 := [g] + rest;
    var r5 := [f] + r6;
    var r4 := [e] + r5;
    var r3 := [d] + r4;
    var r2 := [c] + r3;
    var r1 := [b] + r2;
    FirstEncoded(a, r1); FirstEncoded(b, r2); FirstEncoded(c, r3); FirstEncoded(d, r4);
    FirstEncoded(e, r5); FirstEncoded(f, r6); FirstEncoded(g, rest);
    assert [a, b, c, d, e, f, g] + rest == [a] + r1;
  }

  // ---------------------------------------------------------------- in the packets

  // memcpy of the payload behind the header, and the send of the used bytes.
  method AppendAndSend(p: Packet, payload: seq<Byte>) returns (d: seq<Byte>)
    requires p.Valid() && p.nextData == p.sizeVal && p.sizeVal + |payload| <= p.buff.Length
    modifies p`sizeVal, p.buff
    ensures d == old(p.buff[..p.sizeVal]) + payload
  {
    forall i | 0 <= i < |payload| { p.buff[p.nextData + i] := payload[i]; }
    p.sizeVal := p.sizeVal + |payload|;
    d := p.buff[..p.sizeVal];
  }

  // pipe_send_packet up to the locks; spack is the process's scratch packet.
  method PipeSendPacket(spack: Packet, f: Info, payload: seq<Byte>) returns (d: seq<Byte>)
    requires spack.Valid() && Sendable(spack.buff[..], IncomingItems(f), payload, spack.wide)
    modifies spack, spack.buff
    ensures d == Sent(old(spack.buff[..]), IncomingItems(f), payload, spack.wide)
  {
    hide IsWritten, Total, Written, Fits, IncomingItems, Sent;
    IncomingSent(f, spack.wide);
    spack.ClearPacket();
    ghost var start := spack.Value();
    ghost var log: seq<Item> := [];
    NothingWritten(start, spack.wide);
    log := spack.Write(ULong, f.ip, start, log);
    log := spack.Write(ULong, f.port, start, log);
    log := spack.Write(Long, f.sockHdl, start, log);
    log := spack.Write(ULong, f.sockRnd, start, log);
    log := spack.Write(UShort, f.sockType, start, log);
    log := spack.Write(UShort, f.sockEvt, start, log);
    log := spack.Write(UShort, f.fromLocal, start, log);
    log := spack.Write(UShort, f.flapChannel, start, log);
    log := spack.Write(ULong, f.seqNumber, start, log);
    IncomingIs(f);
    SentIs(start, log, payload, spack.wide, spack.Value());
    d := AppendAndSend(spack, payload);
  }

  lemma SentIs(start: Pk, items: seq<Item>, payload: seq<Byte>, wide: nat, p: Pk)
    requires Sendable(start.bytes, items, payload, wide) && start == Pk(start.bytes, 0, 0, 0)
    requires IsWritten(start, items, wide, p)
    ensures p.size <= |p.bytes| && p.next == p.size && p.size + |payload| <= BUFF
    ensures Sent(start.bytes, items, payload, wide) == p.bytes[..p.size] + payload
  {}

  lemma IncomingIs(f: Info)
    ensures IncomingItems(f) == [] + [Item(ULong, f.ip)] + [Item(ULong, f.port)] + [Item(Long, f.sockHdl)]
      + [Item(ULong, f.sockRnd)] + [Item(UShort, f.sockType)] + [Item(UShort, f.sockEvt)] + [Item(UShort, f.fromLocal)]
      + [Item(UShort, f.flapChannel)] + [Item(ULong, f.seqNumber)]
  {}

  lemma NothingWritten(start: Pk, wide: nat)
    requires start.next <= |start.bytes| && wide in {4, 8}
    ensures IsWritten(start, [], wide, start)
  {}

  // recvfrom into the scratch packet, and the rewind before reading.
  method RecvFrom(p: Packet, d: seq<Byte>)
    requires p.Valid()
    modifies p`nextData, p`sizeVal, p`netOrder, p.buff
    ensures p.Value() == Arrived(old(p.buff[..]), d)
  {
    p.ClearPacket();
    p.sizeVal := if |d| <= 8192 then |d| else 8192;
    forall i | 0 <= i < p.sizeVal { p.buff[i] := d[i]; }
    p.Reset();
  }

  // The header fields, one >> after the other.
  method ReadInfo(p: Packet) returns (f: Info, ghost vs: seq<int>)
    requires p.Valid() && p.sizeVal <= p.buff.Length
    modifies p`nextData
    ensures IsFetched(old(p.Value()), INCOMING_KINDS, p.wide, vs, p.Value()) && f == InfoOf(vs)
  {
    hide IsFetched, Fetched, Advanced;
    var ip, port, sockHdl, sockRnd, sockType, sockEvt, fromLocal, flapChannel, seqNumber;
    ghost var start, log := p.Value(), [];
    vs := [];
    NothingFetched(start, p.wide);
    ip, log, vs := p.Read(ULong, start, log, vs);
    port, log, vs := p.Read(UInt, start, log, vs);
    sockHdl, log, vs := p.Read(Long, start, log, vs);
    sockRnd, log, vs := p.Read(ULong, start, log, vs);
    sockType, log, vs := p.Read(UShort, start, log, vs);
    sockEvt, log, vs := p.Read(UShort, start, log, vs);
    fromLocal, log, vs := p.Read(UShort, start, log, vs);
    flapChannel, log, vs := p.Read(UShort, start, log, vs);
    seqNumber, log, vs := p.Read(ULong, start, log, vs);
    f := Info(ip, port, sockHdl, sockRnd, sockType, sockEvt, fromLocal, flapChannel, seqNumber);
    assert log == INCOMING_KINDS;
  }

  // pipe_receive_packet up to the locks and counters; an empty datagram stands for a failed
  // receive.
  method PipeReceivePacket(p: Packet, d: seq<Byte>) returns (r: Received<Info>)
    requires p.Valid()
    modifies p, p.buff
    ensures r == if d == [] then Nothing else IncomingReceived(old(p.buff[..]), d, p.wide)
  {
    hide IsFetched, Total, Fetched, Advanced, Payload;
    RecvFrom(p, d);
    if p.sizeVal == 0 { return Nothing; }
    var f, vs := ReadInfo(p);
    ReadLengths(p.wide);
    FetchedIs(old(p.buff[..]), d, INCOMING_KINDS, vs, p.wide, p.Value(), 28);
    r := if p.sizeVal < 28 then Overrun(f) else Packed(f, p.buff[p.nextData..p.nextData + p.sizeVal - 28]);
  }

  lemma NothingFetched(start: Pk, wide: nat)
    requires start.size <= |start.bytes| && wide in {4, 8}
    ensures IsFetched(start, [], wide, [], start)
  {}

  lemma FetchedIs(old_: seq<Byte>, d: seq<Byte>, kinds: seq<Kind>, vs: seq<int>, wide: nat, p: Pk, header: nat)
    requires |old_| == BUFF && IsFetched(Arrived(old_, d), kinds, wide, vs, p)
    requires header <= 8192 && Total(kinds, wide) <= 1024
    ensures |p.bytes| == BUFF && p.size == Arrived(old_, d).size
    ensures vs == FetchedAll(Arrived(old_, d), kinds, wide)
    ensures header <= p.size ==>
      (p.next + p.size - header <= BUFF
       && Payload(old_, d, kinds, header, wide) == p.bytes[p.next..p.next + p.size - header])
  {}

  // tcp_writeback_packet
  method TcpWritebackPacket(p: Packet, f: Info, payload: seq<Byte>) returns (d: seq<Byte>)
    requires p.Valid() && Sendable(p.buff[..], WritebackItems(f), payload, p.wide)
    modifies p, p.buff
    ensures d == Sent(old(p.buff[..]), WritebackItems(f), payload, p.wide)
  {
    hide IsWritten, Total, Written, Fits, WritebackItems, Sent;
    WritebackSent(f, p.wide);
    p.ClearPacket();
    ghost var start := p.Value();
    ghost var log: seq<Item> := [];
    NothingWritten(start, p.wide);
    log := p.Write(ULong, f.ip, start, log);
    log := p.Write(ULong, f.port, start, log);
    log := p.Write(Long, f.sockHdl, start, log);
    log := p.Write(ULong, f.sockRnd, start, log);
    log := p.Write(UShort, f.sockType, start, log);
    log := p.Write(UShort, f.sockEvt, start, log);
    log := p.Write(UShort, f.flapChannel, start, log);
    WritebackIs(f);
    SentIs(start, log, payload, p.wide, p.Value());
    d := AppendAndSend(p, payload);
  }

  lemma WritebackIs(f: Info)
    ensures WritebackItems(f) == [] + [Item(ULong, f.ip)] + [Item(ULong, f.port)] + [Item(Long, f.sockHdl)]
      + [Item(ULong, f.sockRnd)] + [Item(UShort, f.sockType)] + [Item(UShort, f.sockEvt)] + [Item(UShort, f.flapChannel)]
  {}

  // The header fields, one >> after the other.
  method ReadWriteback(p: Packet, fromLocal: int, seqNumber: int) returns (f: Info, ghost vs: seq<int>)
    requires p.Valid() && p.sizeVal <= p.buff.Length
    modifies p`nextData
    ensures IsFetched(old(p.Value()), WRITEBACK_KINDS, p.wide, vs, p.Value()) && f == WritebackOf(vs, fromLocal, seqNumber)
  {
    hide IsFetched, Fetched, Advanced;
    var ip, port, sockHdl, sockRnd, sockType, sockEvt, flapChannel;
    ghost var start, log := p.Value(), [];
    vs := [];
    NothingFetched(start, p.wide);
    ip, log, vs := p.Read(ULong, start, log, vs);
    port, log, vs := p.Read(UInt, start, log, vs);
    sockHdl, log, vs := p.Read(Long, start, log, vs);
    sockRnd, log, vs := p.Read(ULong, start, log, vs);
    sockType, log, vs := p.Read(UShort, start, log, vs);
    sockEvt, log, vs := p.Read(UShort, start, log, vs);
    flapChannel, log, vs := p.Read(UShort, start, log, vs);
    f := Info(ip, port, sockHdl, sockRnd, sockType, sockEvt, fromLocal, flapChannel, seqNumber);
    assert log == WRITEBACK_KINDS;
  }

  // toutgoing_receive_packet into a packet with the given two fields.
  method ToutgoingReceivePacket(p: Packet, d: seq<Byte>, fromLocal: int, seqNumber: int)
      returns (r: Received<Info>)
    requires p.Valid()
    modifies p, p.buff
    ensures r == if d == [] then Nothing
                 else WritebackReceived(old(p.buff[..]), d, p.wide, fromLocal, seqNumber)
  {
    hide IsFetched, Total, Fetched, Advanced, Payload;
    RecvFrom(p, d);
    if p.sizeVal == 0 { return Nothing; }
    var f, vs := ReadWriteback(p, fromLocal, seqNumber);
    ReadLengths(p.wide);
    FetchedIs(old(p.buff[..]), d, WRITEBACK_KINDS, vs, p.wide, p.Value(), 22);
    r := if p.sizeVal < 22 then Overrun(f) else Packed(f, p.buff[p.nextData..p.nextData + p.sizeVal - 22]);
  }

  // event_send_packet up to the lock
  method EventSendPacket(p: Packet, o: Order, payload: seq<Byte>) returns (d: seq<Byte>)
    requires p.Valid() && Sendable(p.buff[..], OutgoingItems(o), payload, p.wide)
    modifies p, p.buff
    ensures d == Sent(old(p.buff[..]), OutgoingItems(o), payload, p.wide)
  {
    hide IsWritten, Total, Written, Fits, OutgoingItems, Sent;
    OutgoingSent(o, p.wide);
    p.ClearPacket();
    ghost var start := p.Value();
    ghost var log: seq<Item> := [];
    NothingWritten(start, p.wide);
    log := p.Write(ULong, o.ip, start, log);
    log := p.Write(ULong, o.port, start, log);
    log := p.Write(ULong, o.retryNum, start, log);
    log := p.Write(ULong, o.timeOut, start, log);
    log := p.Write(ULong, o.ackStamp, start, log);
    log := p.Write(ULong, o.shmIndex, start, log);
    log := p.Write(ULong, o.toUin, start, log);
    OutgoingIs(o);
    SentIs(start, log, payload, p.wide, p.Value());
    d := AppendAndSend(p, payload);
  }

  lemma OutgoingIs(o: Order)
    ensures OutgoingItems(o) == [] + [Item(ULong, o.ip)] + [Item(ULong, o.port)] + [Item(ULong, o.retryNum)]
      + [Item(ULong, o.timeOut)] + [Item(ULong, o.ackStamp)] + [Item(ULong, o.shmIndex)] + [Item(ULong, o.toUin)]
  {}

  // The header fields, one >> after the other.
  method ReadOrder(p: Packet) returns (o: Order, ghost vs: seq<int>)
    requires p.Valid() && p.sizeVal <= p.buff.Length
    modifies p`nextData
    ensures IsFetched(old(p.Value()), OUTGOING_KINDS, p.wide, vs, p.Value()) && o == OrderOf(vs)
  {
    hide IsFetched, Fetched, Advanced;
    var ip, port, retryNum, timeOut, ackStamp, shmIndex, toUin;
    ghost var start, log := p.Value(), [];
    vs := [];
    NothingFetched(start, p.wide);
    ip, log, vs := p.Read(ULong, start, log, vs);
    port, log, vs := p.Read(UInt, start, log, vs);
    retryNum, log, vs := p.Read(UInt, start, log, vs);
    timeOut, log, vs := p.Read(UInt, start, log, vs);
    ackStamp, log, vs := p.Read(ULong, start, log, vs);
    shmIndex, log, vs := p.Read(ULong, start, log, vs);
    toUin, log, vs := p.Read(ULong, start, log, vs);
    o := Order(ip, port, retryNum, timeOut, ackStamp, shmIndex, toUin);
    assert log == OUTGOING_KINDS;
  }

  // epacket_receive_packet, which does not ask whether anything was received; a failed receive
  // is an empty datagram.
  method EpacketReceivePacket(p: Packet, d: seq<Byte>) returns (r: Received<Order>)
    requires p.Valid()
    modifies p, p.buff
    ensures r == OutgoingReceived(old(p.buff[..]), d, p.wide)
  {
    hide IsFetched, Total, Fetched, Advanced, Payload;
    RecvFrom(p, d);
    var o, vs := ReadOrder(p);
    ReadLengths(p.wide);
    FetchedIs(old(p.buff[..]), d, OUTGOING_KINDS, vs, p.wide, p.Value(), 28);
    r := if p.sizeVal < 28 then Overrun(o) else Packed(o, p.buff[p.nextData..p.nextData + p.sizeVal - 28]);
  }
}
