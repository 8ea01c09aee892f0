/** Typed values in a packet buffer (isdcore/packet.cpp:89-236, system/buffer.cpp:48-143,
    include/packet.h:35-78).

    SIZEOF_LONG is a parameter, wide: the code moves by that many bytes for a long but always
    stores and fetches four of them.  Functions on Pk say what each operation does; class Packet
    does it in its buffer. */
module PacketCodec {
  type Byte = b: int | 0 <= b < 256

  datatype Kind = Char | UShort | Short | UInt | Long | ULong

  datatype Item = Item(kind: Kind, value: int)

  // How far the position moves for a value.
  function Size(k: Kind, wide: nat): nat {
    match k
    case Char => 1
    case UShort | Short => 2
    case UInt => 4
    case Long | ULong => wide
  }

  // How many bytes are stored.
  function Stored(k: Kind): nat {
    match k
    case Char => 1
    case UShort | Short => 2
    case UInt | Long | ULong => 4
  }

  function Little2(v: int): seq<Byte> { [v % 0x100, v / 0x100 % 0x100] }

  function Little4(v: int): seq<Byte> {
    [v % 0x100, v / 0x100 % 0x100, v / 0x1_0000 % 0x100, v / 0x100_0000 % 0x100]
  }

  function Reversed(q: seq<Byte>): (r: seq<Byte>)
    requires |q| <= 4
    ensures |r| == |q| && forall i :: 0 <= i < |q| ==> r[i] == q[|q| - 1 - i]
  {
    if q == [] then [] else [q[|q| - 1]] + Reversed(q[..|q| - 1])
  }

  // The bytes of a value, low byte first unless network order is on.
  function Encoded(k: Kind, v: int, order: nat): (q: seq<Byte>)
    ensures |q| == Stored(k)
  {
    var q := if Stored(k) == 1 then [v % 0x100] else if Stored(k) == 2 then Little2(v) else Little4(v);
    if order == 0 then q else Reversed(q)
  }

  // The number some bytes stand for, low byte first.
  function Number(q: seq<Byte>): (n: nat) {
    if q == [] then 0 else q[0] + 0x100 * Number(q[1..])
  }

  // An unsigned number of the given range read as two's complement.
  function Signed(n: nat, range: nat): int { if n < range / 2 then n else n - range }

  // The value fetched.  A long is put together in an int, so a wide unsigned long gets the int's
  // sign in its upper half.
  function Decoded(k: Kind, q: seq<Byte>, order: nat, wide: nat): int
    requires |q| == Stored(k)
  {
    var n := Number(if order == 0 then q else Reversed(q));
    match k
    case Char => Signed(n, 0x100)
    case UShort => n
    case Short => Signed(n, 0x1_0000)
    case UInt => n
    case Long => Signed(n, 0x1_0000_0000)
    case ULong =>
      if wide == 8 && n >= 0x8000_0000 then Signed(n, 0x1_0000_0000) + 0x1_0000_0000_0000_0000 else n
  }

  // ---------------------------------------------------------------- one value

  // The range of a C type.
  predicate Representable(k: Kind, v: int, wide: nat) {
    match k
    case Char => -0x80 <= v < 0x80
    case UShort => 0 <= v < 0x1_0000
    case Short => -0x8000 <= v < 0x8000
    case UInt => 0 <= v < 0x1_0000_0000
    case Long =>
      if wide == 8 then -0x8000_0000_0000_0000 <= v < 0x8000_0000_0000_0000 else -0x8000_0000 <= v < 0x8000_0000
    case ULong => 0 <= v < if wide == 8 then 0x1_0000_0000_0000_0000 else 0x1_0000_0000
  }

  // The values that survive the four stored bytes: of a long of eight bytes, those whose upper
  // half is the sign of the lower.
  predicate Survives(k: Kind, v: int, wide: nat) {
    match k
    case Char | UShort | Short | UInt => true
    case Long => -0x8000_0000 <= v < 0x8000_0000
    case ULong => wide == 8 ==> v < 0x8000_0000 || v >= 0xffff_ffff_8000_0000
  }

  lemma Little2Back(v: int)
    ensures Number(Little2(v)) == v % 0x1_0000
  {
    var q := Little2(v);
    assert Number(q) == q[0] + 0x100 * Number(q[1..]);
    assert Number(q[1..]) == q[1] + 0x100 * Number(q[1..][1..]);
  }

  lemma Little4Back(v: int)
    ensures Number(Little4(v)) == v % 0x1_0000_0000
  {
    var q := Little4(v);
    HighHalf(v);
    Little2Back(v);
    Little2Back(v / 0x1_0000);
    assert q[..2] == Little2(v) && q[2..] == Little2(v / 0x1_0000);
    hide Number;
    NumberSplit(q);
  }

  lemma HighHalf(v: int)
    ensures v / 0x1_0000 / 0x100 == v / 0x100_0000
    ensures v % 0x1_0000 + 0x1_0000 * (v / 0x1_0000 % 0x1_0000) == v % 0x1_0000_0000
  {}

  lemma NumberSplit(q: seq<Byte>)
    requires |q| == 4
    ensures Number(q) == Number(q[..2]) + 0x1_0000 * Number(q[2..])
  {
    var t := q[1..];
    assert Number(q) == q[0] + 0x100 * Number(t);
    assert t[1..] == q[2..];
    assert Number(t) == t[0] + 0x100 * Number(q[2..]);
    var u := q[..2];
    assert Number(u) == u[0] + 0x100 * Number(u[1..]);
    assert Number(u[1..]) == u[1] + 0x100 * Number(u[1..][1..]);
  }

  lemma ReversedTwice(q: seq<Byte>)
    requires |q| <= 4
    ensures Reversed(Reversed(q)) == q
  {}

  // The number fetched is the value's low bytes, in either byte order.
  lemma FetchedNumber(k: Kind, v: int, order: nat)
    ensures var q := Encoded(k, v, order);
      Number(if order == 0 then q else Reversed(q)) ==
        if Stored(k) == 1 then v % 0x100 else if Stored(k) == 2 then v % 0x1_0000 else v % 0x1_0000_0000
  {
    Little2Back(v);
    Little4Back(v);
    var q := if Stored(k) == 1 then [v % 0x100] else if Stored(k) == 2 then Little2(v) else Little4(v);
    ReversedTwice(q);
    assert Number([v % 0x100]) == v % 0x100 + 0x100 * Number([v % 0x100][1..]);
  }

  // The bytes on the wire: the low byte comes first, in network order last.
  lemma BytesOnTheWire(k: Kind, v: int, order: nat, j: nat)
    requires j < Stored(k)
    ensures Encoded(k, v, order)[if order == 0 then j else Stored(k) - 1 - j]
         == v / (if j == 0 then 1 else if j == 1 then 0x100 else if j == 2 then 0x1_0000 else 0x100_0000) % 0x100
  {}

  // A value of its type comes back the same exactly when it survives.
  lemma ValueComesBack(k: Kind, v: int, order: nat, wide: nat)
    requires Representable(k, v, wide) && wide in {4, 8}
    ensures Decoded(k, Encoded(k, v, order), order, wide) == v <==> Survives(k, v, wide)
  {
    FetchedNumber(k, v, order);
    hide Encoded, Number, Reversed;
    match k {
      case ULong => if wide == 8 && v >= 0xffff_ffff_8000_0000 { LowOfHigh(v); }
      case _ =>
    }
  }

  lemma LowOfHigh(v: int)
    requires 0xffff_ffff_8000_0000 <= v < 0x1_0000_0000_0000_0000
    ensures v % 0x1_0000_0000 == v - 0xffff_ffff_0000_0000
  {
    assert v == 0xffff_ffff * 0x1_0000_0000 + (v - 0xffff_ffff_0000_0000);
  }

  // With longs of four bytes nothing is lost.
  lemma FourByteLongsSurvive(k: Kind, v: int)
    requires Representable(k, v, 4)
    ensures Survives(k, v, 4)
  {}

  // ---------------------------------------------------------------- a packet as a value

  datatype Pk = Pk(bytes: seq<Byte>, next: nat, size: nat, order: nat)

  predicate Fits(p: Pk, k: Kind, wide: nat) {
    p.next + Size(k, wide) <= |p.bytes| && p.next + Stored(k) <= |p.bytes|
  }

  // operator <<
  function Written(p: Pk, k: Kind, v: int, wide: nat): Pk
    requires Fits(p, k, wide)
  {
    Pk(p.bytes[..p.next] + Encoded(k, v, p.order) + p.bytes[p.next + Stored(k)..],
       p.next + Size(k, wide), p.size + Size(k, wide), p.order)
  }

  // operator >>: the value, zero when the packet ends before it.
  function Fetched(p: Pk, k: Kind, wide: nat): int
    requires p.size <= |p.bytes| && wide in {4, 8}
  {
    if p.next + Size(k, wide) > p.size then 0
    else Decoded(k, p.bytes[p.next..p.next + Stored(k)], p.order, wide)
  }

  function Advanced(p: Pk, k: Kind, wide: nat): Pk {
    if p.next + Size(k, wide) > p.size then p else p.(next := p.next + Size(k, wide))
  }

  function Total(kinds: seq<Kind>, wide: nat): nat {
    if kinds == [] then 0 else Size(kinds[0], wide) + Total(kinds[1..], wide)
  }

  function Kinds(items: seq<Item>): (ks: seq<Kind>)
    ensures |ks| == |items| && forall i :: 0 <= i < |ks| ==> ks[i] == items[i].kind
  {
    seq(|items|, i requires 0 <= i < |items| => items[i].kind)
  }

  function WrittenAll(p: Pk, items: seq<Item>, wide: nat): (q: Pk)
    requires p.next + Total(Kinds(items), wide) <= |p.bytes| && wide in {4, 8}
    ensures |q.bytes| == |p.bytes| && q.order == p.order
    ensures q.next == p.next + Total(Kinds(items), wide) && q.size == p.size + Total(Kinds(items), wide)
    decreases items
  {
    if items == [] then p
    else
      assert Kinds(items)[1..] == Kinds(items[1..]);
      WrittenAll(Written(p, items[0].kind, items[0].value, wide), items[1..], wide)
  }

  function FetchedAll(p: Pk, kinds: seq<Kind>, wide: nat): (vs: seq<int>)
    requires p.size <= |p.bytes| && wide in {4, 8}
    ensures |vs| == |kinds|
    decreases kinds
  {
    if kinds == [] then []
    else [Fetched(p, kinds[0], wide)] + FetchedAll(Advanced(p, kinds[0], wide), kinds[1..], wide)
  }

  function AdvancedAll(p: Pk, kinds: seq<Kind>, wide: nat): (q: Pk)
    ensures q.bytes == p.bytes && q.size == p.size && q.order == p.order
    ensures p.next <= q.next <= p.next + Total(kinds, wide)
    ensures p.next <= p.size ==> q.next <= q.size
    decreases kinds
  {
    if kinds == [] then p else AdvancedAll(Advanced(p, kinds[0], wide), kinds[1..], wide)
  }

  // In any list of reads one that does not find all its bytes gives zero and moves nothing.
  lemma {:induction false} OverreadIsZero(p: Pk, kinds: seq<Kind>, wide: nat, i: nat)
    requires p.size <= |p.bytes| && wide in {4, 8} && i < |kinds|
    ensures var q := AdvancedAll(p, kinds[..i], wide);
      q.next + Size(kinds[i], wide) > q.size ==>
        FetchedAll(p, kinds, wide)[i] == 0 && AdvancedAll(p, kinds[..i + 1], wide) == q
    decreases kinds
  {
    var k, rest := kinds[0], kinds[1..];
    if i > 0 {
      assert kinds[..i] == [k] + rest[..i - 1] && kinds[..i + 1] == [k] + rest[..i];
      OverreadIsZero(Advanced(p, k, wide), rest, wide, i - 1);
    } else {
      assert kinds[..1] == [k];
    }
  }

  // ---------------------------------------------------------------- writing, then reading back

  lemma {:induction false} WritingKeepsPrefix(p: Pk, items: seq<Item>, wide: nat)
    requires p.next + Total(Kinds(items), wide) <= |p.bytes| && wide in {4, 8}
    ensures WrittenAll(p, items, wide).bytes[..p.next] == p.bytes[..p.next]
    decreases items
  {
    if items != [] {
      var p1 := Written(p, items[0].kind, items[0].value, wide);
      assert Kinds(items)[1..] == Kinds(items[1..]);
      WritingKeepsPrefix(p1, items[1..], wide);
      hide WrittenAll;
      ShorterPrefix(WrittenAll(p1, items[1..], wide).bytes, p1.bytes, p.next, p1.next);
      WrittenPrefix(p, items[0], wide);
    }
  }

  lemma WrittenPrefix(p: Pk, it: Item, wide: nat)
    requires Fits(p, it.kind, wide)
    ensures Written(p, it.kind, it.value, wide).bytes[..p.next] == p.bytes[..p.next]
  {
    hide Encoded;
  }

  lemma ShorterPrefix(a: seq<Byte>, b: seq<Byte>, m: nat, n: nat)
    requires m <= n <= |a| && n <= |b| && a[..n] == b[..n]
    ensures a[..m] == b[..m]
  {
    assert a[..m] == a[..n][..m] && b[..m] == b[..n][..m];
  }

  // Readers may use another type of the same size than the writer did.
  predicate Matching(items: seq<Item>, kinds: seq<Kind>, wide: nat) {
    && |items| == |kinds|
    && forall i :: 0 <= i < |items| ==>
      Size(items[i].kind, wide) == Size(kinds[i], wide) && Stored(items[i].kind) == Stored(kinds[i])
  }

  // What a reader of kind k makes of one written item.
  function ReadAs(it: Item, k: Kind, order: nat, wide: nat): int
    requires Stored(it.kind) == Stored(k)
  {
    Decoded(k, Encoded(it.kind, it.value, order), order, wide)
  }

  function ReadAsAll(items: seq<Item>, kinds: seq<Kind>, order: nat, wide: nat): (vs: seq<int>)
    requires Matching(items, kinds, wide)
    ensures |vs| == |items|
    ensures forall i :: 0 <= i < |items| ==> vs[i] == ReadAs(items[i], kinds[i], order, wide)
    decreases items
  {
    if items == [] then []
    else [ReadAs(items[0], kinds[0], order, wide)] + ReadAsAll(items[1..], kinds[1..], order, wide)
  }

  // Any list of writes, read from where it began: each reader gets its own item's bytes, and the
  // reads end where the writes did.
  lemma {:induction false} ReadsFollowWrites(p: Pk, items: seq<Item>, kinds: seq<Kind>, wide: nat)
    requires wide in {4, 8} && Matching(items, kinds, wide)
    requires p.next == p.size && p.next + Total(Kinds(items), wide) <= |p.bytes|
    ensures var q := WrittenAll(p, items, wide);
      && FetchedAll(q.(next := p.next), kinds, wide) == ReadAsAll(items, kinds, p.order, wide)
      && AdvancedAll(q.(next := p.next), kinds, wide) == q
    decreases items
  {
    if items != [] {
      var p1 := Written(p, items[0].kind, items[0].value, wide);
      assert Kinds(items)[1..] == Kinds(items[1..]);
      WritingKeepsPrefix(p1, items[1..], wide);
      var q := WrittenAll(p, items, wide);
      FirstRead(p, items[0], kinds[0], q, wide);
      TailMatches(items, kinds, wide);
      ReadsFollowWrites(p1, items[1..], kinds[1..], wide);
      hide Written, WrittenAll, Matching;
      ReadStep(q, p.next, p1.next, items, kinds, p.order, wide);
    }
  }

  lemma TailMatches(items: seq<Item>, kinds: seq<Kind>, wide: nat)
    requires items != [] && Matching(items, kinds, wide)
    ensures Matching(items[1..], kinds[1..], wide)
  {}

  lemma ReadStep(q: Pk, from: nat, to: nat, items: seq<Item>, kinds: seq<Kind>, order: nat, wide: nat)
    requires wide in {4, 8} && items != [] && q.size <= |q.bytes|
    requires Matching(items, kinds, wide) && Matching(items[1..], kinds[1..], wide)
    requires Fetched(q.(next := from), kinds[0], wide) == ReadAs(items[0], kinds[0], order, wide)
    requires Advanced(q.(next := from), kinds[0], wide) == q.(next := to)
    requires FetchedAll(q.(next := to), kinds[1..], wide) == ReadAsAll(items[1..], kinds[1..], order, wide)
    requires AdvancedAll(q.(next := to), kinds[1..], wide) == q
    ensures FetchedAll(q.(next := from), kinds, wide) == ReadAsAll(items, kinds, order, wide)
    ensures AdvancedAll(q.(next := from), kinds, wide) == q
  {
    hide Fetched, Advanced, ReadAs;
  }

  lemma SliceOfPrefix(a: seq<Byte>, b: seq<Byte>, n: nat, from: nat, to: nat)
    requires from <= to <= n <= |a| && n <= |b| && a[..n] == b[..n]
    ensures a[from..to] == b[from..to]
  {
    assert a[from..to] == a[..n][from..to] == b[..n][from..to] == b[from..to];
  }

  lemma FirstRead(p: Pk, it: Item, k: Kind, q: Pk, wide: nat)
    requires wide in {4, 8} && Fits(p, it.kind, wide) && |q.bytes| == |p.bytes| && q.order == p.order
    requires Size(it.kind, wide) == Size(k, wide) && Stored(it.kind) == Stored(k)
    requires var p1 := Written(p, it.kind, it.value, wide);
      q.bytes[..p1.next] == p1.bytes[..p1.next] && p1.next <= q.size <= |q.bytes|
    ensures Fetched(q.(next := p.next), k, wide) == ReadAs(it, k, p.order, wide)
    ensures Advanced(q.(next := p.next), k, wide) == q.(next := Written(p, it.kind, it.value, wide).next)
  {
    hide Encoded, Decoded;
    var p1 := Written(p, it.kind, it.value, wide);
    SliceOfPrefix(q.bytes, p1.bytes, p1.next, p.next, p.next + Stored(k));
  }

  lemma OneComesBack(it: Item, order: nat, wide: nat)
    requires Representable(it.kind, it.value, wide) && wide in {4, 8}
    ensures ReadAs(it, it.kind, order, wide) == it.value <==> Survives(it.kind, it.value, wide)
  {
    ValueComesBack(it.kind, it.value, order, wide);
  }

  // The same types on both sides: the values come back exactly when every one survives its four
  // stored bytes, in either byte order.
  lemma RoundTrip(p: Pk, items: seq<Item>, wide: nat)
    requires wide in {4, 8} && p.next == p.size && p.next + Total(Kinds(items), wide) <= |p.bytes|
    requires forall i :: 0 <= i < |items| ==> Representable(items[i].kind, items[i].value, wide)
    ensures var q := WrittenAll(p, items, wide).(next := p.next);
      (forall i :: 0 <= i < |items| ==> FetchedAll(q, Kinds(items), wide)[i] == items[i].value)
      <==> (forall i :: 0 <= i < |items| ==> Survives(items[i].kind, items[i].value, wide))
  {
    ReadsFollowWrites(p, items, Kinds(items), wide);
    hide Encoded, Decoded, Survives, Representable, WrittenAll, FetchedAll, ReadAsAll, ReadAs, Total, AdvancedAll, Matching;
    forall i | 0 <= i < |items|
      ensures ReadAs(items[i], items[i].kind, p.order, wide) == items[i].value
        <==> Survives(items[i].kind, items[i].value, wide)
    {
      OneComesBack(items[i], p.order, wide);
    }
  }

  // ---------------------------------------------------------------- appending to a list

  lemma {:induction false} WriteOneMore(p: Pk, items: seq<Item>, it: Item, wide: nat)
    requires wide in {4, 8} && p.next + Total(Kinds(items + [it]), wide) <= |p.bytes|
    ensures p.next + Total(Kinds(items), wide) + Size(it.kind, wide) == p.next + Total(Kinds(items + [it]), wide)
    ensures WrittenAll(p, items + [it], wide)
         == Written(WrittenAll(p, items, wide), it.kind, it.value, wide)
    decreases items
  {
    hide Encoded;
    TotalOneMore(Kinds(items), it.kind, wide);
    assert Kinds(items + [it]) == Kinds(items) + [it.kind];
    if items == [] {
      assert [it][1..] == [];
    } else {
      assert (items + [it])[1..] == items[1..] + [it];
      assert Kinds(items)[1..] == Kinds(items[1..]);
      assert Kinds(items + [it])[1..] == Kinds(items[1..] + [it]);
      WriteOneMore(Written(p, items[0].kind, items[0].value, wide), items[1..], it, wide);
    }
  }

  lemma {:induction false} TotalOneMore(kinds: seq<Kind>, k: Kind, wide: nat)
    ensures Total(kinds + [k], wide) == Total(kinds, wide) + Size(k, wide)
    decreases kinds
  {
    if kinds == [] {
      assert [k][1..] == [];
    } else {
      assert (kinds + [k])[1..] == kinds[1..] + [k];
      TotalOneMore(kinds[1..], k, wide);
    }
  }

  lemma {:induction false} FetchOneMore(p: Pk, kinds: seq<Kind>, k: Kind, wide: nat)
    requires wide in {4, 8} && p.size <= |p.bytes|
    ensures FetchedAll(p, kinds + [k], wide)
         == FetchedAll(p, kinds, wide) + [Fetched(AdvancedAll(p, kinds, wide), k, wide)]
    ensures AdvancedAll(p, kinds + [k], wide) == Advanced(AdvancedAll(p, kinds, wide), k, wide)
    decreases kinds
  {
    hide Fetched, Total;
    if kinds == [] {
      assert [k][1..] == [];
    } else {
      assert (kinds + [k])[1..] == kinds[1..] + [k];
      FetchOneMore(Advanced(p, kinds[0], wide), kinds[1..], k, wide);
    }
  }

  // ---------------------------------------------------------------- in the buffer

  // The packet p is what writing the items makes of start.
  predicate IsWritten(start: Pk, items: seq<Item>, wide: nat, p: Pk) {
    wide in {4, 8} && start.next + Total(Kinds(items), wide) <= |start.bytes| && p == WrittenAll(start, items, wide)
    && |p.bytes| == |start.bytes|
  }

  lemma WriteLogged(start: Pk, items: seq<Item>, p: Pk, k: Kind, v: int, wide: nat)
    requires IsWritten(start, items, wide, p) && Fits(p, k, wide)
    ensures IsWritten(start, items + [Item(k, v)], wide, Written(p, k, v, wide))
  {
    hide Encoded;
    TotalOneMore(Kinds(items), k, wide);
    assert Kinds(items + [Item(k, v)]) == Kinds(items) + [k];
    WriteOneMore(start, items, Item(k, v), wide);
  }

  // Reading the kinds from start gives the values and leaves p.
  predicate IsFetched(start: Pk, kinds: seq<Kind>, wide: nat, values: seq<int>, p: Pk) {
    && wide in {4, 8} && start.size <= |start.bytes|
    && values == FetchedAll(start, kinds, wide) && p == AdvancedAll(start, kinds, wide)
  }

  lemma FetchLogged(start: Pk, kinds: seq<Kind>, values: seq<int>, p: Pk, k: Kind, wide: nat)
    requires IsFetched(start, kinds, wide, values, p)
    ensures p.size <= |p.bytes|
    ensures IsFetched(start, kinds + [k], wide, values + [Fetched(p, k, wide)], Advanced(p, k, wide))
  {
    hide Fetched, Advanced;
    FetchOneMore(start, kinds, k, wide);
  }

  const MAX_PACKET_SIZE: nat := 8192

  class Packet {
    // SIZEOF_LONG
    const wide: nat
    const buff: array<Byte>
    // nextData as a distance from the start of buff
    var nextData: nat
    var sizeVal: nat
    var netOrder: nat

    ghost predicate Valid()
      reads this
    {
      wide in {4, 8} && buff.Length == MAX_PACKET_SIZE + 1024
    }

    ghost function Value(): Pk
      reads this, buff
    {
      Pk(buff[..], nextData, sizeVal, netOrder)
    }

    constructor (sizeofLong: nat)
      requires sizeofLong in {4, 8}
      ensures Valid() && fresh(buff) && wide == sizeofLong
      ensures nextData == 0 && sizeVal == 0
    {
      wide := sizeofLong;
      buff := new Byte[MAX_PACKET_SIZE + 1024](_ => 0);
      nextData, sizeVal, netOrder := 0, 0, 0;
    }

    method ClearPacket()
      modifies this`nextData, this`sizeVal, this`netOrder
      ensures Value() == Pk(old(buff[..]), 0, 0, 0)
    {
      netOrder, nextData, sizeVal := 0, 0, 0;
    }

    method Reset()
      modifies this`nextData, this`netOrder
      ensures Value() == old(Value()).(next := 0, order := 0)
    {
      netOrder, nextData := 0, 0;
    }

    method PutLeShort(x: int, p: nat)
      requires p + 2 <= buff.Length
      modifies buff
      ensures buff[..] == old(buff[..p]) + Encoded(UShort, x, netOrder) + old(buff[p + 2..])
    {
      if netOrder == 0 {
        buff[p], buff[p + 1] := x % 0x100, x / 0x100 % 0x100;
      } else {
        buff[p + 1], buff[p] := x % 0x100, x / 0x100 % 0x100;
      }
    }

    // put_le_int and put_le_long, which have one body.
    method PutLeInt(x: int, p: nat)
      requires p + 4 <= buff.Length
      modifies buff
      ensures buff[..] == old(buff[..p]) + Encoded(UInt, x, netOrder) + old(buff[p + 4..])
    {
      if netOrder == 0 {
        buff[p], buff[p + 1] := x % 0x100, x / 0x100 % 0x100;
        buff[p + 2], buff[p + 3] := x / 0x1_0000 % 0x100, x / 0x100_0000 % 0x100;
      } else {
        buff[p + 3], buff[p + 2] := x % 0x100, x / 0x100 % 0x100;
        buff[p + 1], buff[p] := x / 0x1_0000 % 0x100, x / 0x100_0000 % 0x100;
      }
    }

    method GetLeShort(p: nat) returns (n: nat)
      requires p + 2 <= buff.Length
      ensures n == Decoded(UShort, buff[p..p + 2], netOrder, wide)
    {
      ghost var q := buff[p..p + 2];
      NumberOf2(q);
      NumberOf2(Reversed(q));
      if netOrder == 0 { n := Joined2(buff[p], buff[p + 1]); }
      else { n := Joined2(buff[p + 1], buff[p]); }
    }

    // get_le_int and get_le_long up to the conversion of the int that they compute.
    method GetLeInt(p: nat) returns (n: nat)
      requires p + 4 <= buff.Length
      ensures n == Decoded(UInt, buff[p..p + 4], netOrder, wide)
    {
      ghost var q := buff[p..p + 4];
      NumberOf4(q);
      NumberOf4(Reversed(q));
      if netOrder == 0 {
        n := Joined4(buff[p], buff[p + 1], buff[p + 2], buff[p + 3]);
      } else {
        n := Joined4(buff[p + 3], buff[p + 2], buff[p + 1], buff[p]);
      }
    }

    method PutByte(x: int, p: nat)
      requires p < buff.Length
      modifies buff
      ensures buff[..] == old(buff[..p]) + Encoded(Char, x, netOrder) + old(buff[p + 1..])
    {
      buff[p] := x % 0x100;
      OneByte(x, netOrder);
    }

    method Store(k: Kind, v: int)
      requires nextData + Stored(k) <= buff.Length
      modifies buff
      ensures buff[..] == old(buff[..nextData]) + Encoded(k, v, netOrder) + old(buff[nextData + Stored(k)..])
    {
      match k {
        case Char => PutByte(v, nextData);
        case UShort | Short => PutLeShort(v, nextData);
        case UInt | Long | ULong => PutLeInt(v, nextData);
      }
    }

    // operator <<, its overloads told apart by kind.  The log lists what was written since start.
    method Write(k: Kind, v: int, ghost start: Pk, ghost log: seq<Item>) returns (ghost longer: seq<Item>)
      requires Valid() && k != Short
      requires nextData + Size(k, wide) <= buff.Length && nextData + Stored(k) <= buff.Length
      requires IsWritten(start, log, wide, Value())
      modifies this`nextData, this`sizeVal, buff
      ensures Fits(old(Value()), k, wide) && Value() == Written(old(Value()), k, v, wide)
      ensures nextData == old(nextData) + Size(k, wide) && sizeVal == old(sizeVal) + Size(k, wide)
      ensures longer == log + [Item(k, v)]
      ensures IsWritten(start, longer, wide, Value())
    {
      ghost var before := Value();
      Store(k, v);
      hide Encoded, IsWritten;
      sizeVal := sizeVal + Size(k, wide);
      nextData := nextData + Size(k, wide);
      longer := log + [Item(k, v)];
      WriteLogged(start, log, before, k, v, wide);
    }

    method Load(k: Kind) returns (v: int)
      requires Valid() && nextData + Stored(k) <= buff.Length
      ensures v == Decoded(k, buff[nextData..nextData + Stored(k)], netOrder, wide)
    {
      ghost var q := buff[nextData..nextData + Stored(k)];
      match k {
        case Char => v := buff[nextData]; if v >= 0x80 { v := v - 0x100; } OneNumber(q);
        case UShort => v := GetLeShort(nextData);
        case Short => v := GetLeShort(nextData); if v >= 0x8000 { v := v - 0x1_0000; }
        case UInt => v := GetLeInt(nextData);
        case Long => v := GetLeInt(nextData); if v >= 0x8000_0000 { v := v - 0x1_0000_0000; }
        case ULong =>
          v := GetLeInt(nextData);
          if wide == 8 && v >= 0x8000_0000 { v := v - 0x1_0000_0000 + 0x1_0000_0000_0000_0000; }
      }
    }

    // operator >>.  The log lists what was read since start.
    method Read(k: Kind, ghost start: Pk, ghost log: seq<Kind>, ghost values: seq<int>)
        returns (v: int, ghost longer: seq<Kind>, ghost more: seq<int>)
      requires Valid() && sizeVal <= buff.Length
      requires IsFetched(start, log, wide, values, Value())
      modifies this`nextData
      ensures v == Fetched(old(Value()), k, wide) && Value() == Advanced(old(Value()), k, wide)
      ensures longer == log + [k] && more == values + [v]
      ensures IsFetched(start, longer, wide, more, Value())
    {
      longer := log + [k];
      FetchLogged(start, log, values, Value(), k, wide);
      hide IsFetched, Decoded;
      if nextData + Size(k, wide) > sizeVal {
        v := 0;
      } else {
        v := Load(k);
        nextData := nextData + Size(k, wide);
      }
      more := values + [v];
    }
  }

  function Joined2(a: int, b: int): int { a + b * 0x100 }

  function Joined4(a: int, b: int, c: int, d: int): int { a + b * 0x100 + c * 0x1_0000 + d * 0x100_0000 }

  lemma OneByte(v: int, order: nat)
    ensures Encoded(Char, v, order) == [v % 0x100]
  {}

  lemma OneNumber(q: seq<Byte>)
    requires |q| == 1
    ensures Number(q) == q[0] && Reversed(q) == q
  {
    assert Number(q) == q[0] + 0x100 * Number(q[1..]);
  }

  lemma NumberOf2(q: seq<Byte>)
    requires |q| == 2
    ensures Number(q) == Joined2(q[0], q[1])
  {
    assert Number(q) == q[0] + 0x100 * Number(q[1..]);
    OneNumber(q[1..]);
  }

  lemma NumberOf4(q: seq<Byte>)
    requires |q| == 4
    ensures Number(q) == Joined4(q[0], q[1], q[2], q[3])
  {
    NumberSplit(q);
    NumberOf2(q[..2]);
    NumberOf2(q[2..]);
  }
}
