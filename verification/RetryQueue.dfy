/** The unacknowledged-packet queues of event/epacket.cpp, read as values: what each
    event does to the list of users and their packets, and what holds over whole runs. */
module RetryQueue {
  /** One more than the largest unsigned long (four-byte longs). */
  const ULONG: nat := 0x1_0000_0000

  const V3_PROTO := 3
  const V5_PROTO := 5

  datatype Pack = Pack(stamp: nat, buff: seq<bv8>, retries: nat, ctime: nat)

  datatype Queue = Queue(uin: nat, usid: nat, ishm: nat, ip: nat, port: nat,
                         timeOut: nat, packs: seq<Pack>)

  /** A retransmission: the datagram that goes out, and the packet it belongs to. */
  datatype Resend = Resend(uin: nat, stamp: nat, ip: nat, port: nat, buff: seq<bv8>)

  /** The record of an online user that the epacket processor looks up. */
  datatype User = User(uin: nat, usid: nat, ishm: nat, ip: nat, port: nat, servseq: nat)

  datatype Request = Request(uin: nat, proto: nat, buff: seq<bv8>, retries: nat, timeOut: nat)

  /** Whether the three allocations of one insertion succeed. */
  datatype Alloc = Alloc(queue: bool, record: bool, buffer: bool)

  const ALLOC_OK := Alloc(true, true, true)

  // ---- one packet, one tick ----

  predicate Due(p: Pack) { p.ctime == 0 && p.retries != 0 }

  predicate Dead(p: Pack) { p.ctime == 0 && p.retries == 0 }

  function Reload(p: Pack, t: nat): Pack {
    if Due(p) then p.(retries := p.retries - 1, ctime := t) else p
  }

  function Aged(p: Pack): Pack {
    if p.ctime != 0 then p.(ctime := p.ctime - 1) else p
  }

  /** The packet after a tick in a queue with timeout t: nothing when it expires. */
  function TickPack(p: Pack, t: nat): (r: seq<Pack>) {
    var q := Reload(p, t);
    if Dead(q) then [] else [Aged(q)]
  }

  function TickPacks(ps: seq<Pack>, t: nat): seq<Pack> {
    if ps == [] then [] else TickPack(ps[0], t) + TickPacks(ps[1..], t)
  }

  /** What one packet of queue q makes the tick send. */
  function PackResend(q: Queue, p: Pack): seq<Resend> {
    if Due(p) then [Resend(q.uin, p.stamp, q.ip, q.port, p.buff)] else []
  }

  function PackResends(q: Queue, ps: seq<Pack>): seq<Resend> {
    if ps == [] then [] else PackResend(q, ps[0]) + PackResends(q, ps[1..])
  }

  // ---- one queue ----

  function TickQueue(q: Queue): Queue { q.(packs := TickPacks(q.packs, q.timeOut)) }

  function QueueResends(q: Queue): seq<Resend> { PackResends(q, q.packs) }

  function Keep(p: Pack, stamp: nat): seq<Pack> { if p.stamp == stamp then [] else [p] }

  function WithoutStamp(ps: seq<Pack>, stamp: nat): seq<Pack> {
    if ps == [] then [] else Keep(ps[0], stamp) + WithoutStamp(ps[1..], stamp)
  }

  function DropStamp(q: Queue, stamp: nat): Queue { q.(packs := WithoutStamp(q.packs, stamp)) }

  function NewQueue(u: User, r: Request): Queue {
    Queue(u.uin, u.usid, u.ishm, u.ip, u.port, r.timeOut, [])
  }

  /** The queue a packet of this session goes to: the old packets of another session go away. */
  function ForSession(q: Queue, u: User, r: Request): Queue {
    if q.usid != u.usid then NewQueue(u, r) else q
  }

  function NewPack(q: Queue, r: Request, stamp: nat): Pack {
    Pack(stamp, r.buff, r.retries, q.timeOut)
  }

  function Enqueue(q: Queue, r: Request, stamp: nat, a: Alloc): Queue {
    if a.record && a.buffer then q.(packs := [NewPack(q, r, stamp)] + q.packs) else q
  }

  function IfAny(q: Queue): seq<Queue> { if q.packs == [] then [] else [q] }

  // ---- the list of users ----

  /** Index of the first queue of this uin, |t| when there is none. */
  function Find(t: seq<Queue>, uin: nat): (i: nat)
    ensures i <= |t|
    ensures i < |t| ==> t[i].uin == uin
    ensures forall k :: 0 <= k < i ==> t[k].uin != uin
  {
    if t == [] || t[0].uin == uin then 0 else 1 + Find(t[1..], uin)
  }

  function AddPacket(t: seq<Queue>, u: User, r: Request, stamp: nat, a: Alloc): seq<Queue> {
    var i := Find(t, u.uin);
    if i < |t| then t[i := Enqueue(ForSession(t[i], u, r), r, stamp, a)]
    else if a.queue then t + [Enqueue(NewQueue(u, r), r, stamp, a)]
    else t
  }

  function RemovePacket(t: seq<Queue>, uin: nat, stamp: nat): seq<Queue> {
    var i := Find(t, uin);
    if i < |t| then t[..i] + IfAny(DropStamp(t[i], stamp)) + t[i + 1..] else t
  }

  function TickTable(t: seq<Queue>): seq<Queue> {
    if t == [] then [] else IfAny(TickQueue(t[0])) + TickTable(t[1..])
  }

  function TickOut(t: seq<Queue>): seq<Resend> {
    if t == [] then [] else QueueResends(t[0]) + TickOut(t[1..])
  }

  lemma Assoc<T>(x: seq<T>, a: seq<T>, b: seq<T>, c: seq<T>, bc: seq<T>)
    requires x == a + bc && bc == b + c
    ensures x == a + b + c
  {
  }

  // ---- one iteration of each sweep: done is handled, rest is still to come ----

  lemma WithoutStampStep(ps: seq<Pack>, stamp: nat, done: seq<Pack>, rest: seq<Pack>)
    requires WithoutStamp(ps, stamp) == done + WithoutStamp(rest, stamp) && rest != []
    ensures WithoutStamp(ps, stamp) == done + Keep(rest[0], stamp) + WithoutStamp(rest[1..], stamp)
  {
  }

  lemma TickPacksStep(q: Queue, done: seq<Pack>, sent: seq<Resend>, rest: seq<Pack>)
    requires TickPacks(q.packs, q.timeOut) == done + TickPacks(rest, q.timeOut) && rest != []
    requires QueueResends(q) == sent + PackResends(q, rest)
    ensures TickPacks(q.packs, q.timeOut)
         == done + TickPack(rest[0], q.timeOut) + TickPacks(rest[1..], q.timeOut)
    ensures QueueResends(q) == sent + PackResend(q, rest[0]) + PackResends(q, rest[1..])
  {
    Assoc(TickPacks(q.packs, q.timeOut), done, TickPack(rest[0], q.timeOut),
          TickPacks(rest[1..], q.timeOut), TickPacks(rest, q.timeOut));
    Assoc(QueueResends(q), sent, PackResend(q, rest[0]), PackResends(q, rest[1..]),
          PackResends(q, rest));
  }

  lemma TickTableStep(t: seq<Queue>, done: seq<Queue>, sent: seq<Resend>, rest: seq<Queue>)
    requires TickTable(t) == done + TickTable(rest) && rest != []
    requires TickOut(t) == sent + TickOut(rest)
    ensures TickTable(t) == done + IfAny(TickQueue(rest[0])) + TickTable(rest[1..])
    ensures TickOut(t) == sent + QueueResends(rest[0]) + TickOut(rest[1..])
  {
    Assoc(TickTable(t), done, IfAny(TickQueue(rest[0])), TickTable(rest[1..]), TickTable(rest));
    Assoc(TickOut(t), sent, QueueResends(rest[0]), TickOut(rest[1..]), TickOut(rest));
  }

  ghost predicate UniqueUins(t: seq<Queue>) {
    forall i, j :: 0 <= i < j < |t| ==> t[i].uin != t[j].uin
  }

  ghost predicate NoneEmpty(t: seq<Queue>) {
    forall q :: q in t ==> q.packs != []
  }
}
