/** Conservation: every queued packet is still present or has left by exactly one of
    acknowledgement, expiry and session change. */
module RetryLedger {
  import opened RetryQueue
  import opened RetryRuns

  /** What identifies a packet for as long as it is queued. */
  datatype Key = Key(uin: nat, usid: nat, stamp: nat, buff: seq<bv8>)

  function KeyOf(q: Queue, p: Pack): Key { Key(q.uin, q.usid, p.stamp, p.buff) }

  function One(b: bool): nat { if b then 1 else 0 }

  /** How many of these packets of queue q have the key k. */
  function InQueue(q: Queue, ps: seq<Pack>, k: Key): nat {
    if ps == [] then 0 else One(KeyOf(q, ps[0]) == k) + InQueue(q, ps[1..], k)
  }

  function Present(t: seq<Queue>, k: Key): nat {
    if t == [] then 0 else InQueue(t[0], t[0].packs, k) + Present(t[1..], k)
  }

  // ---- what one event adds and takes away ----

  function ExpiredOf(q: Queue, ps: seq<Pack>, k: Key): nat {
    if ps == [] then 0 else
      One(Dead(Reload(ps[0], q.timeOut)) && KeyOf(q, ps[0]) == k) + ExpiredOf(q, ps[1..], k)
  }

  function ExpiredIn(t: seq<Queue>, k: Key): nat {
    if t == [] then 0 else ExpiredOf(t[0], t[0].packs, k) + ExpiredIn(t[1..], k)
  }

  function StampedOf(q: Queue, ps: seq<Pack>, stamp: nat, k: Key): nat {
    if ps == [] then 0 else
      One(ps[0].stamp == stamp && KeyOf(q, ps[0]) == k) + StampedOf(q, ps[1..], stamp, k)
  }

  function Queued(s: State, e: Event, k: Key): nat {
    if e.Send? && Accepted(s, e.r) && e.a.record && e.a.buffer
       && (Lookup(s.table, e.r.uin).Some? || e.a.queue)
    then
      var u := UserOf(s, e.r.uin);
      One(Key(e.r.uin, u.usid, Stamp(e.r.uin, u.servseq, 0), e.r.buff) == k)
    else 0
  }

  function Acked(s: State, e: Event, k: Key): nat {
    if e.Ack? && Lookup(s.table, e.uin).Some?
    then var q := Lookup(s.table, e.uin).value; StampedOf(q, q.packs, e.stamp, k)
    else 0
  }

  function Expired(s: State, e: Event, k: Key): nat {
    if e.Tick? then ExpiredIn(s.table, k) else 0
  }

  function Superseded(s: State, e: Event, k: Key): nat {
    if e.Send? && Accepted(s, e.r) && Lookup(s.table, e.r.uin).Some?
       && Lookup(s.table, e.r.uin).value.usid != s.users[e.r.uin].usid
    then var q := Lookup(s.table, e.r.uin).value; InQueue(q, q.packs, k)
    else 0
  }

  // ---- one event ----

  lemma {:induction false} InQueueConcat(q: Queue, a: seq<Pack>, b: seq<Pack>, k: Key)
    ensures InQueue(q, a + b, k) == InQueue(q, a, k) + InQueue(q, b, k)
  {
    if a == [] {
      assert a + b == b;
    } else {
      assert (a + b)[0] == a[0] && (a + b)[1..] == a[1..] + b;
      InQueueConcat(q, a[1..], b, k);
    }
  }

  lemma {:induction false} SameSession(q: Queue, q': Queue, ps: seq<Pack>, k: Key)
    requires q.uin == q'.uin && q.usid == q'.usid
    ensures InQueue(q, ps, k) == InQueue(q', ps, k)
  {
    if ps != [] { SameSession(q, q', ps[1..], k); }
  }

  lemma {:induction false} PresentConcat(a: seq<Queue>, b: seq<Queue>, k: Key)
    ensures Present(a + b, k) == Present(a, k) + Present(b, k)
  {
    if a == [] {
      assert a + b == b;
    } else {
      assert (a + b)[0] == a[0] && (a + b)[1..] == a[1..] + b;
      PresentConcat(a[1..], b, k);
    }
  }

  lemma PresentOne(q: Queue, k: Key)
    ensures Present([q], k) == InQueue(q, q.packs, k)
    ensures Present(IfAny(q), k) == InQueue(q, q.packs, k)
  {
    assert Present([q][1..], k) == 0;
  }

  lemma PresentSplit(t: seq<Queue>, i: nat, rows: seq<Queue>, k: Key)
    requires i < |t|
    ensures Present(t[..i] + rows + t[i + 1..], k)
         == Present(t, k) - InQueue(t[i], t[i].packs, k) + Present(rows, k)
  {
    hide Present, InQueue;
    PresentConcat(t[..i] + rows, t[i + 1..], k);
    PresentConcat(t[..i], rows, k);
    PresentConcat(t[..i] + [t[i]], t[i + 1..], k);
    PresentConcat(t[..i], [t[i]], k);
    PresentOne(t[i], k);
    assert t == t[..i] + [t[i]] + t[i + 1..];
  }

  lemma {:induction false} TickSplitsQueue(q: Queue, ps: seq<Pack>, k: Key)
    ensures InQueue(q, TickPacks(ps, q.timeOut), k) + ExpiredOf(q, ps, k) == InQueue(q, ps, k)
  {
    if ps != [] {
      TickSplitsQueue(q, ps[1..], k);
      var h := TickPack(ps[0], q.timeOut);
      InQueueConcat(q, h, TickPacks(ps[1..], q.timeOut), k);
      assert h != [] ==> h[0] == Aged(Reload(ps[0], q.timeOut)) && h[1..] == [];
    }
  }

  lemma {:induction false} TickSplitsTable(t: seq<Queue>, k: Key)
    ensures Present(TickTable(t), k) + ExpiredIn(t, k) == Present(t, k)
  {
    if t != [] {
      var q := TickQueue(t[0]);
      TickSplitsTable(t[1..], k);
      PresentConcat(IfAny(q), TickTable(t[1..]), k);
      PresentOne(q, k);
      SameSession(t[0], q, q.packs, k);
      TickSplitsQueue(t[0], t[0].packs, k);
    }
  }

  lemma {:induction false} DropSplitsQueue(q: Queue, ps: seq<Pack>, stamp: nat, k: Key)
    ensures InQueue(q, WithoutStamp(ps, stamp), k) + StampedOf(q, ps, stamp, k) == InQueue(q, ps, k)
  {
    if ps != [] {
      DropSplitsQueue(q, ps[1..], stamp, k);
      InQueueConcat(q, Keep(ps[0], stamp), WithoutStamp(ps[1..], stamp), k);
      assert Keep(ps[0], stamp) != [] ==> Keep(ps[0], stamp)[1..] == [];
    }
  }

  lemma EnqueueAddsOne(q: Queue, r: Request, stamp: nat, a: Alloc, k: Key)
    ensures var q' := Enqueue(q, r, stamp, a);
            InQueue(q', q'.packs, k) == InQueue(q, q.packs, k)
              + One(a.record && a.buffer && Key(q.uin, q.usid, stamp, r.buff) == k)
  {
    var q' := Enqueue(q, r, stamp, a);
    SameSession(q, q', q.packs, k);
    if a.record && a.buffer { assert q'.packs[1..] == q.packs; }
  }

  lemma SendBalances(s: State, r: Request, a: Alloc, k: Key)
    requires Accepted(s, r)
    ensures var e := Send(r, a);
            Present(Step(s, e).table, k) + Superseded(s, e, k)
            == Present(s.table, k) + Queued(s, e, k)
  {
    var t := s.table;
    var u := UserOf(s, r.uin);
    var stamp := Stamp(r.uin, u.servseq, 0);
    var i := Find(t, r.uin);
    if i < |t| {
      var q := ForSession(t[i], u, r);
      var q' := Enqueue(q, r, stamp, a);
      EnqueueAddsOne(q, r, stamp, a, k);
      assert t[i := q'] == t[..i] + [q'] + t[i + 1..];
      PresentSplit(t, i, [q'], k);
      PresentOne(q', k);
    } else if a.queue {
      var q' := Enqueue(NewQueue(u, r), r, stamp, a);
      EnqueueAddsOne(NewQueue(u, r), r, stamp, a, k);
      PresentConcat(t, [q'], k);
      PresentOne(q', k);
    }
  }

  predicate Balances(s: State, e: Event, k: Key) {
    Present(Step(s, e).table, k) + Acked(s, e, k) + Expired(s, e, k) + Superseded(s, e, k)
      == Present(s.table, k) + Queued(s, e, k)
  }

  lemma AckBalances(s: State, uin: nat, stamp: nat, k: Key)
    ensures Balances(s, Ack(uin, stamp), k)
  {
    var t := s.table;
    var i := Find(t, uin);
    if i < |t| {
      var q := DropStamp(t[i], stamp);
      PresentSplit(t, i, IfAny(q), k);
      PresentOne(q, k);
      SameSession(t[i], q, q.packs, k);
      DropSplitsQueue(t[i], t[i].packs, stamp, k);
    }
  }

  /** No event loses or invents a packet. */
  lemma StepBalances(s: State, e: Event, k: Key)
    ensures Balances(s, e, k)
  {
    match e
    case Tick => TickSplitsTable(s.table, k);
    case Ack(uin, stamp) => AckBalances(s, uin, stamp, k);
    case Send(r, a) => if Accepted(s, r) { SendBalances(s, r, a, k); }
    case _ =>
  }

  // ---- whole runs ----

  datatype Ledger = Ledger(queued: nat, acked: nat, expired: nat, superseded: nat)

  /** How often the run queues packet k, and how often it loses it to each cause. */
  function Tally(s: State, es: seq<Event>, k: Key): Ledger
    decreases es
  {
    if es == [] then Ledger(0, 0, 0, 0) else
      var e := es[0];
      var rest := Tally(Step(s, e), es[1..], k);
      Ledger(Queued(s, e, k) + rest.queued, Acked(s, e, k) + rest.acked,
             Expired(s, e, k) + rest.expired, Superseded(s, e, k) + rest.superseded)
  }

  /** Over any run, a packet is present at the end as often as it was at the start, plus the
      times it was queued, minus the times it left, each departure under one cause. */
  lemma {:induction false} RunBalances(s: State, es: seq<Event>, k: Key)
    ensures var l := Tally(s, es, k);
            Present(Run(s, es).table, k) + l.acked + l.expired + l.superseded
            == Present(s.table, k) + l.queued
    decreases es
  {
    if es != [] {
      StepBalances(s, es[0], k);
      RunBalances(Step(s, es[0]), es[1..], k);
    }
  }
}
