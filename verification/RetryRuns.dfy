/** The epacket processor over whole runs: sends, acknowledgements, one-second ticks and
    sessions that come and go. */
module RetryRuns {
  import opened RetryQueue

  datatype Option<T> = None | Some(value: T)

  datatype State = State(users: map<nat, User>, table: seq<Queue>)

  datatype Event =
    | Login(u: User)
    | Logout(uin: nat)
    | Send(r: Request, a: Alloc)
    | Ack(uin: nat, stamp: nat)
    | Tick

  /** generate_ack_number */
  function Stamp(uin: nat, seq1: nat, seq2: nat): nat { (uin + seq2 + seq1) % ULONG }

  /** Requests for unknown users or for other protocols leave no packet behind. */
  predicate Accepted(s: State, r: Request) {
    r.uin in s.users && (r.proto == V3_PROTO || r.proto == V5_PROTO)
  }

  function UserOf(s: State, uin: nat): User
    requires uin in s.users
  {
    s.users[uin].(uin := uin)
  }

  function Step(s: State, e: Event): State {
    match e
    case Login(u) => s.(users := s.users[u.uin := u])
    case Logout(uin) => s.(users := s.users - {uin})
    case Send(r, a) =>
      if !Accepted(s, r) then s else
        var u := UserOf(s, r.uin);
        State(s.users[r.uin := u.(servseq := (u.servseq + 1) % ULONG)],
              AddPacket(s.table, u, r, Stamp(r.uin, u.servseq, 0), a))
    case Ack(uin, stamp) => s.(table := RemovePacket(s.table, uin, stamp))
    case Tick => s.(table := TickTable(s.table))
  }

  function Run(s: State, es: seq<Event>): State
    decreases es
  {
    if es == [] then s else Run(Step(s, es[0]), es[1..])
  }

  // ---- the list is a map from uin to queue, and every user's queue evolves alone ----

  function Lookup(t: seq<Queue>, uin: nat): Option<Queue> {
    var i := Find(t, uin);
    if i < |t| then Some(t[i]) else None
  }

  function NonEmpty(q: Queue): Option<Queue> { if q.packs == [] then None else Some(q) }

  /** What event e does to the queue of one user, seen without the rest of the list. */
  function UserStep(s: State, uin: nat, q: Option<Queue>, e: Event): Option<Queue> {
    match e
    case Send(r, a) =>
      if !Accepted(s, r) || r.uin != uin then q else
        var u := UserOf(s, uin);
        var stamp := Stamp(uin, u.servseq, 0);
        if q.Some? then Some(Enqueue(ForSession(q.value, u, r), r, stamp, a))
        else if a.queue then Some(Enqueue(NewQueue(u, r), r, stamp, a))
        else None
    case Ack(to, stamp) =>
      if to == uin && q.Some? then NonEmpty(DropStamp(q.value, stamp)) else q
    case Tick => if q.Some? then NonEmpty(TickQueue(q.value)) else None
    case _ => q
  }

  lemma {:induction false} LookupConcat(a: seq<Queue>, b: seq<Queue>, uin: nat)
    ensures Lookup(a + b, uin) == if Lookup(a, uin).Some? then Lookup(a, uin) else Lookup(b, uin)
  {
    var i, j, k := Find(a + b, uin), Find(a, uin), Find(b, uin);
    if j < |a| {
      assert (a + b)[j] == a[j];
      assert i == j;
    } else {
      assert forall n :: 0 <= n < |a| ==> (a + b)[n] == a[n];
      assert forall n :: 0 <= n < |b| ==> (a + b)[|a| + n] == b[n];
      assert i == |a| + k;
    }
  }

  lemma LookupIsRow(t: seq<Queue>, uin: nat)
    ensures var q := Lookup(t, uin); q.Some? ==> q.value in t && q.value.uin == uin
  {
  }

  lemma LookupOne(q: Queue, uin: nat)
    ensures Lookup([q], uin) == if q.uin == uin then Some(q) else None
    ensures Lookup(IfAny(q), uin) == if q.uin == uin then NonEmpty(q) else None
  {
  }

  lemma SplitAt(t: seq<Queue>, i: nat)
    requires i < |t|
    ensures t == t[..i] + ([t[i]] + t[i + 1..])
  {
  }

  /** Replacing row i by a row list that only speaks of the same uin. */
  lemma LookupReplaced(t: seq<Queue>, i: nat, rows: seq<Queue>, uin: nat)
    requires UniqueUins(t) && i < |t|
    requires forall q :: q in rows ==> q.uin == t[i].uin
    ensures Lookup(t[..i] + rows + t[i + 1..], uin)
         == if uin == t[i].uin then Lookup(rows, uin) else Lookup(t, uin)
  {
    SplitAt(t, i);
    assert t[..i] + rows + t[i + 1..] == t[..i] + (rows + t[i + 1..]);
    LookupConcat(t[..i], rows + t[i + 1..], uin);
    LookupConcat(rows, t[i + 1..], uin);
    LookupConcat(t[..i], [t[i]] + t[i + 1..], uin);
    LookupConcat([t[i]], t[i + 1..], uin);
    LookupOne(t[i], uin);
    if uin == t[i].uin {
      assert Find(t[..i], uin) == |t[..i]| && Find(t[i + 1..], uin) == |t[i + 1..]|;
    } else {
      assert Lookup(rows, uin) == None;
    }
  }

  lemma {:induction false} LookupTick(t: seq<Queue>, uin: nat)
    requires UniqueUins(t)
    ensures Lookup(TickTable(t), uin)
         == var q := Lookup(t, uin); if q.Some? then NonEmpty(TickQueue(q.value)) else None
  {
    if t != [] {
      assert t == [t[0]] + t[1..];
      LookupTick(t[1..], uin);
      LookupConcat([t[0]], t[1..], uin);
      LookupConcat(IfAny(TickQueue(t[0])), TickTable(t[1..]), uin);
      LookupOne(t[0], uin);
      LookupOne(TickQueue(t[0]), uin);
      if t[0].uin == uin { assert Find(t[1..], uin) == |t[1..]|; }
    }
  }

  /** The list refines the map: an event acts on each user's queue by itself, and only a tick
      acts on more than one. */
  lemma QueuesEvolveAlone(s: State, e: Event, uin: nat)
    requires UniqueUins(s.table)
    ensures Lookup(Step(s, e).table, uin) == UserStep(s, uin, Lookup(s.table, uin), e)
    ensures !e.Tick? && !(e.Send? && e.r.uin == uin) && !(e.Ack? && e.uin == uin) ==>
              Lookup(Step(s, e).table, uin) == Lookup(s.table, uin)
  {
    var t := s.table;
    match e
    case Login(_) =>
    case Logout(_) =>
    case Tick => LookupTick(t, uin);
    case Ack(to, stamp) =>
      var i := Find(t, to);
      if i < |t| {
        LookupReplaced(t, i, IfAny(DropStamp(t[i], stamp)), uin);
        LookupOne(DropStamp(t[i], stamp), uin);
      }
    case Send(r, a) =>
      if Accepted(s, r) {
        var u := UserOf(s, r.uin);
        var stamp := Stamp(r.uin, u.servseq, 0);
        var i := Find(t, r.uin);
        if i < |t| {
          var q := Enqueue(ForSession(t[i], u, r), r, stamp, a);
          assert t[i := q] == t[..i] + [q] + t[i + 1..];
          LookupReplaced(t, i, [q], uin);
          LookupOne(q, uin);
        } else if a.queue {
          var q := Enqueue(NewQueue(u, r), r, stamp, a);
          LookupConcat(t, [q], uin);
          LookupOne(q, uin);
        }
      }
  }

  // ---- uins stay unique, and when a queue can be empty ----

  /** No row of this uin. */
  ghost predicate Lacks(t: seq<Queue>, uin: nat) { forall q :: q in t ==> q.uin != uin }

  lemma {:induction false} TickLacks(t: seq<Queue>, uin: nat)
    requires Lacks(t, uin)
    ensures Lacks(TickTable(t), uin)
  {
    if t != [] { TickLacks(t[1..], uin); }
  }

  lemma ConsUnique(q: Queue, t: seq<Queue>)
    requires UniqueUins(t) && Lacks(t, q.uin)
    ensures UniqueUins([q] + t)
  {
    var r := [q] + t;
    assert forall j :: 0 < j < |r| ==> r[j] == t[j - 1] && t[j - 1] in t;
  }

  lemma UniqueTail(t: seq<Queue>)
    requires UniqueUins(t) && t != []
    ensures UniqueUins(t[1..]) && Lacks(t[1..], t[0].uin)
  {
  }

  lemma {:induction false} TickKeepsUins(t: seq<Queue>)
    requires UniqueUins(t)
    ensures UniqueUins(TickTable(t)) && NoneEmpty(TickTable(t))
  {
    if t != [] {
      hide UniqueUins, Lacks;
      UniqueTail(t);
      TickKeepsUins(t[1..]);
      TickLacks(t[1..], t[0].uin);
      var q := TickQueue(t[0]);
      ConsUnique(q, TickTable(t[1..]));
      assert IfAny(q) + TickTable(t[1..]) == if q.packs == [] then TickTable(t[1..]) else [q] + TickTable(t[1..]);
    } else {
      assert TickTable(t) == t;
    }
  }

  lemma AddKeepsUins(t: seq<Queue>, u: User, r: Request, stamp: nat, a: Alloc)
    requires UniqueUins(t)
    ensures UniqueUins(AddPacket(t, u, r, stamp, a))
  {
  }

  lemma RemoveKeepsUins(t: seq<Queue>, uin: nat, stamp: nat)
    requires UniqueUins(t)
    ensures UniqueUins(RemovePacket(t, uin, stamp))
  {
    var i := Find(t, uin);
    if i < |t| {
      var q := DropStamp(t[i], stamp);
      RowKeepsUins(t, i, q);
      assert t[..i] + [] + t[i + 1..] == t[..i] + t[i + 1..];
      assert t[..i] + [q] + t[i + 1..] == t[i := q];
    }
  }

  lemma RowKeepsUins(t: seq<Queue>, i: nat, q: Queue)
    requires UniqueUins(t) && i < |t| && q.uin == t[i].uin
    ensures UniqueUins(t[i := q]) && UniqueUins(t[..i] + t[i + 1..])
  {
    var r := t[..i] + t[i + 1..];
    assert forall k :: 0 <= k < |r| ==> r[k] == t[if k < i then k else k + 1];
  }

  lemma UniqueUinsKept(s: State, e: Event)
    requires UniqueUins(s.table)
    ensures UniqueUins(Step(s, e).table)
  {
    hide UniqueUins, AddPacket, RemovePacket;
    match e
    case Tick => TickKeepsUins(s.table);
    case Ack(uin, stamp) => RemoveKeepsUins(s.table, uin, stamp);
    case Send(r, a) =>
      if Accepted(s, r) {
        var u := UserOf(s, r.uin);
        AddKeepsUins(s.table, u, r, Stamp(r.uin, u.servseq, 0), a);
      }
    case _ =>
  }

  /** A send that ends with a queue in the list but no memory for its first packet. */
  predicate Starved(s: State, e: Event) {
    && e.Send? && Accepted(s, e.r) && !(e.a.record && e.a.buffer)
    && var q := Lookup(s.table, e.r.uin);
       if q.Some? then q.value.usid != UserOf(s, e.r.uin).usid else e.a.queue
  }

  /** No queue is ever empty, except after a failed allocation and until the next tick. */
  lemma WhenQueuesAreEmpty(s: State, e: Event)
    requires UniqueUins(s.table)
    ensures NoneEmpty(s.table) ==> (NoneEmpty(Step(s, e).table) <==> !Starved(s, e))
    ensures e.Tick? ==> NoneEmpty(Step(s, e).table)
  {
    match e
    case Tick => TickKeepsUins(s.table);
    case Send(r, a) =>
      if Accepted(s, r) {
        var u := UserOf(s, r.uin);
        var stamp := Stamp(r.uin, u.servseq, 0);
        var i := Find(s.table, r.uin);
        var t := Step(s, e).table;
        if i < |s.table| {
          assert t[i] == Enqueue(ForSession(s.table[i], u, r), r, stamp, a);
        } else if a.queue {
          assert t[i] == Enqueue(NewQueue(u, r), r, stamp, a);
        }
        assert i < |t| ==> t[i] in t;
      }
    case _ =>
  }

  // ---- stamps identify packets ----

  ghost predicate DistinctStamps(ps: seq<Pack>) {
    forall i, j :: 0 <= i < j < |ps| ==> ps[i].stamp != ps[j].stamp
  }

  /** The sequence number a stamp was made from. */
  function SeqOf(uin: nat, stamp: nat): nat { (stamp - uin) % ULONG }

  /** The second number of the packet only adds to the first. */
  lemma SeqOfStamp(uin: nat, seq1: nat, seq2: nat)
    requires seq1 + seq2 < ULONG
    ensures SeqOf(uin, Stamp(uin, seq1, seq2)) == seq1 + seq2
  {
    var number := seq1 + seq2;
    var a := uin + number;
    assert (a % ULONG - uin) == number - (a / ULONG) * ULONG;
    ModShift(number, a / ULONG);
  }

  lemma ModShift(x: nat, k: nat)
    requires x < ULONG
    ensures (x - k * ULONG) % ULONG == x
  {
    var y: int := x - k * ULONG;
    var d: int := 0 - k - y / ULONG;
    assert y % ULONG - x == d * ULONG;
    assert d == 0;
  }

  /** Stamps in a queue differ, and those of the running session are older than its next one. */
  ghost predicate Orderly(users: map<nat, User>, q: Queue) {
    && DistinctStamps(q.packs)
    && (forall p :: p in q.packs ==> p.stamp < ULONG)
    && (q.uin in users && users[q.uin].usid == q.usid ==>
          forall p :: p in q.packs ==> SeqOf(q.uin, p.stamp) < users[q.uin].servseq)
  }

  ghost predicate Stamped(s: State) {
    UniqueUins(s.table) && forall q :: q in s.table ==> Orderly(s.users, q)
  }

  /** A new session gets an id its user's queue does not carry, and the sequence number of a
      session does not wrap. */
  predicate Proper(s: State, e: Event) {
    match e
    case Login(u) =>
      var q := Lookup(s.table, u.uin);
      q.Some? ==> q.value.usid != u.usid
    case Send(r, _) => Accepted(s, r) ==> s.users[r.uin].servseq + 1 < ULONG
    case _ => true
  }

  /** No packet of this stamp. */
  ghost predicate Free(ps: seq<Pack>, stamp: nat) { forall p :: p in ps ==> p.stamp != stamp }

  lemma {:induction false} TickFree(ps: seq<Pack>, t: nat, stamp: nat)
    requires Free(ps, stamp)
    ensures Free(TickPacks(ps, t), stamp)
  {
    if ps != [] { TickFree(ps[1..], t, stamp); }
  }

  lemma ConsDistinct(p: Pack, ps: seq<Pack>)
    requires DistinctStamps(ps) && Free(ps, p.stamp)
    ensures DistinctStamps([p] + ps)
  {
    var r := [p] + ps;
    assert forall j :: 0 < j < |r| ==> r[j] == ps[j - 1] && ps[j - 1] in ps;
  }

  lemma DistinctTail(ps: seq<Pack>)
    requires DistinctStamps(ps) && ps != []
    ensures DistinctStamps(ps[1..]) && Free(ps[1..], ps[0].stamp)
  {
  }

  lemma {:induction false} TickKeepsDistinct(ps: seq<Pack>, t: nat)
    requires DistinctStamps(ps)
    ensures DistinctStamps(TickPacks(ps, t))
  {
    if ps != [] {
      hide DistinctStamps, Free;
      DistinctTail(ps);
      TickKeepsDistinct(ps[1..], t);
      TickFree(ps[1..], t, ps[0].stamp);
      var h, r := TickPack(ps[0], t), TickPacks(ps[1..], t);
      if h == [] {
        assert h + r == r;
      } else {
        ConsDistinct(h[0], r);
        assert h + r == [h[0]] + r;
      }
    }
  }

  lemma OrderlyAfterTick(users: map<nat, User>, q: Queue)
    requires Orderly(users, q)
    ensures Orderly(users, TickQueue(q))
  {
    TickKeepsDistinct(q.packs, q.timeOut);
    forall p | p in TickPacks(q.packs, q.timeOut)
      ensures exists p0 :: p0 in q.packs && p0.stamp == p.stamp
    {
      if Free(q.packs, p.stamp) { TickFree(q.packs, q.timeOut, p.stamp); }
    }
  }

  lemma {:induction false} WithoutStampHas(ps: seq<Pack>, stamp: nat)
    ensures forall p :: p in WithoutStamp(ps, stamp) <==> p in ps && p.stamp != stamp
  {
    if ps != [] {
      WithoutStampHas(ps[1..], stamp);
      assert forall p :: p in ps <==> p == ps[0] || p in ps[1..];
    }
  }

  lemma {:induction false} WithoutStampDistinct(ps: seq<Pack>, stamp: nat)
    requires DistinctStamps(ps)
    ensures DistinctStamps(WithoutStamp(ps, stamp))
  {
    if ps != [] {
      DistinctTail(ps);
      WithoutStampDistinct(ps[1..], stamp);
      WithoutStampHas(ps[1..], stamp);
      var r := WithoutStamp(ps[1..], stamp);
      ConsDistinct(ps[0], r);
      assert Keep(ps[0], stamp) + r == if ps[0].stamp == stamp then r else [ps[0]] + r;
    }
  }

  lemma {:induction false} TickOrigin(t: seq<Queue>, q: Queue)
    requires q in TickTable(t)
    ensures exists q0 :: q0 in t && TickQueue(q0) == q
  {
    if q in IfAny(TickQueue(t[0])) {
      assert t[0] in t;
    } else {
      TickOrigin(t[1..], q);
      var q0 :| q0 in t[1..] && TickQueue(q0) == q;
      assert q0 in t;
    }
  }

  lemma OrderlyAfterSend(s: State, r: Request, a: Alloc, q: Queue)
    requires Accepted(s, r) && UserOf(s, r.uin).servseq + 1 < ULONG
    requires q.uin == r.uin && q.usid == s.users[r.uin].usid && Orderly(s.users, q)
    ensures var u := UserOf(s, r.uin);
            Orderly(Step(s, Send(r, a)).users, Enqueue(q, r, Stamp(r.uin, u.servseq, 0), a))
  {
    SeqOfStamp(r.uin, s.users[r.uin].servseq, 0);
  }

  lemma OrderlyAfterDrop(users: map<nat, User>, q: Queue, stamp: nat)
    requires Orderly(users, q)
    ensures Orderly(users, DropStamp(q, stamp))
  {
    WithoutStampHas(q.packs, stamp);
    WithoutStampDistinct(q.packs, stamp);
  }

  /** The rows after a send: as before, or the one the packet went to. */
  lemma SendOrigin(s: State, r: Request, a: Alloc, q: Queue)
    requires Accepted(s, r) && UniqueUins(s.table)
    requires q in Step(s, Send(r, a)).table
    ensures var u := UserOf(s, r.uin);
      var stamp := Stamp(r.uin, u.servseq, 0);
      || (q in s.table && q.uin != r.uin)
      || q == Enqueue(NewQueue(u, r), r, stamp, a)
      || exists q0 :: q0 in s.table && q0.uin == r.uin && q == Enqueue(ForSession(q0, u, r), r, stamp, a)
  {
    var t, i := s.table, Find(s.table, r.uin);
    var t' := Step(s, Send(r, a)).table;
    var k :| 0 <= k < |t'| && t'[k] == q;
    if k < |t| { assert t[k] in t; }
  }

  lemma OrderlyKept(s: State, e: Event, q: Queue)
    requires Stamped(s) && Proper(s, e) && q in Step(s, e).table
    ensures Orderly(Step(s, e).users, q)
  {
    match e
    case Login(u) =>
      LookupIsRow(s.table, u.uin);
      if q.uin == u.uin { SameRow(s.table, q); }
    case Logout(_) =>
    case Tick =>
      TickOrigin(s.table, q);
      var q0 :| q0 in s.table && TickQueue(q0) == q;
      OrderlyAfterTick(s.users, q0);
    case Ack(uin, stamp) =>
      if q !in s.table {
        var i := Find(s.table, uin);
        assert s.table[i] in s.table && q == DropStamp(s.table[i], stamp);
        OrderlyAfterDrop(s.users, s.table[i], stamp);
      }
    case Send(r, a) =>
      if Accepted(s, r) { OrderlyAfterSent(s, r, a, q); }
  }

  lemma SameRow(t: seq<Queue>, q: Queue)
    requires UniqueUins(t) && q in t
    ensures Lookup(t, q.uin) == Some(q)
  {
    var k :| 0 <= k < |t| && t[k] == q;
    assert Find(t, q.uin) <= k;
  }

  lemma OrderlyAfterSent(s: State, r: Request, a: Alloc, q: Queue)
    requires Stamped(s) && Proper(s, Send(r, a)) && Accepted(s, r) && q in Step(s, Send(r, a)).table
    ensures Orderly(Step(s, Send(r, a)).users, q)
  {
    hide UniqueUins, DistinctStamps, Enqueue, AddPacket;
    SendOrigin(s, r, a, q);
    var u := UserOf(s, r.uin);
    if q !in s.table || q.uin == r.uin {
      if q0 :| q0 in s.table && q0.uin == r.uin && q == Enqueue(ForSession(q0, u, r), r, Stamp(r.uin, u.servseq, 0), a) {
        NewIsOrderly(s, u, r);
        OrderlyAfterSend(s, r, a, ForSession(q0, u, r));
      } else {
        NewIsOrderly(s, u, r);
        OrderlyAfterSend(s, r, a, NewQueue(u, r));
      }
    }
  }

  lemma NewIsOrderly(s: State, u: User, r: Request)
    ensures Orderly(s.users, NewQueue(u, r))
  {
  }

  lemma StampedKept(s: State, e: Event)
    requires Stamped(s) && Proper(s, e)
    ensures Stamped(Step(s, e))
  {
    hide Orderly, Step, Proper;
    UniqueUinsKept(s, e);
    forall q | q in Step(s, e).table { OrderlyKept(s, e, q); }
  }

  /** In a run that keeps stamps apart an acknowledgement removes the one packet it names and
      leaves the others in order. */
  lemma {:induction false} AckRemovesOne(ps: seq<Pack>, i: nat)
    requires DistinctStamps(ps) && i < |ps|
    ensures WithoutStamp(ps, ps[i].stamp) == ps[..i] + ps[i + 1..]
  {
    var stamp := ps[i].stamp;
    if i == 0 {
      AckMisses(ps[1..], stamp);
    } else {
      AckRemovesOne(ps[1..], i - 1);
      assert Keep(ps[0], stamp) == [ps[0]];
      assert ps[..i] + ps[i + 1..] == [ps[0]] + (ps[1..][..i - 1] + ps[1..][i..]);
    }
  }

  lemma {:induction false} AckMisses(ps: seq<Pack>, stamp: nat)
    requires forall i :: 0 <= i < |ps| ==> ps[i].stamp != stamp
    ensures WithoutStamp(ps, stamp) == ps
  {
    if ps != [] {
      AckMisses(ps[1..], stamp);
      assert ps == [ps[0]] + ps[1..];
    }
  }

  ghost predicate ProperRun(s: State, es: seq<Event>)
    decreases es
  {
    es == [] || (Proper(s, es[0]) && ProperRun(Step(s, es[0]), es[1..]))
  }

  lemma {:induction false} RunStaysStamped(s: State, es: seq<Event>)
    requires Stamped(s) && ProperRun(s, es)
    ensures Stamped(Run(s, es))
    decreases es
  {
    hide Stamped, Proper, Step;
    if es != [] {
      StampedKept(s, es[0]);
      RunStaysStamped(Step(s, es[0]), es[1..]);
    }
  }

  lemma AtMostOneGoes(ps: seq<Pack>, stamp: nat)
    requires DistinctStamps(ps)
    ensures |ps| - 1 <= |WithoutStamp(ps, stamp)| <= |ps|
  {
    if i :| 0 <= i < |ps| && ps[i].stamp == stamp { AckRemovesOne(ps, i); } else { AckMisses(ps, stamp); }
  }

  /** From the empty list, after every run of sends, acknowledgements, ticks and session changes:
      uins are unique, and an acknowledgement takes at most one packet, from its user's queue
      only. */
  lemma AfterAnyRun(users: map<nat, User>, es: seq<Event>, uin: nat, stamp: nat)
    requires ProperRun(State(users, []), es)
    ensures var s := Run(State(users, []), es);
      var q, after := Lookup(s.table, uin), Lookup(Step(s, Ack(uin, stamp)).table, uin);
      && UniqueUins(s.table)
      && (q.None? ==> after.None?)
      && (q.Some? ==> after == NonEmpty(DropStamp(q.value, stamp)))
      && (q.Some? ==> |q.value.packs| - 1 <= |DropStamp(q.value, stamp).packs|)
      && (forall other :: other != uin ==>
            Lookup(Step(s, Ack(uin, stamp)).table, other) == Lookup(s.table, other))
  {
    hide Step, Lookup;
    RunStaysStamped(State(users, []), es);
    var s := Run(State(users, []), es);
    forall other { QueuesEvolveAlone(s, Ack(uin, stamp), other); }
    LookupIsRow(s.table, uin);
    var q := Lookup(s.table, uin);
    if q.Some? { AtMostOneGoes(q.value.packs, stamp); }
  }

  /** The wire carries sixteen bits of the sequence number: the stamp rebuilt from an
      acknowledgement names the packet exactly while the session has sent fewer than 65536. */
  lemma AckNamesItsPacket(uin: nat, servseq: nat)
    requires servseq < ULONG
    ensures Stamp(uin, servseq % 0x1_0000, 0) == Stamp(uin, servseq, 0) <==> servseq < 0x1_0000
  {
    SeqOfStamp(uin, servseq, 0);
    SeqOfStamp(uin, servseq % 0x1_0000, 0);
  }

  lemma StampOfSeq(uin: nat, stamp: nat, n: nat)
    requires stamp < ULONG && n < ULONG
    ensures SeqOf(uin, stamp) == n <==> stamp == Stamp(uin, n, 0)
  {
    if stamp == Stamp(uin, n, 0) { SeqOfStamp(uin, n, 0); }
  }

  /** So after any proper run the acknowledgement of packet number servseq of a session removes
      the queued packet numbered servseq % 65536, if there is one, whichever packet was meant;
      the packet that was meant stays exactly when its number is 65536 or more. */
  lemma WhatTheWireAcknowledges(users: map<nat, User>, es: seq<Event>, uin: nat, servseq: nat)
    requires ProperRun(State(users, []), es) && servseq < ULONG
    requires Lookup(Run(State(users, []), es).table, uin).Some?
    ensures var ps := Lookup(Run(State(users, []), es).table, uin).value.packs;
      var low := servseq % 0x1_0000;
      var left := WithoutStamp(ps, Stamp(uin, low, 0));
      && (forall i :: 0 <= i < |ps| && SeqOf(uin, ps[i].stamp) == low ==> left == ps[..i] + ps[i + 1..])
      && ((forall i :: 0 <= i < |ps| ==> SeqOf(uin, ps[i].stamp) != low) ==> left == ps)
      && (forall p :: p in ps && SeqOf(uin, p.stamp) == servseq ==> (p in left <==> servseq >= 0x1_0000))
  {
    hide Step, Lookup, ProperRun, SeqOf, Stamp;
    var s := Run(State(users, []), es);
    RunStaysStamped(State(users, []), es);
    LookupIsRow(s.table, uin);
    var ps := Lookup(s.table, uin).value.packs;
    var low := servseq % 0x1_0000;
    forall i | 0 <= i < |ps|
      ensures SeqOf(uin, ps[i].stamp) == low <==> ps[i].stamp == Stamp(uin, low, 0)
      ensures SeqOf(uin, ps[i].stamp) == servseq <==> ps[i].stamp == Stamp(uin, servseq, 0)
    {
      assert ps[i] in ps;
      StampOfSeq(uin, ps[i].stamp, low);
      StampOfSeq(uin, ps[i].stamp, servseq);
    }
    OneGoesOrNone(ps, Stamp(uin, low, 0));
    WithoutStampHas(ps, Stamp(uin, low, 0));
    AckNamesItsPacket(uin, servseq);
  }

  lemma OneGoesOrNone(ps: seq<Pack>, stamp: nat)
    requires DistinctStamps(ps)
    ensures forall i :: 0 <= i < |ps| && ps[i].stamp == stamp ==> WithoutStamp(ps, stamp) == ps[..i] + ps[i + 1..]
    ensures (forall i :: 0 <= i < |ps| ==> ps[i].stamp != stamp) ==> WithoutStamp(ps, stamp) == ps
  {
    forall i | 0 <= i < |ps| && ps[i].stamp == stamp
      ensures WithoutStamp(ps, stamp) == ps[..i] + ps[i + 1..]
    {
      AckRemovesOne(ps, i);
    }
    if forall i :: 0 <= i < |ps| ==> ps[i].stamp != stamp { AckMisses(ps, stamp); }
  }
}
