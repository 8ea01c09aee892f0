/** When an unacknowledged packet is sent again and when it is given up, tick by tick, and
    where every queued packet goes. */
module RetryTiming {
  import opened RetryQueue
  import opened RetryRuns

  // ---- one packet by itself ----

  /** The packet after n ticks in a queue with timeout t, if it is still there. */
  function AfterTicks(p: Pack, t: nat, n: nat): Option<Pack> {
    if n == 0 then Some(p) else
      var q := AfterTicks(p, t, n - 1);
      if q.Some? then Ticked(q.value, t) else None
  }

  function Ticked(p: Pack, t: nat): Option<Pack> {
    if Dead(Reload(p, t)) then None else Some(Aged(Reload(p, t)))
  }

  /** Whether tick number m after the packet was queued sends it again. */
  predicate ResentAt(p: Pack, t: nat, m: nat) {
    m >= 1 && var q := AfterTicks(p, t, m - 1); q.Some? && Due(q.value)
  }

  /** Whether tick number m gives the packet up. */
  predicate GivenUpAt(p: Pack, t: nat, m: nat) {
    m >= 1 && AfterTicks(p, t, m - 1).Some? && AfterTicks(p, t, m).None?
  }

  /** The retries left, counted in ticks, plus the running countdown: one less every tick. */
  lemma {:induction false} CountdownDrops(p: Pack, t: nat, n: nat)
    requires t >= 1 && p.ctime == t && n <= (p.retries + 1) * t
    ensures var q := AfterTicks(p, t, n);
            && q.Some? && q.value.stamp == p.stamp && q.value.buff == p.buff
            && q.value.retries * t + q.value.ctime == (p.retries + 1) * t - n
            && (if n == 0 then q.value.ctime == t else q.value.ctime < t)
  {
    if n > 0 {
      CountdownDrops(p, t, n - 1);
      var q := AfterTicks(p, t, n - 1).value;
      if Due(q) { assert q.retries * t == (q.retries - 1) * t + t; }
    }
  }

  lemma {:induction false} StaysGone(p: Pack, t: nat, m: nat, n: nat)
    requires m <= n && AfterTicks(p, t, m).None?
    ensures AfterTicks(p, t, n).None?
  {
    if m < n { StaysGone(p, t, m, n - 1); }
  }

  lemma GoneAfterLastTick(p: Pack, t: nat, n: nat)
    requires t >= 1 && p.ctime == t
    ensures AfterTicks(p, t, n).None? <==> n > (p.retries + 1) * t
  {
    var last := (p.retries + 1) * t;
    if n <= last {
      CountdownDrops(p, t, n);
    } else {
      CountdownDrops(p, t, last);
      var q := AfterTicks(p, t, last).value;
      assert q.retries * t == 0 && q.ctime == 0;
      assert q.retries == 0 by {
        if q.retries > 0 { MulAtLeast(q.retries, t); }
      }
      assert AfterTicks(p, t, last + 1).None?;
      StaysGone(p, t, last + 1, n);
    }
  }

  lemma MulAtLeast(k: nat, t: nat)
    requires k >= 1
    ensures k * t >= t
  {
    assert k * t == (k - 1) * t + t;
  }

  /** k retries of t ticks each leave no remainder exactly at the multiples of t. */
  lemma WholePeriods(retries: nat, left: nat, t: nat, c: nat, n: nat)
    requires c < t && left * t + c == (retries + 1) * t - n
    requires n >= 1
    ensures c == 0 && left != 0 <==> exists k :: 1 <= k <= retries && n == k * t
  {
    if c == 0 && left != 0 {
      var k := retries + 1 - left;
      assert k * t == (retries + 1) * t - left * t;
      assert k >= 1 by { if k <= 0 { MulAtMost(k, t); } }
      assert n == k * t;
    }
    if k :| 1 <= k <= retries && n == k * t {
      var d := retries + 1 - k - left;
      assert d * t == (retries + 1) * t - k * t - left * t;
      assert d * t == c;
      assert d == 0 by {
        if d > 0 { MulAtLeast(d, t); }
        if d < 0 { MulAtMost(d + 1, t); }
      }
    }
  }

  lemma MulAtMost(k: int, t: nat)
    requires k <= 0
    ensures k * t <= 0
  {
  }

  /** With R retries and timeout T >= 1 the packet goes out again exactly at ticks T+1, 2T+1,
      ..., RT+1 and is given up exactly at tick (R+1)T+1. */
  lemma RetrySchedule(p: Pack, t: nat, m: nat)
    requires t >= 1 && p.ctime == t
    ensures ResentAt(p, t, m) <==> exists k :: 1 <= k <= p.retries && m == k * t + 1
    ensures GivenUpAt(p, t, m) <==> m == (p.retries + 1) * t + 1
  {
    if m >= 1 { GoneAfterLastTick(p, t, m - 1); }
    GoneAfterLastTick(p, t, m);
    if k :| 1 <= k <= p.retries && m == k * t + 1 {
      MulAtLeast(k, t);
      assert (p.retries + 1) * t == k * t + (p.retries + 1 - k) * t;
      MulAtLeast(p.retries + 1 - k, t);
    }
    if 1 <= m <= (p.retries + 1) * t + 1 {
      CountdownDrops(p, t, m - 1);
      var q := AfterTicks(p, t, m - 1).value;
      if m > 1 {
        WholePeriods(p.retries, q.retries, t, q.ctime, m - 1);
        assert forall k :: 1 <= k <= p.retries && m - 1 == k * t ==> m == k * t + 1;
      }
    }
  }

  /** A queue with timeout 0 spends one retry every tick. */
  lemma {:induction false} ZeroTimeoutSchedule(p: Pack, m: nat)
    requires p.ctime == 0
    ensures AfterTicks(p, 0, m) == if m == 0 || m < p.retries then
                                     Some(p.(retries := p.retries - m)) else None
    ensures ResentAt(p, 0, m) <==> 1 <= m <= p.retries
    ensures GivenUpAt(p, 0, m) <==> m == (if p.retries == 0 then 1 else p.retries)
  {
    if m > 0 { ZeroTimeoutSchedule(p, m - 1); }
  }

  // ---- the packet inside the lists ----

  function FindPack(ps: seq<Pack>, stamp: nat): Option<Pack> {
    if ps == [] then None else if ps[0].stamp == stamp then Some(ps[0]) else FindPack(ps[1..], stamp)
  }

  function Track(s: State, uin: nat, stamp: nat): Option<Pack> {
    var q := Lookup(s.table, uin);
    if q.Some? then FindPack(q.value.packs, stamp) else None
  }

  lemma {:induction false} FindPackAbsent(ps: seq<Pack>, stamp: nat)
    requires forall p :: p in ps ==> p.stamp != stamp
    ensures FindPack(ps, stamp) == None
  {
    if ps != [] { FindPackAbsent(ps[1..], stamp); }
  }

  lemma {:induction false} FindPackConcat(a: seq<Pack>, b: seq<Pack>, stamp: nat)
    ensures FindPack(a + b, stamp)
         == if FindPack(a, stamp).Some? then FindPack(a, stamp) else FindPack(b, stamp)
  {
    if a == [] {
      assert a + b == b;
    } else {
      assert (a + b)[0] == a[0] && (a + b)[1..] == a[1..] + b;
      FindPackConcat(a[1..], b, stamp);
    }
  }

  lemma {:induction false} FindPackAfterTick(ps: seq<Pack>, t: nat, stamp: nat)
    requires DistinctStamps(ps)
    ensures FindPack(TickPacks(ps, t), stamp)
         == var p := FindPack(ps, stamp); if p.Some? then Ticked(p.value, t) else None
  {
    if ps != [] {
      assert DistinctStamps(ps[1..]);
      FindPackAfterTick(ps[1..], t, stamp);
      FindPackConcat(TickPack(ps[0], t), TickPacks(ps[1..], t), stamp);
      if ps[0].stamp == stamp { FindPackAbsent(ps[1..], stamp); }
    }
  }

  lemma {:induction false} FindPackAfterDrop(ps: seq<Pack>, gone: nat, stamp: nat)
    requires gone != stamp
    ensures FindPack(WithoutStamp(ps, gone), stamp) == FindPack(ps, stamp)
  {
    if ps != [] {
      FindPackAfterDrop(ps[1..], gone, stamp);
      FindPackConcat(Keep(ps[0], gone), WithoutStamp(ps[1..], gone), stamp);
    }
  }

  /** Events that leave the packet's fate to the clock: no acknowledgement of it, and no packet
      of another session of its user. */
  predicate Undisturbed(s: State, e: Event, uin: nat, usid: nat, stamp: nat) {
    && e != Ack(uin, stamp)
    && (e.Send? && Accepted(s, e.r) && e.r.uin == uin ==> s.users[uin].usid == usid)
  }

  /** What does not change about a queue while its session lasts. */
  datatype Line = Line(usid: nat, timeOut: nat, ip: nat, port: nat)

  function LineOf(q: Queue): Line { Line(q.usid, q.timeOut, q.ip, q.port) }

  ghost predicate Holds(s: State, uin: nat, l: Line, p: Pack) {
    var q := Lookup(s.table, uin);
    q.Some? && q.value.uin == uin && LineOf(q.value) == l && FindPack(q.value.packs, p.stamp) == Some(p)
  }

  function TicksIn(es: seq<Event>): nat {
    if es == [] then 0 else (if es[0].Tick? then 1 else 0) + TicksIn(es[1..])
  }

  lemma FoundIsIn(ps: seq<Pack>, stamp: nat)
    requires FindPack(ps, stamp).Some?
    ensures FindPack(ps, stamp).value in ps && FindPack(ps, stamp).value.stamp == stamp
  {
  }

  lemma StepFollowsClock(s: State, e: Event, uin: nat, l: Line, p: Pack)
    requires Stamped(s) && Proper(s, e) && Undisturbed(s, e, uin, l.usid, p.stamp)
    requires Holds(s, uin, l, p)
    ensures !e.Tick? ==> Holds(Step(s, e), uin, l, p)
    ensures e.Tick? && Ticked(p, l.timeOut).Some? ==>
              Holds(Step(s, e), uin, l, Ticked(p, l.timeOut).value)
    ensures e.Tick? && Ticked(p, l.timeOut).None? ==> Track(Step(s, e), uin, p.stamp).None?
  {
    QueuesEvolveAlone(s, e, uin);
    var q := Lookup(s.table, uin).value;
    assert q in s.table && Orderly(s.users, q);
    FoundIsIn(q.packs, p.stamp);
    match e
    case Tick =>
      FindPackAfterTick(q.packs, q.timeOut, p.stamp);
    case Ack(to, stamp) =>
      if to == uin { FindPackAfterDrop(q.packs, stamp, p.stamp); }
    case Send(r, a) =>
      if Accepted(s, r) && r.uin == uin {
        SeqOfStamp(uin, s.users[uin].servseq, 0);
      }
    case _ =>
  }

  /** The clock's verdict on a packet, in every run that does not acknowledge it or replace its
      session, whatever happens to other packets and users in between. */
  ghost predicate Calm(s: State, es: seq<Event>, uin: nat, usid: nat, stamp: nat)
    decreases es
  {
    es == [] ||
    (Proper(s, es[0]) && Undisturbed(s, es[0], uin, usid, stamp)
     && Calm(Step(s, es[0]), es[1..], uin, usid, stamp))
  }

  lemma {:induction false} AfterMoreTicks(p: Pack, t: nat, n: nat)
    requires Ticked(p, t).Some?
    ensures AfterTicks(Ticked(p, t).value, t, n) == AfterTicks(p, t, n + 1)
  {
    if n > 0 {
      AfterMoreTicks(p, t, n - 1);
    } else {
      assert AfterTicks(p, t, 0) == Some(p);
    }
  }

  lemma {:induction false} OneTickGone(p: Pack, t: nat, n: nat)
    requires Ticked(p, t).None? && n >= 1
    ensures AfterTicks(p, t, n).None?
  {
    assert AfterTicks(p, t, 0) == Some(p);
    if n > 1 { OneTickGone(p, t, n - 1); }
  }

  lemma {:induction false} RunFollowsClock(s: State, es: seq<Event>, uin: nat, l: Line, p: Pack)
    requires Stamped(s) && Calm(s, es, uin, l.usid, p.stamp)
    requires Holds(s, uin, l, p)
    requires AfterTicks(p, l.timeOut, TicksIn(es)).Some?
    ensures Stamped(Run(s, es))
    ensures Holds(Run(s, es), uin, l, AfterTicks(p, l.timeOut, TicksIn(es)).value)
    decreases es
  {
    if es != [] {
      hide Stamped, Holds, Proper, Step, Undisturbed;
      var e := es[0];
      StampedKept(s, e);
      if e.Tick? && Ticked(p, l.timeOut).None? { OneTickGone(p, l.timeOut, TicksIn(es)); }
      StepFollowsClock(s, e, uin, l, p);
      if e.Tick? {
        AfterMoreTicks(p, l.timeOut, TicksIn(es[1..]));
        RunFollowsClock(Step(s, e), es[1..], uin, l, Ticked(p, l.timeOut).value);
      } else {
        RunFollowsClock(Step(s, e), es[1..], uin, l, p);
      }
    }
  }

  // ---- what a tick sends for one packet ----

  function Count(out: seq<Resend>, uin: nat, stamp: nat): nat {
    if out == [] then 0 else
      (if out[0].uin == uin && out[0].stamp == stamp then 1 else 0) + Count(out[1..], uin, stamp)
  }

  lemma {:induction false} CountConcat(a: seq<Resend>, b: seq<Resend>, uin: nat, stamp: nat)
    ensures Count(a + b, uin, stamp) == Count(a, uin, stamp) + Count(b, uin, stamp)
  {
    if a == [] {
      assert a + b == b;
    } else {
      assert (a + b)[0] == a[0] && (a + b)[1..] == a[1..] + b;
      CountConcat(a[1..], b, uin, stamp);
    }
  }

  function DueCount(p: Option<Pack>): nat { if p.Some? && Due(p.value) then 1 else 0 }

  lemma {:induction false} CountInQueue(q: Queue, ps: seq<Pack>, uin: nat, stamp: nat)
    requires DistinctStamps(ps)
    ensures Count(PackResends(q, ps), uin, stamp)
         == if q.uin == uin then DueCount(FindPack(ps, stamp)) else 0
  {
    if ps != [] {
      assert DistinctStamps(ps[1..]);
      CountInQueue(q, ps[1..], uin, stamp);
      CountConcat(PackResend(q, ps[0]), PackResends(q, ps[1..]), uin, stamp);
      if ps[0].stamp == stamp { FindPackAbsent(ps[1..], stamp); }
    }
  }

  lemma {:induction false} CountInTable(t: seq<Queue>, uin: nat, stamp: nat)
    requires UniqueUins(t) && forall q :: q in t ==> DistinctStamps(q.packs)
    ensures Count(TickOut(t), uin, stamp)
         == var q := Lookup(t, uin);
            if q.Some? then DueCount(FindPack(q.value.packs, stamp)) else 0
  {
    if t != [] {
      assert t[0] in t;
      CountInTable(t[1..], uin, stamp);
      CountConcat(QueueResends(t[0]), TickOut(t[1..]), uin, stamp);
      CountInQueue(t[0], t[0].packs, uin, stamp);
      assert t == [t[0]] + t[1..];
      LookupConcat([t[0]], t[1..], uin);
      LookupOne(t[0], uin);
      if t[0].uin == uin { assert Find(t[1..], uin) == |t[1..]|; }
    }
  }

  lemma FateAtTick(p: Pack, t: nat, m: nat)
    requires t >= 1 && p.ctime == t && 1 <= m <= (p.retries + 1) * t + 1
    ensures var q := AfterTicks(p, t, m - 1);
            && q.Some? && q.value.stamp == p.stamp
            && (Due(q.value) <==> exists k :: 1 <= k <= p.retries && m == k * t + 1)
            && (Ticked(q.value, t).None? <==> m == (p.retries + 1) * t + 1)
  {
    CountdownDrops(p, t, m - 1);
    RetrySchedule(p, t, m);
  }

  lemma NextTick(s: State, uin: nat, l: Line, p: Pack)
    requires Stamped(s) && Holds(s, uin, l, p)
    ensures Track(s, uin, p.stamp).Some?
    ensures Count(TickOut(s.table), uin, p.stamp) == DueCount(Some(p))
    ensures Track(Step(s, Tick), uin, p.stamp).Some? <==> Ticked(p, l.timeOut).Some?
  {
    assert forall q :: q in s.table ==> Orderly(s.users, q);
    CountInTable(s.table, uin, p.stamp);
    StepFollowsClock(s, Tick, uin, l, p);
    if Ticked(p, l.timeOut).Some? {
      assert Holds(Step(s, Tick), uin, l, Ticked(p, l.timeOut).value);
    }
  }

  // ---- where it goes, and what it carries ----

  lemma {:induction false} ResendOfPack(q: Queue, ps: seq<Pack>, x: Resend)
    requires x in PackResends(q, ps)
    ensures x.uin == q.uin && x.ip == q.ip && x.port == q.port
    ensures exists p :: p in ps && p.stamp == x.stamp && p.buff == x.buff
  {
    if x in PackResend(q, ps[0]) {
      assert ps[0] in ps;
    } else {
      ResendOfPack(q, ps[1..], x);
      var p :| p in ps[1..] && p.stamp == x.stamp && p.buff == x.buff;
      assert p in ps;
    }
  }

  /** What a tick sends comes from a packet in a queue, and goes to that queue's address. */
  lemma {:induction false} ResendOfQueue(t: seq<Queue>, x: Resend) returns (q: Queue)
    requires x in TickOut(t)
    ensures q in t && x.uin == q.uin && x.ip == q.ip && x.port == q.port
    ensures exists p :: p in q.packs && p.stamp == x.stamp && p.buff == x.buff
  {
    if x in QueueResends(t[0]) {
      q := t[0];
      ResendOfPack(q, q.packs, x);
    } else {
      q := ResendOfQueue(t[1..], x);
    }
  }

  lemma FoundIsOnly(ps: seq<Pack>, p: Pack)
    requires DistinctStamps(ps) && p in ps
    ensures FindPack(ps, p.stamp) == Some(p)
  {
    if ps[0].stamp != p.stamp {
      FoundIsOnly(ps[1..], p);
    } else {
      var i :| 0 <= i < |ps| && ps[i] == p;
      assert i == 0;
    }
  }

  lemma ResendGoesHome(s: State, uin: nat, l: Line, p: Pack, x: Resend)
    requires Stamped(s) && Holds(s, uin, l, p)
    requires x in TickOut(s.table) && x.uin == uin && x.stamp == p.stamp
    ensures x.buff == p.buff && x.ip == l.ip && x.port == l.port
  {
    var q := ResendOfQueue(s.table, x);
    SameRow(s.table, q);
    assert Orderly(s.users, q);
    var p1 :| p1 in q.packs && p1.stamp == x.stamp && p1.buff == x.buff;
    FoundIsOnly(q.packs, p1);
  }

  /** The queue of a user after an accepted packet: its session and address are those of the
      user's record, unless a queue of this session was there. */
  lemma SessionLine(s: State, r: Request)
    requires UniqueUins(s.table) && Accepted(s, r)
    ensures var u, was, q := s.users[r.uin], Lookup(s.table, r.uin), Lookup(Step(s, Send(r, ALLOC_OK)).table, r.uin);
      && q.Some? && q.value.uin == r.uin && q.value.usid == u.usid
      && (if was.Some? && was.value.usid == u.usid
          then LineOf(q.value) == LineOf(was.value)
          else q.value.ip == u.ip && q.value.port == u.port && q.value.timeOut == r.timeOut)
  {
    QueuesEvolveAlone(s, Send(r, ALLOC_OK), r.uin);
  }

  lemma PackIsQueued(s: State, r: Request)
    requires UniqueUins(s.table) && Accepted(s, r)
    ensures var s1 := Step(s, Send(r, ALLOC_OK));
      var q := Lookup(s1.table, r.uin);
      q.Some? && Holds(s1, r.uin, LineOf(q.value),
                       Pack(Stamp(r.uin, s.users[r.uin].servseq, 0), r.buff, r.retries, q.value.timeOut))
  {
    QueuesEvolveAlone(s, Send(r, ALLOC_OK), r.uin);
  }

  /** A packet accepted in state s, over every run es that neither acknowledges it nor replaces
      its session: the next tick, number m of its life, sends it exactly when m is one of T+1,
      2T+1, ..., RT+1, sends it once, and gives it up exactly when m is (R+1)T+1. What is sent is
      the packet, and it goes to the address the session's queue was opened with. */
  lemma RetransmissionTimes(s: State, r: Request, es: seq<Event>, m: nat)
    requires Stamped(s) && r.uin in s.users && r.proto in {3, 5} && Proper(s, Send(r, ALLOC_OK))
    requires var s1 := Step(s, Send(r, ALLOC_OK));
             Calm(s1, es, r.uin, s.users[r.uin].usid, Stamp(r.uin, s.users[r.uin].servseq, 0))
    requires var q := Lookup(Step(s, Send(r, ALLOC_OK)).table, r.uin);
             q.Some? ==> q.value.timeOut >= 1 && m <= (r.retries + 1) * q.value.timeOut + 1
    requires m == TicksIn(es) + 1
    ensures var s1 := Step(s, Send(r, ALLOC_OK));
            var stamp := Stamp(r.uin, s.users[r.uin].servseq, 0);
            var q := Lookup(s1.table, r.uin);
            var now := Run(s1, es);
            && q.Some?
            && Track(now, r.uin, stamp).Some?
            && Count(TickOut(now.table), r.uin, stamp)
               == (if exists k :: 1 <= k <= r.retries && m == k * q.value.timeOut + 1 then 1 else 0)
            && (Track(Step(now, Tick), r.uin, stamp).None?
                <==> m == (r.retries + 1) * q.value.timeOut + 1)
    ensures var stamp := Stamp(r.uin, s.users[r.uin].servseq, 0);
            var u, was := s.users[r.uin], Lookup(s.table, r.uin);
            forall x :: x in TickOut(Run(Step(s, Send(r, ALLOC_OK)), es).table)
                        && x.uin == r.uin && x.stamp == stamp ==>
              && x.buff == r.buff
              && (if was.Some? && was.value.usid == u.usid
                  then x.ip == was.value.ip && x.port == was.value.port
                  else x.ip == u.ip && x.port == u.port)
  {
    hide Step, Lookup, Holds, Stamped, Calm, TickOut;
    var e := Send(r, ALLOC_OK);
    var s1 := Step(s, e);
    var stamp := Stamp(r.uin, s.users[r.uin].servseq, 0);
    StampedKept(s, e);
    StampedUnique(s);
    PackIsQueued(s, r);
    SessionLine(s, r);
    var l := LineOf(Lookup(s1.table, r.uin).value);
    var p := Pack(stamp, r.buff, r.retries, l.timeOut);
    FateAtTick(p, l.timeOut, m);
    CountdownDrops(p, l.timeOut, m - 1);
    RunFollowsClock(s1, es, r.uin, l, p);
    var now, p1 := Run(s1, es), AfterTicks(p, l.timeOut, m - 1).value;
    NextTick(now, r.uin, l, p1);
    forall x | x in TickOut(now.table) && x.uin == r.uin && x.stamp == stamp
      ensures x.buff == r.buff && x.ip == l.ip && x.port == l.port
    {
      ResendGoesHome(now, r.uin, l, p1, x);
    }
  }

  /** A packet to an unknown user, or of another protocol, is not kept. */
  lemma OthersAreNotKept(s: State, r: Request, a: Alloc)
    requires r.uin !in s.users || r.proto !in {3, 5}
    ensures Step(s, Send(r, a)) == s
  {
  }

  lemma StampedUnique(s: State)
    requires Stamped(s)
    ensures UniqueUins(s.table)
  {
  }

  // ---- who opened a queue ----

  /** The event is an accepted packet, from a user's record with the queue's session and address. */
  predicate Opens(s: State, e: Event, q: Queue) {
    e.Send? && Accepted(s, e.r) && e.r.uin == q.uin
    && var u := s.users[q.uin];
       u.usid == q.usid && u.ip == q.ip && u.port == q.port
  }

  lemma OpenedBefore(s: State, e: Event, q: Queue)
    requires UniqueUins(s.table) && q in Step(s, e).table
    ensures Opens(s, e, q) || exists q0 :: q0 in s.table && q0.uin == q.uin && LineOf(q0) == LineOf(q)
  {
    match e
    case Tick =>
      TickOrigin(s.table, q);
    case Ack(uin, stamp) =>
      if q !in s.table {
        var i := Find(s.table, uin);
        assert s.table[i] in s.table && q == DropStamp(s.table[i], stamp);
      }
    case Send(r, a) =>
      if Accepted(s, r) { SendOrigin(s, r, a, q); }
    case _ =>
  }

  lemma {:induction false} RunSnoc(s: State, es: seq<Event>, e: Event)
    ensures Run(s, es + [e]) == Step(Run(s, es), e)
    decreases es
  {
    hide Step;
    if es == [] {
      assert (es + [e])[1..] == [];
    } else {
      assert (es + [e])[1..] == es[1..] + [e];
      RunSnoc(Step(s, es[0]), es[1..], e);
    }
  }

  lemma {:induction false} RunKeepsUins(s: State, es: seq<Event>)
    requires UniqueUins(s.table)
    ensures UniqueUins(Run(s, es).table)
    decreases es
  {
    hide Step, UniqueUins;
    if es != [] {
      UniqueUinsKept(s, es[0]);
      RunKeepsUins(Step(s, es[0]), es[1..]);
    }
  }

  /** In every run from the empty list: session and address of a queue are those the user's record
      had when an earlier packet of that user was accepted. */
  lemma {:induction false} QueueWasOpened(users: map<nat, User>, es: seq<Event>, q: Queue) returns (k: nat)
    requires q in Run(State(users, []), es).table
    ensures k < |es| && Opens(Run(State(users, []), es[..k]), es[k], q)
    decreases es
  {
    hide Step, Opens;
    var front, e := es[..|es| - 1], es[|es| - 1];
    assert es == front + [e];
    RunSnoc(State(users, []), front, e);
    var s := Run(State(users, []), front);
    RunKeepsUins(State(users, []), front);
    OpenedBefore(s, e, q);
    if Opens(s, e, q) {
      k := |es| - 1;
    } else {
      var q0 :| q0 in s.table && q0.uin == q.uin && LineOf(q0) == LineOf(q);
      k := QueueWasOpened(users, front, q0);
      assert es[..k] == front[..k];
      SameOpens(Run(State(users, []), front[..k]), front[k], q0, q);
    }
  }

  lemma SameOpens(s: State, e: Event, q0: Queue, q: Queue)
    requires q0.uin == q.uin && LineOf(q0) == LineOf(q) && Opens(s, e, q0)
    ensures Opens(s, e, q)
  {
  }

  /** So every retransmission of every run goes to the address that a record of its user had when
      a packet of his was accepted. */
  lemma ResendsGoToTheirUser(users: map<nat, User>, es: seq<Event>, x: Resend) returns (k: nat)
    requires x in TickOut(Run(State(users, []), es).table)
    ensures k < |es| && es[k].Send? && es[k].r.uin == x.uin
    ensures var s := Run(State(users, []), es[..k]);
            && Accepted(s, es[k].r)
            && s.users[x.uin].ip == x.ip && s.users[x.uin].port == x.port
  {
    hide Run, Step;
    var q := ResendOfQueue(Run(State(users, []), es).table, x);
    k := QueueWasOpened(users, es, q);
  }
}
