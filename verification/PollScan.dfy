/** One poll round over the connection table (isdcore/sockets-p.cpp), as values: the backward
    scan closes connections while it walks over them. */
module PollScan {
  import opened SocketTable

  /** What reading from a connection turns out to do. */
  datatype Read = Read(fails: bool, started: nat)

  predicate Active(e: Entry) { e.pf.revents != NO_EVENTS }

  predicate Failed(e: Entry) { e.pf.revents.pollerr || e.pf.revents.pollhup }

  /** Data to read, or an error to handle. */
  predicate Ready(e: Entry) { e.pf.revents.pollin || Failed(e) }

  function ReadOf(m: map<Id, Read>, e: Entry): Read {
    if IdOf(e) in m then m[IdOf(e)] else Read(true, e.si.started)
  }

  function Touched(e: Entry, m: map<Id, Read>, now: nat): Entry {
    e.(si := e.si.(lutime := now, started := ReadOf(m, e).started))
  }

  datatype Outcome = Outcome(es: seq<Entry>, ids: seq<Id>)

  /** The body of the loop of check_accepted_connections at slot i, with tcp_process inlined. */
  function Visit(es: seq<Entry>, i: nat, m: map<Id, Read>, now: nat): (o: Outcome)
    requires i < |es|
    ensures |o.es| >= i && o.es[..i] == es[..i]
  {
    var e := es[i];
    if e.pf.revents.pollin then
      Outcome(if ReadOf(m, e).fails then CloseAt(es, i) else es[i := Touched(e, m, now)], [IdOf(e)])
    else if Failed(e) then Outcome(CloseAt(es, i), [IdOf(e)])
    else Outcome(es, [])
  }

  /** check_accepted_connections from slot n - 1 down, with the counters csockets and nsockets. */
  function Scan(es: seq<Entry>, n: nat, cs: int, ns: int, m: map<Id, Read>, now: nat): (o: Outcome)
    requires n <= |es|
    decreases n
  {
    if n <= RES_SLOTS || cs >= ns then Outcome(es, []) else
      var v := Visit(es, n - 1, m, now);
      var rest := Scan(v.es, n - 1, cs + |v.ids|, ns, m, now);
      Outcome(rest.es, v.ids + rest.ids)
  }

  // ---- what the scan is for ----

  /** Ids of the ready connections among the first n slots, last slot first. */
  function ReadyDown(es: seq<Entry>, n: nat): seq<Id>
    requires n <= |es|
  {
    if n <= RES_SLOTS then [] else
      (if Ready(es[n - 1]) then [IdOf(es[n - 1])] else []) + ReadyDown(es, n - 1)
  }

  /** Slots from RES_SLOTS to n - 1 with any event at all. */
  function ActiveUpTo(es: seq<Entry>, n: nat): nat
    requires n <= |es|
  {
    if n <= RES_SLOTS then 0 else (if Active(es[n - 1]) then 1 else 0) + ActiveUpTo(es, n - 1)
  }

  lemma {:induction false} SamePrefix(a: seq<Entry>, b: seq<Entry>, n: nat)
    requires n <= |a| && n <= |b| && a[..n] == b[..n]
    ensures ReadyDown(a, n) == ReadyDown(b, n) && ActiveUpTo(a, n) == ActiveUpTo(b, n)
  {
    if n > RES_SLOTS {
      assert a[n - 1] == a[..n][n - 1] == b[..n][n - 1] == b[n - 1];
      assert a[..n - 1] == a[..n][..n - 1] == b[..n][..n - 1] == b[..n - 1];
      SamePrefix(a, b, n - 1);
    }
  }

  lemma {:induction false} NoneActive(es: seq<Entry>, n: nat)
    requires n <= |es| && ActiveUpTo(es, n) == 0
    ensures ReadyDown(es, n) == []
  {
    if n > RES_SLOTS { NoneActive(es, n - 1); }
  }

  lemma VisitSpends(es: seq<Entry>, i: nat, m: map<Id, Read>, now: nat)
    requires i < |es|
    ensures |Visit(es, i, m, now).ids| <= if Active(es[i]) then 1 else 0
    ensures Visit(es, i, m, now).ids == if Ready(es[i]) then [IdOf(es[i])] else []
  {
  }

  /** A visit spends what its slot has, and leaves the slots ahead as they were. */
  lemma VisitLeavesAhead(es: seq<Entry>, i: nat, m: map<Id, Read>, now: nat)
    requires RES_SLOTS <= i < |es|
    ensures var v := Visit(es, i, m, now);
            && ReadyDown(es, i + 1) == v.ids + ReadyDown(v.es, i)
            && |v.ids| + ActiveUpTo(v.es, i) <= ActiveUpTo(es, i + 1)
  {
    hide Visit, Ready, Active, IdOf;
    VisitSpends(es, i, m, now);
    SamePrefix(es, Visit(es, i, m, now).es, i);
  }

  /** The scan visits every ready connection exactly once and no other, in table order from the
      end, although closing moves connections: as long as nsockets leaves room for the active
      slots still ahead, the early exit csockets >= nsockets skips none of them. */
  lemma {:induction false} ScanVisitsReady(es: seq<Entry>, n: nat, cs: int, ns: int,
                                           m: map<Id, Read>, now: nat)
    requires n <= |es| && cs + ActiveUpTo(es, n) <= ns
    ensures Scan(es, n, cs, ns, m, now).ids == ReadyDown(es, n)
    decreases n
  {
    hide Visit, ReadyDown, ActiveUpTo;
    if n <= RES_SLOTS {
      NothingAhead(es, n);
    } else if cs >= ns {
      NoneActive(es, n);
    } else {
      var v := Visit(es, n - 1, m, now);
      VisitLeavesAhead(es, n - 1, m, now);
      ScanVisitsReady(v.es, n - 1, cs + |v.ids|, ns, m, now);
    }
  }

  lemma NothingAhead(es: seq<Entry>, n: nat)
    requires n <= |es| && n <= RES_SLOTS
    ensures ReadyDown(es, n) == []
  {
  }

  // ---- what it leaves behind ----

  /** A scanned connection afterwards: gone, touched, or as it was. */
  function After(e: Entry, m: map<Id, Read>, now: nat): seq<Entry> {
    if e.pf.revents.pollin then (if ReadOf(m, e).fails then [] else [Touched(e, m, now)])
    else if Failed(e) then []
    else [e]
  }

  function AfterAll(es: seq<Entry>, n: nat, m: map<Id, Read>, now: nat): seq<Entry>
    requires n <= |es|
  {
    if n <= RES_SLOTS then [] else AfterAll(es, n - 1, m, now) + After(es[n - 1], m, now)
  }

  lemma {:induction false} SamePrefixAfter(a: seq<Entry>, b: seq<Entry>, n: nat,
                                           m: map<Id, Read>, now: nat)
    requires n <= |a| && n <= |b| && a[..n] == b[..n]
    ensures AfterAll(a, n, m, now) == AfterAll(b, n, m, now)
  {
    if n > RES_SLOTS {
      assert a[n - 1] == a[..n][n - 1] == b[..n][n - 1] == b[n - 1];
      assert a[..n - 1] == a[..n][..n - 1] == b[..n][..n - 1] == b[..n - 1];
      SamePrefixAfter(a, b, n - 1, m, now);
    }
  }

  lemma {:induction false} NoneActiveAfter(es: seq<Entry>, n: nat, m: map<Id, Read>, now: nat)
    requires RES_SLOTS <= n <= |es| && ActiveUpTo(es, n) == 0
    ensures AfterAll(es, n, m, now) == es[RES_SLOTS..n]
  {
    if n > RES_SLOTS {
      NoneActiveAfter(es, n - 1, m, now);
      assert es[RES_SLOTS..n] == es[RES_SLOTS..n - 1] + [es[n - 1]];
    }
  }

  lemma PrefixOfPrefix(a: seq<Entry>, b: seq<Entry>, n: nat, k: nat)
    requires k <= n <= |a| && n <= |b| && a[..n] == b[..n]
    ensures a[..k] == b[..k]
  {
    assert a[..k] == a[..n][..k] && b[..k] == b[..n][..k];
  }

  lemma VisitCounts(es: seq<Entry>, i: nat, m: map<Id, Read>, now: nat, p: Entry -> bool)
    requires i < |es|
    ensures CountIf(Visit(es, i, m, now).es[i..], p)
         == CountIf(After(es[i], m, now), p) + CountIf(es[i + 1..], p)
  {
    var v := Visit(es, i, m, now).es;
    CloseCountsBehind(es, i, p);
    if |v| == |es| {
      assert v[i..] == [v[i]] + es[i + 1..];
      CountConcat([v[i]], es[i + 1..], p);
    }
  }

  /** Connections are neither lost nor duplicated by the moves: whatever property p one counts,
      the table holds exactly what the visits left of the scanned slots, and all others. */
  lemma {:induction false} ScanConserves(es: seq<Entry>, n: nat, cs: int, ns: int,
                                         m: map<Id, Read>, now: nat, p: Entry -> bool)
    requires RES_SLOTS <= n <= |es| && cs + ActiveUpTo(es, n) <= ns
    ensures var r := Scan(es, n, cs, ns, m, now).es;
            && |r| >= RES_SLOTS && r[..RES_SLOTS] == es[..RES_SLOTS]
            && CountIf(r[RES_SLOTS..], p) == CountIf(AfterAll(es, n, m, now), p) + CountIf(es[n..], p)
    decreases n
  {
    hide Visit, After, CloseAt, CountIf;
    if n == RES_SLOTS {
      CountNone(p);
    } else if cs >= ns {
      NoneActiveAfter(es, n, m, now);
      assert es[RES_SLOTS..] == es[RES_SLOTS..n] + es[n..];
      CountConcat(es[RES_SLOTS..n], es[n..], p);
    } else {
      var v := Visit(es, n - 1, m, now);
      SamePrefix(es, v.es, n - 1);
      SamePrefixAfter(es, v.es, n - 1, m, now);
      VisitSpends(es, n - 1, m, now);
      ScanConserves(v.es, n - 1, cs + |v.ids|, ns, m, now, p);
      VisitCounts(es, n - 1, m, now, p);
      CountConcat(AfterAll(es, n - 1, m, now), After(es[n - 1], m, now), p);
      PrefixOfPrefix(es, v.es, n - 1, RES_SLOTS);
    }
  }

  // ---- a whole round of process_socket ----

  /** close_socket: the first connection with this id, if there is one. */
  function FindId(es: seq<Entry>, from: nat, id: Id): (i: nat)
    requires from <= |es|
    ensures from <= i <= |es|
    ensures i < |es| ==> IdOf(es[i]) == id
    ensures forall k :: from <= k < i ==> IdOf(es[k]) != id
    decreases |es| - from
  {
    if from == |es| || IdOf(es[from]) == id then from else FindId(es, from + 1, id)
  }

  function CloseId(es: seq<Entry>, id: Id): (r: seq<Entry>)
    requires |es| >= RES_SLOTS
    ensures |r| >= RES_SLOTS && forall k :: 0 <= k < RES_SLOTS ==> r[k] == es[k]
  {
    var i := FindId(es, RES_SLOTS, id);
    if i < |es| then CloseAt(es, i) else es
  }

  function CloseIds(es: seq<Entry>, ids: seq<Id>): (r: seq<Entry>)
    requires |es| >= RES_SLOTS
    ensures |r| >= RES_SLOTS && forall k :: 0 <= k < RES_SLOTS ==> r[k] == es[k]
    decreases ids
  {
    if ids == [] then es else CloseIds(CloseId(es, ids[0]), ids[1..])
  }

  datatype Option<T> = None | Some(value: T)

  /** aim_accept_connect: a connection of this id, or a failed accept. */
  function AcceptOne(es: seq<Entry>, conn: Option<Id>, capacity: nat, now: nat): (r: seq<Entry>)
    ensures es <= r
  {
    if |es| + 1 > capacity || conn.None? then es
    else es + [Entry(PollFd(conn.value.fd, NO_EVENTS), SockInfo(conn.value.rnd, now, SAIM, 2))]
  }

  function One(b: bool): nat { if b then 1 else 0 }

  /** What the network and the other processes contribute to one round. */
  datatype World = World(terms: seq<Id>, conn: Option<Id>, input: map<Id, Read>, now: nat)

  /** csockets once the pipe and the udp socket have been served. */
  function ServedUdp(es: seq<Entry>, ns: int): nat
    requires |es| >= RES_SLOTS
  {
    var c := One(es[STOG].pf.revents.pollin);
    c + One(c < ns && es[SUDP].pf.revents.pollin)
  }

  /** Whether this round accepts. */
  predicate Accepts(es: seq<Entry>, ns: int)
    requires |es| >= RES_SLOTS
  {
    ServedUdp(es, ns) < ns && es[SAIM].pf.revents.pollin
  }

  /** csockets after the server's own sockets have been served. */
  function ServedOwn(es: seq<Entry>, ns: int): nat
    requires |es| >= RES_SLOTS
  {
    var c := ServedUdp(es, ns) + One(Accepts(es, ns));
    var d := c + One(c < ns && es[SMSN].pf.revents.pollin);
    d + One(d < ns && es[SWWP].pf.revents.pollin)
  }

  /** Whatever number poll returned: all readable own sockets are served if there are no more of
      them, else as many as the number says, and the pipe in any case; the listener's turn comes
      when those before it leave one. */
  lemma OwnSocketsServed(es: seq<Entry>, ns: int)
    requires |es| >= RES_SLOTS
    ensures var pipe := if es[STOG].pf.revents.pollin then 1 else 0;
      var before := pipe + if es[SUDP].pf.revents.pollin then 1 else 0;
      var readable := before + (if es[SAIM].pf.revents.pollin then 1 else 0)
        + (if es[SMSN].pf.revents.pollin then 1 else 0) + (if es[SWWP].pf.revents.pollin then 1 else 0);
      && (Accepts(es, ns) <==> es[SAIM].pf.revents.pollin && before < ns)
      && ServedOwn(es, ns) == (if readable <= ns then readable else if ns <= pipe then pipe else ns)
  {
  }

  /** The table once the packet processors' close requests are served. */
  function AfterTerms(es: seq<Entry>, w: World): (r: seq<Entry>)
    requires |es| >= RES_SLOTS
    ensures |r| >= RES_SLOTS && forall k :: 0 <= k < RES_SLOTS ==> r[k] == es[k]
  {
    if es[STOG].pf.revents.pollin then CloseIds(es, w.terms) else es
  }

  function BeforeScan(es: seq<Entry>, ns: int, w: World, capacity: nat): (r: seq<Entry>)
    requires |es| >= RES_SLOTS
    ensures |r| >= RES_SLOTS
  {
    var t := AfterTerms(es, w);
    if Accepts(t, ns) then AcceptOne(t, w.conn, capacity, w.now) else t
  }

  function Round(es: seq<Entry>, ns: int, w: World, capacity: nat): Outcome
    requires |es| >= RES_SLOTS
  {
    var t := BeforeScan(es, ns, w, capacity);
    var cs := ServedOwn(es, ns);
    if cs < ns then Scan(t, |t|, cs, ns, w.input, w.now) else Outcome(t, [])
  }

  function IsActive(): Entry -> bool { (e: Entry) => Active(e) }

  /** What poll returns: the number of slots with events. */
  function PollCount(es: seq<Entry>): nat { CountIf(es, IsActive()) }

  lemma {:induction false} ActiveIsCount(es: seq<Entry>, n: nat)
    requires RES_SLOTS <= n <= |es|
    ensures ActiveUpTo(es, n) == CountIf(es[RES_SLOTS..n], IsActive())
  {
    if n > RES_SLOTS {
      ActiveIsCount(es, n - 1);
      assert es[RES_SLOTS..n] == es[RES_SLOTS..n - 1] + [es[n - 1]];
      CountConcat(es[RES_SLOTS..n - 1], [es[n - 1]], IsActive());
      CountOne(es[n - 1], IsActive());
    }
  }

  lemma {:induction false} CountAtLeast(es: seq<Entry>, k: nat)
    requires k <= |es|
    ensures CountIf(es, IsActive()) == CountIf(es[..k], IsActive()) + CountIf(es[k..], IsActive())
  {
    assert es == es[..k] + es[k..];
    CountConcat(es[..k], es[k..], IsActive());
  }

  lemma CountFive(es: seq<Entry>)
    requires |es| >= 5
    ensures CountIf(es, IsActive()) >= One(Active(es[0])) + One(Active(es[1])) + One(Active(es[2]))
                                     + One(Active(es[3])) + One(Active(es[4]))
  {
    var p := IsActive();
    var e1, e2, e3, e4 := es[1..], es[2..], es[3..], es[4..];
    assert e1[1..] == e2 && e2[1..] == e3 && e3[1..] == e4;
    assert CountIf(es, p) == One(Active(es[0])) + CountIf(e1, p);
    assert CountIf(e1, p) == One(Active(es[1])) + CountIf(e2, p);
    assert CountIf(e2, p) == One(Active(es[2])) + CountIf(e3, p);
    assert CountIf(e3, p) == One(Active(es[3])) + CountIf(e4, p);
    assert CountIf(e4, p) == One(Active(es[4])) + CountIf(e4[1..], p);
  }

  lemma {:induction false} TermsCount(es: seq<Entry>, ids: seq<Id>)
    requires |es| >= RES_SLOTS
    ensures CountIf(CloseIds(es, ids)[RES_SLOTS..], IsActive()) <= CountIf(es[RES_SLOTS..], IsActive())
    decreases ids
  {
    if ids != [] {
      var i := FindId(es, RES_SLOTS, ids[0]);
      if i < |es| { CloseCounts(es, RES_SLOTS, i, IsActive()); }
      TermsCount(CloseId(es, ids[0]), ids[1..]);
    }
  }

  /** Every active slot is either served before the scan or still ahead of it. */
  lemma RoomForScan(es: seq<Entry>, w: World)
    requires |es| >= RES_SLOTS
    ensures var t := AfterTerms(es, w);
            ServedOwn(es, PollCount(es)) + ActiveUpTo(t, |t|) <= PollCount(es)
  {
    var t := AfterTerms(es, w);
    CountAtLeast(es, RES_SLOTS);
    CountFive(es[..RES_SLOTS]);
    TermsCount(es, w.terms);
    ActiveIsCount(t, |t|);
    assert t[RES_SLOTS..|t|] == t[RES_SLOTS..];
  }

  /** One round handles, exactly once each, all connections that were ready at the poll and were
      not closed by a packet processor before the scan. */
  lemma RoundVisitsReady(es: seq<Entry>, w: World, capacity: nat)
    requires |es| >= RES_SLOTS
    ensures var t := AfterTerms(es, w);
            Round(es, PollCount(es), w, capacity).ids == ReadyDown(t, |t|)
  {
    var ns := PollCount(es);
    var t := AfterTerms(es, w);
    var b := BeforeScan(es, ns, w, capacity);
    RoomForScan(es, w);
    assert t == b[..|t|] == t[..|t|];
    SamePrefix(t, b, |t|);
    assert ReadyDown(b, |b|) == ReadyDown(t, |t|) && ActiveUpTo(b, |b|) == ActiveUpTo(t, |t|);
    if ServedOwn(es, ns) < ns {
      ScanVisitsReady(b, |b|, ServedOwn(es, ns), ns, w.input, w.now);
    } else {
      NoneActive(t, |t|);
    }
  }
}
