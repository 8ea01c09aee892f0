/** What one turn of process_socket (isdcore/sockets-p.cpp) makes of the connection table: who is
    gone, who was read, and who is new. */
module PollRound {
  import opened SocketTable
  import opened PollScan
  import opened TableCounts

  /** Of a connection ready to be read: it is there afterwards, marked with the time, unless reading
      fails. Of the others: unless it has an error. */
  function Survives(m: map<Id, Read>, now: nat, p: Entry -> bool): Entry -> bool {
    (e: Entry) =>
      if e.pf.revents.pollin then
        IdOf(e) in m && !m[IdOf(e)].fails && p(e.(si := e.si.(lutime := now, started := m[IdOf(e)].started)))
      else !e.pf.revents.pollerr && !e.pf.revents.pollhup && p(e)
  }

  /** The same, of the connections that no packet processor wants closed. */
  function Stays(es: seq<Entry>, w: World, p: Entry -> bool): Entry -> bool
    requires |es| >= RES_SLOTS
  {
    (e: Entry) =>
      !(es[STOG].pf.revents.pollin && IdOf(e) in w.terms) && Survives(w.input, w.now, p)(e)
  }

  predicate Any(e: Entry) { true }

  /** Connections left by the close requests. */
  function Spared(es: seq<Entry>, w: World): nat
    requires |es| >= RES_SLOTS
  {
    CountIf(Conns(es), (e: Entry) => !(es[STOG].pf.revents.pollin && IdOf(e) in w.terms))
  }

  /** The entry of an accepted connection. */
  function NewConn(id: Id, now: nat): Entry {
    Entry(PollFd(id.fd, Revents(false, false, false, false)), SockInfo(id.rnd, now, SAIM, 2))
  }

  lemma AfterCounts(e: Entry, m: map<Id, Read>, now: nat, p: Entry -> bool)
    ensures CountIf(After(e, m, now), p) == if Survives(m, now, p)(e) then 1 else 0
  {
    CountNone(p);
    CountOne(e, p);
    CountOne(Touched(e, m, now), p);
  }

  lemma {:induction false} AfterAllCounts(es: seq<Entry>, n: nat, m: map<Id, Read>, now: nat, p: Entry -> bool)
    requires RES_SLOTS <= n <= |es|
    ensures CountIf(AfterAll(es, n, m, now), p) == CountIf(es[RES_SLOTS..n], Survives(m, now, p))
  {
    hide After, Survives, CountIf;
    if n == RES_SLOTS {
      CountNone(p);
      CountNone(Survives(m, now, p));
    } else {
      AfterAllCounts(es, n - 1, m, now, p);
      CountConcat(AfterAll(es, n - 1, m, now), After(es[n - 1], m, now), p);
      AfterCounts(es[n - 1], m, now, p);
      assert es[RES_SLOTS..n] == es[RES_SLOTS..n - 1] + [es[n - 1]];
      CountConcat(es[RES_SLOTS..n - 1], [es[n - 1]], Survives(m, now, p));
      CountOne(es[n - 1], Survives(m, now, p));
    }
  }

  /** The end of the round, whether or not anything is left to scan. */
  lemma ScanEnds(b: seq<Entry>, cs: nat, ns: nat, m: map<Id, Read>, now: nat, p: Entry -> bool)
    requires |b| >= RES_SLOTS && cs + ActiveUpTo(b, |b|) <= ns
    ensures var r := if cs < ns then Scan(b, |b|, cs, ns, m, now).es else b;
            && |r| >= RES_SLOTS && r[..RES_SLOTS] == b[..RES_SLOTS]
            && CountIf(Conns(r), p) == CountIf(Conns(b), Survives(m, now, p))
  {
    hide CountIf, Survives, Scan, AfterAll, ActiveUpTo;
    AfterAllCounts(b, |b|, m, now, p);
    assert b[RES_SLOTS..|b|] == Conns(b) && b[|b|..] == [];
    if cs < ns {
      ScanConserves(b, |b|, cs, ns, m, now, p);
      CountNone(p);
    } else {
      NoneActiveAfter(b, |b|, m, now);
    }
  }

  /** With the poll count for a bound, the listener's turn is never missed. */
  lemma ListenerIsServed(es: seq<Entry>, w: World)
    requires |es| >= RES_SLOTS
    ensures Accepts(AfterTerms(es, w), PollCount(es)) <==> es[SAIM].pf.revents.pollin
  {
    CountAtLeast(es, RES_SLOTS);
    CountFive(es[..RES_SLOTS]);
  }

  lemma TermsCounts(es: seq<Entry>, w: World, p: Entry -> bool)
    requires |es| >= RES_SLOTS && DistinctConns(es)
    ensures CountIf(Conns(AfterTerms(es, w)), p)
         == CountIf(Conns(es), if es[STOG].pf.revents.pollin then Unless(p, w.terms) else p)
  {
    hide CountIf, CloseIds, Conns;
    if es[STOG].pf.revents.pollin { CloseIdsCount(es, w.terms, p); }
  }

  lemma {:induction false} CountAny(s: seq<Entry>)
    ensures CountIf(s, Any) == |s|
  {
    if s != [] { CountAny(s[1..]); }
  }

  lemma SparedIsLength(es: seq<Entry>, w: World)
    requires |es| >= RES_SLOTS && DistinctConns(es)
    ensures |AfterTerms(es, w)| == RES_SLOTS + Spared(es, w)
  {
    hide AfterTerms, CountIf;
    TermsCounts(es, w, Any);
    CountAny(Conns(AfterTerms(es, w)));
    CountSame(Conns(es), if es[STOG].pf.revents.pollin then Unless(Any, w.terms) else Any,
              (e: Entry) => !(es[STOG].pf.revents.pollin && IdOf(e) in w.terms));
  }

  lemma BeforeScanCounts(es: seq<Entry>, w: World, capacity: nat, p: Entry -> bool)
    requires |es| >= RES_SLOTS && DistinctConns(es)
    ensures var b := BeforeScan(es, PollCount(es), w, capacity);
      CountIf(Conns(b), p) == CountIf(Conns(AfterTerms(es, w)), p)
        + if es[SAIM].pf.revents.pollin && w.conn.Some? && RES_SLOTS + Spared(es, w) < capacity
             && p(NewConn(w.conn.value, w.now)) then 1 else 0
  {
    hide AfterTerms, CountIf, Accepts, Spared, PollCount;
    ListenerIsServed(es, w);
    SparedIsLength(es, w);
    var t := AfterTerms(es, w);
    if w.conn.Some? { CountAppended(t, NewConn(w.conn.value, w.now), p); }
  }

  lemma BeforeScanRoom(es: seq<Entry>, w: World, capacity: nat)
    requires |es| >= RES_SLOTS
    ensures var b := BeforeScan(es, PollCount(es), w, capacity);
      && b[..RES_SLOTS] == es[..RES_SLOTS]
      && ServedOwn(es, PollCount(es)) + ActiveUpTo(b, |b|) <= PollCount(es)
  {
    hide ServedOwn, PollCount, AfterTerms;
    var t := AfterTerms(es, w);
    var b := BeforeScan(es, PollCount(es), w, capacity);
    RoomForScan(es, w);
    assert t == b[..|t|] == t[..|t|];
    SamePrefix(t, b, |t|);
    assert ActiveUpTo(b, |b|) == ActiveUpTo(t, |t|);
  }

  /** The table after a round, whatever one counts: the connections that no packet processor wanted
      closed and that were read without failure or had no error; and the one accepted, exactly when
      the listener was readable, a peer waited and there was room. The own sockets are untouched. */
  lemma RoundTable(es: seq<Entry>, w: World, capacity: nat, p: Entry -> bool)
    requires |es| >= RES_SLOTS && DistinctConns(es)
    ensures var r := Round(es, PollCount(es), w, capacity).es;
      && |r| >= RES_SLOTS && r[..RES_SLOTS] == es[..RES_SLOTS]
      && CountIf(Conns(r), p) == CountIf(Conns(es), Stays(es, w, p))
           + if es[SAIM].pf.revents.pollin && w.conn.Some? && RES_SLOTS + Spared(es, w) < capacity
                && p(NewConn(w.conn.value, w.now)) then 1 else 0
  {
    hide BeforeScan, ServedOwn, PollCount, AfterTerms, Spared, CountIf, Scan, ActiveUpTo, Conns;
    var ns := PollCount(es);
    var b := BeforeScan(es, ns, w, capacity);
    var q := Survives(w.input, w.now, p);
    BeforeScanRoom(es, w, capacity);
    ScanEnds(b, ServedOwn(es, ns), ns, w.input, w.now, p);
    BeforeScanCounts(es, w, capacity, q);
    TermsCounts(es, w, q);
    CountSame(Conns(es), if es[STOG].pf.revents.pollin then Unless(q, w.terms) else q, Stays(es, w, p));
  }

  function Named(ids: seq<Id>): Entry -> bool { (e: Entry) => IdOf(e) in ids }

  lemma NamedSurvives(m: map<Id, Read>, now: nat, ids: seq<Id>, e: Entry)
    ensures Survives(m, now, Named(ids))(e) ==> Named(ids)(e)
  {
    if IdOf(e) in m {
      var read := e.(si := e.si.(lutime := now, started := m[IdOf(e)].started));
      assert Named(ids)(read) <==> IdOf(read) in ids;
    }
  }

  lemma NamedGoes(es: seq<Entry>, w: World, e: Entry)
    requires |es| >= RES_SLOTS && es[STOG].pf.revents.pollin
    ensures !Stays(es, w, Named(w.terms))(e)
  {
    hide Survives;
    NamedSurvives(w.input, w.now, w.terms, e);
  }

  /** No connection that a packet processor wanted closed is left. */
  lemma TermsAreGone(es: seq<Entry>, w: World, capacity: nat)
    requires |es| >= RES_SLOTS && DistinctConns(es) && es[STOG].pf.revents.pollin
    requires w.conn.Some? ==> w.conn.value !in w.terms
    ensures var r := Round(es, PollCount(es), w, capacity).es;
      |r| >= RES_SLOTS && forall e :: e in Conns(r) ==> IdOf(e) !in w.terms
  {
    hide Round, PollCount, Spared, CountIf, Conns;
    RoundTable(es, w, capacity, Named(w.terms));
    forall e | e in Conns(es) { NamedGoes(es, w, e); }
    CountZero(Conns(es), Stays(es, w, Named(w.terms)));
    CountZero(Conns(Round(es, PollCount(es), w, capacity).es), Named(w.terms));
    assert forall e :: Named(w.terms)(e) <==> IdOf(e) in w.terms;
  }

  /** With only the listener readable, a peer waiting and room, the round appends that peer. */
  lemma AcceptedIsThere(es: seq<Entry>, w: World, capacity: nat)
    requires |es| >= RES_SLOTS && DistinctConns(es) && es[SAIM].pf.revents.pollin
    requires w.conn.Some? && RES_SLOTS + Spared(es, w) < capacity
    ensures var r := Round(es, PollCount(es), w, capacity).es;
      |r| >= RES_SLOTS && NewConn(w.conn.value, w.now) in Conns(r)
  {
    hide Round, PollCount, Spared, CountIf, Conns;
    var c := NewConn(w.conn.value, w.now);
    RoundTable(es, w, capacity, (e: Entry) => e == c);
    CountZero(Conns(Round(es, PollCount(es), w, capacity).es), (e: Entry) => e == c);
  }
}
