/** What one epoll batch (isdcore/sockets-ep.cpp) makes of the connection table, told from the events
    and the table before it. */
module EpollTable {
  import opened SocketTable
  import opened PollScan
  import opened TableCounts
  import opened EpollBatch

  /** What one event does to the number of connections with property p, when the table is len long:
      an error or a failed read takes its connection away, a read marks it with the time, and a
      readable listener adds the peer that waits if there is room. */
  function Delta(es: seq<Entry>, ev: Event, len: int, w: Peers, p: Entry -> bool): int {
    if ev.slot == SAIM then
      if ev.input && !ev.err && w.conn.Some? && len < w.capacity then
        var id := w.conn.value;
        if p(Entry(PollFd(id.fd, Revents(false, false, false, false)), SockInfo(id.rnd, w.now, SAIM, 2)))
        then 1 else 0
      else 0
    else if 11 <= ev.slot < |es| && (ev.err || ev.input) then
      var e := es[ev.slot];
      var id := IdOf(e);
      (if !ev.err && id in w.input && !w.input[id].fails
          && p(e.(si := e.si.(lutime := w.now, started := w.input[id].started))) then 1 else 0)
      - (if p(e) then 1 else 0)
    else 0
  }

  /** The sum over the first n events, each with the length the table then has. */
  function Change(es: seq<Entry>, evs: seq<Event>, n: nat, w: Peers, p: Entry -> bool): int
    requires n <= |evs|
  {
    if n == 0 then 0 else
      Change(es, evs, n - 1, w, p) + Delta(es, evs[n - 1], LengthAt(es, evs, n - 1, w), w, p)
  }

  lemma CloseDelta(b: Batch, i: nat, p: Entry -> bool)
    requires RES_SLOTS <= i < |b.es|
    ensures CountIf(Conns(CloseIn(b, i).es), p) == CountIf(Conns(b.es), p) - if p(b.es[i]) then 1 else 0
  {
    CloseCounts(b.es, RES_SLOTS, i, p);
  }

  lemma ReadDelta(b: Batch, i: nat, w: Peers, p: Entry -> bool)
    requires RES_SLOTS <= i < |b.es|
    ensures var e := b.es[i];
      var r := ReadOf(w.input, e);
      |ReadIn(b, i, w).es| >= RES_SLOTS
      && CountIf(Conns(ReadIn(b, i, w).es), p) == CountIf(Conns(b.es), p) - (if p(e) then 1 else 0)
        + if !r.fails && p(e.(si := e.si.(lutime := w.now, started := r.started))) then 1 else 0
  {
    hide CountIf, CloseAt;
    CloseDelta(b, i, p);
    CountChanged(b.es, i, Touched(b.es[i], w.input, w.now), p);
  }

  lemma AcceptDelta(es: seq<Entry>, w: Peers, p: Entry -> bool)
    requires |es| >= RES_SLOTS
    ensures CountIf(Conns(AcceptOne(es, w.conn, w.capacity, w.now)), p)
         == CountIf(Conns(es), p) + Delta(es, Event(SAIM, false, true), |es|, w, p)
  {
    hide CountIf, Conns;
    if |es| < w.capacity && w.conn.Some? {
      CountAppended(es, Entry(PollFd(w.conn.value.fd, NO_EVENTS), SockInfo(w.conn.value.rnd, w.now, SAIM, 2)), p);
    }
  }

  lemma DispatchDelta(b: Batch, n: nat, w: Peers, p: Entry -> bool)
    requires n < |b.evs| && |b.es| >= RES_SLOTS
    ensures |Dispatch(b, n, w).es| >= RES_SLOTS
    ensures CountIf(Conns(Dispatch(b, n, w).es), p)
         == CountIf(Conns(b.es), p) + Delta(b.es, b.evs[n], |b.es|, w, p)
  {
    hide CountIf, Conns, CloseAt, ReadIn, AcceptOne, EventsAfterClose;
    var i := b.evs[n].slot;
    if RES_SLOTS <= i < |b.es| {
      CloseDelta(b, i, p);
      ReadDelta(b, i, w, p);
    } else {
      AcceptDelta(b.es, w, p);
    }
  }

  lemma DeltaSame(b: Batch, a: Batch, n: nat, len: int, w: Peers, p: Entry -> bool)
    requires n < |b.evs| && SameAhead(b.es, b.evs, a.es, a.evs, n)
    ensures Delta(a.es, a.evs[n], len, w, p) == Delta(b.es, b.evs[n], len, w, p)
  {
  }

  lemma {:induction false} TableBefore(b: Batch, n: nat, w: Peers, p: Entry -> bool)
    requires n <= |b.evs| && |b.es| >= RES_SLOTS && Pending(b.es, b.evs, 0)
    ensures var a := Before(b, n, w);
      |a.es| >= RES_SLOTS && a.es[..RES_SLOTS] == b.es[..RES_SLOTS]
      && CountIf(Conns(a.es), p) == CountIf(Conns(b.es), p) + Change(b.es, b.evs, n, w, p)
  {
    hide Dispatch, Pending, SameAhead, LengthAt, Delta, CountIf, Conns;
    BeforeFollows(b, n, w);
    if n > 0 {
      var a := Before(b, n - 1, w);
      TableBefore(b, n - 1, w, p);
      BeforeFollows(b, n - 1, w);
      DispatchDelta(a, n - 1, w, p);
      DeltaSame(b, a, n - 1, |a.es|, w, p);
    }
  }

  /** The table after a batch, whatever one counts: that before it and what each event adds or takes
      away; the own sockets are untouched. */
  lemma BatchTable(b: Batch, w: Peers, p: Entry -> bool)
    requires |b.es| >= RES_SLOTS && Pending(b.es, b.evs, 0)
    ensures var r := DispatchFrom(b, 0, w).es;
      |r| >= RES_SLOTS && r[..RES_SLOTS] == b.es[..RES_SLOTS]
      && CountIf(Conns(r), p) == CountIf(Conns(b.es), p) + Change(b.es, b.evs, |b.evs|, w, p)
  {
    hide Dispatch, Pending, Change, CountIf, Conns;
    TableBefore(b, |b.evs|, w, p);
    BeforeIsDispatched(b, |b.evs|, w);
  }

  /** A whole turn: close requests, the batch, and close requests again. */
  lemma TurnTable(b: Batch, terms: seq<Id>, w: Peers, later: seq<Id>, p: Entry -> bool)
    requires |b.es| >= RES_SLOTS && Pending(b.es, b.evs, 0) && DistinctConns(b.es) && Spared(b.es, b.evs, terms)
    requires var d := DispatchFrom(CloseIdsIn(b, terms), 0, w); |d.es| >= RES_SLOTS && DistinctConns(d.es)
    ensures var b1 := CloseIdsIn(b, terms);
      var r := CloseIds(DispatchFrom(b1, 0, w).es, later);
      var q := Unless(p, later);
      CountIf(Conns(r), p) == CountIf(Conns(b.es), Unless(q, terms)) + Change(b1.es, b1.evs, |b1.evs|, w, q)
  {
    hide DispatchFrom, Pending, Change, CountIf, Conns, DistinctConns, CloseIdsIn, CloseIds;
    var q := Unless(p, later);
    TermsKeepPending(b, terms);
    CloseIdsCount(b.es, terms, q);
    BatchTable(CloseIdsIn(b, terms), w, q);
    CloseIdsCount(DispatchFrom(CloseIdsIn(b, terms), 0, w).es, later, p);
  }
}
