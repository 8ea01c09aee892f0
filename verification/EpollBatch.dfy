/** Pending events of one epoll batch and the table they point into (isdcore/sockets-ep.cpp),
    as values: closing a connection moves another one, and the events follow it. */
module EpollBatch {
  import opened SocketTable
  import opened PollScan

  /** struct epoll_event: the table slot it was registered with, and the two flags in use. */
  datatype Event = Event(slot: nat, err: bool, input: bool)

  function Redirect(ev: Event, from: nat, to: nat): Event {
    if ev.slot == from then ev.(slot := to) else ev
  }

  function RedirectAll(evs: seq<Event>, from: nat, to: nat): (r: seq<Event>)
    ensures |r| == |evs|
    ensures forall j :: 0 <= j < |evs| ==> r[j] == Redirect(evs[j], from, to)
  {
    seq(|evs|, j requires 0 <= j < |evs| => Redirect(evs[j], from, to))
  }

  /** The events after close_socket_index_r on slot i; modOk tells whether the kernel accepted
      the new slot number of the moved connection. */
  function EventsAfterClose(es: seq<Entry>, evs: seq<Event>, i: nat, modOk: bool): (r: seq<Event>)
    requires i < |es|
    ensures |r| == |evs|
  {
    if i != |es| - 1 && modOk then RedirectAll(evs, |es| - 1, i) else evs
  }

  /** The event points at the connection with this id. */
  ghost predicate Names(es: seq<Entry>, ev: Event, id: Id) {
    ev.slot < |es| && IdOf(es[ev.slot]) == id
  }

  /** No connection shares its id with another slot. */
  ghost predicate DistinctIds(es: seq<Entry>) {
    forall i, j :: 0 <= i < j < |es| && RES_SLOTS <= j ==> IdOf(es[i]) != IdOf(es[j])
  }

  /** An event of a connection that survives the close goes on naming it, in the slot it now
      has. */
  lemma SurvivorKeepsEvent(es: seq<Entry>, evs: seq<Event>, i: nat, j: nat)
    requires i < |es| && j < |evs| && evs[j].slot < |es| && evs[j].slot != i
    ensures var ev := EventsAfterClose(es, evs, i, true)[j];
            ev.slot < |es| - 1 && CloseAt(es, i)[ev.slot] == es[evs[j].slot]
  {
  }

  /** Exactly when all pending events go on naming what they named: none of them belongs to the
      closed connection, and if the kernel refused the new slot none belongs to the moved one. */
  lemma WhenEventsStayTrue(es: seq<Entry>, evs: seq<Event>, i: nat, modOk: bool)
    requires RES_SLOTS <= i < |es| && DistinctIds(es)
    requires forall j :: 0 <= j < |evs| ==> evs[j].slot < |es|
    ensures (forall j :: 0 <= j < |evs| ==>
               Names(CloseAt(es, i), EventsAfterClose(es, evs, i, modOk)[j], IdOf(es[evs[j].slot])))
       <==> (forall j :: 0 <= j < |evs| ==>
               evs[j].slot != i && (modOk || evs[j].slot != |es| - 1))
  {
    var evs' := EventsAfterClose(es, evs, i, modOk);
    forall j | 0 <= j < |evs|
      ensures Names(CloseAt(es, i), evs'[j], IdOf(es[evs[j].slot]))
         <==> (evs[j].slot != i && (modOk || evs[j].slot != |es| - 1))
    {
      var s := evs[j].slot;
      if s != i && modOk { SurvivorKeepsEvent(es, evs, i, j); }
      if s == i && i != |es| - 1 { assert CloseAt(es, i)[i] == es[|es| - 1]; }
    }
  }

  /** Removal takes exactly one (fd, rnd_id) pair out of the table. */
  lemma CloseRemovesOneId(es: seq<Entry>, i: nat, id: Id)
    requires i < |es|
    ensures CountIf(CloseAt(es, i), IsId(id))
         == CountIf(es, IsId(id)) - if id == IdOf(es[i]) then 1 else 0
  {
    CloseCounts(es, 0, i, IsId(id));
    assert CloseAt(es, i)[0..] == CloseAt(es, i) && es[0..] == es;
  }

  // ---- a whole batch ----

  /** ids are the connections handled so far, closed the descriptors closed on an error of one of
      the server's own sockets. */
  datatype Batch = Batch(es: seq<Entry>, evs: seq<Event>, ids: seq<Id>, closed: seq<int>)

  /** Closing the connection in slot i while events are pending. */
  function CloseIn(b: Batch, i: nat): (r: Batch)
    requires i < |b.es|
    ensures |r.evs| == |b.evs|
  {
    b.(es := CloseAt(b.es, i), evs := EventsAfterClose(b.es, b.evs, i, true))
  }

  /** What the network contributes to one batch: what reading yields, and an accepted peer. */
  datatype Peers = Peers(input: map<Id, Read>, conn: Option<Id>, capacity: nat, now: nat)

  predicate Acting(ev: Event) { ev.err || ev.input }

  predicate OwnError(ev: Event) { ev.err && ev.slot < RES_SLOTS }

  /** The descriptor in slot k; the slots past the last connection hold -1. */
  function FdAt(es: seq<Entry>, k: nat): int {
    if k < |es| then es[k].pf.fd else -1
  }

  /** tcp_process for the connection in slot i. */
  function ReadIn(b: Batch, i: nat, w: Peers): (r: Batch)
    requires i < |b.es|
    ensures |r.evs| == |b.evs|
  {
    var e := b.es[i];
    if ReadOf(w.input, e).fails then CloseIn(b, i).(ids := b.ids + [IdOf(e)])
    else b.(es := b.es[i := Touched(e, w.input, w.now)], ids := b.ids + [IdOf(e)])
  }

  /** The loop body for event n. On an error of an own socket the code closes the descriptor in
      the slot numbered like the event, not the one in the socket's slot. */
  function Dispatch(b: Batch, n: nat, w: Peers): (r: Batch)
    requires n < |b.evs|
    ensures |r.evs| == |b.evs|
  {
    var ev := b.evs[n];
    if ev.slot < RES_SLOTS then
      if ev.err then b.(closed := b.closed + [FdAt(b.es, n)])
      else if ev.input && ev.slot == SAIM
      then b.(es := AcceptOne(b.es, w.conn, w.capacity, w.now)) else b
    else if ev.slot >= |b.es| then b
    else if ev.err then CloseIn(b, ev.slot).(ids := b.ids + [IdOf(b.es[ev.slot])])
    else if ev.input then ReadIn(b, ev.slot, w)
    else b
  }

  function DispatchFrom(b: Batch, n: nat, w: Peers): Batch
    decreases |b.evs| - n
  {
    if n >= |b.evs| then b else DispatchFrom(Dispatch(b, n, w), n + 1, w)
  }

  /** The batch when event n comes. */
  function Before(b: Batch, n: nat, w: Peers): (r: Batch)
    requires n <= |b.evs|
    ensures |r.evs| == |b.evs|
  {
    if n == 0 then b else Dispatch(Before(b, n - 1, w), n - 1, w)
  }

  lemma {:induction false} BeforeIsDispatched(b: Batch, n: nat, w: Peers)
    requires n <= |b.evs|
    ensures DispatchFrom(Before(b, n, w), n, w) == DispatchFrom(b, 0, w)
  {
    hide Dispatch;
    if n > 0 { BeforeIsDispatched(b, n - 1, w); }
  }

  /** The connections the events from n on name, in order, when something is to be done. */
  function Named(es: seq<Entry>, evs: seq<Event>, n: nat): seq<Id>
    decreases |evs| - n
  {
    if n >= |evs| then [] else
      (if RES_SLOTS <= evs[n].slot < |es| && Acting(evs[n]) then [IdOf(es[evs[n].slot])] else [])
      + Named(es, evs, n + 1)
  }

  /** Events with something to do from n on point into the table, at different slots: epoll
      reports a descriptor once per batch. */
  ghost predicate Pending(es: seq<Entry>, evs: seq<Event>, n: nat) {
    && (forall j :: n <= j < |evs| && Acting(evs[j]) ==> evs[j].slot < |es|)
    && (forall j, k :: n <= j < k < |evs| && Acting(evs[j]) && Acting(evs[k]) ==>
          evs[j].slot != evs[k].slot)
  }

  /** The slot is the same, or a connection's with the same entry. */
  ghost predicate SameTarget(es: seq<Entry>, s: nat, es': seq<Entry>, s': nat) {
    && s < |es| && s' < |es'| && es[s] == es'[s']
    && (s == s' || (s >= RES_SLOTS && s' >= RES_SLOTS))
  }

  /** From n on both lists of events ask for the same, and of the same entries. */
  ghost predicate SameAhead(es: seq<Entry>, evs: seq<Event>, es': seq<Entry>, evs': seq<Event>, n: nat) {
    && |evs| == |evs'|
    && forall j :: n <= j < |evs| ==>
         && evs[j].err == evs'[j].err && evs[j].input == evs'[j].input
         && (Acting(evs[j]) ==> SameTarget(es, evs[j].slot, es', evs'[j].slot))
  }

  lemma {:induction false} NamedSame(es: seq<Entry>, evs: seq<Event>, es': seq<Entry>,
                                     evs': seq<Event>, n: nat)
    requires SameAhead(es, evs, es', evs', n)
    ensures Named(es, evs, n) == Named(es', evs', n)
    decreases |evs| - n
  {
    hide IdOf;
    if n < |evs| { NamedSame(es, evs, es', evs', n + 1); }
  }

  /** Closing a connection that no event from n on wants handled. */
  lemma CloseKeepsPending(b: Batch, i: nat, n: nat)
    requires RES_SLOTS <= i < |b.es| && Pending(b.es, b.evs, n)
    requires forall j :: n <= j < |b.evs| && Acting(b.evs[j]) ==> b.evs[j].slot != i
    ensures var d := CloseIn(b, i);
            && Pending(d.es, d.evs, n) && SameAhead(b.es, b.evs, d.es, d.evs, n)
            && |d.es| >= RES_SLOTS && d.es[..RES_SLOTS] == b.es[..RES_SLOTS]
  {
    var d := CloseIn(b, i);
    forall j | n <= j < |b.evs| && Acting(b.evs[j])
      ensures SameTarget(b.es, b.evs[j].slot, d.es, d.evs[j].slot)
    {
      SurvivorKeepsEvent(b.es, b.evs, i, j);
    }
  }

  /** One event leaves the later ones pending, and asking for the same. */
  lemma DispatchKeepsPending(b: Batch, n: nat, w: Peers)
    requires n < |b.evs| && Pending(b.es, b.evs, n) && |b.es| >= RES_SLOTS
    ensures var d := Dispatch(b, n, w);
            && Pending(d.es, d.evs, n + 1) && SameAhead(b.es, b.evs, d.es, d.evs, n + 1)
            && |d.es| >= RES_SLOTS && d.es[..RES_SLOTS] == b.es[..RES_SLOTS]
  {
    var d := Dispatch(b, n, w);
    if |d.es| < |b.es| {
      CloseKeepsPending(b, b.evs[n].slot, n + 1);
    } else {
      assert d.evs == b.evs;
    }
  }

  lemma NamedStep(b: Batch, n: nat, w: Peers)
    requires n < |b.evs| && Pending(b.es, b.evs, n)
    ensures Dispatch(b, n, w).ids + Named(b.es, b.evs, n + 1) == b.ids + Named(b.es, b.evs, n)
  {
  }

  /** A batch handles each connection it names once, in order, and no other, however many of
      them are closed and moved on the way. */
  lemma {:induction false} BatchHandlesNamed(b: Batch, n: nat, w: Peers)
    requires n <= |b.evs| && Pending(b.es, b.evs, n) && |b.es| >= RES_SLOTS
    ensures DispatchFrom(b, n, w).ids == b.ids + Named(b.es, b.evs, n)
    decreases |b.evs| - n
  {
    if n < |b.evs| {
      hide Dispatch, Pending, SameAhead;
      var d := Dispatch(b, n, w);
      DispatchKeepsPending(b, n, w);
      NamedSame(b.es, b.evs, d.es, d.evs, n + 1);
      NamedStep(b, n, w);
      BatchHandlesNamed(d, n + 1, w);
    }
  }

  // ---- connections closed before the batch ----

  /** close_socket on request of a packet processor. */
  function CloseIdIn(b: Batch, id: Id): (r: Batch)
    requires |b.es| >= RES_SLOTS
    ensures r.es == CloseId(b.es, id) && |r.evs| == |b.evs| && r.ids == b.ids && r.closed == b.closed
  {
    var i := FindId(b.es, RES_SLOTS, id);
    if i < |b.es| then CloseIn(b, i) else b
  }

  function CloseIdsIn(b: Batch, ids: seq<Id>): (r: Batch)
    requires |b.es| >= RES_SLOTS
    ensures r.es == CloseIds(b.es, ids) && |r.evs| == |b.evs| && r.ids == b.ids && r.closed == b.closed
    decreases ids
  {
    if ids == [] then b else CloseIdsIn(CloseIdIn(b, ids[0]), ids[1..])
  }

  /** The events that want something done want it for connections that are not to be closed. */
  ghost predicate Spared(es: seq<Entry>, evs: seq<Event>, ids: seq<Id>) {
    forall j :: 0 <= j < |evs| && Acting(evs[j]) && RES_SLOTS <= evs[j].slot < |es| ==>
      IdOf(es[evs[j].slot]) !in ids
  }

  lemma SparedSame(es: seq<Entry>, evs: seq<Event>, es': seq<Entry>, evs': seq<Event>, ids: seq<Id>,
                   rest: seq<Id>)
    requires SameAhead(es, evs, es', evs', 0) && Spared(es, evs, ids)
    requires forall id :: id in rest ==> id in ids
    ensures Spared(es', evs', rest)
  {
  }

  lemma {:induction false} TermsKeepPending(b: Batch, ids: seq<Id>)
    requires |b.es| >= RES_SLOTS && Pending(b.es, b.evs, 0) && Spared(b.es, b.evs, ids)
    ensures var d := CloseIdsIn(b, ids);
            Pending(d.es, d.evs, 0) && Named(d.es, d.evs, 0) == Named(b.es, b.evs, 0)
    decreases ids
  {
    if ids != [] {
      var i := FindId(b.es, RES_SLOTS, ids[0]);
      var d := CloseIdIn(b, ids[0]);
      if i < |b.es| {
        CloseKeepsPending(b, i, 0);
        NamedSame(b.es, b.evs, d.es, d.evs, 0);
        SparedSame(b.es, b.evs, d.es, d.evs, ids, ids[1..]);
      }
      TermsKeepPending(d, ids[1..]);
    }
  }

  /** The table holds the connection, or it is the one waiting to be accepted. */
  ghost predicate Reachable(es: seq<Entry>, conn: Option<Id>, id: Id) {
    conn == Some(id) || exists k :: RES_SLOTS <= k < |es| && IdOf(es[k]) == id
  }

  lemma CloseReaches(es: seq<Entry>, i: nat, conn: Option<Id>, id: Id)
    requires RES_SLOTS <= i < |es| && Reachable(CloseAt(es, i), conn, id)
    ensures Reachable(es, conn, id)
  {
    if conn != Some(id) {
      var k :| RES_SLOTS <= k < |es| - 1 && IdOf(CloseAt(es, i)[k]) == id;
      assert CloseAt(es, i)[k] == es[if k == i then |es| - 1 else k];
    }
  }

  lemma DispatchReaches(b: Batch, n: nat, w: Peers, id: Id)
    requires n < |b.evs|
    ensures Reachable(Dispatch(b, n, w).es, w.conn, id) ==> Reachable(b.es, w.conn, id)
    ensures id in Dispatch(b, n, w).ids ==> id in b.ids || Reachable(b.es, w.conn, id)
  {
    var d := Dispatch(b, n, w);
    if Reachable(d.es, w.conn, id) && w.conn != Some(id) {
      if |d.es| < |b.es| {
        CloseReaches(b.es, b.evs[n].slot, w.conn, id);
      } else {
        var k :| RES_SLOTS <= k < |d.es| && IdOf(d.es[k]) == id;
        assert IdOf(b.es[k]) == id;
      }
    }
  }

  lemma {:induction false} HandledIsReachable(b: Batch, n: nat, w: Peers, id: Id)
    requires n <= |b.evs| && id in DispatchFrom(b, n, w).ids
    ensures id in b.ids || Reachable(b.es, w.conn, id)
    decreases |b.evs| - n
  {
    hide Dispatch, Reachable;
    if n < |b.evs| {
      HandledIsReachable(Dispatch(b, n, w), n + 1, w, id);
      DispatchReaches(b, n, w, id);
    }
  }

  lemma {:induction false} TermsReach(b: Batch, ids: seq<Id>, conn: Option<Id>, id: Id)
    requires |b.es| >= RES_SLOTS && Reachable(CloseIds(b.es, ids), conn, id)
    ensures Reachable(b.es, conn, id)
    decreases ids
  {
    hide Reachable;
    if ids != [] {
      TermsReach(CloseIdIn(b, ids[0]), ids[1..], conn, id);
      var i := FindId(b.es, RES_SLOTS, ids[0]);
      if i < |b.es| { CloseReaches(b.es, i, conn, id); }
    }
  }

  lemma {:induction false} NamedHas(es: seq<Entry>, evs: seq<Event>, n: nat, j: nat)
    requires n <= j < |evs| && Acting(evs[j]) && RES_SLOTS <= evs[j].slot < |es|
    ensures IdOf(es[evs[j].slot]) in Named(es, evs, n)
    decreases |evs| - n
  {
    if n < j { NamedHas(es, evs, n + 1, j); }
  }

  lemma CloseDistinct(es: seq<Entry>, i: nat)
    requires RES_SLOTS <= i < |es| && DistinctIds(es)
    ensures DistinctIds(CloseAt(es, i))
    ensures forall k :: RES_SLOTS <= k < |es| - 1 ==> IdOf(CloseAt(es, i)[k]) != IdOf(es[i])
  {
    var r := CloseAt(es, i);
    forall k | 0 <= k < |r| ensures r[k] == es[if k == i then |es| - 1 else k] {}
  }

  lemma {:induction false} TermIsGone(b: Batch, ids: seq<Id>, conn: Option<Id>, id: Id)
    requires |b.es| >= RES_SLOTS && DistinctIds(b.es) && id in ids && conn != Some(id)
    ensures !Reachable(CloseIds(b.es, ids), conn, id)
    decreases ids
  {
    var i := FindId(b.es, RES_SLOTS, ids[0]);
    var d := CloseIdIn(b, ids[0]);
    if i < |b.es| { CloseDistinct(b.es, i); }
    if ids[0] == id {
      assert !Reachable(d.es, conn, id);
      if Reachable(CloseIds(d.es, ids[1..]), conn, id) { TermsReach(d, ids[1..], conn, id); }
    } else {
      TermIsGone(d, ids[1..], conn, id);
    }
  }

  /** Requests of the packet processors are served between epoll_wait and the batch. The batch
      still handles exactly the connections the events were reported for if and only if no event
      that wants something done was reported for one of those just closed. */
  lemma TermsBeforeBatch(b: Batch, terms: seq<Id>, w: Peers)
    requires |b.es| >= RES_SLOTS && Pending(b.es, b.evs, 0) && DistinctIds(b.es) && b.ids == []
    requires w.conn.Some? ==> w.conn.value !in terms
    ensures DispatchFrom(CloseIdsIn(b, terms), 0, w).ids == Named(b.es, b.evs, 0)
       <==> Spared(b.es, b.evs, terms)
  {
    hide DispatchFrom, Pending, DistinctIds, CloseIdsIn, Reachable;
    var d := CloseIdsIn(b, terms);
    if Spared(b.es, b.evs, terms) {
      TermsKeepPending(b, terms);
      BatchHandlesNamed(d, 0, w);
    } else {
      var j :| 0 <= j < |b.evs| && Acting(b.evs[j]) && RES_SLOTS <= b.evs[j].slot < |b.es|
               && IdOf(b.es[b.evs[j].slot]) in terms;
      var id := IdOf(b.es[b.evs[j].slot]);
      NamedHas(b.es, b.evs, 0, j);
      TermIsGone(b, terms, w.conn, id);
      if id in DispatchFrom(d, 0, w).ids { HandledIsReachable(d, 0, w, id); }
    }
  }

  // ---- errors of the server's own sockets ----

  /** One of the server's own descriptors, or none at all. */
  ghost predicate IsOwn(es: seq<Entry>, fd: int)
    requires |es| >= RES_SLOTS
  {
    fd == -1 || exists k :: 0 <= k < RES_SLOTS && es[k].pf.fd == fd
  }

  /** The connections, and the one waiting to be accepted, have descriptors of their own. */
  ghost predicate Apart(es: seq<Entry>, conn: Option<Id>)
    requires |es| >= RES_SLOTS
  {
    && (forall k :: RES_SLOTS <= k < |es| ==> !IsOwn(es, es[k].pf.fd))
    && (conn.Some? ==> !IsOwn(es, conn.value.fd))
  }

  /** The event costs its connection the slot. */
  predicate Drops(es: seq<Entry>, ev: Event, w: Peers) {
    RES_SLOTS <= ev.slot < |es| && (ev.err || (ev.input && ReadOf(w.input, es[ev.slot]).fails))
  }

  /** How long the table is when event n comes, told from the table before the batch. */
  function LengthAt(es: seq<Entry>, evs: seq<Event>, n: nat, w: Peers): int
    requires n <= |evs|
  {
    if n == 0 then |es| else
      var len := LengthAt(es, evs, n - 1, w);
      var ev := evs[n - 1];
      if Drops(es, ev, w) then len - 1
      else if ev.slot == SAIM && ev.input && !ev.err && w.conn.Some? && len < w.capacity then len + 1
      else len
  }

  lemma SameAheadTrans(a: Batch, b: Batch, c: Batch, m: nat, n: nat)
    requires m <= n && SameAhead(a.es, a.evs, b.es, b.evs, m) && SameAhead(b.es, b.evs, c.es, c.evs, n)
    ensures SameAhead(a.es, a.evs, c.es, c.evs, n)
  {
  }

  lemma DispatchLength(b: Batch, n: nat, w: Peers)
    requires n < |b.evs| && |b.es| >= RES_SLOTS
    ensures var ev := b.evs[n];
            |Dispatch(b, n, w).es| == |b.es| +
              if Drops(b.es, ev, w) then -1
              else if ev.slot == SAIM && ev.input && !ev.err && w.conn.Some? && |b.es| < w.capacity then 1
              else 0
  {
  }

  lemma DispatchApart(b: Batch, n: nat, w: Peers)
    requires n < |b.evs| && |b.es| >= RES_SLOTS && Apart(b.es, w.conn)
    requires var d := Dispatch(b, n, w); |d.es| >= RES_SLOTS && d.es[..RES_SLOTS] == b.es[..RES_SLOTS]
    ensures Apart(Dispatch(b, n, w).es, w.conn)
  {
    var d := Dispatch(b, n, w);
    OwnSame(b.es, d.es);
    forall k | RES_SLOTS <= k < |d.es|
      ensures !IsOwn(b.es, d.es[k].pf.fd)
    {
      var i := b.evs[n].slot;
      if |d.es| < |b.es| && k == i { assert d.es[k] == b.es[|b.es| - 1]; }
    }
  }

  lemma OwnSame(es: seq<Entry>, es': seq<Entry>)
    requires |es| >= RES_SLOTS && |es'| >= RES_SLOTS && es[..RES_SLOTS] == es'[..RES_SLOTS]
    ensures forall fd :: IsOwn(es, fd) <==> IsOwn(es', fd)
    ensures forall k :: 0 <= k < RES_SLOTS ==> es[k] == es'[k]
  {
    assert forall k :: 0 <= k < RES_SLOTS ==> es[k] == es[..RES_SLOTS][k] == es'[..RES_SLOTS][k] == es'[k];
  }

  /** What is known of the batch a when event n comes, if b was the batch before the first. */
  ghost predicate Follows(b: Batch, a: Batch, n: nat, w: Peers)
    requires n <= |b.evs| && |b.es| >= RES_SLOTS
  {
    && |a.evs| == |b.evs| && |a.es| >= RES_SLOTS && a.es[..RES_SLOTS] == b.es[..RES_SLOTS]
    && Pending(a.es, a.evs, n) && SameAhead(b.es, b.evs, a.es, a.evs, n)
    && |a.es| == LengthAt(b.es, b.evs, n, w)
  }

  lemma FollowsItself(b: Batch, w: Peers)
    requires |b.es| >= RES_SLOTS && Pending(b.es, b.evs, 0)
    ensures Follows(b, b, 0, w)
  {
  }

  lemma FollowsStep(b: Batch, a: Batch, n: nat, w: Peers)
    requires n < |b.evs| && |b.es| >= RES_SLOTS && Follows(b, a, n, w)
    ensures Follows(b, Dispatch(a, n, w), n + 1, w)
  {
    hide Dispatch, Pending, SameAhead, Drops;
    DispatchKeepsPending(a, n, w);
    DispatchLength(a, n, w);
    SameEvent(b, a, n, w);
    SameAheadTrans(b, a, Dispatch(a, n, w), n, n + 1);
  }

  lemma {:induction false} BeforeFollows(b: Batch, n: nat, w: Peers)
    requires n <= |b.evs| && |b.es| >= RES_SLOTS && Pending(b.es, b.evs, 0)
    ensures Follows(b, Before(b, n, w), n, w)
  {
    hide Dispatch, Follows;
    if n == 0 {
      FollowsItself(b, w);
    } else {
      BeforeFollows(b, n - 1, w);
      FollowsStep(b, Before(b, n - 1, w), n - 1, w);
    }
  }

  /** And the connections have descriptors of their own. */
  ghost predicate During(b: Batch, a: Batch, n: nat, w: Peers)
    requires n <= |b.evs| && |b.es| >= RES_SLOTS
  {
    Follows(b, a, n, w) && Apart(a.es, w.conn)
  }

  lemma DuringStart(b: Batch, w: Peers)
    requires |b.es| >= RES_SLOTS && Pending(b.es, b.evs, 0) && Apart(b.es, w.conn)
    ensures During(b, b, 0, w)
  {
    FollowsItself(b, w);
  }

  lemma DuringStep(b: Batch, a: Batch, n: nat, w: Peers)
    requires n < |b.evs| && |b.es| >= RES_SLOTS && During(b, a, n, w)
    ensures During(b, Dispatch(a, n, w), n + 1, w)
  {
    hide Dispatch, Pending, Apart, SameAhead, LengthAt;
    FollowsStep(b, a, n, w);
    DispatchApart(a, n, w);
  }

  lemma {:induction false} BeforeKeeps(b: Batch, n: nat, w: Peers)
    requires n <= |b.evs| && |b.es| >= RES_SLOTS && During(b, b, 0, w)
    ensures During(b, Before(b, n, w), n, w)
  {
    hide Dispatch, During;
    if n > 0 {
      BeforeKeeps(b, n - 1, w);
      DuringStep(b, Before(b, n - 1, w), n - 1, w);
    }
  }

  lemma SameEvent(b: Batch, a: Batch, n: nat, w: Peers)
    requires n < |b.evs| && SameAhead(b.es, b.evs, a.es, a.evs, n)
    ensures b.evs[n].err == a.evs[n].err && b.evs[n].input == a.evs[n].input
    ensures Drops(b.es, b.evs[n], w) == Drops(a.es, a.evs[n], w)
    ensures Acting(b.evs[n]) && (b.evs[n].slot < RES_SLOTS || a.evs[n].slot < RES_SLOTS) ==>
              b.evs[n].slot == a.evs[n].slot
  {
  }

  /** The slot numbered like event n holds no connection when the event comes. */
  predicate Harmless(es: seq<Entry>, evs: seq<Event>, n: nat, w: Peers)
    requires n <= |evs|
  {
    n < RES_SLOTS || LengthAt(es, evs, n, w) <= n
  }

  lemma OwnAt(es: seq<Entry>, conn: Option<Id>, k: nat)
    requires |es| >= RES_SLOTS && Apart(es, conn)
    ensures IsOwn(es, FdAt(es, k)) <==> k < RES_SLOTS || |es| <= k
  {
  }

  lemma ClosedStep(b: Batch, a: Batch, n: nat, w: Peers)
    requires n < |b.evs| && |b.es| >= RES_SLOTS && During(b, a, n, w)
    ensures Dispatch(a, n, w).closed == a.closed + if OwnError(b.evs[n]) then [FdAt(a.es, n)] else []
    ensures IsOwn(b.es, FdAt(a.es, n)) <==> Harmless(b.es, b.evs, n, w)
  {
    hide Pending, Apart, LengthAt, IsOwn, Drops;
    SameEvent(b, a, n, w);
    OwnSame(a.es, b.es);
    OwnAt(a.es, w.conn, n);
  }

  lemma {:induction false} ClosedSoFar(b: Batch, n: nat, w: Peers)
    requires n <= |b.evs| && |b.es| >= RES_SLOTS && During(b, b, 0, w) && b.closed == []
    ensures (forall fd :: fd in Before(b, n, w).closed ==> IsOwn(b.es, fd))
       <==> (forall k :: 0 <= k < n && OwnError(b.evs[k]) ==> Harmless(b.es, b.evs, k, w))
  {
    hide Dispatch, During, Harmless, IsOwn, FdAt, OwnError;
    if n > 0 {
      var a := Before(b, n - 1, w);
      ClosedSoFar(b, n - 1, w);
      BeforeKeeps(b, n - 1, w);
      ClosedStep(b, a, n - 1, w);
      AppendOwn(b.es, a.closed, FdAt(a.es, n - 1));
    }
  }

  lemma AppendOwn(es: seq<Entry>, fds: seq<int>, x: int)
    requires |es| >= RES_SLOTS
    ensures (forall fd :: fd in fds + [x] ==> IsOwn(es, fd))
       <==> (forall fd :: fd in fds ==> IsOwn(es, fd)) && IsOwn(es, x)
  {
    hide IsOwn;
    assert x in fds + [x];
    assert forall fd :: fd in fds ==> fd in fds + [x];
  }

  /** Over a whole batch: no connection loses its descriptor to an error of one of the server's
      own sockets if and only if every such error comes at a position below the connections or
      past the last one there is by then. */
  lemma OwnErrorsSpareConnections(b: Batch, w: Peers)
    requires |b.es| >= RES_SLOTS && Pending(b.es, b.evs, 0) && Apart(b.es, w.conn) && b.closed == []
    ensures (forall fd :: fd in DispatchFrom(b, 0, w).closed ==> IsOwn(b.es, fd))
       <==> (forall n :: 0 <= n < |b.evs| && OwnError(b.evs[n]) ==> Harmless(b.es, b.evs, n, w))
  {
    hide Dispatch, Pending, Apart, Harmless, IsOwn, OwnError;
    DuringStart(b, w);
    ClosedSoFar(b, |b.evs|, w);
    BeforeIsDispatched(b, |b.evs|, w);
  }

  lemma {:induction false} QuietLength(es: seq<Entry>, evs: seq<Event>, n: nat, w: Peers)
    requires n <= |evs| && forall k :: 0 <= k < n ==> !Acting(evs[k])
    ensures LengthAt(es, evs, n, w) == |es|
  {
    if n > 0 { QuietLength(es, evs, n - 1, w); }
  }

  /** One connection, in slot 11, and an error of the udp socket as event 11: the connection's
      descriptor is closed. */
  lemma OwnErrorCanHitConnection(w: Peers) returns (b: Batch)
    requires w.conn.None?
    ensures |b.es| >= RES_SLOTS && Pending(b.es, b.evs, 0) && Apart(b.es, w.conn) && b.closed == []
    ensures exists fd :: fd in DispatchFrom(b, 0, w).closed && !IsOwn(b.es, fd)
  {
    hide DispatchFrom;
    var es := seq(RES_SLOTS + 1, (k: nat) => Entry(PollFd(k, NO_EVENTS), SockInfo(k, 0, SAIM, 0)));
    var evs := seq(RES_SLOTS + 1, k => Event(SUDP, k == RES_SLOTS, false));
    b := Batch(es, evs, [], []);
    assert !IsOwn(es, es[RES_SLOTS].pf.fd);
    OwnErrorsSpareConnections(b, w);
    QuietLength(es, evs, RES_SLOTS, w);
    assert OwnError(evs[RES_SLOTS]) && !Harmless(es, evs, RES_SLOTS, w);
  }

  /** The descriptors of the own sockets that failed, in order. */
  function Failing(es: seq<Entry>, evs: seq<Event>, n: nat): seq<int>
    requires n <= |evs|
  {
    if n == 0 then [] else
      Failing(es, evs, n - 1) + if OwnError(evs[n - 1]) then [FdAt(es, evs[n - 1].slot)] else []
  }

  /** An own slot whose descriptor is open and in no other own slot. */
  ghost predicate OpenAlone(es: seq<Entry>, s: nat)
    requires |es| >= RES_SLOTS && s < RES_SLOTS
  {
    es[s].pf.fd != -1 && forall k :: 0 <= k < RES_SLOTS && k != s ==> es[k].pf.fd != es[s].pf.fd
  }

  ghost predicate FailingAlone(es: seq<Entry>, evs: seq<Event>)
    requires |es| >= RES_SLOTS
  {
    forall n :: 0 <= n < |evs| && OwnError(evs[n]) ==> OpenAlone(es, evs[n].slot)
  }

  lemma FailingAt(b: Batch, a: Batch, n: nat, w: Peers)
    requires n < |b.evs| && |b.es| >= RES_SLOTS && During(b, a, n, w)
    requires OwnError(b.evs[n]) && OpenAlone(b.es, b.evs[n].slot)
    ensures FdAt(a.es, n) == FdAt(b.es, b.evs[n].slot) <==> b.evs[n].slot == n
  {
    hide Pending, Apart, LengthAt, SameAhead;
    OwnSame(a.es, b.es);
    var s := b.evs[n].slot;
    assert IsOwn(a.es, b.es[s].pf.fd);
    OwnAt(a.es, w.conn, n);
  }

  lemma {:induction false} FailingSoFar(b: Batch, n: nat, w: Peers)
    requires n <= |b.evs| && |b.es| >= RES_SLOTS && During(b, b, 0, w) && b.closed == []
    requires FailingAlone(b.es, b.evs)
    ensures |Before(b, n, w).closed| == |Failing(b.es, b.evs, n)|
    ensures Before(b, n, w).closed == Failing(b.es, b.evs, n)
       <==> (forall k :: 0 <= k < n && OwnError(b.evs[k]) ==> b.evs[k].slot == k)
  {
    hide Dispatch, During, FdAt, OwnError, OpenAlone;
    if n > 0 {
      var a := Before(b, n - 1, w);
      FailingSoFar(b, n - 1, w);
      BeforeKeeps(b, n - 1, w);
      ClosedStep(b, a, n - 1, w);
      if OwnError(b.evs[n - 1]) {
        FailingAt(b, a, n - 1, w);
        AppendEqual(a.closed, FdAt(a.es, n - 1), Failing(b.es, b.evs, n - 1),
                    FdAt(b.es, b.evs[n - 1].slot));
      } else {
        assert Before(b, n, w).closed == a.closed;
        assert Failing(b.es, b.evs, n) == Failing(b.es, b.evs, n - 1);
      }
    }
  }

  lemma AppendEqual(a: seq<int>, x: int, b: seq<int>, y: int)
    requires |a| == |b|
    ensures a + [x] == b + [y] <==> a == b && x == y
  {
    if a + [x] == b + [y] {
      assert (a + [x])[|a|] == x && (b + [y])[|b|] == y;
      assert a == (a + [x])[..|a|] == (b + [y])[..|b|] == b;
    }
  }

  /** And the sockets that failed are the ones closed if and only if each error comes at the
      position numbered like its socket. */
  lemma FailingAreClosed(b: Batch, w: Peers)
    requires |b.es| >= RES_SLOTS && Pending(b.es, b.evs, 0) && Apart(b.es, w.conn) && b.closed == []
    requires FailingAlone(b.es, b.evs)
    ensures DispatchFrom(b, 0, w).closed == Failing(b.es, b.evs, |b.evs|)
       <==> (forall n :: 0 <= n < |b.evs| && OwnError(b.evs[n]) ==> b.evs[n].slot == n)
  {
    hide Dispatch, Pending, Apart, FailingAlone;
    DuringStart(b, w);
    FailingSoFar(b, |b.evs|, w);
    BeforeIsDispatched(b, |b.evs|, w);
  }
}
