/** The socket processor of isdcore/sockets-ep.cpp: connection arrays and pending events, edited
    in place, against the batch operations on values. */
module EpollServer {
  import opened SocketTable
  import opened PollScan
  import opened EpollBatch

  class Server {
    const fds: array<PollFd>
    const inf: array<SockInfo>
    const kev: array<Event>    // sock_kev
    const capacity: nat
    var count: nat             // tcp_sock_count
    var nsockets: nat          // events in the current batch
    ghost var es: seq<Entry>

    /** The first count slots of both arrays are the entries es. */
    ghost predicate InStep()
      reads this, fds, inf
    {
      && fds.Length == inf.Length == capacity + 5
      && count <= capacity
      && capacity < 0x1_0000    // slots fit the unsigned short that carries them
      && nsockets <= kev.Length
      && |es| == count
      && forall k :: 0 <= k < count ==> fds[k] == es[k].pf && inf[k] == es[k].si
    }

    /** And the server's own sockets are in place. */
    ghost predicate Valid()
      reads this, fds, inf
    {
      InStep() && RES_SLOTS <= count
    }

    /** The slots past the last connection hold no descriptor. */
    ghost predicate Clear()
      requires fds.Length == capacity + 5
      reads this`count, fds
    {
      forall k :: count <= k < capacity ==> fds[k].fd == -1
    }

    ghost function Events(): seq<Event>
      requires nsockets <= kev.Length
      reads this`nsockets, kev
    {
      kev[..nsockets]
    }

    /** No more events than descriptors, each with a slot of the table that was once given to the
        kernel. */
    ghost predicate Reported()
      requires nsockets <= kev.Length
      reads this`nsockets, kev
    {
      nsockets <= capacity && forall j :: 0 <= j < nsockets ==> kev[j].slot < capacity
    }

    constructor (fds: array<PollFd>, inf: array<SockInfo>, kev: array<Event>, capacity: nat)
      requires fds.Length == inf.Length == capacity + 5
      requires RES_SLOTS <= capacity < 0x1_0000
      requires forall k :: RES_SLOTS <= k < capacity ==> fds[k].fd == -1
      ensures this.fds == fds && this.inf == inf && this.kev == kev && this.capacity == capacity
      ensures Valid() && Clear() && Reported() && count == RES_SLOTS && nsockets == 0
    {
      this.fds, this.inf, this.kev, this.capacity := fds, inf, kev, capacity;
      count, nsockets := RES_SLOTS, 0;
      es := seq(RES_SLOTS, k requires 0 <= k < RES_SLOTS && k < fds.Length && k < inf.Length
                             reads fds, inf => Entry(fds[k], inf[k]));
    }

    /** The loop that corrects the events of the moved connection. */
    method Correct(from: nat, to: nat)
      requires nsockets <= kev.Length
      modifies kev
      ensures Events() == RedirectAll(old(Events()), from, to)
    {
      var i := 0;
      while i < nsockets
        invariant i <= nsockets
        invariant forall j :: 0 <= j < i ==> kev[j] == Redirect(old(kev[j]), from, to)
        invariant forall j :: i <= j < kev.Length ==> kev[j] == old(kev[j])
      {
        if kev[i].slot == from { kev[i] := kev[i].(slot := to); }
        i := i + 1;
      }
    }

    /** close_socket_index_r; modOk is the kernel's answer to the new slot number. */
    method CloseIndexR(index: nat, rnd: nat, modOk: bool)
      requires InStep()
      modifies this`count, this`es, fds, inf, kev
      ensures InStep()
      ensures var was := old(es);
              if index < |was| && rnd == was[index].si.rnd
              then es == CloseAt(was, index)
                && Events() == EventsAfterClose(was, old(Events()), index, modOk)
              else es == was && Events() == old(Events())
      ensures old(Reported()) ==> Reported()
      ensures modOk && old(Clear()) ==> Clear()
    {
      if index + 1 > count { return; }
      if rnd != inf[index].rnd { return; }
      count := count - 1;
      es := CloseAt(es, index);
      if index != count {
        fds[index] := fds[count];
        inf[index] := inf[count];
        if !modOk { return; }
        Correct(count, index);
        assert forall j :: 0 <= j < nsockets ==> kev[j] == Events()[j];
      }
      fds[count] := PollFd(-1, fds[count].revents);
    }

    /** aim_accept_connect */
    method AcceptConnect(conn: Option<Id>, now: nat)
      requires Valid()
      modifies this`count, this`es, fds, inf
      ensures Valid() && es == AcceptOne(old(es), conn, capacity, now)
      ensures old(Clear()) ==> Clear()
    {
      if count + 1 > capacity { return; }
      if conn.None? {
        fds[count] := PollFd(-1, fds[count].revents);
        return;
      }
      fds[count] := PollFd(conn.value.fd, NO_EVENTS);
      inf[count] := SockInfo(conn.value.rnd, now, SAIM, 2);
      es := es + [Entry(fds[count], inf[count])];
      count := count + 1;
    }

    /** close_socket */
    method CloseSocket(id: Id)
      requires Valid() && Clear() && Reported()
      modifies this`count, this`es, fds, inf, kev
      ensures Valid() && Clear() && Reported()
      ensures Batch(es, Events(), [], []) == CloseIdIn(Batch(old(es), old(Events()), [], []), id)
    {
      var i := RES_SLOTS;
      while i < count
        invariant RES_SLOTS <= i <= count && Valid() && Clear() && Reported()
        invariant es == old(es) && Events() == old(Events())
        invariant FindId(es, RES_SLOTS, id) == FindId(es, i, id)
      {
        if id.fd == fds[i].fd && id.rnd == inf[i].rnd {
          CloseIndexR(i, id.rnd, true);
          return;
        }
        i := i + 1;
      }
    }

    /** The loop over tog_process that ends when the pipe is empty. */
    method ServeTerms(terms: seq<Id>)
      requires Valid() && Clear() && Reported()
      modifies this`count, this`es, fds, inf, kev
      ensures Valid() && Clear() && Reported()
      ensures Batch(es, Events(), [], []) == CloseIdsIn(Batch(old(es), old(Events()), [], []), terms)
    {
      hide CloseIdIn;
      ghost var all := CloseIdsIn(Batch(es, Events(), [], []), terms);
      var i := 0;
      while i < |terms|
        invariant i <= |terms| && Valid() && Clear() && Reported()
        invariant CloseIdsIn(Batch(es, Events(), [], []), terms[i..]) == all
      {
        CloseSocket(terms[i]);
        assert terms[i..][0] == terms[i] && terms[i..][1..] == terms[i + 1..];
        i := i + 1;
      }
    }

    /** tcp_process; a slot past the last connection is read and closed to no effect. */
    method TcpProcess(slot: nat, w: Peers) returns (ids: seq<Id>)
      requires Valid() && Clear() && Reported() && RES_SLOTS <= slot < capacity
      modifies this`count, this`es, fds, inf, kev
      ensures Valid() && Clear() && Reported()
      ensures var was := Batch(old(es), old(Events()), [], []);
              Batch(es, Events(), ids, []) == if slot < |was.es| then ReadIn(was, slot, w) else was
    {
      hide RedirectAll;
      ids := [];
      ghost var was := es;
      var r := ReadOf(w.input, Entry(fds[slot], inf[slot]));
      inf[slot] := inf[slot].(lutime := w.now, started := r.started);
      if slot < count {
        ids := [Id(fds[slot].fd, inf[slot].rnd)];
        es := es[slot := Touched(es[slot], w.input, w.now)];
        assert CloseAt(es, slot) == CloseAt(was, slot);
      }
      if r.fails { CloseIndexR(slot, inf[slot].rnd, true); }
    }

    /** The body of the event loop of process_socket for event n, with the connection handled and
        the descriptor closed for an own socket's error. */
    method Handle(n: nat, w: Peers) returns (ids: seq<Id>, closed: seq<int>)
      requires Valid() && Clear() && Reported() && n < nsockets && w.capacity == capacity
      modifies this`count, this`es, fds, inf, kev
      ensures Valid() && Clear() && Reported()
      ensures Batch(es, Events(), ids, closed)
           == Dispatch(Batch(old(es), old(Events()), [], []), n, w)
    {
      hide ReadIn, AcceptOne, CloseAt, EventsAfterClose;
      ids, closed := [], [];
      var slot := kev[n].slot % 0x1_0000;
      assert Events()[n] == kev[n];
      if kev[n].err {
        if slot >= RES_SLOTS {
          if slot < count { ids := [Id(fds[slot].fd, inf[slot].rnd)]; }
          CloseIndexR(slot, inf[slot].rnd, true);
        } else {
          closed := [fds[n].fd];
        }
        return;
      }
      if kev[n].input {
        if slot == SAIM { AcceptConnect(w.conn, w.now); }
        if slot >= RES_SLOTS { ids := TcpProcess(slot, w); }
      }
    }

    /** The event loop of process_socket over one batch. */
    method HandleBatch(w: Peers) returns (ids: seq<Id>, closed: seq<int>)
      requires Valid() && Clear() && Reported() && w.capacity == capacity
      modifies this`count, this`es, fds, inf, kev
      ensures Valid() && Clear() && Reported()
      ensures Batch(es, Events(), ids, closed)
           == DispatchFrom(Batch(old(es), old(Events()), [], []), 0, w)
      ensures Pending(old(es), old(Events()), 0) ==> ids == Named(old(es), old(Events()), 0)
    {
      hide Dispatch, Pending;
      ghost var all := DispatchFrom(Batch(es, Events(), [], []), 0, w);
      if Pending(es, Events(), 0) { BatchHandlesNamed(Batch(es, Events(), [], []), 0, w); }
      ids, closed := [], [];
      var i := 0;
      while i < nsockets
        invariant i <= nsockets && Valid() && Clear() && Reported()
        invariant DispatchFrom(Batch(es, Events(), ids, closed), i, w) == all
      {
        ghost var here := Batch(es, Events(), ids, closed);
        DispatchAppends(here, i, w);
        var v, c := Handle(i, w);
        ids, closed := ids + v, closed + c;
        assert Batch(es, Events(), ids, closed) == Dispatch(here, i, w);
        i := i + 1;
      }
    }

    /** epoll_wait */
    method Wait(evs: seq<Event>)
      requires InStep() && |evs| <= kev.Length && |evs| <= capacity
      requires forall j :: 0 <= j < |evs| ==> evs[j].slot < capacity
      modifies this`nsockets, kev
      ensures InStep() && Reported() && Events() == evs
    {
      var i := 0;
      while i < |evs|
        invariant i <= |evs|
        invariant forall j :: 0 <= j < i ==> kev[j] == evs[j]
        modifies kev
      {
        kev[i] := evs[i];
        i := i + 1;
      }
      nsockets := |evs|;
    }

    /** One turn of process_socket, up to the check for timeouts: epoll_wait reports evs, then the
        requests of the packet processors are served, the batch, and their requests again. */
    method ServeTurn(evs: seq<Event>, terms: seq<Id>, w: Peers, later: seq<Id>)
      returns (ids: seq<Id>, closed: seq<int>)
      requires Valid() && Clear() && w.capacity == capacity
      requires |evs| <= kev.Length && |evs| <= capacity
      requires forall j :: 0 <= j < |evs| ==> evs[j].slot < capacity
      modifies this`count, this`es, this`nsockets, fds, inf, kev
      ensures Valid() && Clear() && Reported()
      ensures var b := DispatchFrom(CloseIdsIn(Batch(old(es), evs, [], []), terms), 0, w);
              ids == b.ids && closed == b.closed
              && |b.es| >= RES_SLOTS && es == CloseIds(b.es, later)
    {
      hide DispatchFrom, CloseIdsIn, CloseIds;
      Wait(evs);
      ServeTerms(terms);
      ids, closed := HandleBatch(w);
      ServeTerms(later);
    }
  }

  lemma DispatchAppends(b: Batch, n: nat, w: Peers)
    requires n < |b.evs|
    ensures var d := Dispatch(b.(ids := [], closed := []), n, w);
            Dispatch(b, n, w) == d.(ids := b.ids + d.ids, closed := b.closed + d.closed)
  {
  }
}
