/** The socket processor of isdcore/sockets-p.cpp and isdcore/sprocess.cpp: the connection
    arrays, edited in place, against the table operations on values. */
module PollServer {
  import opened SocketTable
  import opened PollScan
  import Timeouts

  class Server {
    const fds: array<PollFd>
    const inf: array<SockInfo>
    const capacity: nat   // most slots ever in use
    var count: nat        // tcp_sock_count
    var csockets: int
    var nsockets: int
    ghost var es: seq<Entry>

    /** The first count slots of both arrays are the entries es. */
    ghost predicate InStep()
      reads this, fds, inf
    {
      && fds.Length == inf.Length == capacity + 5
      && count <= capacity
      && |es| == count
      && forall k :: 0 <= k < count ==> fds[k] == es[k].pf && inf[k] == es[k].si
    }

    /** And the server's own sockets are in place. */
    ghost predicate Valid()
      reads this, fds, inf
    {
      InStep() && RES_SLOTS <= count
    }

    /** poll_table_init: only the server's own sockets, given by their descriptors. */
    constructor (maxConnections: nat, own: seq<int>)
      requires |own| == RES_SLOTS
      ensures Valid() && fresh(fds) && fresh(inf)
      ensures |es| == RES_SLOTS && forall k :: 0 <= k < RES_SLOTS ==>
                es[k] == Entry(PollFd(own[k], NO_EVENTS), SockInfo(0, 0, k, 0))
      ensures capacity == maxConnections + RES_SLOTS
    {
      capacity := maxConnections + RES_SLOTS;
      var n := maxConnections + RES_SLOTS + 5;
      fds := new PollFd[n](_ => PollFd(-1, NO_EVENTS));
      inf := new SockInfo[n](_ => SockInfo(0, 0, 0, 0));
      count := RES_SLOTS;
      csockets, nsockets := 0, 0;
      es := [];
      new;
      var k := 0;
      while k < RES_SLOTS
        invariant k == |es| <= RES_SLOTS == count
        invariant forall j :: 0 <= j < k ==> fds[j] == es[j].pf && inf[j] == es[j].si
        invariant forall j :: 0 <= j < k ==>
                    es[j] == Entry(PollFd(own[j], NO_EVENTS), SockInfo(0, 0, j, 0))
        modifies `es, fds, inf
      {
        fds[k] := PollFd(own[k], NO_EVENTS);
        inf[k] := SockInfo(0, 0, k, 0);
        es := es + [Entry(fds[k], inf[k])];
        k := k + 1;
      }
    }

    /** close_socket_index_r: nothing happens for an index past the end or an id of another
        connection. */
    method CloseIndexR(index: nat, rnd: nat)
      requires InStep()
      modifies this`count, this`es, fds, inf
      ensures InStep()
      ensures es == if index < |old(es)| && rnd == old(es)[index].si.rnd
                    then CloseAt(old(es), index) else old(es)
    {
      if index + 1 > count { return; }
      if rnd != inf[index].rnd { return; }
      count := count - 1;
      if index != count {
        fds[index] := fds[count];
        inf[index] := inf[count];
      }
      fds[count] := PollFd(-1, fds[count].revents);
      es := CloseAt(es, index);
    }

    /** close_socket */
    method CloseSocket(id: Id)
      requires Valid()
      modifies this`count, this`es, fds, inf
      ensures Valid() && es == CloseId(old(es), id)
    {
      var i := RES_SLOTS;
      while i < count
        invariant RES_SLOTS <= i <= count && Valid() && es == old(es)
        invariant FindId(es, RES_SLOTS, id) == FindId(es, i, id)
      {
        if id.fd == fds[i].fd && id.rnd == inf[i].rnd {
          CloseIndexR(i, id.rnd);
          return;
        }
        i := i + 1;
      }
    }

    /** The loop over tog_process that ends when the pipe is empty. */
    method ServeTerms(terms: seq<Id>)
      requires Valid()
      modifies this`count, this`es, fds, inf
      ensures Valid() && es == CloseIds(old(es), terms)
    {
      var i := 0;
      while i < |terms|
        invariant i <= |terms| && Valid()
        invariant CloseIds(es, terms[i..]) == CloseIds(old(es), terms)
      {
        CloseSocket(terms[i]);
        assert terms[i..][0] == terms[i] && terms[i..][1..] == terms[i + 1..];
        i := i + 1;
      }
    }

    /** aim_accept_connect: conn is what accept returned, None for a failure. */
    method AcceptConnect(conn: Option<Id>, now: nat)
      requires Valid()
      modifies this`count, this`es, fds, inf
      ensures Valid() && es == AcceptOne(old(es), conn, capacity, now)
    {
      if count + 1 > capacity { return; }
      if conn.None? {
        fds[count] := PollFd(-1, fds[count].revents);
        return;
      }
      fds[count] := PollFd(conn.value.fd, NO_EVENTS);
      inf[count] := SockInfo(conn.value.rnd, now, SAIM, 2);
      es := es + [Entry(fds[count], inf[count])];
      count := count + 1;
    }

    /** tcp_process */
    method TcpProcess(i: nat, m: map<Id, Read>, now: nat)
      requires Valid() && RES_SLOTS <= i < count && fds[i].revents.pollin
      modifies this`count, this`es, fds, inf
      ensures Valid() && es == Visit(old(es), i, m, now).es
    {
      var r := ReadOf(m, Entry(fds[i], inf[i]));
      ghost var was := es;
      inf[i] := inf[i].(lutime := now, started := r.started);
      es := es[i := Touched(es[i], m, now)];
      if r.fails { CloseIndexR(i, inf[i].rnd); }
      assert r.fails ==> CloseAt(was[i := Touched(was[i], m, now)], i) == CloseAt(was, i);
    }

    /** The body of the loop of check_accepted_connections. */
    method VisitSlot(i: nat, m: map<Id, Read>, now: nat) returns (ids: seq<Id>)
      requires Valid() && RES_SLOTS <= i < count
      modifies this`count, this`es, this`csockets, fds, inf
      ensures Valid() && Outcome(es, ids) == Visit(old(es), i, m, now)
      ensures csockets == old(csockets) + |ids|
    {
      ids := [];
      if fds[i].revents == NO_EVENTS { return; }
      if fds[i].revents.pollin {
        csockets := csockets + 1;
        ids := [Id(fds[i].fd, inf[i].rnd)];
        TcpProcess(i, m, now);
      } else if fds[i].revents.pollerr || fds[i].revents.pollhup {
        csockets := csockets + 1;
        ids := [Id(fds[i].fd, inf[i].rnd)];
        CloseIndexR(i, inf[i].rnd);
      }
    }

    /** check_accepted_connections, with the ids it handles, in order. */
    method CheckAccepted(m: map<Id, Read>, now: nat) returns (ids: seq<Id>)
      requires Valid()
      modifies this`count, this`es, this`csockets, fds, inf
      ensures Valid()
      ensures Outcome(es, ids) == Scan(old(es), |old(es)|, old(csockets), nsockets, m, now)
    {
      hide Visit;
      ghost var all := Scan(es, |es|, csockets, nsockets, m, now);
      ids := [];
      var i := count - 1;
      while i >= RES_SLOTS
        invariant RES_SLOTS - 1 <= i < count && Valid()
        invariant var rest := Scan(es, i + 1, csockets, nsockets, m, now);
                  all == Outcome(rest.es, ids + rest.ids)
      {
        if csockets >= nsockets { return; }
        var v := VisitSlot(i, m, now);
        ids := ids + v;
        i := i - 1;
      }
    }

    /** check_sockets_timeout, with the number of connections it closes. */
    method CheckTimeout(now: nat, timeout: int) returns (closed: nat)
      requires Valid()
      modifies this`count, this`es, fds, inf
      ensures Valid()
      ensures es == Timeouts.Pass(old(es), now, timeout).es
      ensures closed == |Timeouts.Pass(old(es), now, timeout).closed|
    {
      ghost var was := es;
      closed := 0;
      var i := RES_SLOTS;
      while i < count
        invariant RES_SLOTS <= i && Valid()
        invariant var rest := Timeouts.Sweep(es, i, now, timeout);
                  var all := Timeouts.Sweep(was, RES_SLOTS, now, timeout);
                  rest.es == all.es && closed + |rest.closed| == |all.closed|
        decreases count - i
      {
        if inf[i].started != 0 && Timeouts.IntDiff(now, inf[i].lutime) > timeout
           && inf[i].kind == SAIM {
          CloseIndexR(i, inf[i].rnd);
          closed := closed + 1;
        }
        i := i + 1;
      }
    }

    /** The start of a round: requests of the packet processors. */
    method ServePipe(w: World)
      requires Valid()
      modifies this`count, this`es, this`csockets, fds, inf
      ensures Valid() && es == AfterTerms(old(es), w)
      ensures csockets == One(old(es)[STOG].pf.revents.pollin)
    {
      hide CloseIds;
      csockets := 0;
      if fds[STOG].revents.pollin {
        ServeTerms(w.terms);
        csockets := csockets + 1;
      }
    }

    /** udp_process, msn_accept_connect and wwp_process as far as the table is concerned. */
    method CountIfReady(slot: nat)
      requires Valid() && slot < RES_SLOTS
      modifies this`csockets
      ensures csockets == old(csockets)
                + One(old(csockets) < nsockets && es[slot].pf.revents.pollin)
    {
      if csockets < nsockets && fds[slot].revents.pollin { csockets := csockets + 1; }
    }

    /** The pipe and the udp socket. */
    method ServeUdp(w: World)
      requires Valid()
      modifies this`count, this`es, this`csockets, fds, inf
      ensures Valid() && es == AfterTerms(old(es), w)
      ensures csockets == ServedUdp(old(es), nsockets)
    {
      hide AfterTerms;
      ServePipe(w);
      CountIfReady(SUDP);
    }

    /** The part of a round that serves the server's own sockets. */
    method ServeOwn(w: World)
      requires Valid()
      modifies this`count, this`es, this`csockets, fds, inf
      ensures Valid()
      ensures es == BeforeScan(old(es), nsockets, w, capacity)
      ensures csockets == ServedOwn(old(es), nsockets)
    {
      hide AfterTerms, AcceptOne, ServedUdp;
      ServeUdp(w);
      assert ServedUdp(es, nsockets) == ServedUdp(old(es), nsockets) by { SameOwn(old(es), es, nsockets); }
      if csockets < nsockets && fds[SAIM].revents.pollin {
        AcceptConnect(w.conn, w.now);
        csockets := csockets + 1;
      }
      CountIfReady(SMSN);
      CountIfReady(SWWP);
    }

    /** One turn of the loop of process_socket, from the return of poll on. */
    method ServeRound(w: World) returns (ids: seq<Id>)
      requires Valid()
      modifies this`count, this`es, this`csockets, fds, inf
      ensures Valid()
      ensures Outcome(es, ids) == Round(old(es), nsockets, w, capacity)
    {
      hide Scan, BeforeScan, ServedOwn;
      ids := [];
      ServeOwn(w);
      if csockets < nsockets { ids := CheckAccepted(w.input, w.now); }
    }
  }

  lemma SameOwn(es: seq<Entry>, es': seq<Entry>, ns: int)
    requires |es| >= RES_SLOTS && |es'| >= RES_SLOTS
    requires forall k :: 0 <= k < RES_SLOTS ==> es'[k] == es[k]
    ensures ServedUdp(es', ns) == ServedUdp(es, ns)
  {
  }
}
