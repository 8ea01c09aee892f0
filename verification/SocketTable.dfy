/** The dense table of connections (sock_fds and sock_inf, first tcp_sock_count slots) as a
    value, and its removal by moving the last connection into the freed slot. */
module SocketTable {

  /** The first slots belong to the server's own sockets. */
  const RES_SLOTS: nat := 11
  const SUDP := 0
  const SWWP := 1
  const SAIM := 2
  const SMSN := 3
  const STOG := 4

  /** revents of struct pollfd. */
  datatype Revents = Revents(pollin: bool, pollerr: bool, pollhup: bool, other: bool)

  const NO_EVENTS := Revents(false, false, false, false)

  datatype PollFd = PollFd(fd: int, revents: Revents)

  datatype SockInfo = SockInfo(rnd: nat, lutime: nat, kind: nat, started: nat)

  datatype Entry = Entry(pf: PollFd, si: SockInfo)

  /** What a connection is known by outside the table. */
  datatype Id = Id(fd: int, rnd: nat)

  function IdOf(e: Entry): Id { Id(e.pf.fd, e.si.rnd) }

  /** close_socket_index_r: the last entry takes the place of entry i. */
  function CloseAt(es: seq<Entry>, i: nat): (r: seq<Entry>)
    requires i < |es|
    ensures |r| == |es| - 1
    ensures forall k :: 0 <= k < i ==> r[k] == es[k]
  {
    if i == |es| - 1 then es[..i] else es[..|es| - 1][i := es[|es| - 1]]
  }

  /** How often an entry with this property occurs. */
  function CountIf(es: seq<Entry>, p: Entry -> bool): nat {
    if es == [] then 0 else (if p(es[0]) then 1 else 0) + CountIf(es[1..], p)
  }

  lemma {:induction false} CountConcat(a: seq<Entry>, b: seq<Entry>, p: Entry -> bool)
    ensures CountIf(a + b, p) == CountIf(a, p) + CountIf(b, p)
  {
    if a == [] {
      assert a + b == b;
    } else {
      assert (a + b)[0] == a[0] && (a + b)[1..] == a[1..] + b;
      CountConcat(a[1..], b, p);
    }
  }

  lemma CountNone(p: Entry -> bool)
    ensures CountIf([], p) == 0
  {
  }

  lemma CountOne(e: Entry, p: Entry -> bool)
    ensures CountIf([e], p) == if p(e) then 1 else 0
  {
    assert CountIf([e][1..], p) == 0;
  }

  /** Removal takes away exactly the entry it names, whatever it moves. */
  lemma CloseCounts(es: seq<Entry>, from: nat, i: nat, p: Entry -> bool)
    requires from <= i < |es|
    ensures CountIf(CloseAt(es, i)[from..], p) + (if p(es[i]) then 1 else 0)
         == CountIf(es[from..], p)
  {
    hide CountIf;
    var last := |es| - 1;
    var r := CloseAt(es, i);
    assert es[from..] == es[from..i] + ([es[i]] + es[i + 1..]);
    CountConcat(es[from..i], [es[i]] + es[i + 1..], p);
    CountConcat([es[i]], es[i + 1..], p);
    CountOne(es[i], p);
    if i == last {
      assert r[from..] == es[from..i] && es[i + 1..] == [];
      CountNone(p);
    } else {
      assert r[from..] == es[from..i] + ([es[last]] + es[i + 1..last]);
      CountConcat(es[from..i], [es[last]] + es[i + 1..last], p);
      CountConcat([es[last]], es[i + 1..last], p);
      assert es[i + 1..] == es[i + 1..last] + [es[last]];
      CountConcat(es[i + 1..last], [es[last]], p);
    }
  }

  /** The slots behind the freed one hold the same entries as before. */
  lemma CloseCountsBehind(es: seq<Entry>, i: nat, p: Entry -> bool)
    requires i < |es|
    ensures CountIf(CloseAt(es, i)[i..], p) == CountIf(es[i + 1..], p)
  {
    CloseCounts(es, i, i, p);
    assert es[i..] == [es[i]] + es[i + 1..];
    CountConcat([es[i]], es[i + 1..], p);
    CountOne(es[i], p);
  }

  function IsId(id: Id): Entry -> bool { (e: Entry) => IdOf(e) == id }
}
