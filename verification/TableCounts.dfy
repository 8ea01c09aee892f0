/** Counting connections: what a property's count becomes when connections are closed by id, in
    whatever order they are moved. */
module TableCounts {
  import opened SocketTable
  import opened PollScan

  /** The connections: the entries behind the server's own sockets. */
  function Conns(es: seq<Entry>): seq<Entry>
    requires |es| >= RES_SLOTS
  {
    es[RES_SLOTS..]
  }

  /** No two connections share an id. */
  ghost predicate DistinctConns(es: seq<Entry>) {
    forall i, j :: RES_SLOTS <= i < j < |es| ==> IdOf(es[i]) != IdOf(es[j])
  }

  lemma {:induction false} CountSame(s: seq<Entry>, p: Entry -> bool, q: Entry -> bool)
    requires forall e :: e in s ==> p(e) == q(e)
    ensures CountIf(s, p) == CountIf(s, q)
  {
    if s != [] {
      assert s[0] in s;
      CountSame(s[1..], p, q);
    }
  }

  lemma {:induction false} CountZero(s: seq<Entry>, p: Entry -> bool)
    ensures CountIf(s, p) == 0 <==> forall e :: e in s ==> !p(e)
  {
    if s != [] {
      CountZero(s[1..], p);
      assert forall e :: e in s <==> e == s[0] || e in s[1..];
    }
  }

  function Unless(p: Entry -> bool, ids: seq<Id>): Entry -> bool {
    (e: Entry) => p(e) && IdOf(e) !in ids
  }

  /** Of connections with different ids, leaving out an id leaves out one. */
  lemma LeaveOut(es: seq<Entry>, i: nat, p: Entry -> bool)
    requires RES_SLOTS <= i < |es| && DistinctConns(es)
    ensures CountIf(Conns(es), Unless(p, [IdOf(es[i])])) == CountIf(Conns(es), p) - if p(es[i]) then 1 else 0
  {
    var q := Unless(p, [IdOf(es[i])]);
    var a, b := es[RES_SLOTS..i], es[i + 1..];
    assert Conns(es) == a + ([es[i]] + b);
    CountConcat(a, [es[i]] + b, p);
    CountConcat([es[i]], b, p);
    CountConcat(a, [es[i]] + b, q);
    CountConcat([es[i]], b, q);
    CountOne(es[i], p);
    CountOne(es[i], q);
    CountSame(a, p, q);
    CountSame(b, p, q);
  }

  lemma CloseKeepsDistinct(es: seq<Entry>, i: nat)
    requires RES_SLOTS <= i < |es| && DistinctConns(es)
    ensures DistinctConns(CloseAt(es, i))
  {
    var r := CloseAt(es, i);
    forall k | 0 <= k < |r| ensures r[k] == es[if k == i then |es| - 1 else k] {}
  }

  lemma CloseIdCount(es: seq<Entry>, id: Id, p: Entry -> bool)
    requires |es| >= RES_SLOTS && DistinctConns(es)
    ensures DistinctConns(CloseId(es, id))
    ensures CountIf(Conns(CloseId(es, id)), p) == CountIf(Conns(es), Unless(p, [id]))
  {
    hide CountIf;
    var i := FindId(es, RES_SLOTS, id);
    if i < |es| {
      CloseKeepsDistinct(es, i);
      CloseCounts(es, RES_SLOTS, i, p);
      LeaveOut(es, i, p);
    } else {
      assert forall k :: 0 <= k < |Conns(es)| ==> Conns(es)[k] == es[k + RES_SLOTS];
      CountSame(Conns(es), p, Unless(p, [id]));
    }
  }

  /** Close requests take away exactly the connections they name. */
  lemma {:induction false} CloseIdsCount(es: seq<Entry>, ids: seq<Id>, p: Entry -> bool)
    requires |es| >= RES_SLOTS && DistinctConns(es)
    ensures DistinctConns(CloseIds(es, ids))
    ensures CountIf(Conns(CloseIds(es, ids)), p) == CountIf(Conns(es), Unless(p, ids))
    decreases ids
  {
    hide CountIf, CloseId, Conns, DistinctConns;
    if ids == [] {
      CountSame(Conns(es), p, Unless(p, ids));
    } else {
      var q := Unless(p, ids[1..]);
      CloseIdCount(es, ids[0], q);
      CloseIdsCount(CloseId(es, ids[0]), ids[1..], p);
      CountSame(Conns(es), Unless(q, [ids[0]]), Unless(p, ids));
    }
  }

  /** One more connection at the end. */
  lemma CountAppended(es: seq<Entry>, e: Entry, p: Entry -> bool)
    requires |es| >= RES_SLOTS
    ensures CountIf(Conns(es + [e]), p) == CountIf(Conns(es), p) + if p(e) then 1 else 0
  {
    assert Conns(es + [e]) == Conns(es) + [e];
    CountConcat(Conns(es), [e], p);
    CountOne(e, p);
  }

  /** One connection changed in place. */
  lemma CountChanged(es: seq<Entry>, i: nat, e: Entry, p: Entry -> bool)
    requires RES_SLOTS <= i < |es|
    ensures CountIf(Conns(es[i := e]), p)
         == CountIf(Conns(es), p) - (if p(es[i]) then 1 else 0) + if p(e) then 1 else 0
  {
    var a, b := es[RES_SLOTS..i], es[i + 1..];
    assert Conns(es) == a + ([es[i]] + b) && Conns(es[i := e]) == a + ([e] + b);
    CountConcat(a, [es[i]] + b, p);
    CountConcat([es[i]], b, p);
    CountConcat(a, [e] + b, p);
    CountConcat([e], b, p);
    CountOne(es[i], p);
    CountOne(e, p);
  }
}
