/** check_sockets_timeout (isdcore/sprocess.cpp), as values: a forward scan that skips the
    connection each removal moves into the slot just visited. */
module Timeouts {
  import opened SocketTable

  /** (int)(x - y) for unsigned long operands: the low 32 bits, read as signed. */
  function IntDiff(x: nat, y: nat): int {
    var d := (x - y) % 0x1_0000_0000;
    if d < 0x8000_0000 then d else d - 0x1_0000_0000
  }

  predicate Expired(e: Entry, now: nat, timeout: int) {
    e.si.started != 0 && IntDiff(now, e.si.lutime) > timeout && e.si.kind == SAIM
  }

  function IsExpired(now: nat, timeout: int): Entry -> bool {
    (e: Entry) => Expired(e, now, timeout)
  }

  datatype Swept = Swept(es: seq<Entry>, closed: seq<Entry>)

  /** The loop from slot i on. */
  function Sweep(es: seq<Entry>, i: nat, now: nat, timeout: int): Swept
    decreases |es| - i
  {
    if i >= |es| then Swept(es, [])
    else if Expired(es[i], now, timeout) then
      var r := Sweep(CloseAt(es, i), i + 1, now, timeout);
      Swept(r.es, [es[i]] + r.closed)
    else Sweep(es, i + 1, now, timeout)
  }

  lemma {:induction false} SweepKeepsBefore(es: seq<Entry>, i: nat, now: nat, timeout: int, k: nat)
    requires k <= i && k <= |es|
    ensures var r := Sweep(es, i, now, timeout);
            |r.es| >= k && r.es[..k] == es[..k] && |r.es| + |r.closed| == |es|
    decreases |es| - i
  {
    if i < |es| {
      if Expired(es[i], now, timeout) {
        SweepKeepsBefore(CloseAt(es, i), i + 1, now, timeout, k);
        assert CloseAt(es, i)[..k] == es[..k];
      } else {
        SweepKeepsBefore(es, i + 1, now, timeout, k);
      }
    }
  }

  /** Nothing is lost or duplicated, and only expired connections are closed. */
  lemma {:induction false} SweepConserves(es: seq<Entry>, i: nat, now: nat, timeout: int,
                                          from: nat, p: Entry -> bool)
    requires from <= i && from <= |es|
    ensures var r := Sweep(es, i, now, timeout);
            && |r.es| >= from
            && CountIf(r.es[from..], p) + CountIf(r.closed, p) == CountIf(es[from..], p)
            && (forall e :: e in r.closed ==> Expired(e, now, timeout))
    decreases |es| - i
  {
    if i < |es| {
      if Expired(es[i], now, timeout) {
        var r := Sweep(CloseAt(es, i), i + 1, now, timeout);
        SweepConserves(CloseAt(es, i), i + 1, now, timeout, from, p);
        CloseCounts(es, from, i, p);
        CountConcat([es[i]], r.closed, p);
        CountOne(es[i], p);
      } else {
        SweepConserves(es, i + 1, now, timeout, from, p);
      }
    }
  }

  function MinOf(a: nat, b: nat): nat { if a < b then a else b }

  /** Every close hides at most one expired connection from the pass. */
  lemma {:induction false} HiddenByCloses(es: seq<Entry>, i: nat, now: nat, timeout: int)
    ensures var r := Sweep(es, i, now, timeout);
            CountIf(r.es[MinOf(i, |r.es|)..], IsExpired(now, timeout)) <= |r.closed|
    decreases |es| - i
  {
    hide CountIf, CloseAt;
    CountNone(IsExpired(now, timeout));
    if i < |es| {
      var p := IsExpired(now, timeout);
      var t := if Expired(es[i], now, timeout) then CloseAt(es, i) else es;
      var r := Sweep(t, i + 1, now, timeout);
      HiddenByCloses(t, i + 1, now, timeout);
      if i < |t| {
        SweepKeepsBefore(t, i + 1, now, timeout, i + 1);
        assert r.es[i] == r.es[..i + 1][i] == t[..i + 1][i] == t[i];
        assert r.es[i..] == [t[i]] + r.es[i + 1..];
        CountConcat([t[i]], r.es[i + 1..], p);
        CountOne(t[i], p);
      } else {
        SweepKeepsBefore(t, i + 1, now, timeout, i);
        assert r.es == t && t[MinOf(i, |t|)..] == [];
      }
    } else {
      assert es[MinOf(i, |es|)..] == [];
    }
  }

  function ExpiredCount(es: seq<Entry>, now: nat, timeout: int): nat
    requires |es| >= RES_SLOTS
  {
    CountIf(es[RES_SLOTS..], IsExpired(now, timeout))
  }

  /** One call of check_sockets_timeout. */
  function Pass(es: seq<Entry>, now: nat, timeout: int): Swept {
    Sweep(es, RES_SLOTS, now, timeout)
  }

  lemma {:induction false} AllCounted(es: seq<Entry>, now: nat, timeout: int)
    requires forall e :: e in es ==> Expired(e, now, timeout)
    ensures CountIf(es, IsExpired(now, timeout)) == |es|
  {
    if es != [] { AllCounted(es[1..], now, timeout); }
  }

  /** One pass closes expired connections only, and at least half of them. */
  lemma PassClosesHalf(es: seq<Entry>, now: nat, timeout: int)
    requires |es| >= RES_SLOTS
    ensures var r := Pass(es, now, timeout);
            && |r.es| >= RES_SLOTS && r.es[..RES_SLOTS] == es[..RES_SLOTS]
            && (forall e :: e in r.closed ==> Expired(e, now, timeout))
            && ExpiredCount(r.es, now, timeout) + |r.closed| == ExpiredCount(es, now, timeout)
            && ExpiredCount(r.es, now, timeout) <= ExpiredCount(es, now, timeout) / 2
  {
    var r := Pass(es, now, timeout);
    SweepKeepsBefore(es, RES_SLOTS, now, timeout, RES_SLOTS);
    SweepConserves(es, RES_SLOTS, now, timeout, RES_SLOTS, IsExpired(now, timeout));
    AllCounted(r.closed, now, timeout);
    HiddenByCloses(es, RES_SLOTS, now, timeout);
  }

  function Passes(es: seq<Entry>, k: nat, now: nat, timeout: int): seq<Entry>
    decreases k
  {
    if k == 0 then es else Passes(Pass(es, now, timeout).es, k - 1, now, timeout)
  }

  function Pow2(k: nat): nat { if k == 0 then 1 else 2 * Pow2(k - 1) }

  /** Repeated passes at a fixed time drain every expired connection: k passes are enough for
      fewer than 2^k of them. */
  lemma {:induction false} PassesDrain(es: seq<Entry>, k: nat, now: nat, timeout: int)
    requires |es| >= RES_SLOTS && ExpiredCount(es, now, timeout) < Pow2(k)
    ensures |Passes(es, k, now, timeout)| >= RES_SLOTS
    ensures ExpiredCount(Passes(es, k, now, timeout), now, timeout) == 0
    decreases k
  {
    if k > 0 {
      PassClosesHalf(es, now, timeout);
      PassesDrain(Pass(es, now, timeout).es, k - 1, now, timeout);
    }
  }

  /** The expired connections from slot i up to slot k. */
  function ExpiredBetween(es: seq<Entry>, i: nat, k: nat, now: nat, timeout: int): nat
    requires i <= k <= |es|
  {
    CountIf(es[i..k], IsExpired(now, timeout))
  }

  /** The pass reaches the expired connection in slot k, or the slot it is moved to. */
  predicate Reached(es: seq<Entry>, i: nat, k: nat, now: nat, timeout: int)
    requires i <= k < |es|
  {
    k + ExpiredBetween(es, i, k, now, timeout) < |es|
  }

  predicate AllReached(es: seq<Entry>, i: nat, now: nat, timeout: int) {
    forall k :: i <= k < |es| && Expired(es[k], now, timeout) ==> Reached(es, i, k, now, timeout)
  }

  predicate NoneExpiredFrom(es: seq<Entry>, i: nat, now: nat, timeout: int) {
    forall k :: i <= k < |es| ==> !Expired(es[k], now, timeout)
  }

  lemma ExpiredBetweenFirst(es: seq<Entry>, i: nat, k: nat, now: nat, timeout: int)
    requires i < k <= |es|
    ensures ExpiredBetween(es, i, k, now, timeout)
         == (if Expired(es[i], now, timeout) then 1 else 0) + ExpiredBetween(es, i + 1, k, now, timeout)
  {
    assert es[i..k][1..] == es[i + 1..k];
  }

  /** Slot i holds an expired connection and is not the last: what is asked of the table is what
      is asked behind slot i after the removal, and that the last connection is not expired. */
  lemma ReachedAfterClose(es: seq<Entry>, i: nat, now: nat, timeout: int)
    requires i < |es| - 1 && Expired(es[i], now, timeout)
    ensures AllReached(es, i, now, timeout)
       <==> !Expired(es[|es| - 1], now, timeout) && AllReached(CloseAt(es, i), i + 1, now, timeout)
  {
    var t, last := CloseAt(es, i), |es| - 1;
    hide CountIf;
    assert Reached(es, i, i, now, timeout) by {
      assert es[i..i] == [];
      CountNone(IsExpired(now, timeout));
    }
    forall k | i < k < last
      ensures t[k] == es[k] && (Reached(t, i + 1, k, now, timeout) <==> Reached(es, i, k, now, timeout))
    {
      ExpiredBetweenFirst(es, i, k, now, timeout);
      assert t[i + 1..k] == es[i + 1..k];
    }
    ExpiredBetweenFirst(es, i, last, now, timeout);
    assert !Reached(es, i, last, now, timeout);
  }

  lemma ReachedNotExpired(es: seq<Entry>, i: nat, now: nat, timeout: int)
    requires i < |es| && !Expired(es[i], now, timeout)
    ensures AllReached(es, i, now, timeout) <==> AllReached(es, i + 1, now, timeout)
  {
    forall k | i < k < |es| ensures Reached(es, i, k, now, timeout) <==> Reached(es, i + 1, k, now, timeout) {
      ExpiredBetweenFirst(es, i, k, now, timeout);
    }
  }

  /** The pass leaves no expired connection exactly when every expired slot, plus the expired ones
      before it, stays below the number of connections. */
  lemma {:induction false} SweepLeavesNone(es: seq<Entry>, i: nat, now: nat, timeout: int)
    requires i <= |es|
    ensures NoneExpiredFrom(Sweep(es, i, now, timeout).es, i, now, timeout) <==> AllReached(es, i, now, timeout)
    decreases |es| - i
  {
    hide Expired, Reached, CloseAt;
    if i == |es| {
    } else if !Expired(es[i], now, timeout) {
      SweepLeavesNone(es, i + 1, now, timeout);
      ReachedNotExpired(es, i, now, timeout);
      FirstStays(es, i, now, timeout);
    } else if i == |es| - 1 {
      LastCloses(es, now, timeout);
    } else {
      var t := CloseAt(es, i);
      SweepLeavesNone(t, i + 1, now, timeout);
      ReachedAfterClose(es, i, now, timeout);
      FirstStays(t, i, now, timeout);
      MovedIn(es, i);
    }
  }

  lemma MovedIn(es: seq<Entry>, i: nat)
    requires i < |es| - 1
    ensures CloseAt(es, i)[i] == es[|es| - 1]
  {}

  /** A slot the loop has passed is not touched again. */
  lemma FirstStays(t: seq<Entry>, i: nat, now: nat, timeout: int)
    requires i < |t|
    ensures var r := Sweep(t, i + 1, now, timeout).es;
      i < |r| && r[i] == t[i]
    ensures NoneExpiredFrom(Sweep(t, i + 1, now, timeout).es, i, now, timeout)
       <==> !Expired(t[i], now, timeout) && NoneExpiredFrom(Sweep(t, i + 1, now, timeout).es, i + 1, now, timeout)
  {
    SweepKeepsBefore(t, i + 1, now, timeout, i + 1);
    var r := Sweep(t, i + 1, now, timeout).es;
    assert r[i] == r[..i + 1][i] == t[..i + 1][i];
  }

  lemma LastCloses(es: seq<Entry>, now: nat, timeout: int)
    requires es != [] && Expired(es[|es| - 1], now, timeout)
    ensures var i := |es| - 1;
      && NoneExpiredFrom(Sweep(es, i, now, timeout).es, i, now, timeout)
      && AllReached(es, i, now, timeout)
  {
    var i := |es| - 1;
    assert Sweep(es, i, now, timeout).es == CloseAt(es, i);
    assert es[i..i] == [];
  }

  /** One pass closes every expired connection exactly when the last expired slot, plus the expired
      ones before it, stays below the number of connections. */
  lemma PassLeavesNone(es: seq<Entry>, now: nat, timeout: int)
    requires |es| >= RES_SLOTS
    ensures NoneExpiredFrom(Pass(es, now, timeout).es, RES_SLOTS, now, timeout)
       <==> forall k :: RES_SLOTS <= k < |es| && Expired(es[k], now, timeout) ==>
              k + CountIf(es[RES_SLOTS..k], IsExpired(now, timeout)) < |es|
  {
    SweepLeavesNone(es, RES_SLOTS, now, timeout);
    hide Expired, Sweep, CountIf;
    assert forall k :: RES_SLOTS <= k < |es| ==>
      ExpiredBetween(es, RES_SLOTS, k, now, timeout) == CountIf(es[RES_SLOTS..k], IsExpired(now, timeout));
    if AllReached(es, RES_SLOTS, now, timeout) {
      forall k | RES_SLOTS <= k < |es| && Expired(es[k], now, timeout)
        ensures k + CountIf(es[RES_SLOTS..k], IsExpired(now, timeout)) < |es|
      {
        assert Reached(es, RES_SLOTS, k, now, timeout);
      }
    }
  }

  /** Half is all one pass promises: of two expired connections at the end of the table it
      closes one and hides the other. */
  lemma HalfIsTight(own: seq<Entry>, a: Entry, b: Entry, now: nat, timeout: int)
    requires |own| == RES_SLOTS && Expired(a, now, timeout) && Expired(b, now, timeout)
    ensures Pass(own + [a, b], now, timeout) == Swept(own + [b], [a])
  {
    var es := own + [a, b];
    assert CloseAt(es, RES_SLOTS) == own + [b];
    assert Sweep(own + [b], RES_SLOTS + 1, now, timeout) == Swept(own + [b], []);
  }

  /** A connection that was only accepted so far and has been silent for longer than the timeout,
      the seconds counted as a signed number of 32 bits. */
  predicate Overdue(e: Entry, now: nat, timeout: int) {
    var age := (now - e.si.lutime) % 0x1_0000_0000;
    e.si.started != 0 && e.si.kind == 2 && (if age < 0x8000_0000 then age else age - 0x1_0000_0000) > timeout
  }

  lemma ExpiredIsOverdue(e: Entry, now: nat, timeout: int)
    ensures Expired(e, now, timeout) <==> Overdue(e, now, timeout)
  {
  }

  /** A pass closes overdue connections only: whatever is counted among the others is as many as
      before, and so are the server's own sockets. */
  lemma PassSparesOthers(es: seq<Entry>, now: nat, timeout: int, p: Entry -> bool)
    requires |es| >= RES_SLOTS && forall e :: p(e) ==> !Overdue(e, now, timeout)
    ensures var r := Pass(es, now, timeout);
            && |r.es| >= RES_SLOTS && r.es[..RES_SLOTS] == es[..RES_SLOTS]
            && CountIf(r.es[RES_SLOTS..], p) == CountIf(es[RES_SLOTS..], p)
            && (forall e :: e in r.closed ==> Overdue(e, now, timeout))
  {
    hide Expired, Overdue, CountIf;
    var r := Pass(es, now, timeout);
    SweepConserves(es, RES_SLOTS, now, timeout, RES_SLOTS, p);
    SweepKeepsBefore(es, RES_SLOTS, now, timeout, RES_SLOTS);
    forall e | e in r.closed ensures Overdue(e, now, timeout) { ExpiredIsOverdue(e, now, timeout); }
    NoneCounted(r.closed, p);
  }

  lemma {:induction false} NoneCounted(s: seq<Entry>, p: Entry -> bool)
    requires forall e :: e in s ==> !p(e)
    ensures CountIf(s, p) == 0
  {
    if s != [] {
      assert s[0] in s;
      NoneCounted(s[1..], p);
    }
  }

  /** A single overdue connection is closed, wherever it stands. */
  lemma {:induction false} SingleIsClosed(es: seq<Entry>, i: nat, now: nat, timeout: int, k: nat)
    requires i <= k < |es| && Overdue(es[k], now, timeout)
    requires forall j :: i <= j < |es| && j != k ==> !Overdue(es[j], now, timeout)
    ensures Sweep(es, i, now, timeout) == Swept(CloseAt(es, k), [es[k]])
    decreases |es| - i
  {
    hide Expired, Overdue;
    ExpiredIsOverdue(es[i], now, timeout);
    if i < k {
      SingleIsClosed(es, i + 1, now, timeout, k);
    } else {
      NothingToClose(CloseAt(es, k), k + 1, now, timeout);
    }
  }

  lemma {:induction false} NothingToClose(t: seq<Entry>, i: nat, now: nat, timeout: int)
    requires forall j :: i <= j < |t| ==> !Overdue(t[j], now, timeout)
    ensures Sweep(t, i, now, timeout) == Swept(t, [])
    decreases |t| - i
  {
    hide Expired, Overdue;
    if i < |t| {
      ExpiredIsOverdue(t[i], now, timeout);
      NothingToClose(t, i + 1, now, timeout);
    }
  }
}
