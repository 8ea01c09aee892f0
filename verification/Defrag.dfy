/** Reassembly of packets that arrive in fragments (database/defrag_db.cpp). The table
    Fragment_Storage is a sequence of rows; what the database returns for a query is a sequence
    of the matching rows, ordered as the query says. */
module Defrag {

  const MAX_PACKET_SIZE: nat := 8192

  datatype Row = Row(uin: nat, seqno: nat, num: int, cnt: int, data: seq<bv8>)

  function Matching(t: seq<Row>, uin: nat, seqno: nat): seq<Row> {
    if t == [] then [] else IfOf(t[0], uin, seqno) + Matching(t[1..], uin, seqno)
  }

  function IfOf(r: Row, uin: nat, seqno: nat): seq<Row> {
    if r.uin == uin && r.seqno == seqno then [r] else []
  }

  ghost predicate Ordered(rows: seq<Row>) {
    forall i, j :: 0 <= i < j < |rows| ==> rows[i].num <= rows[j].num
  }

  /** A possible answer to the SELECT ... ORDER BY prt_num of db_defrag_check. */
  ghost predicate Selection(rows: seq<Row>, t: seq<Row>, uin: nat, seqno: nat) {
    multiset(rows) == multiset(Matching(t, uin, seqno)) && Ordered(rows)
  }

  function UShort(x: int): nat { x % 0x1_0000 }

  /** fragment_exist: length of the first fragment with this number, 0 when there is none. */
  function FragmentLength(rows: seq<Row>, num: int): (n: nat)
  {
    if rows == [] then 0
    else if rows[0].num == num then |rows[0].data|
    else FragmentLength(rows[1..], num)
  }

  function Join(rows: seq<Row>): seq<bv8> {
    if rows == [] then [] else rows[0].data + Join(rows[1..])
  }

  datatype Verdict = Incomplete | TooBig | Whole(packet: seq<bv8>)

  /** The sum of the lengths of fragments 0 to n - 1, or -1 when one is missing. */
  function TotalLength(rows: seq<Row>, n: nat): int {
    if n == 0 then 0 else
      var before := TotalLength(rows, n - 1);
      var len := UShort(FragmentLength(rows, n - 1));
      if before < 0 || len == 0 then -1 else before + len
  }

  /** What db_defrag_check decides about the selected rows. */
  function Judge(rows: seq<Row>): Verdict {
    var n := UShort(|rows|);
    if n == 0 || n != UShort(rows[0].cnt) then Incomplete else
      var len := TotalLength(rows[..n], n);
      if len < 0 then Incomplete
      else if len > MAX_PACKET_SIZE then TooBig
      else Whole(Join(rows[..n]))
  }

  // ---- n rows that cover n numbers are in order ----

  ghost predicate Covers(rows: seq<Row>) {
    forall i :: 0 <= i < |rows| ==> HasNum(rows, i)
  }

  ghost predicate HasNum(rows: seq<Row>, num: int) {
    exists k :: 0 <= k < |rows| && rows[k].num == num
  }

  function IndexOf(rows: seq<Row>, num: int): (k: nat)
    ensures k <= |rows|
    ensures k < |rows| ==> rows[k].num == num
    ensures k == |rows| ==> forall j :: 0 <= j < |rows| ==> rows[j].num != num
  {
    if rows == [] || rows[0].num == num then 0 else 1 + IndexOf(rows[1..], num)
  }

  lemma IndexRises(rows: seq<Row>, i: nat, j: nat)
    requires Ordered(rows) && Covers(rows) && i < j < |rows|
    ensures IndexOf(rows, i) < IndexOf(rows, j) < |rows|
  {
    assert HasNum(rows, i) && HasNum(rows, j);
  }

  lemma {:induction false} IndexAtLeast(rows: seq<Row>, i: nat)
    requires Ordered(rows) && Covers(rows) && i < |rows|
    ensures i <= IndexOf(rows, i)
  {
    if i > 0 {
      IndexAtLeast(rows, i - 1);
      IndexRises(rows, i - 1, i);
    }
  }

  lemma {:induction false} IndexAtMost(rows: seq<Row>, i: nat)
    requires Ordered(rows) && Covers(rows) && i < |rows|
    ensures IndexOf(rows, i) <= i
    decreases |rows| - i
  {
    if i + 1 < |rows| {
      IndexAtMost(rows, i + 1);
      IndexRises(rows, i, i + 1);
    } else {
      assert HasNum(rows, i);
    }
  }

  /** The pigeonhole: as many ordered rows as numbers to cover leave no room for a duplicate. */
  lemma CoverIsPermutation(rows: seq<Row>)
    requires Ordered(rows) && Covers(rows)
    ensures forall i :: 0 <= i < |rows| ==> rows[i].num == i
  {
    forall i: nat | i < |rows| ensures rows[i].num == i {
      IndexAtLeast(rows, i);
      IndexAtMost(rows, i);
    }
  }

  // ---- when the check assembles ----

  ghost predicate InPlace(rows: seq<Row>) {
    forall i :: 0 <= i < |rows| ==> rows[i].num == i && rows[i].data != []
  }

  ghost predicate Small(rows: seq<Row>) {
    forall i :: 0 <= i < |rows| ==> |rows[i].data| <= MAX_PACKET_SIZE
  }

  lemma {:induction false} LengthFound(rows: seq<Row>, num: int)
    ensures FragmentLength(rows, num)
         == var k := IndexOf(rows, num); if k < |rows| then |rows[k].data| else 0
  {
    if rows != [] && rows[0].num != num { LengthFound(rows[1..], num); }
  }

  lemma {:induction false} TotalMeansCovered(rows: seq<Row>, n: nat)
    requires n <= |rows| && Small(rows)
    ensures TotalLength(rows, n) >= 0 <==>
            forall i :: 0 <= i < n ==> IndexOf(rows, i) < |rows| && rows[IndexOf(rows, i)].data != []
  {
    if n > 0 {
      TotalMeansCovered(rows, n - 1);
      LengthFound(rows, n - 1);
    }
  }

  lemma {:induction false} TotalIsJoined(rows: seq<Row>, n: nat)
    requires n <= |rows| && InPlace(rows) && Small(rows)
    ensures TotalLength(rows, n) == |Join(rows[..n])|
  {
    if n > 0 {
      TotalIsJoined(rows, n - 1);
      LengthFound(rows, n - 1);
      assert rows[n - 1].num == n - 1;
      assert IndexOf(rows, n - 1) == n - 1;
      assert rows[..n] == rows[..n - 1] + [rows[n - 1]];
      JoinAppend(rows[..n - 1], rows[n - 1]);
    }
  }

  lemma {:induction false} JoinAppend(rows: seq<Row>, r: Row)
    ensures Join(rows + [r]) == Join(rows) + r.data
  {
    if rows == [] {
      assert Join([r][1..]) == [];
    } else {
      assert (rows + [r])[1..] == rows[1..] + [r];
      JoinAppend(rows[1..], r);
    }
  }

  lemma MeasuredInPlace(rows: seq<Row>)
    requires Ordered(rows) && Small(rows) && TotalLength(rows, |rows|) >= 0
    ensures InPlace(rows)
  {
    TotalMeansCovered(rows, |rows|);
    forall i | 0 <= i < |rows| ensures HasNum(rows, i) {
      assert IndexOf(rows, i) < |rows| && rows[IndexOf(rows, i)].num == i;
    }
    CoverIsPermutation(rows);
    forall i: nat | i < |rows| ensures rows[i].data != [] {
      IndexAtLeast(rows, i);
      IndexAtMost(rows, i);
    }
  }

  /** Exactly when a packet is assembled, and what it is: the rows are numbered 0 to n - 1 where
      n is the announced count, no fragment is empty, and the whole fits a packet. The number of
      rows is kept in sixteen bits, and rows beyond it do not count. */
  lemma AssemblesExactlyWhen(rows: seq<Row>)
    requires Ordered(rows) && Small(rows)
    ensures var first := rows[..|rows| % 0x1_0000];
            && (Judge(rows).Whole? <==>
                  && first != [] && |first| == rows[0].cnt % 0x1_0000 && InPlace(first)
                  && |Join(first)| <= 8192)
            && (Judge(rows).Whole? ==> Judge(rows).packet == Join(first))
  {
    var first := rows[..|rows| % 0x1_0000];
    FirstRows(rows, |first|);
    hide Ordered, Small, InPlace, TotalLength, Join;
    assert first[..|first|] == first;
    if TotalLength(first, |first|) >= 0 { MeasuredInPlace(first); }
    if InPlace(first) { TotalIsJoined(first, |first|); }
  }

  lemma FirstRows(rows: seq<Row>, n: nat)
    requires Ordered(rows) && Small(rows) && n <= |rows|
    ensures Ordered(rows[..n]) && Small(rows[..n])
  {
  }

  // ---- a packet that arrives in parts, in any order ----

  predicate Within(order: seq<nat>, n: nat) {
    forall i :: 0 <= i < |order| ==> order[i] < n
  }

  function Fragments(uin: nat, seqno: nat, parts: seq<seq<bv8>>, order: seq<nat>): seq<Row>
    requires Within(order, |parts|)
  {
    if order == [] then [] else
      [Row(uin, seqno, order[0], |parts|, parts[order[0]])]
      + Fragments(uin, seqno, parts, order[1..])
  }

  function Concat(parts: seq<seq<bv8>>): seq<bv8> {
    if parts == [] then [] else parts[0] + Concat(parts[1..])
  }

  lemma MatchingCons(t: seq<Row>, uin: nat, seqno: nat)
    ensures t == [] ==> Matching(t, uin, seqno) == []
    ensures t != [] ==> Matching(t, uin, seqno) == IfOf(t[0], uin, seqno) + Matching(t[1..], uin, seqno)
  {
  }

  lemma {:induction false} MatchingConcat(a: seq<Row>, b: seq<Row>, uin: nat, seqno: nat)
    ensures Matching(a + b, uin, seqno) == Matching(a, uin, seqno) + Matching(b, uin, seqno)
  {
    hide Matching, IfOf;
    MatchingCons(a, uin, seqno);
    if a == [] {
      assert a + b == b;
    } else {
      MatchingCons(a + b, uin, seqno);
      assert (a + b)[1..] == a[1..] + b;
      MatchingConcat(a[1..], b, uin, seqno);
    }
  }

  lemma {:induction false} FragmentsMatch(uin: nat, seqno: nat, parts: seq<seq<bv8>>, order: seq<nat>)
    requires Within(order, |parts|)
    ensures var f := Fragments(uin, seqno, parts, order);
            && Matching(f, uin, seqno) == f && |f| == |order|
            && forall i :: 0 <= i < |f| ==> f[i] == Row(uin, seqno, order[i], |parts|, parts[order[i]])
  {
    if order != [] { FragmentsMatch(uin, seqno, parts, order[1..]); }
  }

  lemma SelectedAre(rows: seq<Row>, f: seq<Row>)
    requires multiset(rows) == multiset(f)
    ensures |rows| == |f|
    ensures forall i :: 0 <= i < |rows| ==> exists j :: 0 <= j < |f| && f[j] == rows[i]
    ensures forall j :: 0 <= j < |f| ==> exists i :: 0 <= i < |rows| && rows[i] == f[j]
  {
    assert |multiset(rows)| == |multiset(f)|;
    assert forall r :: r in rows <==> r in multiset(rows);
    assert forall r :: r in f <==> r in multiset(f);
    assert forall i :: 0 <= i < |rows| ==> rows[i] in rows;
    assert forall j :: 0 <= j < |f| ==> f[j] in f;
  }

  /** What the check sees once the fragments named by arrived have been stored. */
  lemma SelectionAfter(base: seq<Row>, uin: nat, seqno: nat, parts: seq<seq<bv8>>,
                       arrived: seq<nat>, rows: seq<Row>)
    requires Within(arrived, |parts|)
    requires Matching(base, uin, seqno) == []
    requires Selection(rows, base + Fragments(uin, seqno, parts, arrived), uin, seqno)
    ensures |rows| == |arrived|
    ensures forall i :: 0 <= i < |rows| ==>
              && rows[i].cnt == |parts| && 0 <= rows[i].num < |parts|
              && rows[i].data == parts[rows[i].num]
    ensures forall j :: 0 <= j < |arrived| ==> HasNum(rows, arrived[j])
  {
    hide Matching, Fragments;
    var f := Fragments(uin, seqno, parts, arrived);
    MatchingConcat(base, f, uin, seqno);
    FragmentsMatch(uin, seqno, parts, arrived);
    assert Matching(base + f, uin, seqno) == f;
    Reordered(rows, f, uin, seqno, parts, arrived);
  }

  lemma Reordered(rows: seq<Row>, f: seq<Row>, uin: nat, seqno: nat, parts: seq<seq<bv8>>,
                  arrived: seq<nat>)
    requires Within(arrived, |parts|) && |f| == |arrived| && multiset(rows) == multiset(f)
    requires forall j :: 0 <= j < |f| ==>
               f[j] == Row(uin, seqno, arrived[j], |parts|, parts[arrived[j]])
    ensures |rows| == |arrived|
    ensures forall i :: 0 <= i < |rows| ==>
              && rows[i].cnt == |parts| && 0 <= rows[i].num < |parts|
              && rows[i].data == parts[rows[i].num]
    ensures forall j :: 0 <= j < |arrived| ==> HasNum(rows, arrived[j])
  {
    SelectedAre(rows, f);
    forall j | 0 <= j < |arrived| ensures HasNum(rows, arrived[j]) {
      var i :| 0 <= i < |rows| && rows[i] == f[j];
      assert rows[i].num == arrived[j];
    }
  }

  lemma {:induction false} JoinIsConcat(rows: seq<Row>, parts: seq<seq<bv8>>)
    requires |rows| == |parts|
    requires forall i :: 0 <= i < |rows| ==> rows[i].data == parts[i]
    ensures Join(rows) == Concat(parts)
  {
    if rows != [] { JoinIsConcat(rows[1..], parts[1..]); }
  }

  /** A packet of n non-empty parts that fits MAX_PACKET_SIZE, arriving in any order without
      repetition, next to fragments of anybody else: every check before the last arrival finds
      it incomplete, and the check after it yields the original bytes. */
  lemma ReassembledWhenComplete(base: seq<Row>, uin: nat, seqno: nat, parts: seq<seq<bv8>>,
                                order: seq<nat>, k: nat, rows: seq<Row>)
    requires 0 < |parts| < 0x1_0000
    requires forall i :: 0 <= i < |parts| ==> 0 < |parts[i]| <= MAX_PACKET_SIZE
    requires |Concat(parts)| <= MAX_PACKET_SIZE
    requires |order| == |parts|
    requires forall i :: 0 <= i < |parts| ==> i in order
    requires Within(order, |parts|)
    requires 0 < k <= |order| && Matching(base, uin, seqno) == []
    requires Selection(rows, base + Fragments(uin, seqno, parts, order[..k]), uin, seqno)
    ensures Judge(rows) == if k < |parts| then Incomplete else Whole(Concat(parts))
  {
    hide Matching, Fragments, Ordered, Judge;
    SelectionAfter(base, uin, seqno, parts, order[..k], rows);
    if k == |parts| {
      assert order[..k] == order;
      forall i | 0 <= i < |rows| ensures HasNum(rows, i) {
        assert i in order;
        var j :| 0 <= j < |order| && order[j] == i;
        assert HasNum(rows, order[j]);
      }
      CompleteNow(rows, parts);
    } else {
      IncompleteYet(rows, parts);
    }
  }

  /** Fewer rows than announced. */
  lemma IncompleteYet(rows: seq<Row>, parts: seq<seq<bv8>>)
    requires 0 < |rows| < |parts| < 0x1_0000 && forall i :: 0 <= i < |rows| ==> rows[i].cnt == |parts|
    ensures Judge(rows) == Incomplete
  {
  }

  lemma CompleteNow(rows: seq<Row>, parts: seq<seq<bv8>>)
    requires 0 < |rows| == |parts| < 0x1_0000 && Ordered(rows)
    requires forall i :: 0 <= i < |parts| ==> 0 < |parts[i]| <= MAX_PACKET_SIZE
    requires |Concat(parts)| <= MAX_PACKET_SIZE
    requires forall i :: 0 <= i < |rows| ==>
               && rows[i].cnt == |parts| && 0 <= rows[i].num < |parts|
               && rows[i].data == parts[rows[i].num]
    requires forall i :: 0 <= i < |rows| ==> HasNum(rows, i)
    ensures Judge(rows) == Whole(Concat(parts))
  {
    CoverIsPermutation(rows);
    JoinIsConcat(rows, parts);
    assert rows[..|rows|] == rows;
    AssemblesExactlyWhen(rows);
  }

  // ---- the code ----

  function WithoutUser(t: seq<Row>, uin: nat): seq<Row> {
    if t == [] then [] else (if t[0].uin == uin then [] else [t[0]]) + WithoutUser(t[1..], uin)
  }

  /** db_defrag_delete(uin, seq): looks for rows of this packet, counting in sixteen bits, and
      deletes all of the user. */
  function TableAfterDelete(t: seq<Row>, uin: nat, seqno: nat): seq<Row> {
    if UShort(|Matching(t, uin, seqno)|) > 0 then WithoutUser(t, uin) else t
  }

  lemma {:induction false} WithoutUserCounts(t: seq<Row>, uin: nat, r: Row)
    ensures multiset(WithoutUser(t, uin))[r] == if r.uin == uin then 0 else multiset(t)[r]
  {
    if t != [] {
      WithoutUserCounts(t[1..], uin, r);
      assert t == [t[0]] + t[1..];
    }
  }

  /** The user's rows are gone, all others are there as often as before. */
  ghost predicate Cleared(before: seq<Row>, after: seq<Row>, uin: nat) {
    forall r :: multiset(after)[r] == if r.uin == uin then 0 else multiset(before)[r]
  }

  lemma DeleteClears(t: seq<Row>, uin: nat, seqno: nat, rows: seq<Row>)
    requires Selection(rows, t, uin, seqno) && UShort(|rows|) > 0
    ensures Cleared(t, TableAfterDelete(t, uin, seqno), uin)
  {
    assert |multiset(rows)| == |rows| && |multiset(Matching(t, uin, seqno))| == |Matching(t, uin, seqno)|;
    forall r: Row { WithoutUserCounts(t, uin, r); }
  }

  /** All that a check does: what it says, what it injects, and the table it leaves. */
  ghost predicate Checked(before: seq<Row>, uin: nat, rows: seq<Row>, online: bool,
                          found: bool, injected: seq<seq<bv8>>, after: seq<Row>) {
    var v := Judge(rows);
    && found == v.Whole?
    && injected == (if v.Whole? && online then [v.packet] else [])
    && (v.Incomplete? ==> after == before)
    && (!v.Incomplete? ==> Cleared(before, after, uin))
  }

  class Storage {
    var table: seq<Row>

    constructor ()
      ensures table == []
    {
      table := [];
    }

    /** db_defrag_addpart; stored is false when the database refuses the row. */
    method AddPart(r: Row, stored: bool) returns (result: int)
      modifies this
      ensures table == if stored then old(table) + [r] else old(table)
      ensures result == if stored then 0 else -1
    {
      if !stored { return -1; }
      table := table + [r];
      return 0;
    }

    /** fragment_exist */
    static method FragmentExist(rows: seq<Row>, num: int) returns (n: nat)
      ensures n == FragmentLength(rows, num)
    {
      var i := 0;
      while i < |rows|
        invariant i <= |rows|
        invariant FragmentLength(rows, num) == FragmentLength(rows[i..], num)
      {
        if rows[i].num == num { return |rows[i].data|; }
        i := i + 1;
      }
      return 0;
    }

    /** The loop that looks for all fragments and adds up their lengths. */
    static method MeasureFragments(rows: seq<Row>) returns (len: int)
      ensures len == TotalLength(rows, |rows|)
    {
      len := 0;
      var i := 0;
      while i < |rows|
        invariant i <= |rows| && len >= 0 && len == TotalLength(rows, i)
      {
        var curr := FragmentExist(rows, i);
        curr := UShort(curr);
        if curr == 0 {
          MissingStays(rows, i + 1, |rows|);
          return -1;
        }
        len := len + curr;
        i := i + 1;
      }
    }

    /** The loop that reads the fragments one behind the other. */
    static method MergeFragments(rows: seq<Row>) returns (packet: seq<bv8>)
      ensures packet == Join(rows)
    {
      packet := [];
      var i := 0;
      while i < |rows|
        invariant i <= |rows| && packet + Join(rows[i..]) == Join(rows)
      {
        assert rows[i..][0] == rows[i] && rows[i..][1..] == rows[i + 1..];
        packet := packet + rows[i].data;
        i := i + 1;
      }
    }

    /** db_defrag_check(uin, seq). rows is the database's answer; online tells whether the user
        is; injected is what goes into the packet pipe. */
    method Check(uin: nat, seqno: nat, rows: seq<Row>, online: bool)
      returns (found: bool, injected: seq<seq<bv8>>)
      requires Selection(rows, table, uin, seqno)
      modifies this
      ensures Checked(old(table), uin, rows, online, found, injected, table)
    {
      found, injected := false, [];
      var fragCnt := UShort(|rows|);
      if fragCnt == 0 { return; }
      var totalFrags := UShort(rows[0].cnt);
      if fragCnt != totalFrags { return; }
      var packLength := MeasureFragments(rows[..fragCnt]);
      assert |rows[..fragCnt]| == fragCnt;
      if packLength < 0 { return; }
      DeleteClears(table, uin, seqno, rows);
      if packLength > MAX_PACKET_SIZE {
        var _ := Delete(uin, seqno);
        return;
      }
      if online {
        var packet := MergeFragments(rows[..fragCnt]);
        injected := [packet];
      }
      var _ := Delete(uin, seqno);
      found := true;
    }

    /** db_defrag_delete(uin, seq) */
    method Delete(uin: nat, seqno: nat) returns (result: int)
      modifies this
      ensures table == TableAfterDelete(old(table), uin, seqno)
      ensures result == if |Matching(old(table), uin, seqno)| % 0x1_0000 > 0 then 0 else -1
    {
      var fragCnt := UShort(|Matching(table, uin, seqno)|);
      if fragCnt > 0 {
        table := WithoutUser(table, uin);
        return 0;
      }
      return -1;
    }
  }

  lemma {:induction false} MissingStays(rows: seq<Row>, n: nat, m: nat)
    requires n <= m && TotalLength(rows, n) < 0
    ensures TotalLength(rows, m) == -1
  {
    if n < m { MissingStays(rows, n, m - 1); }
  }

  // ---- what assembling one packet does to the user's other fragments ----

  function WithoutPacket(t: seq<Row>, uin: nat, seqno: nat): seq<Row> {
    if t == [] then [] else
      (if t[0].uin == uin && t[0].seqno == seqno then [] else [t[0]])
      + WithoutPacket(t[1..], uin, seqno)
  }

  lemma {:induction false} WithoutUserKeeps(t: seq<Row>, uin: nat, r: Row)
    ensures r in WithoutUser(t, uin) <==> r in t && r.uin != uin
  {
    if t != [] {
      WithoutUserKeeps(t[1..], uin, r);
      assert r in t <==> r == t[0] || r in t[1..];
    }
  }

  lemma {:induction false} WithoutPacketKeeps(t: seq<Row>, uin: nat, seqno: nat, r: Row)
    ensures r in WithoutPacket(t, uin, seqno) <==> r in t && !(r.uin == uin && r.seqno == seqno)
  {
    if t != [] {
      WithoutPacketKeeps(t[1..], uin, seqno, r);
      assert r in t <==> r == t[0] || r in t[1..];
    }
  }

  lemma {:induction false} SameWithout(t: seq<Row>, uin: nat, seqno: nat)
    requires forall r :: r in t && r.uin == uin ==> r.seqno == seqno
    ensures WithoutUser(t, uin) == WithoutPacket(t, uin, seqno)
  {
    if t != [] {
      assert t[0] in t;
      SameWithout(t[1..], uin, seqno);
    }
  }

  lemma {:induction false} MatchingIn(t: seq<Row>, uin: nat, seqno: nat, r: Row)
    ensures r in Matching(t, uin, seqno) <==> r in t && r.uin == uin && r.seqno == seqno
  {
    if t != [] {
      MatchingIn(t[1..], uin, seqno, r);
      assert r in t <==> r == t[0] || r in t[1..];
    }
  }

  lemma ClearedRows(t: seq<Row>, t1: seq<Row>, uin: nat)
    requires Cleared(t, t1, uin)
    ensures forall r :: r in t1 <==> r in t && r.uin != uin
  {
    forall r ensures r in t1 <==> r in t && r.uin != uin {
      assert r in multiset(t1) <==> r in multiset(t) && r.uin != uin;
    }
  }

  lemma NothingSelected(t: seq<Row>, uin: nat, seqno: nat, rows: seq<Row>)
    requires Selection(rows, t, uin, seqno) && forall r :: r in t ==> r.uin != uin
    ensures rows == []
  {
    if rows != [] {
      assert rows[0] in multiset(rows);
      MatchingIn(t, uin, seqno, rows[0]);
    }
  }

  lemma NothingJudged()
    ensures Judge([]) == Incomplete
  {
  }

  /** A check that finds or drops a packet leaves no fragment of it: asked again, the check finds
      nothing, injects nothing and leaves the table as it is. An incomplete packet keeps its
      fragments. */
  lemma PacketIsTakenOnce(t: seq<Row>, uin: nat, seqno: nat, online: bool,
                          rows: seq<Row>, found: bool, injected: seq<seq<bv8>>, t1: seq<Row>,
                          rows1: seq<Row>, found1: bool, injected1: seq<seq<bv8>>, t2: seq<Row>)
    requires Selection(rows, t, uin, seqno) && Checked(t, uin, rows, online, found, injected, t1)
    requires Selection(rows1, t1, uin, seqno) && Checked(t1, uin, rows1, online, found1, injected1, t2)
    ensures Judge(rows).Incomplete? ==> t1 == t
    ensures !Judge(rows).Incomplete? ==>
              && (forall r :: r in t1 <==> r in t && r.uin != uin)
              && rows1 == [] && !found1 && injected1 == [] && t2 == t1
  {
    hide Selection, Judge, Cleared;
    if !Judge(rows).Incomplete? {
      ClearedRows(t, t1, uin);
      NothingSelected(t1, uin, seqno, rows1);
      NothingJudged();
    }
  }

  /** In particular a packet that arrived in parts is injected once, if its user is online. */
  lemma ReassembledOnce(base: seq<Row>, uin: nat, seqno: nat, parts: seq<seq<bv8>>, order: seq<nat>, online: bool,
                        rows: seq<Row>, found: bool, injected: seq<seq<bv8>>, t1: seq<Row>,
                        rows1: seq<Row>, found1: bool, injected1: seq<seq<bv8>>, t2: seq<Row>)
    requires 0 < |parts| < 0x1_0000 && |order| == |parts| && Within(order, |parts|)
    requires forall i :: 0 <= i < |parts| ==> 0 < |parts[i]| <= MAX_PACKET_SIZE && i in order
    requires |Concat(parts)| <= MAX_PACKET_SIZE && Matching(base, uin, seqno) == []
    requires var t := base + Fragments(uin, seqno, parts, order);
             Selection(rows, t, uin, seqno) && Checked(t, uin, rows, online, found, injected, t1)
    requires Selection(rows1, t1, uin, seqno) && Checked(t1, uin, rows1, online, found1, injected1, t2)
    ensures injected + injected1 == (if online then [Concat(parts)] else []) && found && !found1
  {
    hide Matching, Fragments, Concat;
    assert order[..|parts|] == order;
    ReassembledWhenComplete(base, uin, seqno, parts, order, |parts|, rows);
    PacketIsTakenOnce(base + Fragments(uin, seqno, parts, order), uin, seqno, online, rows, found, injected, t1,
                      rows1, found1, injected1, t2);
  }

  /** The rows of a packet are gone and no other row is, exactly when the user had no other packet
      under way: the deletion names the user only. A packet with no rows, or with a multiple of
      65536, deletes nothing. */
  lemma DeleteSparesExactlyWhen(t: seq<Row>, uin: nat, seqno: nat)
    ensures var n := |Matching(t, uin, seqno)|;
      TableAfterDelete(t, uin, seqno) == WithoutPacket(t, uin, seqno) <==>
        if n % 0x1_0000 == 0 then n == 0 else forall r :: r in t && r.uin == uin ==> r.seqno == seqno
  {
    if |Matching(t, uin, seqno)| % 0x1_0000 == 0 {
      WithoutPacketLength(t, uin, seqno);
    } else if forall r :: r in t && r.uin == uin ==> r.seqno == seqno {
      SameWithout(t, uin, seqno);
    } else {
      var r :| r in t && r.uin == uin && r.seqno != seqno;
      WithoutUserKeeps(t, uin, r);
      WithoutPacketKeeps(t, uin, seqno, r);
    }
  }

  lemma {:induction false} WithoutPacketLength(t: seq<Row>, uin: nat, seqno: nat)
    ensures |WithoutPacket(t, uin, seqno)| == |t| - |Matching(t, uin, seqno)|
    ensures Matching(t, uin, seqno) == [] ==> WithoutPacket(t, uin, seqno) == t
  {
    if t != [] { WithoutPacketLength(t[1..], uin, seqno); }
  }
}
