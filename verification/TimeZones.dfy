/** The cache of time-zone offsets in system/time.cpp. The platform's TimeZone is a function from
    times to offsets. A time_t has eight bytes here, unlike a long. */
module TimeZones {

  const TIME_MIN: int := -0x8000_0000_0000_0000
  const TIME_MAX: int := 0x7fff_ffff_ffff_ffff

  const HOUR: int := 3600
  const MAX_DST_SKIP: int := 604800         // 7 days
  const HALF_WIDTH: int := 15768000         // half of MAX_DST_WIDTH, 365 days

  predicate IsTime(t: int) { TIME_MIN <= t <= TIME_MAX }

  /** Signed 64-bit wrap-around. */
  function Wrap(t: int): int {
    if t > TIME_MAX then t - 0x1_0000_0000_0000_0000
    else if t < TIME_MIN then t + 0x1_0000_0000_0000_0000
    else t
  }

  /** How far the new entry may reach to either side of its seed. */
  function LowBound(t: int): (low: int)
    requires IsTime(t)
    ensures IsTime(low) && t - HALF_WIDTH <= low <= t
  {
    var low := Wrap(t - HALF_WIDTH);
    if t < low then TIME_MIN else low
  }

  function HighBound(t: int): (high: int)
    requires IsTime(t)
    ensures IsTime(high) && t <= high <= t + HALF_WIDTH
  {
    var high := Wrap(t + HALF_WIDTH);
    if high < t then TIME_MAX else high
  }

  /** The time probed next below an entry that starts at start. */
  function ProbeBelow(low: int, start: int): int {
    if start - low > MAX_DST_SKIP * 2 then start - MAX_DST_SKIP else low + (start - low) / 2
  }

  function ProbeAbove(high: int, end: int): int {
    if high - end > MAX_DST_SKIP * 2 then end + MAX_DST_SKIP else high - (high - end) / 2
  }

  /** The first bisection: where the entry finally starts. */
  function WidenDown(zone: int -> int, z: int, low: int, start: int): (s: int)
    decreases start - low
  {
    if low + HOUR >= start then start else
      var t := ProbeBelow(low, start);
      if zone(t) == z then WidenDown(zone, z, low, t) else WidenDown(zone, z, t, start)
  }

  /** The second bisection: where it ends. */
  function WidenUp(zone: int -> int, z: int, high: int, end: int): (e: int)
    decreases high - end
  {
    if high - HOUR <= end then end else
      var t := ProbeAbove(high, end);
      if zone(t) == z then WidenUp(zone, z, high, t) else WidenUp(zone, z, t, end)
  }

  // ---- when a zone changes ----

  ghost predicate Constant(zone: int -> int, a: int, b: int) {
    forall t :: a <= t <= b ==> zone(t) == zone(a)
  }

  /** [a, b] is a stretch of constant zone that cannot be extended on either side. */
  ghost predicate MaximalRun(zone: int -> int, a: int, b: int) {
    a <= b && Constant(zone, a, b) && zone(a - 1) != zone(a) && zone(b + 1) != zone(a)
  }

  /** Every maximal stretch of constant zone lasts at least 7 days. */
  ghost predicate LongRuns(zone: int -> int) {
    forall a, b :: MaximalRun(zone, a, b) ==> b - a + 1 >= MAX_DST_SKIP
  }

  /** Two times of equal zone at most 7 days apart have that zone in between. */
  ghost predicate NoExcursion(zone: int -> int) {
    forall a, t, b :: IsTime(a) && IsTime(b) && a <= t <= b && b - a <= MAX_DST_SKIP && zone(a) == zone(b) ==>
      zone(t) == zone(a)
  }

  /** A maximal stretch of less than 7 days, with a time before it and one behind it. */
  ghost predicate ShortRun(zone: int -> int, a: int, b: int) {
    MaximalRun(zone, a, b) && b - a + 1 < MAX_DST_SKIP && IsTime(a - 1) && IsTime(b + 1)
  }

  /** Every short stretch has 7 days of one zone on either side, as far as times reach. */
  ghost predicate Settled(zone: int -> int) {
    forall a, b :: ShortRun(zone, a, b) ==>
      && (forall t :: IsTime(t) && a - MAX_DST_SKIP <= t < a ==> zone(t) == zone(a - 1))
      && (forall t :: IsTime(t) && b < t <= b + MAX_DST_SKIP ==> zone(t) == zone(b + 1))
  }

  /** A short stretch after which the zone before it comes back. */
  ghost predicate Returns(zone: int -> int, a: int, b: int) {
    ShortRun(zone, a, b) && zone(a - 1) == zone(b + 1)
  }

  lemma {:induction false} RunStart(zone: int -> int, lo: int, t: int) returns (a: int)
    requires lo < t && zone(lo) != zone(t)
    ensures lo < a <= t && Constant(zone, a, t) && zone(a) == zone(t) && zone(a - 1) != zone(t)
    decreases t - lo
  {
    if zone(t - 1) != zone(t) {
      a := t;
    } else {
      a := RunStart(zone, lo, t - 1);
    }
  }

  lemma {:induction false} RunEnd(zone: int -> int, t: int, hi: int) returns (b: int)
    requires t < hi && zone(hi) != zone(t)
    ensures t <= b < hi && Constant(zone, t, b) && zone(b + 1) != zone(t)
    decreases hi - t
  {
    if zone(t + 1) != zone(t) {
      b := t;
    } else {
      b := RunEnd(zone, t + 1, hi);
    }
  }

  /** An excursion to another zone contains a maximal run shorter than itself. */
  lemma ExcursionHasRun(zone: int -> int, a: int, t: int, b: int) returns (s: int, e: int)
    requires a < t < b && zone(a) == zone(b) != zone(t)
    ensures a < s <= e < b && MaximalRun(zone, s, e)
  {
    s := RunStart(zone, a, t);
    e := RunEnd(zone, t, b);
    forall u | s <= u <= e ensures zone(u) == zone(s) {}
  }

  lemma LongRunsNoExcursion(zone: int -> int)
    requires LongRuns(zone)
    ensures NoExcursion(zone)
  {
    forall a, t, b | IsTime(a) && IsTime(b) && a <= t <= b && b - a <= MAX_DST_SKIP && zone(a) == zone(b)
      ensures zone(t) == zone(a)
    {
      if zone(t) != zone(a) { var s, e := ExcursionHasRun(zone, a, t, b); }
    }
  }

  /** Where short stretches are settled, an excursion contains one of them that the zone returns
      from. */
  lemma ExcursionReturns(zone: int -> int, a: int, t: int, b: int) returns (s: int, e: int)
    requires Settled(zone) && IsTime(a) && IsTime(b) && a < t < b && b - a <= MAX_DST_SKIP
    requires zone(a) == zone(b) != zone(t)
    ensures Returns(zone, s, e)
  {
    s, e := ExcursionHasRun(zone, a, t, b);
    assert ShortRun(zone, s, e);
    assert zone(s - 1) == zone(a) && zone(e + 1) == zone(b);
  }

  lemma SettledNoExcursion(zone: int -> int)
    requires Settled(zone) && forall a, b :: !Returns(zone, a, b)
    ensures NoExcursion(zone)
  {
    forall a, t, b | IsTime(a) && IsTime(b) && a <= t <= b && b - a <= MAX_DST_SKIP && zone(a) == zone(b)
      ensures zone(t) == zone(a)
    {
      if zone(t) != zone(a) { var s, e := ExcursionReturns(zone, a, t, b); }
    }
  }

  // ---- the widened entry ----

  /** Both bisections stay on the seed's side of their bound, and add only times of its zone. */
  lemma {:induction false} WidenDownIsConstant(zone: int -> int, z: int, low: int, start: int, end: int)
    requires NoExcursion(zone) && low <= start <= end && IsTime(low) && IsTime(end) && zone(start) == z
    requires forall t :: start <= t <= end ==> zone(t) == z
    ensures var s := WidenDown(zone, z, low, start);
            low <= s <= start && forall t :: s <= t <= end ==> zone(t) == z
    decreases start - low
  {
    if low + HOUR < start {
      var p := ProbeBelow(low, start);
      if zone(p) == z {
        assert forall t :: p <= t <= start ==> zone(t) == zone(p);
        WidenDownIsConstant(zone, z, low, p, end);
      } else {
        WidenDownIsConstant(zone, z, p, start, end);
      }
    }
  }

  lemma {:induction false} WidenUpIsConstant(zone: int -> int, z: int, high: int, start: int, end: int)
    requires NoExcursion(zone) && start <= end <= high && IsTime(start) && IsTime(high) && zone(end) == z
    requires forall t :: start <= t <= end ==> zone(t) == z
    ensures var e := WidenUp(zone, z, high, end);
            end <= e <= high && forall t :: start <= t <= e ==> zone(t) == z
    decreases high - end
  {
    if high - HOUR > end {
      var p := ProbeAbove(high, end);
      if zone(p) == z {
        assert forall t :: end <= t <= p ==> zone(t) == zone(end);
        WidenUpIsConstant(zone, z, high, start, p);
      } else {
        WidenUpIsConstant(zone, z, p, start, end);
      }
    }
  }

  lemma {:induction false} WidenDownInRange(zone: int -> int, z: int, low: int, start: int)
    requires low <= start
    ensures low <= WidenDown(zone, z, low, start) <= start
    decreases start - low
  {
    if low + HOUR < start {
      var p := ProbeBelow(low, start);
      if zone(p) == z { WidenDownInRange(zone, z, low, p); } else { WidenDownInRange(zone, z, p, start); }
    }
  }

  lemma {:induction false} WidenUpInRange(zone: int -> int, z: int, high: int, end: int)
    requires end <= high
    ensures end <= WidenUp(zone, z, high, end) <= high
    decreases high - end
  {
    if high - HOUR > end {
      var p := ProbeAbove(high, end);
      if zone(p) == z { WidenUpInRange(zone, z, high, p); } else { WidenUpInRange(zone, z, p, end); }
    }
  }

  // ---- the cache, as a value ----

  datatype Entry = Entry(start: int, end: int, zone: int)

  predicate Covers(e: Entry, t: int) { e.start <= t <= e.end }

  /** The first entry that covers t, |table| when there is none. */
  function Find(table: seq<Entry>, t: int): (i: nat)
    ensures i <= |table|
    ensures i < |table| ==> Covers(table[i], t)
    ensures forall k :: 0 <= k < i ==> !Covers(table[k], t)
  {
    if table == [] || Covers(table[0], t) then 0 else 1 + Find(table[1..], t)
  }

  function NewEntry(zone: int -> int, t: int): Entry
    requires IsTime(t)
  {
    Entry(WidenDown(zone, zone(t), LowBound(t), t), WidenUp(zone, zone(t), HighBound(t), t), zone(t))
  }

  /** A call: the time asked for, the clock, and whether the table can grow. */
  datatype Call = Call(t: int, now: int, memory: bool)

  predicate Proper(c: Call) { IsTime(c.t) && IsTime(c.now) }

  function Asked(c: Call): int { if c.t == 0 then c.now else c.t }

  function Answer(zone: int -> int, table: seq<Entry>, c: Call): int {
    var i := Find(table, Asked(c));
    if i < |table| then table[i].zone else zone(Asked(c))
  }

  function TableAfter(zone: int -> int, table: seq<Entry>, c: Call): seq<Entry>
    requires Proper(c)
  {
    if Find(table, Asked(c)) < |table| then table
    else if c.memory then table + [NewEntry(zone, Asked(c))]
    else []
  }

  function Answers(zone: int -> int, table: seq<Entry>, cs: seq<Call>): (r: seq<int>)
    requires forall c :: c in cs ==> Proper(c)
    ensures |r| == |cs|
    decreases |cs|
  {
    if cs == [] then [] else
      [Answer(zone, table, cs[0])] + Answers(zone, TableAfter(zone, table, cs[0]), cs[1..])
  }

  // ---- the cache agrees with TimeZone ----

  ghost predicate True(zone: int -> int, e: Entry) {
    forall t :: e.start <= t <= e.end ==> zone(t) == e.zone
  }

  ghost predicate AllTrue(zone: int -> int, table: seq<Entry>) {
    forall e :: e in table ==> True(zone, e)
  }

  /** A new entry covers its seed and reaches at most half of MAX_DST_WIDTH to either side. */
  lemma EntryReach(zone: int -> int, t: int)
    requires IsTime(t)
    ensures var e := NewEntry(zone, t);
            && t - HALF_WIDTH <= e.start <= t <= e.end <= t + HALF_WIDTH
            && IsTime(e.start) && IsTime(e.end)
  {
    WidenDownInRange(zone, zone(t), LowBound(t), t);
    WidenUpInRange(zone, zone(t), HighBound(t), t);
  }

  /** Downwards the start ends at most an hour above its bound, or above a time of another zone. */
  lemma {:induction false} WidenDownIsWidest(zone: int -> int, z: int, low: int, start: int)
    requires low <= start
    ensures var s := WidenDown(zone, z, low, start);
            && (low < start ==> low < s)
            && (s - 3600 <= low || exists p :: low < p < s <= p + 3600 && zone(p) != z)
    decreases start - low
  {
    if low + HOUR < start {
      var p := ProbeBelow(low, start);
      if zone(p) == z {
        WidenDownIsWidest(zone, z, low, p);
      } else {
        WidenDownIsWidest(zone, z, p, start);
        var s := WidenDown(zone, z, p, start);
        if s - 3600 <= p { assert low < p < s <= p + 3600; }
      }
    }
  }

  lemma {:induction false} WidenUpIsWidest(zone: int -> int, z: int, high: int, end: int)
    requires end <= high
    ensures var e := WidenUp(zone, z, high, end);
            && (end < high ==> e < high)
            && (high <= e + 3600 || exists p :: e < p < high && p <= e + 3600 && zone(p) != z)
    decreases high - end
  {
    if high - HOUR > end {
      var p := ProbeAbove(high, end);
      if zone(p) == z {
        WidenUpIsWidest(zone, z, high, p);
      } else {
        WidenUpIsWidest(zone, z, p, end);
        var e := WidenUp(zone, z, p, end);
        if p <= e + 3600 { assert e < p < high && p <= e + 3600; }
      }
    }
  }

  /** A new entry is as wide as its bounds and the zone's changes allow, to within an hour. */
  lemma EntryIsWidest(zone: int -> int, t: int)
    requires IsTime(t)
    ensures var e := NewEntry(zone, t);
      && e.zone == zone(t)
      && (e.start <= LowBound(t) + 3600 || exists p :: p < e.start <= p + 3600 && zone(p) != zone(t))
      && (e.end >= HighBound(t) - 3600 || exists p :: e.end < p <= e.end + 3600 && zone(p) != zone(t))
  {
    WidenDownIsWidest(zone, zone(t), LowBound(t), t);
    WidenUpIsWidest(zone, zone(t), HighBound(t), t);
  }

  /** The time probed next: a week away, or half of what is left when that is nearer. */
  lemma ProbesAreNearest(low: int, start: int, end: int, high: int)
    requires low < start && end < high
    ensures ProbeBelow(low, start) == var half := low + (start - low) / 2; if start - 604800 > half then start - 604800 else half
    ensures ProbeAbove(high, end) == var half := high - (high - end) / 2; if end + 604800 < half then end + 604800 else half
  {
  }

  /** Where the zone does not change an entry moves exactly towards a bound more than an hour away. */
  lemma MovesExactlyWhen(zone: int -> int, z: int, low: int, start: int, end: int, high: int)
    requires low <= start <= end <= high && forall t :: low <= t <= high ==> zone(t) == z
    ensures WidenDown(zone, z, low, start) < start <==> start - low > 3600
    ensures WidenUp(zone, z, high, end) > end <==> high - end > 3600
  {
    WidenDownInRange(zone, z, low, start);
    WidenDownIsWidest(zone, z, low, start);
    WidenUpInRange(zone, z, high, end);
    WidenUpIsWidest(zone, z, high, end);
  }

  /** A time inside an entry, its ends included, is answered from the table, which stays as it is. */
  lemma CachedIsAnswered(zone: int -> int, table: seq<Entry>, c: Call, e: Entry)
    requires Proper(c) && e in table && e.start <= Asked(c) <= e.end
    ensures TableAfter(zone, table, c) == table
    ensures exists d :: d in table && d.start <= Asked(c) <= d.end && Answer(zone, table, c) == d.zone
  {
    var i := Find(table, Asked(c));
    var k :| 0 <= k < |table| && table[k] == e;
    assert Covers(table[k], Asked(c));
    assert table[i] in table;
  }

  lemma EntryIsTrue(zone: int -> int, t: int)
    requires IsTime(t) && NoExcursion(zone)
    ensures True(zone, NewEntry(zone, t))
  {
    var z := zone(t);
    WidenDownIsConstant(zone, z, LowBound(t), t, t);
    var s := WidenDown(zone, z, LowBound(t), t);
    WidenUpIsConstant(zone, z, HighBound(t), s, t);
  }

  /** One call answers right, and leaves a table in which everything is right. */
  lemma AnswerIsRight(zone: int -> int, table: seq<Entry>, c: Call)
    requires Proper(c) && AllTrue(zone, table) && (NoExcursion(zone) || (table == [] && !c.memory))
    ensures Answer(zone, table, c) == zone(Asked(c))
    ensures AllTrue(zone, TableAfter(zone, table, c))
  {
    var i := Find(table, Asked(c));
    if i < |table| {
      assert table[i] in table;
    } else if NoExcursion(zone) {
      EntryIsTrue(zone, Asked(c));
    }
  }

  lemma {:induction false} AnswersAreRight(zone: int -> int, table: seq<Entry>, cs: seq<Call>)
    requires (forall c :: c in cs ==> Proper(c)) && AllTrue(zone, table)
    requires NoExcursion(zone) || (table == [] && forall c :: c in cs ==> !c.memory)
    ensures forall i :: 0 <= i < |cs| ==> Answers(zone, table, cs)[i] == zone(Asked(cs[i]))
    decreases cs
  {
    hide AllTrue, Answer, NoExcursion, Proper;
    if cs != [] {
      var c := cs[0];
      assert c in cs;
      AnswerIsRight(zone, table, c);
      AnswersAreRight(zone, TableAfter(zone, table, c), cs[1..]);
    }
  }

  /** With a Realloc that works, a change of zone and back inside the seven days before s is
      skipped over: asked for s and then for a time x of that excursion, the second answer is
      the zone of s. */
  lemma ShortExcursionIsMissed(zone: int -> int, first: Call, second: Call)
    requires Proper(first) && Proper(second) && first.memory
    requires var s, x := Asked(first), Asked(second);
      && TIME_MIN + 2 * MAX_DST_SKIP < s && s - MAX_DST_SKIP < x < s
      && zone(s - MAX_DST_SKIP) == zone(s) != zone(x)
    ensures Answers(zone, [], [first, second])[1] == zone(Asked(first)) != zone(Asked(second))
  {
    var s := Asked(first);
    var p := s - MAX_DST_SKIP;
    assert ProbeBelow(LowBound(s), s) == p;
    WidenDownInRange(zone, zone(s), LowBound(s), p);
    EntryReach(zone, s);
    SecondIsCovered(zone, first, second);
  }

  /** The same for the seven days behind s. */
  lemma ShortExcursionAheadIsMissed(zone: int -> int, first: Call, second: Call)
    requires Proper(first) && Proper(second) && first.memory
    requires var s, x := Asked(first), Asked(second);
      && s < TIME_MAX - 2 * MAX_DST_SKIP && s < x < s + MAX_DST_SKIP
      && zone(s + MAX_DST_SKIP) == zone(s) != zone(x)
    ensures Answers(zone, [], [first, second])[1] == zone(Asked(first)) != zone(Asked(second))
  {
    var s := Asked(first);
    var p := s + MAX_DST_SKIP;
    assert ProbeAbove(HighBound(s), s) == p;
    WidenUpInRange(zone, zone(s), HighBound(s), p);
    EntryReach(zone, s);
    SecondIsCovered(zone, first, second);
  }

  lemma SecondIsCovered(zone: int -> int, first: Call, second: Call)
    requires Proper(first) && Proper(second) && first.memory
    requires Covers(NewEntry(zone, Asked(first)), Asked(second))
    ensures Answers(zone, [], [first, second])[1] == zone(Asked(first))
  {
    var e := NewEntry(zone, Asked(first));
    var cs := [first, second];
    assert TableAfter(zone, [], cs[0]) == [e];
    assert cs[1..][0] == cs[1] && Find([e], Asked(second)) == 0;
  }

  /** TimeZoneFaster answers every sequence of calls like TimeZone, whichever allocations fail. */
  ghost predicate AlwaysAgrees(zone: int -> int) {
    forall cs :: (forall c :: c in cs ==> Proper(c)) ==> Agrees(zone, cs)
  }

  ghost predicate Agrees(zone: int -> int, cs: seq<Call>)
    requires forall c :: c in cs ==> Proper(c)
  {
    forall i :: 0 <= i < |cs| ==> Answers(zone, [], cs)[i] == zone(if cs[i].t == 0 then cs[i].now else cs[i].t)
  }

  /** After a short stretch that the zone returns from: two calls, the second one answered wrongly. */
  lemma ReturnIsMissed(zone: int -> int, a: int, b: int) returns (cs: seq<Call>)
    requires Settled(zone) && Returns(zone, a, b)
    ensures (forall c :: c in cs ==> Proper(c)) && !Agrees(zone, cs)
  {
    if TIME_MIN + 2 * MAX_DST_SKIP < b + 1 {
      var first, second := Call(b + 1, b + 1, true), Call(b, b, true);
      assert zone(b + 1 - MAX_DST_SKIP) == zone(a - 1);
      ShortExcursionIsMissed(zone, first, second);
      cs := [first, second];
    } else {
      var first, second := Call(a - 1, a - 1, true), Call(a, a, true);
      assert zone(a - 1 + MAX_DST_SKIP) == zone(b + 1);
      ShortExcursionAheadIsMissed(zone, first, second);
      cs := [first, second];
    }
    assert cs[1] in cs && Answers(zone, [], cs)[1] != zone(Asked(cs[1]));
  }

  /** Where short stretches are settled, all answers are right exactly when the zone returns from
      none of them: a short stretch between two different zones does no harm. */
  lemma AgreesExactlyWhen(zone: int -> int)
    requires Settled(zone)
    ensures AlwaysAgrees(zone) <==> forall a, b :: !Returns(zone, a, b)
  {
    if a, b :| Returns(zone, a, b) {
      var cs := ReturnIsMissed(zone, a, b);
    } else {
      SettledNoExcursion(zone);
      forall cs: seq<Call> | forall c :: c in cs ==> Proper(c)
        ensures Agrees(zone, cs)
      {
        AnswersAreRight(zone, [], cs);
      }
    }
  }

  /** In particular when every stretch of constant zone lasts at least 7 days. */
  lemma FasterAgrees(zone: int -> int, cs: seq<Call>)
    requires LongRuns(zone) && forall c :: c in cs ==> Proper(c)
    ensures Agrees(zone, cs)
  {
    AgreesExactlyWhen(zone);
  }

  datatype Pointer = Null | Block(size: nat)

  /** Realloc (system/util.cpp): obtained tells whether malloc or realloc finds the memory. */
  function Realloc(size: nat, obtained: bool): Pointer {
    if size == 0 then Null else
      var ret := if obtained then Block(size) else Null;
      if ret == Null then ret else Null
  }

  /** That Realloc gives out no pointer, so the table never grows, and the answers are right
      whatever the zone does. */
  lemma FasterAgreesAsBuilt(zone: int -> int, cs: seq<Call>, sizes: seq<nat>, obtained: seq<bool>)
    requires |sizes| == |obtained| == |cs| && forall c :: c in cs ==> Proper(c)
    requires forall i :: 0 <= i < |cs| ==> cs[i].memory == Realloc(sizes[i], obtained[i]).Block?
    ensures Agrees(zone, cs)
  {
    AnswersAreRight(zone, [], cs);
  }

  // ---- the code: a static table, grown and then widened in place ----

  class Cache {
    var table: seq<Entry>      // dst_table, table_size entries
    const zone: int -> int     // the platform's TimeZone

    constructor (zone: int -> int)
      ensures table == [] && this.zone == zone
    {
      table := [];
      this.zone := zone;
    }

    /** The first bisection, on the entry just appended. */
    method LowerStart(z: int, bound: int)
      requires table != [] && bound <= table[|table| - 1].start
      modifies this
      ensures var e := old(table)[|old(table)| - 1];
              table == old(table)[|old(table)| - 1 := e.(start := WidenDown(zone, z, bound, e.start))]
    {
      var i := |table| - 1;
      ghost var was := table;
      var low := bound;
      while low + HOUR < table[i].start
        invariant |table| == |was|
        invariant table == was[i := was[i].(start := table[i].start)]
        invariant low <= table[i].start
        invariant WidenDown(zone, z, low, table[i].start) == WidenDown(zone, z, bound, was[i].start)
        decreases table[i].start - low
      {
        var t: int;
        if table[i].start - low > MAX_DST_SKIP * 2 {
          t := table[i].start - MAX_DST_SKIP;
        } else {
          t := low + (table[i].start - low) / 2;
        }
        if zone(t) == z {
          table := table[i := table[i].(start := t)];
        } else {
          low := t;
        }
      }
    }

    /** The second bisection. */
    method RaiseEnd(z: int, bound: int)
      requires table != [] && table[|table| - 1].end <= bound
      modifies this
      ensures var e := old(table)[|old(table)| - 1];
              table == old(table)[|old(table)| - 1 := e.(end := WidenUp(zone, z, bound, e.end))]
    {
      var i := |table| - 1;
      ghost var was := table;
      var high := bound;
      while high - HOUR > table[i].end
        invariant |table| == |was|
        invariant table == was[i := was[i].(end := table[i].end)]
        invariant table[i].end <= high
        invariant WidenUp(zone, z, high, table[i].end) == WidenUp(zone, z, bound, was[i].end)
        decreases high - table[i].end
      {
        var t: int;
        if high - table[i].end > MAX_DST_SKIP * 2 {
          t := table[i].end + MAX_DST_SKIP;
        } else {
          t := high - (high - table[i].end) / 2;
        }
        if zone(t) == z {
          table := table[i := table[i].(end := t)];
        } else {
          high := t;
        }
      }
    }

    /** TimeZoneFaster */
    method TimeZoneFaster(c: Call) returns (z: int)
      requires Proper(c)
      modifies this
      ensures z == Answer(zone, old(table), c)
      ensures table == TableAfter(zone, old(table), c)
    {
      hide WidenDown, WidenUp, Answers, Find;
      var t := if c.t == 0 then c.now else c.t;
      ghost var was := table;
      var i := 0;
      while i < |table| && !(table[i].start <= t && t <= table[i].end)
        invariant i <= |table| && table == was
        invariant forall k :: 0 <= k < i ==> !Covers(table[k], t)
      {
        i := i + 1;
      }
      if i < |table| {
        z := table[i].zone;
        return;
      }
      z := zone(t);
      if !c.memory {
        table := [];
        return;
      }
      table := table + [Entry(t, t, z)];
      var low := Wrap(t - HALF_WIDTH);
      if t < low { low := TIME_MIN; }
      var high := Wrap(t + HALF_WIDTH);
      if high < t { high := TIME_MAX; }
      LowerStart(z, low);
      RaiseEnd(z, high);
      assert table == was + [NewEntry(zone, t)];
    }
  }
}
