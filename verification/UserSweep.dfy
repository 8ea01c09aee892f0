/** The sweep that counts users' time-to-live down and moves expired users offline
    (event/euser.cpp:135-198, 225-232).

    The sweep walks the slots of the user table and stops once it has seen as many taken slots as
    the table's counter says.  Moving a user offline lowers that counter while the walk goes on, so
    a sweep that expires users stops early. */
module UserSweep {
  import opened UserShm

  // What a visit does to a record first; a time-to-live of zero means for ever.
  function Ticked(u: User): User {
    if u.ttl != 0 then u.(ttlv := Dec(u.ttlv)) else u
  }

  // The seconds since login, as an unsigned long.
  function Uptime(u: User, now: nat): nat { (now - u.uptime) % 0x1_0000_0000 }

  // Whether the visited record is moved offline.
  predicate Expires(u: User, now: nat) {
    var v := Ticked(u);
    v.ttlv < 1 && v.uin != 0 && v.ttl != 0 && 0 < Uptime(v, now) < 0x7fff_ffff
  }

  function Visit(t: Tab, i: nat, now: nat): Tab
    requires i < |t.slots|
  {
    var t1 := t.(slots := t.slots[i := Ticked(t.slots[i])]);
    if Expires(t.slots[i], now) then AfterDelete(t1, t.slots[i].uin) else t1
  }

  // What a visit leaves in the slot.
  function AfterVisit(u: User, now: nat): User {
    if Expires(u, now) then FREE else Ticked(u)
  }

  // The table after a sweep, the slots visited and the users moved offline, in order.
  datatype Sweep = Sweep(tab: Tab, visited: seq<nat>, offline: seq<nat>)

  // The sweep from slot i on, with so many users processed; clock[i] is the time at slot i.
  function SweepFrom(t: Tab, i: nat, processed: nat, clock: seq<nat>): (r: Sweep)
    requires i <= |t.slots| <= |clock|
    ensures |r.tab.slots| == |t.slots|
    decreases |t.slots| - i
  {
    if i == |t.slots| || processed >= t.num then Sweep(t, [], [])
    else if t.slots[i].uin == 0 then SweepFrom(t, i + 1, processed, clock)
    else
      var r := SweepFrom(Visit(t, i, clock[i]), i + 1, processed + 1, clock);
      Sweep(r.tab, [i] + r.visited,
            if Expires(t.slots[i], clock[i]) then [t.slots[i].uin] + r.offline else r.offline)
  }

  // A visit in a sound table changes the visited slot and no other, and keeps the table sound.
  lemma VisitIsLocal(t: Tab, i: nat, now: nat)
    requires Sound(t) && i < |t.slots| && t.slots[i].uin != 0
    ensures var t1 := Visit(t, i, now);
      && Sound(t1)
      && t1.slots == t.slots[i := AfterVisit(t.slots[i], now)]
      && t1.num == t.num - (if Expires(t.slots[i], now) then 1 else 0)
  {
    var t0 := t.(slots := t.slots[i := Ticked(t.slots[i])]);
    TakenUpdate(t.slots, i, Ticked(t.slots[i]));
    assert Sound(t0);
    var uin := t.slots[i].uin;
    var j := Find(t0.slots, uin);
    assert t0.slots[i].uin == uin;
    assert j == i;
    DeleteKeepsSound(t0, uin);
    TakenUpdate(t0.slots, i, FREE);
    assert t0.num > 0;
    assert t.slots[i := Ticked(t.slots[i])][i := FREE] == t.slots[i := FREE];
  }

  lemma TakenPrefix(slots: seq<User>, i: nat)
    requires i < |slots|
    ensures Taken(slots[..i + 1]) == Taken(slots[..i]) + if slots[i].uin != 0 then 1 else 0
  {
    assert slots[..i + 1][..i] == slots[..i];
  }

  // ---------------------------------------------------------------- who is visited

  // What a sweep does to the table: the visited slots, and only they, are ticked or freed.
  ghost predicate Effect(t: Tab, i: nat, clock: seq<nat>, r: Sweep)
    requires i <= |t.slots| <= |clock|
  {
    && |r.tab.slots| == |t.slots|
    && Sound(r.tab)
    && (forall k :: 0 <= k < |r.visited| ==> i <= r.visited[k] < |t.slots| && t.slots[r.visited[k]].uin != 0)
    && (forall j, k :: 0 <= j < k < |r.visited| ==> r.visited[j] < r.visited[k])
    && (forall k :: 0 <= k < |t.slots| ==>
          r.tab.slots[k] == if k in r.visited then AfterVisit(t.slots[k], clock[k]) else t.slots[k])
  }

  // Slots are visited in order, so no user twice; what is not visited is not touched.
  lemma {:induction false} SweepEffect(t: Tab, i: nat, processed: nat, clock: seq<nat>)
    requires Sound(t) && i <= |t.slots| <= |clock|
    ensures Effect(t, i, clock, SweepFrom(t, i, processed, clock))
    decreases |t.slots| - i
  {
    hide Sound, Visit, AfterVisit, Expires;
    if i == |t.slots| || processed >= t.num {
    } else if t.slots[i].uin == 0 {
      SweepEffect(t, i + 1, processed, clock);
    } else {
      VisitIsLocal(t, i, clock[i]);
      SweepEffect(Visit(t, i, clock[i]), i + 1, processed + 1, clock);
    }
  }

  // No taken slot is passed over: the visited ones are the first of them.
  lemma {:induction false} NoneIsSkipped(t: Tab, i: nat, processed: nat, clock: seq<nat>, j: nat, k: nat)
    requires Sound(t) && i <= |t.slots| <= |clock|
    requires i <= k < j < |t.slots| && t.slots[k].uin != 0
    requires j in SweepFrom(t, i, processed, clock).visited
    ensures k in SweepFrom(t, i, processed, clock).visited
    decreases |t.slots| - i
  {
    if t.slots[i].uin == 0 {
      NoneIsSkipped(t, i + 1, processed, clock, j, k);
    } else if i != k {
      VisitIsLocal(t, i, clock[i]);
      NoneIsSkipped(Visit(t, i, clock[i]), i + 1, processed + 1, clock, j, k);
    }
  }

  // ---------------------------------------------------------------- how many are missed

  // The taken slots from i on that the rest of the sweep leaves out.
  function MissedIn(t: Tab, i: nat, processed: nat, clock: seq<nat>): int
    requires i <= |t.slots| <= |clock|
  {
    Taken(t.slots) - Taken(t.slots[..i]) - |SweepFrom(t, i, processed, clock).visited|
  }

  // The users the rest of the sweep moves offline.
  function GoneIn(t: Tab, i: nat, processed: nat, clock: seq<nat>): nat
    requires i <= |t.slots| <= |clock|
  {
    |SweepFrom(t, i, processed, clock).offline|
  }

  // The walk is over: by the counter, which the end of the table implies.
  lemma MissedAtEnd(t: Tab, i: nat, processed: nat, clock: seq<nat>)
    requires Sound(t) && i <= |t.slots| <= |clock| && (i == |t.slots| || processed >= t.num)
    ensures MissedIn(t, i, processed, clock) == t.num - Taken(t.slots[..i]) >= 0
    ensures GoneIn(t, i, processed, clock) == 0
    ensures i == |t.slots| ==> Taken(t.slots[..i]) == t.num
  {
    SoundCounts(t);
    TakenSplit(t.slots, i);
    if i == |t.slots| { assert t.slots[..i] == t.slots; }
  }

  lemma MissedAtHole(t: Tab, i: nat, processed: nat, clock: seq<nat>)
    requires Sound(t) && i < |t.slots| <= |clock| && processed < t.num && t.slots[i].uin == 0
    ensures Taken(t.slots[..i + 1]) == Taken(t.slots[..i])
    ensures MissedIn(t, i, processed, clock) == MissedIn(t, i + 1, processed, clock)
    ensures GoneIn(t, i, processed, clock) == GoneIn(t, i + 1, processed, clock)
  {
    hide Taken;
    TakenPrefix(t.slots, i);
  }

  function Out(t: Tab, clock: seq<nat>, i: nat): (n: nat)
    requires i < |t.slots| <= |clock|
    ensures n == if Expires(t.slots[i], clock[i]) then 1 else 0
  {
    if Expires(t.slots[i], clock[i]) then 1 else 0
  }

  // One visit: what is missed, and what is left to do, is what it is behind the slot.
  lemma MissedAtVisit(t: Tab, i: nat, processed: nat, clock: seq<nat>)
    requires Sound(t) && i < |t.slots| <= |clock| && processed < t.num && t.slots[i].uin != 0
    ensures var t1 := Visit(t, i, clock[i]); var out := Out(t, clock, i);
      && Sound(t1) && |t1.slots| == |t.slots| && t1.num == t.num - out && t1.slots[i + 1..] == t.slots[i + 1..]
      && Taken(t1.slots[..i + 1]) == Taken(t.slots[..i]) + 1 - out
      && MissedIn(t, i, processed, clock) == MissedIn(t1, i + 1, processed + 1, clock)
      && GoneIn(t, i, processed, clock) == out + GoneIn(t1, i + 1, processed + 1, clock)
  {
    VisitIsLocal(t, i, clock[i]);
    VisitCounts(t, i, clock[i]);
    hide Sound, Visit, AfterVisit, Expires, Taken;
  }

  // With e users expired so far and the slots before i holding the others processed, the taken
  // slots the rest of the sweep leaves out are as many as the users expired in all, or one fewer.
  lemma {:induction false} MissedFrom(t: Tab, i: nat, processed: nat, e: nat, clock: seq<nat>)
    requires Sound(t) && i <= |t.slots| <= |clock|
    requires Taken(t.slots[..i]) == processed - e && processed <= t.num + 1
    ensures var gone := e + GoneIn(t, i, processed, clock);
      gone - 1 <= MissedIn(t, i, processed, clock) <= gone && 0 <= MissedIn(t, i, processed, clock)
    decreases |t.slots| - i
  {
    hide Sound, Visit, Taken, SweepFrom, MissedIn, GoneIn, Out;
    if i == |t.slots| || processed >= t.num {
      MissedAtEnd(t, i, processed, clock);
    } else if t.slots[i].uin == 0 {
      MissedAtHole(t, i, processed, clock);
      MissedFrom(t, i + 1, processed, e, clock);
    } else {
      MissedAtVisit(t, i, processed, clock);
      MissedFrom(Visit(t, i, clock[i]), i + 1, processed + 1, e + Out(t, clock, i), clock);
    }
  }

  lemma VisitCounts(t: Tab, i: nat, now: nat)
    requires Sound(t) && i < |t.slots| && t.slots[i].uin != 0
    ensures var t1 := Visit(t, i, now);
      var out := if Expires(t.slots[i], now) then 1 else 0;
      && |t1.slots| == |t.slots| && t1.num == t.num - out
      && Taken(t1.slots) == Taken(t.slots) - out
      && Taken(t1.slots[..i + 1]) == Taken(t.slots[..i]) + 1 - out
  {
    VisitIsLocal(t, i, now);
    var t1 := Visit(t, i, now);
    hide Sound, Visit, AfterVisit, Expires, Taken;
    TakenUpdate(t.slots, i, AfterVisit(t.slots[i], now));
    AfterVisitUin(t.slots[i], now);
    TakenPrefix(t1.slots, i);
    assert t1.slots[..i] == t.slots[..i];
  }

  lemma SoundCounts(t: Tab)
    requires Sound(t)
    ensures t.num == Taken(t.slots)
  {}

  lemma AfterVisitUin(u: User, now: nat)
    ensures AfterVisit(u, now).uin == if Expires(u, now) then 0 else u.uin
  {}

  lemma {:induction false} TakenSplit(slots: seq<User>, i: nat)
    requires i <= |slots|
    ensures Taken(slots[..i]) <= Taken(slots)
    decreases |slots|
  {
    if i == |slots| {
      assert slots[..i] == slots;
    } else {
      TakenSplit(slots[..|slots| - 1], i);
      assert slots[..|slots| - 1][..i] == slots[..i];
    }
  }

  // ---------------------------------------------------------------- who is missed exactly

  // What the slots i to k - 1 bring the walk nearer to its end: a taken slot one step, and one that
  // expires another, by lowering the counter.
  function Steps(slots: seq<User>, clock: seq<nat>, i: nat, k: nat): nat
    requires i <= k <= |slots| <= |clock|
    decreases k - i
  {
    if i == k then 0
    else (if slots[i].uin == 0 then 0 else if Expires(slots[i], clock[i]) then 2 else 1) + Steps(slots, clock, i + 1, k)
  }

  // Some number of slots makes exactly so many steps.
  ghost predicate Hits(slots: seq<User>, clock: seq<nat>, i: nat, steps: int)
    requires i <= |slots| <= |clock|
  {
    exists k :: i <= k <= |slots| && Steps(slots, clock, i, k) == steps
  }

  lemma HitsNext(slots: seq<User>, clock: seq<nat>, i: nat, steps: int)
    requires i < |slots| <= |clock| && steps > 0
    ensures var w := if slots[i].uin == 0 then 0 else if Expires(slots[i], clock[i]) then 2 else 1;
      Hits(slots, clock, i, steps) <==> Hits(slots, clock, i + 1, steps - w)
  {
    hide Expires;
    var w := if slots[i].uin == 0 then 0 else if Expires(slots[i], clock[i]) then 2 else 1;
    if Hits(slots, clock, i, steps) {
      var k :| i <= k <= |slots| && Steps(slots, clock, i, k) == steps;
      assert Steps(slots, clock, i + 1, k) == steps - w;
    }
    if Hits(slots, clock, i + 1, steps - w) {
      var k :| i + 1 <= k <= |slots| && Steps(slots, clock, i + 1, k) == steps - w;
      assert Steps(slots, clock, i, k) == steps;
    }
  }

  lemma HitsZero(slots: seq<User>, clock: seq<nat>, i: nat, steps: int)
    requires i <= |slots| <= |clock| && steps <= 0
    ensures Hits(slots, clock, i, steps) <==> steps == 0
  {
    assert Steps(slots, clock, i, i) == 0;
  }

  lemma {:induction false} StepsBehind(a: seq<User>, b: seq<User>, clock: seq<nat>, i: nat, k: nat)
    requires i <= k <= |a| == |b| <= |clock| && a[i..] == b[i..]
    ensures Steps(a, clock, i, k) == Steps(b, clock, i, k)
    decreases k - i
  {
    hide Expires;
    if i < k {
      assert a[i] == a[i..][0] == b[i..][0] == b[i];
      assert a[i + 1..] == a[i..][1..] == b[i..][1..] == b[i + 1..];
      StepsBehind(a, b, clock, i + 1, k);
    }
  }

  lemma HitsBehind(a: seq<User>, b: seq<User>, clock: seq<nat>, i: nat, steps: int)
    requires i <= |a| == |b| <= |clock| && a[i..] == b[i..]
    ensures Hits(a, clock, i, steps) <==> Hits(b, clock, i, steps)
  {
    hide Steps;
    forall k | i <= k <= |a| ensures Steps(a, clock, i, k) == Steps(b, clock, i, k) { StepsBehind(a, b, clock, i, k); }
  }

  // As many are missed as expire exactly when the steps come out even with the counter; one fewer
  // when the last expiry carries the walk past it.
  lemma {:induction false} MissedEvenly(t: Tab, i: nat, processed: nat, e: nat, clock: seq<nat>)
    requires Sound(t) && i <= |t.slots| <= |clock|
    requires Taken(t.slots[..i]) == processed - e && processed <= t.num + 1
    ensures MissedIn(t, i, processed, clock) == e + GoneIn(t, i, processed, clock)
      <==> Hits(t.slots, clock, i, t.num - processed)
    decreases |t.slots| - i
  {
    hide Sound, Visit, Taken, SweepFrom, MissedIn, GoneIn, Expires, Hits, Steps;
    if i == |t.slots| || processed >= t.num {
      MissedAtEnd(t, i, processed, clock);
      HitsZero(t.slots, clock, i, t.num - processed);
    } else if t.slots[i].uin == 0 {
      MissedAtHole(t, i, processed, clock);
      HitsNext(t.slots, clock, i, t.num - processed);
      MissedEvenly(t, i + 1, processed, e, clock);
    } else {
      var t1, out := Visit(t, i, clock[i]), Out(t, clock, i);
      MissedAtVisit(t, i, processed, clock);
      HitsNext(t.slots, clock, i, t.num - processed);
      HitsBehind(t.slots, t1.slots, clock, i + 1, t.num - processed - 1 - out);
      MissedEvenly(t1, i + 1, processed + 1, e + out, clock);
    }
  }

  // Of the taken slots from i on only the last may expire.
  ghost predicate OnlyLastExpires(slots: seq<User>, clock: seq<nat>, i: nat)
    requires i <= |slots| <= |clock|
  {
    forall j, k :: i <= j < k < |slots| && slots[j].uin != 0 && slots[k].uin != 0 ==> !Expires(slots[j], clock[j])
  }

  ghost predicate TakenFrom(slots: seq<User>, i: nat) {
    exists k :: i <= k < |slots| && slots[k].uin != 0
  }

  lemma {:induction false} TakenFromCounts(slots: seq<User>, i: nat)
    requires i <= |slots|
    ensures TakenFrom(slots, i) <==> Taken(slots[..i]) < Taken(slots)
    decreases |slots| - i
  {
    if i == |slots| {
      assert slots[..i] == slots;
    } else {
      hide Taken;
      TakenPrefix(slots, i);
      TakenFromCounts(slots, i + 1);
      TakenSplit(slots, i + 1);
    }
  }

  // Once a user has expired, somebody behind him is missed, if there is anybody.
  lemma {:induction false} ExpiryMisses(t: Tab, i: nat, processed: nat, e: nat, clock: seq<nat>)
    requires Sound(t) && i <= |t.slots| <= |clock| && e >= 1
    requires Taken(t.slots[..i]) == processed - e && processed <= t.num + 1
    requires Taken(t.slots[..i]) < t.num
    ensures MissedIn(t, i, processed, clock) >= 1
    decreases |t.slots| - i
  {
    hide Sound, Visit, Taken, SweepFrom, MissedIn, GoneIn, Out;
    if i == |t.slots| || processed >= t.num {
      MissedAtEnd(t, i, processed, clock);
    } else if t.slots[i].uin == 0 {
      MissedAtHole(t, i, processed, clock);
      ExpiryMisses(t, i + 1, processed, e, clock);
    } else {
      var t1, out := Visit(t, i, clock[i]), Out(t, clock, i);
      MissedAtVisit(t, i, processed, clock);
      if e + out >= 2 {
        MissedFrom(t1, i + 1, processed + 1, e + out, clock);
      } else {
        ExpiryMisses(t1, i + 1, processed + 1, e, clock);
      }
    }
  }

  // With nobody expired yet, nobody is missed exactly when only the last of the rest may expire.
  lemma {:induction false} NobodyMissed(t: Tab, i: nat, processed: nat, clock: seq<nat>)
    requires Sound(t) && i <= |t.slots| <= |clock| && processed == Taken(t.slots[..i])
    ensures MissedIn(t, i, processed, clock) == 0 <==> OnlyLastExpires(t.slots, clock, i)
    decreases |t.slots| - i
  {
    hide Sound, Visit, Taken, SweepFrom, MissedIn, GoneIn, Expires, OnlyLastExpires, TakenFrom;
    SoundCounts(t);
    TakenFromCounts(t.slots, i);
    if i == |t.slots| || processed >= t.num {
      MissedAtEnd(t, i, processed, clock);
      OnlyLastOfNone(t.slots, clock, i);
    } else if t.slots[i].uin == 0 {
      MissedAtHole(t, i, processed, clock);
      OnlyLastAtHole(t.slots, clock, i);
      NobodyMissed(t, i + 1, processed, clock);
    } else {
      NobodyMissedAtVisit(t, i, processed, clock);
      if !Expires(t.slots[i], clock[i]) { NobodyMissed(Visit(t, i, clock[i]), i + 1, processed + 1, clock); }
    }
  }

  lemma NobodyMissedAtVisit(t: Tab, i: nat, processed: nat, clock: seq<nat>)
    requires Sound(t) && i < |t.slots| <= |clock| && processed == Taken(t.slots[..i])
    requires processed < t.num && t.slots[i].uin != 0
    ensures var t1 := Visit(t, i, clock[i]);
      var missed := MissedIn(t, i, processed, clock);
      && Sound(t1) && |t1.slots| == |t.slots|
      && (Expires(t.slots[i], clock[i]) ==> (missed == 0 <==> OnlyLastExpires(t.slots, clock, i)))
      && (!Expires(t.slots[i], clock[i]) ==>
            && Taken(t1.slots[..i + 1]) == processed + 1 && missed == MissedIn(t1, i + 1, processed + 1, clock)
            && (OnlyLastExpires(t.slots, clock, i) <==> OnlyLastExpires(t1.slots, clock, i + 1)))
  {
    hide Sound, Visit, Taken, SweepFrom, MissedIn, GoneIn, Expires, OnlyLastExpires, TakenFrom;
    var t1 := Visit(t, i, clock[i]);
    MissedAtVisit(t, i, processed, clock);
    OnlyLastNext(t.slots, t1.slots, clock, i);
    if Expires(t.slots[i], clock[i]) {
      SoundCounts(t1);
      TakenFromCounts(t1.slots, i + 1);
      SameTakenFrom(t.slots, t1.slots, i + 1);
      if TakenFrom(t1.slots, i + 1) {
        ExpiryMisses(t1, i + 1, processed + 1, 1, clock);
      } else {
        MissedAtEnd(t1, i + 1, processed + 1, clock);
        TakenSplit(t1.slots, i + 1);
      }
    }
  }

  lemma OnlyLastOfNone(slots: seq<User>, clock: seq<nat>, i: nat)
    requires i <= |slots| <= |clock| && !TakenFrom(slots, i)
    ensures OnlyLastExpires(slots, clock, i)
  {}

  lemma OnlyLastAtHole(slots: seq<User>, clock: seq<nat>, i: nat)
    requires i < |slots| <= |clock| && slots[i].uin == 0
    ensures OnlyLastExpires(slots, clock, i) <==> OnlyLastExpires(slots, clock, i + 1)
  {
    hide Expires;
  }

  lemma SameTakenFrom(a: seq<User>, b: seq<User>, i: nat)
    requires i <= |a| == |b| && a[i..] == b[i..]
    ensures TakenFrom(a, i) <==> TakenFrom(b, i)
  {
    assert forall k :: i <= k < |a| ==> a[k] == a[i..][k - i] == b[i..][k - i] == b[k];
  }

  lemma OnlyLastNext(a: seq<User>, b: seq<User>, clock: seq<nat>, i: nat)
    requires i < |a| == |b| <= |clock| && a[i].uin != 0 && a[i + 1..] == b[i + 1..]
    ensures !Expires(a[i], clock[i]) ==>
      (OnlyLastExpires(a, clock, i) <==> OnlyLastExpires(b, clock, i + 1))
    ensures Expires(a[i], clock[i]) ==> (OnlyLastExpires(a, clock, i) <==> !TakenFrom(a, i + 1))
  {
    hide Expires;
    assert forall k :: i < k < |a| ==> a[k] == a[i + 1..][k - i - 1] == b[i + 1..][k - i - 1] == b[k];
  }

  // A whole sweep of a sound table, which moves e users offline, misses e of them when some number
  // of slots makes as many steps as users are online, and e - 1 otherwise.
  lemma SweepMisses(t: Tab, clock: seq<nat>)
    requires Sound(t) && |t.slots| <= |clock|
    ensures var r := SweepFrom(t, 0, 0, clock);
      && t.num - |r.visited| == (if Hits(t.slots, clock, 0, t.num) then |r.offline| else |r.offline| - 1)
      && 0 <= t.num - |r.visited|
      && (r.offline == [] ==> forall k :: 0 <= k < |t.slots| && t.slots[k].uin != 0 ==> k in r.visited)
  {
    assert t.slots[..0] == [];
    SoundCounts(t);
    MissedFrom(t, 0, 0, 0, clock);
    MissedEvenly(t, 0, 0, 0, clock);
    SweepEffect(t, 0, 0, clock);
    AllVisited(t.slots, SweepFrom(t, 0, 0, clock).visited);
    hide Hits, SweepFrom, Sound, Expires, AfterVisit;
  }

  // It visits every online user exactly when no user with another behind him expires.
  lemma SweepVisitsAll(t: Tab, clock: seq<nat>)
    requires Sound(t) && |t.slots| <= |clock|
    ensures (forall k :: 0 <= k < |t.slots| && t.slots[k].uin != 0 ==> k in SweepFrom(t, 0, 0, clock).visited)
      <==> (forall j, k :: 0 <= j < k < |t.slots| && t.slots[j].uin != 0 && t.slots[k].uin != 0 ==>
              !Expires(t.slots[j], clock[j]))
  {
    assert t.slots[..0] == [];
    SoundCounts(t);
    NobodyMissed(t, 0, 0, clock);
    SweepEffect(t, 0, 0, clock);
    AllVisited(t.slots, SweepFrom(t, 0, 0, clock).visited);
    hide Expires;
    assert OnlyLastExpires(t.slots, clock, 0) <==>
      (forall j, k :: 0 <= j < k < |t.slots| && t.slots[j].uin != 0 && t.slots[k].uin != 0 ==>
         !Expires(t.slots[j], clock[j]));
  }

  // Slots visited in increasing order are all the taken ones exactly when they are as many.
  lemma {:induction false} AllVisited(slots: seq<User>, visited: seq<nat>)
    requires forall k :: 0 <= k < |visited| ==> visited[k] < |slots| && slots[visited[k]].uin != 0
    requires forall j, k :: 0 <= j < k < |visited| ==> visited[j] < visited[k]
    ensures |visited| <= Taken(slots)
    ensures |visited| == Taken(slots) <==> forall k :: 0 <= k < |slots| && slots[k].uin != 0 ==> k in visited
    decreases slots
  {
    assert |visited| > 0 ==> slots[visited[|visited| - 1]].uin != 0;
    if slots != [] {
      var last := |slots| - 1;
      var front := slots[..last];
      assert forall k :: 0 <= k < |visited| ==> visited[k] <= visited[|visited| - 1];
      if visited != [] && visited[|visited| - 1] == last {
        var before := visited[..|visited| - 1];
        AllVisited(front, before);
        assert forall k :: 0 <= k < last ==> (k in before <==> k in visited);
      } else {
        AllVisited(front, visited);
        assert last !in visited;
      }
    }
  }

  // The early stop is real: the first of two users expires and the second is not ticked.
  lemma ExpiryHidesAUser(now: nat)
    requires 1 < now < 0x7fff_ffff
    ensures var a := User(1, 0, 5, 1, 1, 0, 0, 0, 0);
      var b := User(2, 1, 5, 5, 1, 0, 0, 0, 0);
      var t := Tab([a, b], 2);
      Sound(t) && SweepFrom(t, 0, 0, [now, now]) == Sweep(Tab([FREE, b], 1), [0], [1])
  {
    var a := User(1, 0, 5, 1, 1, 0, 0, 0, 0);
    var b := User(2, 1, 5, 5, 1, 0, 0, 0, 0);
    var t := Tab([a, b], 2);
    assert [a, b][..1] == [a];
    assert Taken([a]) == 1 by { assert [a][..0] == []; }
    VisitIsLocal(t, 0, now);
    assert Expires(a, now);
    assert Visit(t, 0, now) == Tab([FREE, b], 1);
  }

  // ---------------------------------------------------------------- when a user's time is up

  function TickedTimes(u: User, n: nat): User {
    if n == 0 then u else Ticked(TickedTimes(u, n - 1))
  }

  // The remaining time runs out at visit ttlv and, should the login time forbid the expiry there,
  // only a full turn of the unsigned counter later.
  lemma {:induction false} RunsOutAt(u: User, n: nat)
    requires u.ttl != 0 && u.ttlv < ULONG
    ensures TickedTimes(u, n) == u.(ttlv := (u.ttlv - n) % ULONG)
    ensures TickedTimes(u, n).ttlv < 1 <==> n % ULONG == u.ttlv
    decreases n
  {
    Modulo(u.ttlv, n);
    if n > 0 {
      RunsOutAt(u, n - 1);
      Modulo(u.ttlv, n - 1);
      DecMod(u.ttlv - (n - 1));
    }
  }

  // A user visited at every sweep is moved offline at visit n exactly when n is the time left, up to
  // whole turns of the counter, and the login lies in the past: one who logged in within the
  // second waits for the next turn.
  lemma ExpiresAtVisit(u: User, n: nat, now: nat)
    requires u.ttl != 0 && u.ttlv < ULONG && n >= 1
    ensures Expires(TickedTimes(u, n - 1), now)
      <==> n % ULONG == u.ttlv && u.uin != 0 && 0 < Uptime(u, now) < 0x7fff_ffff
  {
    RunsOutAt(u, n - 1);
    RunsOutAt(u, n);
  }

  lemma DecMod(a: int)
    ensures Dec(a % ULONG) == (a - 1) % ULONG
  {}

  lemma Modulo(v: nat, n: nat)
    requires v < ULONG
    ensures (v - n) % ULONG == 0 <==> n % ULONG == v
  {}

  // ---------------------------------------------------------------- what a sweep does to each user

  // Somebody with this uin is visited and expires.
  ghost predicate Goes(slots: seq<User>, clock: seq<nat>, visited: seq<nat>, uin: nat)
    requires |slots| <= |clock|
  {
    exists k :: 0 <= k < |slots| && k in visited && slots[k].uin == uin && Expires(slots[k], clock[k])
  }

  lemma {:induction false} OfflineAre(t: Tab, i: nat, processed: nat, clock: seq<nat>, uin: nat)
    requires Sound(t) && i <= |t.slots| <= |clock|
    ensures var r := SweepFrom(t, i, processed, clock);
      uin in r.offline <==> Goes(t.slots, clock, r.visited, uin)
    decreases |t.slots| - i
  {
    hide Sound, Visit, AfterVisit, Expires, Goes;
    if i == |t.slots| || processed >= t.num {
      NobodyGoes(t.slots, clock, uin);
    } else if t.slots[i].uin == 0 {
      OfflineAre(t, i + 1, processed, clock, uin);
    } else {
      var t1 := Visit(t, i, clock[i]);
      VisitIsLocal(t, i, clock[i]);
      OfflineAre(t1, i + 1, processed + 1, clock, uin);
      SweepEffect(t1, i + 1, processed + 1, clock);
      GoesFirst(t.slots, t1.slots, i, clock, SweepFrom(t1, i + 1, processed + 1, clock).visited, uin);
    }
  }

  lemma NobodyGoes(slots: seq<User>, clock: seq<nat>, uin: nat)
    requires |slots| <= |clock|
    ensures !Goes(slots, clock, [], uin)
  {}

  lemma GoesFirst(slots: seq<User>, slots1: seq<User>, i: nat, clock: seq<nat>, rest: seq<nat>, uin: nat)
    requires i < |slots| <= |clock| && |slots1| == |slots|
    requires forall k :: 0 <= k < |slots| && k != i ==> slots1[k] == slots[k]
    requires forall k :: 0 <= k < |rest| ==> i + 1 <= rest[k]
    ensures Goes(slots, clock, [i] + rest, uin)
      <==> (slots[i].uin == uin && Expires(slots[i], clock[i])) || Goes(slots1, clock, rest, uin)
  {
    hide Expires;
    assert forall k :: k in [i] + rest <==> k == i || k in rest;
    assert i !in rest;
  }

  // The slot after a sweep, and whether its user is moved offline.
  lemma SweepAt(t: Tab, clock: seq<nat>, k: nat)
    requires Sound(t) && k < |t.slots| <= |clock| && t.slots[k].uin != 0
    ensures var r, u := SweepFrom(t, 0, 0, clock), t.slots[k];
      && Sound(r.tab)
      && r.tab.slots[k] == (if k in r.visited then AfterVisit(u, clock[k]) else u)
      && (u.uin in r.offline <==> k in r.visited && Expires(u, clock[k]))
  {
    hide SweepFrom, AfterVisit, Expires;
    SweepEffect(t, 0, 0, clock);
    OfflineAre(t, 0, 0, clock, t.slots[k].uin);
    OnlySlot(t, k);
  }

  lemma OnlySlot(t: Tab, k: nat)
    requires Sound(t) && k < |t.slots| && t.slots[k].uin != 0
    ensures forall j :: 0 <= j < |t.slots| && t.slots[j].uin == t.slots[k].uin ==> j == k
  {
  }

  lemma VisitDecides(u: User, now: nat)
    requires u.uin != 0 && (u.ttl == 0 || u.ttlv < 0x1_0000_0000)
    ensures var left, up := (u.ttlv - 1) % 0x1_0000_0000, (now - u.uptime) % 0x1_0000_0000;
      if u.ttl == 0 then AfterVisit(u, now) == u && !Expires(u, now)
      else if left == 0 && 0 < up < 0x7fff_ffff then AfterVisit(u, now).uin == 0 && Expires(u, now)
      else AfterVisit(u, now) == u.(ttlv := left) && !Expires(u, now)
  {}

  // What a whole sweep makes of the user in slot k: one with a time-to-live of zero stays as he is;
  // of the others, one that the sweep reaches has a second less left, and is moved offline exactly
  // when none is left and he logged in between a second and 2^31 seconds ago; one that it does not
  // reach stays as he is.
  lemma SweepDecides(t: Tab, clock: seq<nat>, k: nat)
    requires Sound(t) && k < |t.slots| <= |clock| && t.slots[k].uin != 0
    requires t.slots[k].ttl == 0 || t.slots[k].ttlv < 0x1_0000_0000
    ensures var r, u := SweepFrom(t, 0, 0, clock), t.slots[k];
      var left, up := (u.ttlv - 1) % 0x1_0000_0000, (clock[k] - u.uptime) % 0x1_0000_0000;
      Sound(r.tab)
      && if u.ttl == 0 || k !in r.visited then r.tab.slots[k] == u && u.uin !in r.offline
         else if left == 0 && 0 < up < 0x7fff_ffff then r.tab.slots[k].uin == 0 && u.uin in r.offline
         else r.tab.slots[k] == u.(ttlv := left) && u.uin !in r.offline
  {
    hide Sound, SweepFrom, AfterVisit, Expires;
    SweepAt(t, clock, k);
    VisitDecides(t.slots[k], clock[k]);
  }

  // The sweeps of one second after the other.
  function Sweeps(t: Tab, clocks: seq<seq<nat>>): Tab
    requires forall c :: c in clocks ==> |t.slots| <= |c|
    decreases clocks
  {
    if clocks == [] then t else Sweeps(SweepFrom(t, 0, 0, clocks[0]).tab, clocks[1..])
  }

  // A user without a time-to-live is never moved offline, however many sweeps there are.
  lemma {:induction false} NoTtlStays(t: Tab, clocks: seq<seq<nat>>, k: nat)
    requires Sound(t) && (forall c :: c in clocks ==> |t.slots| <= |c|)
    requires k < |t.slots| && t.slots[k].uin != 0 && t.slots[k].ttl == 0
    ensures var r := Sweeps(t, clocks); |r.slots| == |t.slots| && Sound(r) && r.slots[k] == t.slots[k]
    decreases clocks
  {
    hide Sound, SweepFrom;
    if clocks != [] {
      SweepDecides(t, clocks[0], k);
      NoTtlStays(SweepFrom(t, 0, 0, clocks[0]).tab, clocks[1..], k);
    }
  }

  // ---------------------------------------------------------------- in place

  // The body of the loop, for a taken slot.
  method VisitSlot(table: Table, i: nat, now: nat) returns (out: bool)
    requires i < table.slots.Length && table.slots[i].uin != 0
    modifies table`onlineUsrNum, table.slots
    ensures table.Value() == Visit(old(table.Value()), i, now)
    ensures out == Expires(old(table.slots[i]), now)
  {
    out := false;
    var user := table.slots[i];
    if user.ttl != 0 { table.slots[i] := user.(ttlv := Dec(user.ttlv)); }
    assert table.Value() == old(table.Value()).(slots := old(table.Value()).slots[i := Ticked(user)]);
    user := table.slots[i];
    if user.ttlv < 1 && user.uin != 0 && user.ttl != 0 {
      var uptime := (now - user.uptime) % 0x1_0000_0000;
      if uptime < 0x7fff_ffff && uptime > 0 {
        MoveUserOffline(table, user.uin);
        out := true;
      }
    }
  }

  // online_cache_decrement, with no other process touching the table meanwhile.
  method OnlineCacheDecrement(table: Table, clock: seq<nat>) returns (offline: seq<nat>)
    requires |clock| >= table.slots.Length
    modifies table`onlineUsrNum, table.slots
    ensures table.Value() == SweepFrom(old(table.Value()), 0, 0, clock).tab
    ensures offline == SweepFrom(old(table.Value()), 0, 0, clock).offline
  {
    var overhead, processed := table.slots.Length, 0;
    offline := [];
    hide Visit, Expires, AfterVisit;
    ghost var whole := SweepFrom(table.Value(), 0, 0, clock);
    var i := 0;
    while i < overhead
      invariant 0 <= i <= overhead
      invariant var r := SweepFrom(table.Value(), i, processed, clock);
        whole.tab == r.tab && whole.offline == offline + r.offline
    {
      if processed >= table.onlineUsrNum { break; }
      var user := table.slots[i];
      if user.uin == 0 {
        i := i + 1;
        continue;
      }
      processed := processed + 1;
      var out := VisitSlot(table, i, clock[i]);
      if out { offline := offline + [user.uin]; }
      i := i + 1;
    }
  }

  // move_user_offline, as far as the table goes.
  method MoveUserOffline(table: Table, uin: nat)
    modifies table`onlineUsrNum, table.slots
    ensures table.Value() == AfterDelete(old(table.Value()), uin)
  {
    var _ := table.Delete(uin);
  }
}
