/** The table of online users in shared memory (system/util_shm.cpp:37-126, 201-240, 281-291).

    The table has holes: a slot whose uin is zero is free.  A separate counter says how many slots
    are taken.  The functions give what each operation does to the table as a value; the methods of
    class Table do it in place and are proved against them. */
module UserShm {
  // One past the largest unsigned long of four bytes.
  const ULONG: nat := 0x1_0000_0000

  datatype User = User(uin: nat, shmIndex: nat, ttl: nat, ttlv: nat, uptime: nat, lutime: nat,
                       sockHdl: nat, sockRnd: nat, data: nat)

  // A slot after bzero.
  const FREE: User := User(0, 0, 0, 0, 0, 0, 0, 0, 0)

  datatype Tab = Tab(slots: seq<User>, num: nat)

  // The first slot with the uin, or the number of slots.
  function Find(slots: seq<User>, uin: nat): (i: nat)
    ensures i <= |slots|
    ensures i < |slots| ==> slots[i].uin == uin
    ensures forall j :: 0 <= j < i ==> slots[j].uin != uin
  {
    if slots == [] || slots[0].uin == uin then 0 else 1 + Find(slots[1..], uin)
  }

  function Taken(slots: seq<User>): (n: nat)
    ensures n <= |slots|
  {
    if slots == [] then 0
    else Taken(slots[..|slots| - 1]) + if slots[|slots| - 1].uin != 0 then 1 else 0
  }

  // The counter is right, every taken slot stores its own index, and no user has two slots.
  predicate Sound(t: Tab) {
    && t.num == Taken(t.slots)
    && (forall i :: 0 <= i < |t.slots| && t.slots[i].uin != 0 ==> t.slots[i].shmIndex == i)
    && (forall i, j :: 0 <= i < j < |t.slots| && t.slots[i].uin != 0 ==> t.slots[i].uin != t.slots[j].uin)
  }

  // What an add attempt comes to.
  datatype Outcome = Added(index: nat) | Full | NoFreeSlot

  function AddOutcome(t: Tab, u: User): Outcome {
    if t.num >= |t.slots| then Full
    else if Find(t.slots, 0) < |t.slots| then Added(Find(t.slots, 0))
    else NoFreeSlot
  }

  // shm_add
  function AfterAdd(t: Tab, u: User): Tab {
    match AddOutcome(t, u)
    case Full => t
    case NoFreeSlot => t.(num := t.num + 1)
    case Added(i) => if i < |t.slots| then Tab(t.slots[i := u.(shmIndex := i)], t.num + 1) else t
  }

  // shm_delete
  function AfterDelete(t: Tab, uin: nat): Tab {
    var i := Find(t.slots, uin);
    if i < |t.slots| then Tab(t.slots[i := FREE], Dec(t.num)) else t
  }

  // An unsigned long counted down.
  function Dec(n: nat): nat { if n == 0 then ULONG - 1 else n - 1 }

  // shm_user_update: every slot with the uin; the ttl that is passed in is not used.
  function AfterUpdate(t: Tab, uin: nat, now: nat): Tab {
    t.(slots := seq(|t.slots|, i requires 0 <= i < |t.slots| => Refreshed(t.slots[i], uin, now)))
  }

  function Refreshed(u: User, uin: nat, now: nat): User {
    if u.uin == uin then u.(ttlv := u.ttl, lutime := now) else u
  }

  // shm_iget_user: the hint first, the scan when it misses.
  function FindHinted(slots: seq<User>, uin: nat, hint: nat): (i: nat)
    ensures i <= |slots|
  {
    if hint < |slots| && slots[hint].uin == uin then hint else Find(slots, uin)
  }

  // ---------------------------------------------------------------- counting

  lemma {:induction false} TakenUpdate(slots: seq<User>, i: nat, u: User)
    requires i < |slots|
    ensures Taken(slots[i := u]) + (if slots[i].uin != 0 then 1 else 0)
         == Taken(slots) + (if u.uin != 0 then 1 else 0)
  {
    var last := |slots| - 1;
    if i == last {
      assert slots[i := u][..last] == slots[..last];
    } else {
      TakenUpdate(slots[..last], i, u);
      assert slots[i := u][..last] == slots[..last][i := u];
    }
  }

  lemma {:induction false} TakenIsFull(slots: seq<User>)
    ensures Taken(slots) == |slots| <==> Find(slots, 0) == |slots|
  {
    if slots != [] {
      var front := slots[..|slots| - 1];
      TakenIsFull(front);
      if Find(slots, 0) < |slots| - 1 { assert front[Find(slots, 0)].uin == 0; }
      if Find(front, 0) < |front| { assert slots[Find(front, 0)].uin == 0; }
    }
  }

  // ---------------------------------------------------------------- what keeps the table sound

  // In a sound table the counter tells exactly whether there is a free slot.
  lemma FreeSlotIsFound(t: Tab, u: User)
    requires Sound(t)
    ensures AddOutcome(t, u) != NoFreeSlot
    ensures AddOutcome(t, u) == Full <==> (forall i :: 0 <= i < |t.slots| ==> t.slots[i].uin != 0)
  {
    TakenIsFull(t.slots);
    if Find(t.slots, 0) < |t.slots| { assert t.slots[Find(t.slots, 0)].uin == 0; }
  }

  // Adding keeps the table sound exactly when it is refused or the uin is a new one and not zero.
  lemma AddKeepsSound(t: Tab, u: User)
    requires Sound(t)
    ensures Sound(AfterAdd(t, u)) <==>
      AddOutcome(t, u) == Full || (u.uin != 0 && Find(t.slots, u.uin) == |t.slots|)
  {
    FreeSlotIsFound(t, u);
    if AddOutcome(t, u).Added? {
      var i := Find(t.slots, 0);
      var t1 := AfterAdd(t, u);
      TakenUpdate(t.slots, i, u.(shmIndex := i));
      if u.uin != 0 && Find(t.slots, u.uin) < |t.slots| {
        var j := Find(t.slots, u.uin);
        assert t1.slots[j].uin == u.uin == t1.slots[i].uin && i != j;
        if i < j { assert t1.slots[i].uin == t1.slots[j].uin; } else { assert t1.slots[j].uin == t1.slots[i].uin; }
        assert !Sound(t1);
      }
    }
  }

  // Deleting keeps the table sound exactly when it is not uin zero with a free slot about: that
  // would free nothing and still count one user less.
  lemma DeleteKeepsSound(t: Tab, uin: nat)
    requires Sound(t)
    ensures Sound(AfterDelete(t, uin)) <==> uin != 0 || Find(t.slots, 0) == |t.slots|
  {
    var i := Find(t.slots, uin);
    if i < |t.slots| {
      TakenUpdate(t.slots, i, FREE);
    }
  }

  lemma UpdateKeepsSound(t: Tab, uin: nat, now: nat)
    requires Sound(t)
    ensures Sound(AfterUpdate(t, uin, now))
  {
    TakenOfUpdated(t.slots, AfterUpdate(t, uin, now).slots);
  }

  lemma {:induction false} TakenOfUpdated(a: seq<User>, b: seq<User>)
    requires |a| == |b| && forall i :: 0 <= i < |a| ==> a[i].uin == b[i].uin
    ensures Taken(a) == Taken(b)
  {
    if a != [] { TakenOfUpdated(a[..|a| - 1], b[..|b| - 1]); }
  }

  // In a sound table an update reaches the user's one slot and no other.
  lemma UpdateReachesOne(t: Tab, uin: nat, now: nat)
    requires Sound(t) && uin != 0
    ensures var i := Find(t.slots, uin);
      AfterUpdate(t, uin, now).slots ==
        if i < |t.slots| then t.slots[i := t.slots[i].(ttlv := t.slots[i].ttl, lutime := now)] else t.slots
  {}

  // ---------------------------------------------------------------- runs

  datatype Event = Add(user: User) | Delete(uin: nat) | Update(uin: nat, now: nat)

  function Step(t: Tab, e: Event): Tab {
    match e
    case Add(u) => AfterAdd(t, u)
    case Delete(uin) => AfterDelete(t, uin)
    case Update(uin, now) => AfterUpdate(t, uin, now)
  }

  function Run(t: Tab, events: seq<Event>): Tab
    decreases events
  {
    if events == [] then t else Run(Step(t, events[0]), events[1..])
  }

  // What callers of the table keep to: non-zero uins, and only users not there are added.
  predicate Proper(t: Tab, e: Event) {
    match e
    case Add(u) => u.uin != 0 && Find(t.slots, u.uin) == |t.slots|
    case Delete(uin) => uin != 0
    case Update(_, _) => true
  }

  predicate ProperRun(t: Tab, events: seq<Event>)
    decreases events
  {
    events == [] || (Proper(t, events[0]) && ProperRun(Step(t, events[0]), events[1..]))
  }

  lemma {:induction false} RunKeepsSound(t: Tab, events: seq<Event>)
    requires Sound(t) && ProperRun(t, events)
    ensures Sound(Run(t, events)) && |Run(t, events).slots| == |t.slots|
    decreases events
  {
    if events != [] {
      StepKeepsSound(t, events[0]);
      RunKeepsSound(Step(t, events[0]), events[1..]);
    }
  }

  lemma StepKeepsSound(t: Tab, e: Event)
    requires Sound(t) && Proper(t, e)
    ensures Sound(Step(t, e)) && |Step(t, e).slots| == |t.slots|
  {
    match e {
      case Add(u) => AddKeepsSound(t, u);
      case Delete(uin) => DeleteKeepsSound(t, uin);
      case Update(uin, now) => UpdateKeepsSound(t, uin, now);
    }
  }

  lemma {:induction false} EmptyIsSound(n: nat)
    ensures Sound(Tab(seq(n, _ => FREE), 0))
    decreases n
  {
    if n > 0 {
      EmptyIsSound(n - 1);
      assert seq(n, _ => FREE)[..n - 1] == seq(n - 1, _ => FREE);
    }
  }

  // ---------------------------------------------------------------- the table is a map

  // A record without its place.
  function Rec(u: User): User { u.(shmIndex := 0) }

  // What the operations are to do: a map from uins to records, of so many entries at most.
  function MapStep(m: map<nat, User>, capacity: nat, e: Event): map<nat, User> {
    match e
    case Add(u) => if |m| < capacity then m[u.uin := Rec(u)] else m
    case Delete(uin) => m - {uin}
    case Update(uin, now) => if uin in m then m[uin := m[uin].(ttlv := m[uin].ttl, lutime := now)] else m
  }

  function MapRun(m: map<nat, User>, capacity: nat, events: seq<Event>): map<nat, User>
    decreases events
  {
    if events == [] then m else MapRun(MapStep(m, capacity, events[0]), capacity, events[1..])
  }

  // Every taken slot holds its record of the map.
  ghost predicate Stored(slots: seq<User>, m: map<nat, User>) {
    forall i :: 0 <= i < |slots| && slots[i].uin != 0 ==> slots[i].uin in m && m[slots[i].uin] == Rec(slots[i])
  }

  ghost predicate HasSlot(slots: seq<User>, uin: nat) {
    exists i :: 0 <= i < |slots| && slots[i].uin == uin
  }

  ghost predicate Listed(slots: seq<User>, m: map<nat, User>) {
    forall k :: k in m ==> k != 0 && HasSlot(slots, k)
  }

  ghost predicate OneSlotEach(slots: seq<User>) {
    forall i, j :: 0 <= i < j < |slots| && slots[i].uin != 0 ==> slots[i].uin != slots[j].uin
  }

  ghost predicate Holds(t: Tab, m: map<nat, User>) {
    t.num == |m| && Stored(t.slots, m) && Listed(t.slots, m)
  }

  lemma HasSlotAfter(slots: seq<User>, i: nat, u: User, k: nat)
    requires i < |slots|
    ensures HasSlot(slots, k) && slots[i].uin != k ==> HasSlot(slots[i := u], k)
    ensures u.uin == k ==> HasSlot(slots[i := u], k)
  {
    if u.uin == k { assert slots[i := u][i].uin == k; }
    if HasSlot(slots, k) && slots[i].uin != k {
      var j :| 0 <= j < |slots| && slots[j].uin == k;
      assert slots[i := u][j].uin == k;
    }
  }

  // A record put into a free slot, or in place of the user's own.
  lemma PutHolds(slots: seq<User>, i: nat, u: User, m: map<nat, User>)
    requires i < |slots| && Stored(slots, m) && Listed(slots, m) && OneSlotEach(slots) && u.uin != 0
    requires if slots[i].uin == 0 then u.uin !in m else u.uin == slots[i].uin
    ensures Stored(slots[i := u], m[u.uin := Rec(u)]) && Listed(slots[i := u], m[u.uin := Rec(u)])
  {
    hide HasSlot;
    var after, records := slots[i := u], m[u.uin := Rec(u)];
    forall k | k in records ensures k != 0 && HasSlot(after, k) { HasSlotAfter(slots, i, u, k); }
  }

  // A slot freed.
  lemma FreeHolds(slots: seq<User>, i: nat, m: map<nat, User>)
    requires i < |slots| && Stored(slots, m) && Listed(slots, m) && OneSlotEach(slots) && slots[i].uin != 0
    ensures Stored(slots[i := FREE], m - {slots[i].uin}) && Listed(slots[i := FREE], m - {slots[i].uin})
  {
    hide HasSlot;
    forall k | k in m - {slots[i].uin} ensures k != 0 && HasSlot(slots[i := FREE], k) {
      HasSlotAfter(slots, i, FREE, k);
    }
  }

  lemma FindIsSlot(slots: seq<User>, uin: nat)
    ensures Find(slots, uin) < |slots| <==> HasSlot(slots, uin)
  {
  }

  // Found in the table exactly when it is in the map.
  lemma FoundIsIn(t: Tab, m: map<nat, User>, uin: nat)
    requires Holds(t, m) && uin != 0
    ensures Find(t.slots, uin) < |t.slots| <==> uin in m
    ensures uin in m ==> m[uin] == Rec(t.slots[Find(t.slots, uin)])
  {
    FindIsSlot(t.slots, uin);
  }

  lemma SoundIsOneEach(t: Tab)
    requires Sound(t)
    ensures OneSlotEach(t.slots)
  {
  }

  lemma AddIsMap(t: Tab, m: map<nat, User>, u: User)
    requires Sound(t) && Proper(t, Add(u)) && Holds(t, m)
    ensures Holds(AfterAdd(t, u), MapStep(m, |t.slots|, Add(u)))
  {
    hide Sound, Stored, Listed, OneSlotEach;
    FreeSlotIsFound(t, u);
    SoundIsOneEach(t);
    FoundIsIn(t, m, u.uin);
    if AddOutcome(t, u).Added? {
      var i := AddOutcome(t, u).index;
      PutHolds(t.slots, i, u.(shmIndex := i), m);
      assert |m[u.uin := Rec(u)]| == |m| + 1;
    }
  }

  lemma DeleteIsMap(t: Tab, m: map<nat, User>, uin: nat)
    requires Sound(t) && uin != 0 && Holds(t, m)
    ensures Holds(AfterDelete(t, uin), m - {uin})
  {
    hide Sound, Stored, Listed, OneSlotEach;
    SoundIsOneEach(t);
    FoundIsIn(t, m, uin);
    var i := Find(t.slots, uin);
    if i < |t.slots| {
      FreeHolds(t.slots, i, m);
      WithoutOne(m, uin);
    } else {
      assert m - {uin} == m;
    }
  }

  lemma WithoutOne(m: map<nat, User>, k: nat)
    requires k in m
    ensures |m| > 0 && |m - {k}| == |m| - 1
  {
    assert (m - {k}).Keys == m.Keys - {k};
    assert |m.Keys| == |m| && |(m - {k}).Keys| == |m - {k}|;
  }

  lemma UpdateIsMap(t: Tab, m: map<nat, User>, uin: nat, now: nat)
    requires Sound(t) && Holds(t, m)
    ensures Holds(AfterUpdate(t, uin, now), MapStep(m, |t.slots|, Update(uin, now)))
  {
    if uin == 0 {
      UpdateOfNobody(t, m, now);
    } else {
      UpdateReachesOne(t, uin, now);
      SoundIsOneEach(t);
      FoundIsIn(t, m, uin);
      hide Sound, Stored, Listed, OneSlotEach;
      var i := Find(t.slots, uin);
      if i < |t.slots| {
        var u := t.slots[i].(ttlv := t.slots[i].ttl, lutime := now);
        PutHolds(t.slots, i, u, m);
        assert m[uin := Rec(u)].Keys == m.Keys && |m[uin := Rec(u)].Keys| == |m[uin := Rec(u)]| && |m.Keys| == |m|;
      }
    }
  }

  // An update for uin zero writes into free slots, which no lookup of a user sees.
  lemma UpdateOfNobody(t: Tab, m: map<nat, User>, now: nat)
    requires Holds(t, m)
    ensures Holds(AfterUpdate(t, 0, now), MapStep(m, |t.slots|, Update(0, now)))
  {
    var slots := AfterUpdate(t, 0, now).slots;
    forall k | k in m ensures k != 0 && HasSlot(slots, k) {
      var i :| 0 <= i < |t.slots| && t.slots[i].uin == k;
      assert slots[i].uin == k;
    }
  }

  // Over every run of proper operations the table, holes and hints and counter, is the map.
  lemma {:induction false} RunIsMap(t: Tab, m: map<nat, User>, events: seq<Event>)
    requires Sound(t) && ProperRun(t, events) && Holds(t, m)
    ensures Holds(Run(t, events), MapRun(m, |t.slots|, events))
    decreases events
  {
    hide Sound, Holds;
    if events != [] {
      var e := events[0];
      StepKeepsSound(t, e);
      match e {
        case Add(u) => AddIsMap(t, m, u);
        case Delete(uin) => DeleteIsMap(t, m, uin);
        case Update(uin, now) => UpdateIsMap(t, m, uin, now);
      }
      RunIsMap(Step(t, e), MapStep(m, |t.slots|, e), events[1..]);
    }
  }

  // And every lookup in it is a lookup in the map.
  lemma LookupIsMap(t: Tab, m: map<nat, User>, uin: nat, hint: nat)
    requires Sound(t) && Holds(t, m) && uin != 0
    ensures var i := FindHinted(t.slots, uin, hint);
      if uin in m then i < |t.slots| && Rec(t.slots[i]) == m[uin] && t.slots[i].shmIndex == i
      else i == |t.slots|
  {
    HintDoesNotMatter(t, uin, hint);
    FoundIsIn(t, m, uin);
  }

  // From the cleared table, whatever callers do properly: no user has two records, a record found
  // through any index hint is the one the scan finds, and an add fails only when every slot is
  // taken - the branch for a counter that promises a free slot there is not cannot be reached.
  lemma AfterAnyRun(n: nat, events: seq<Event>, u: User, hint: nat)
    requires ProperRun(Tab(seq(n, _ => FREE), 0), events) && u.uin != 0
    ensures var t := Run(Tab(seq(n, _ => FREE), 0), events);
      && Sound(t)
      && FindHinted(t.slots, u.uin, hint) == Find(t.slots, u.uin)
      && AddOutcome(t, u) != NoFreeSlot
  {
    EmptyIsSound(n);
    var empty := Tab(seq(n, _ => FREE), 0);
    RunKeepsSound(empty, events);
    HintDoesNotMatter(Run(empty, events), u.uin, hint);
    FreeSlotIsFound(Run(empty, events), u);
  }

  lemma HintDoesNotMatter(t: Tab, uin: nat, hint: nat)
    requires Sound(t) && uin != 0
    ensures FindHinted(t.slots, uin, hint) == Find(t.slots, uin)
  {
    assert forall i :: 0 <= i < hint < |t.slots| && t.slots[hint].uin == uin ==> t.slots[i].uin != uin;
  }

  // For uin zero the hint can matter: two free slots, and a hint at the second.
  lemma HintMattersForZero()
    ensures var t := Tab([FREE, FREE], 0); Sound(t) && FindHinted(t.slots, 0, 1) != Find(t.slots, 0)
  {
    var t := Tab([FREE, FREE], 0);
    EmptyIsSound(2);
    assert t.slots == seq(2, _ => FREE);
  }

  // An added user is found in the slot it was told, until it is deleted; the others stay.
  lemma AddThenFind(t: Tab, u: User)
    requires Sound(t) && u.uin != 0 && Find(t.slots, u.uin) == |t.slots| && AddOutcome(t, u).Added?
    ensures var t1 := AfterAdd(t, u);
      && Find(t1.slots, u.uin) == AddOutcome(t, u).index
      && t1.slots[AddOutcome(t, u).index] == u.(shmIndex := AddOutcome(t, u).index)
      && AfterDelete(t1, u.uin).num == t.num
      && (forall uin :: uin != 0 && uin != u.uin ==> Find(t1.slots, uin) == Find(t.slots, uin))
  {
    var i := Find(t.slots, 0);
    var t1 := AfterAdd(t, u);
    assert t1.slots[i].uin == u.uin;
    assert forall j :: 0 <= j < i ==> t1.slots[j] == t.slots[j];
    forall uin | uin != 0 && uin != u.uin ensures Find(t1.slots, uin) == Find(t.slots, uin) {
      var j := Find(t.slots, uin);
      if j < |t.slots| { assert t1.slots[j] == t.slots[j]; }
      var k := Find(t1.slots, uin);
      if k < |t.slots| { assert t1.slots[k] == t.slots[k]; }
    }
  }

  // ---------------------------------------------------------------- in place

  class Table {
    const slots: array<User>
    var onlineUsrNum: nat

    constructor (maxUserCnt: nat)
      ensures fresh(slots) && Value() == Tab(seq(maxUserCnt, _ => FREE), 0)
    {
      slots := new User[maxUserCnt](_ => FREE);
      onlineUsrNum := 0;
    }

    ghost function Value(): Tab
      reads this, slots
    {
      Tab(slots[..], onlineUsrNum)
    }

    // shm_add; the index goes back into the caller's record too.
    method Add(user: User) returns (ok: bool, stored: User)
      modifies this`onlineUsrNum, slots
      ensures Value() == AfterAdd(old(Value()), user)
      ensures ok == AddOutcome(old(Value()), user).Added?
      ensures ok ==> stored == user.(shmIndex := AddOutcome(old(Value()), user).index)
      ensures !ok ==> stored == user
    {
      ok, stored := false, user;
      if onlineUsrNum < slots.Length {
        onlineUsrNum := onlineUsrNum + 1;
        for i := 0 to slots.Length
          invariant slots[..] == old(slots[..])
          invariant forall j :: 0 <= j < i ==> slots[j].uin != 0
        {
          if slots[i].uin == 0 {
            assert Find(slots[..], 0) == i;
            slots[i] := user.(shmIndex := i);
            return true, user.(shmIndex := i);
          }
        }
      }
    }

    // shm_lookup; false means found.
    method Lookup(uin: nat) returns (missing: bool, user: User)
      ensures missing == (Find(slots[..], uin) == slots.Length)
      ensures !missing ==> user == slots[Find(slots[..], uin)]
    {
      var i := GetUser(uin);
      missing, user := i == slots.Length, FREE;
      if i < slots.Length { user := slots[i]; }
    }

    // shm_delete
    method Delete(uin: nat) returns (ok: bool)
      modifies this`onlineUsrNum, slots
      ensures Value() == AfterDelete(old(Value()), uin)
      ensures ok == (Find(old(slots[..]), uin) < slots.Length)
    {
      for i := 0 to slots.Length
        invariant Value() == old(Value())
        invariant forall j :: 0 <= j < i ==> slots[j].uin != uin
      {
        if slots[i].uin == uin {
          assert Find(slots[..], uin) == i;
          onlineUsrNum := Dec(onlineUsrNum);
          slots[i] := FREE;
          return true;
        }
      }
      ok := false;
    }

    // shm_get_user, the slot standing for its address and slots.Length for NULL.
    method GetUser(uin: nat) returns (index: nat)
      ensures index == Find(slots[..], uin)
    {
      for i := 0 to slots.Length
        invariant forall j :: 0 <= j < i ==> slots[j].uin != uin
      {
        if slots[i].uin == uin {
          assert slots[..][i].uin == uin;
          return i;
        }
      }
      index := slots.Length;
    }

    // shm_iget_user
    method IGetUser(uin: nat, shmIndex: nat) returns (index: nat)
      ensures index == FindHinted(slots[..], uin, shmIndex)
    {
      if shmIndex < slots.Length && slots[shmIndex].uin == uin { return shmIndex; }
      index := GetUser(uin);
    }

    // shm_user_update
    method UserUpdate(uin: nat, ttl: nat, now: nat)
      modifies slots
      ensures Value() == AfterUpdate(old(Value()), uin, now)
    {
      for i := 0 to slots.Length
        invariant forall j :: 0 <= j < slots.Length ==>
          slots[j] == if j < i then Refreshed(old(slots[j]), uin, now) else old(slots[j])
      {
        if slots[i].uin == uin {
          slots[i] := slots[i].(ttlv := slots[i].ttl, lutime := now);
        }
      }
    }
  }
}
