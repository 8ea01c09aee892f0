/** Presence notices (isdcore/broadcast.cpp:40-475) against the visibility rule
    (database/online_db.cpp:350-400).

    One user, the watched one, goes online, changes status and goes offline.  The users who hold
    him in their contact lists are told by notices; the SQL queries that choose them are read as
    set algebra over the rows of the contact table.  A LIMIT picks any rows it likes. */
module Presence {
  import opened UserShm

  datatype ListKind = Normal | Invisible | Visible | Ignored

  // A row of online_contacts: tuin is on a list of ouin.
  datatype Contact = Contact(ouin: nat, tuin: nat, kind: ListKind)

  // A row of online_users: the user's slot in the shared table, as a hint.
  datatype Row = Row(uin: nat, ishm: nat, active: bool)

  const PRIVATE: nat := 0x0100

  function Low16(status: nat): nat { status % 0x1_0000 }

  function Holders(contacts: set<Contact>, u: nat): set<nat> {
    set c | c in contacts && c.tuin == u && c.kind == Normal :: c.ouin
  }

  function Listed(contacts: set<Contact>, u: nat, kind: ListKind): set<nat> {
    set c | c in contacts && c.ouin == u && c.kind == kind :: c.tuin
  }

  // The sub-queries of the broadcasts: all holders, EXCEPT the invisible list, INTERSECT the
  // visible one.
  datatype Query = Everyone | NotInvisible | OnlyVisible

  function Wanted(contacts: set<Contact>, u: nat, q: Query): set<nat> {
    match q
    case Everyone => Holders(contacts, u)
    case NotInvisible => Holders(contacts, u) - Listed(contacts, u, Invisible)
    case OnlyVisible => Holders(contacts, u) * Listed(contacts, u, Visible)
  }

  // What does not change during a run: the online table and slots of the other users, the LIMIT.
  datatype World = World(users: set<Row>, slots: seq<User>, limit: nat)

  // What a query came back with: the uins the LIMIT let through, and the joined active rows.
  datatype Answer = Answer(picked: set<nat>, rows: seq<Row>)

  ghost predicate IsAnswer(a: Answer, wanted: set<nat>, world: World) {
    && a.picked <= wanted
    && |a.picked| == (if |wanted| <= world.limit then |wanted| else world.limit)
    && (forall r :: r in a.rows <==> r in world.users && r.active && r.uin in a.picked)
  }

  // ---------------------------------------------------------------- notices

  datatype NoticeKind = IsOnline | IsOffline | HasStatus
  datatype Notice = Notice(to: nat, kind: NoticeKind)

  // One notice for every row whose user is found in the shared table.
  function Told(rows: seq<Row>, slots: seq<User>, kind: NoticeKind): seq<Notice> {
    if rows == [] then []
    else
      var r := rows[|rows| - 1];
      var i := FindHinted(slots, r.uin, r.ishm);
      Told(rows[..|rows| - 1], slots, kind) + if i < |slots| then [Notice(slots[i].uin, kind)] else []
  }

  // What the watcher believes: his last notice decides.
  function Believes(w: nat, sent: seq<Notice>): bool {
    sent != [] &&
    if sent[|sent| - 1].to == w then sent[|sent| - 1].kind != IsOffline
    else Believes(w, sent[..|sent| - 1])
  }

  // A watcher who can be reached: an active row, and a slot in the shared table.
  predicate Reachable(w: nat, world: World) {
    && (exists r :: r in world.users && r.active && r.uin == w)
    && Find(world.slots, w) < |world.slots|
  }

  predicate HasRow(rows: seq<Row>, w: nat) {
    exists i :: 0 <= i < |rows| && rows[i].uin == w
  }

  lemma LastRow(rows: seq<Row>, w: nat)
    requires rows != []
    ensures HasRow(rows, w) <==> HasRow(rows[..|rows| - 1], w) || rows[|rows| - 1].uin == w
  {
    var front := rows[..|rows| - 1];
    if i :| 0 <= i < |rows| - 1 && rows[i].uin == w { assert front[i].uin == w; }
  }

  lemma LastNotice(w: nat, sent: seq<Notice>, n: Notice)
    ensures Believes(w, sent + [n]) == if n.to == w then n.kind != IsOffline else Believes(w, sent)
  {
    assert (sent + [n])[..|sent|] == sent;
  }

  lemma {:induction false} ToldDecides(w: nat, sent: seq<Notice>, rows: seq<Row>, slots: seq<User>, kind: NoticeKind)
    ensures Believes(w, sent + Told(rows, slots, kind)) ==
      if HasRow(rows, w) && Find(slots, w) < |slots| then kind != IsOffline else Believes(w, sent)
    decreases rows
  {
    if rows == [] {
      assert sent + [] == sent;
    } else {
      var front, r := rows[..|rows| - 1], rows[|rows| - 1];
      ToldDecides(w, sent, front, slots, kind);
      LastRow(rows, w);
      var i := FindHinted(slots, r.uin, r.ishm);
      hide HasRow, Believes;
      if i < |slots| {
        LastNotice(w, sent + Told(front, slots, kind), Notice(r.uin, kind));
        assert sent + Told(rows, slots, kind) == (sent + Told(front, slots, kind)) + [Notice(r.uin, kind)];
      } else {
        assert sent + Told(rows, slots, kind) == sent + Told(front, slots, kind);
      }
    }
  }

  // A query's answer, sent out: who believes what then.
  lemma AnswerDecides(w: nat, sent: seq<Notice>, a: Answer, wanted: set<nat>, world: World, kind: NoticeKind)
    requires IsAnswer(a, wanted, world) && Reachable(w, world)
    ensures Believes(w, sent + Told(a.rows, world.slots, kind)) ==
      if w in a.picked then kind != IsOffline else Believes(w, sent)
  {
    ToldDecides(w, sent, a.rows, world.slots, kind);
    var r :| r in world.users && r.active && r.uin == w;
    if w in a.picked { assert r in a.rows; }
  }

  lemma UnlimitedPicksAll(a: Answer, wanted: set<nat>, world: World)
    requires IsAnswer(a, wanted, world) && |wanted| <= world.limit
    ensures a.picked == wanted
  {
    SubsetOfSameSize(a.picked, wanted);
  }

  lemma SubsetOfSameSize(a: set<nat>, b: set<nat>)
    requires a <= b && |a| == |b|
    ensures a == b
  {
    forall x | x in b ensures x in a {
      if x !in a {
        SubsetIsSmaller(a, b - {x});
        assert false;
      }
    }
  }

  lemma {:induction false} SubsetIsSmaller(a: set<nat>, b: set<nat>)
    requires a <= b
    ensures |a| <= |b|
    decreases a
  {
    if a != {} {
      var x :| x in a;
      SubsetIsSmaller(a - {x}, b - {x});
    }
  }

  // ---------------------------------------------------------------- runs

  // The watched user's life.  LoadLists is his client sending his visible and invisible lists,
  // which going offline deletes with the rest of his contact list.
  datatype Event =
    | GoOnline(status: nat, answer: Answer)
    | SetStatus(status: nat, first: Answer, second: Answer)
    | GoOffline(answer: Answer)
    | LoadLists

  datatype State = State(contacts: set<Contact>, online: bool, status: nat, sent: seq<Notice>)

  // The lists the client loads.
  datatype Lists = Lists(visible: set<nat>, invisible: set<nat>)

  function Loaded(contacts: set<Contact>, u: nat, lists: Lists): set<Contact> {
    (set c | c in contacts && !(c.ouin == u && c.kind in {Visible, Invisible}))
    + (set w | w in lists.visible :: Contact(u, w, Visible))
    + (set w | w in lists.invisible :: Contact(u, w, Invisible))
  }

  // db_contact_delete
  function WithoutOwn(contacts: set<Contact>, u: nat): set<Contact> {
    set c | c in contacts && c.ouin != u
  }

  // Which queries a status change runs, each with the notice it sends.
  datatype Casts = Nothing | Once(q: Query, kind: NoticeKind) | Hide

  function StatusCasts(before: nat, status: nat): Casts {
    if Low16(status) == PRIVATE && Low16(before) != PRIVATE then Hide
    else if Low16(status) != PRIVATE && Low16(before) == PRIVATE then Once(NotInvisible, IsOnline)
    else if Low16(status) != PRIVATE && Low16(before) != PRIVATE then Once(NotInvisible, HasStatus)
    else Nothing
  }

  function OnlineQuery(status: nat): Query {
    if status != PRIVATE then NotInvisible else OnlyVisible
  }

  // The notices an event sends, given the status before it.
  function Notices(before: nat, e: Event, slots: seq<User>): seq<Notice> {
    match e
    case GoOnline(_, a) => Told(a.rows, slots, IsOnline)
    case SetStatus(status, a, b) =>
      (match StatusCasts(before, status)
       case Nothing => []
       case Once(_, kind) => Told(a.rows, slots, kind)
       case Hide => Told(a.rows, slots, IsOffline) + Told(b.rows, slots, HasStatus))
    case GoOffline(a) => Told(a.rows, slots, IsOffline)
    case LoadLists => []
  }

  function Step(s: State, e: Event, u: nat, world: World, lists: Lists): State {
    var sent := s.sent + Notices(s.status, e, world.slots);
    match e
    case GoOnline(status, _) => State(s.contacts, true, status, sent)
    case SetStatus(status, _, _) => State(s.contacts, s.online, status, sent)
    case GoOffline(_) => State(WithoutOwn(s.contacts, u), false, s.status, sent)
    case LoadLists => State(Loaded(s.contacts, u, lists), s.online, s.status, sent)
  }

  // The answers are answers to the queries the code runs; statuses are unsigned shorts.
  ghost predicate Legal(s: State, e: Event, u: nat, world: World) {
    match e
    case GoOnline(status, a) =>
      !s.online && status < 0x1_0000 && IsAnswer(a, Wanted(s.contacts, u, OnlineQuery(status)), world)
    case SetStatus(status, a, b) =>
      s.online && status < 0x1_0000 && (match StatusCasts(s.status, status)
        case Nothing => true
        case Once(q, _) => IsAnswer(a, Wanted(s.contacts, u, q), world)
        case Hide => IsAnswer(a, Wanted(s.contacts, u, NotInvisible), world)
                     && IsAnswer(b, Wanted(s.contacts, u, OnlyVisible), world))
    case GoOffline(a) =>
      s.online && IsAnswer(a, Wanted(WithoutOwn(s.contacts, u), u, Everyone), world)
    case LoadLists => !s.online
  }

  function Run(s: State, events: seq<Event>, u: nat, world: World, lists: Lists): State
    decreases events
  {
    if events == [] then s else Run(Step(s, events[0], u, world, lists), events[1..], u, world, lists)
  }

  ghost predicate LegalRun(s: State, events: seq<Event>, u: nat, world: World, lists: Lists)
    decreases events
  {
    events == [] ||
    (Legal(s, events[0], u, world) && LegalRun(Step(s, events[0], u, world, lists), events[1..], u, world, lists))
  }

  // ---------------------------------------------------------------- the rule the notices follow

  // db_add_online_lookup: whether the watcher may see the user's status.
  predicate Granted(s: State, u: nat, w: nat) {
    s.online &&
    if s.status == PRIVATE then w in Listed(s.contacts, u, Visible)
    else w !in Listed(s.contacts, u, Invisible)
  }

  // Another user who holds u in his list and can be reached.
  predicate Watches(s: State, u: nat, w: nat, world: World) {
    w != u && w in Holders(s.contacts, u) && Reachable(w, world)
  }

  ghost predicate Truthful(s: State, u: nat, world: World) {
    forall w :: Watches(s, u, w, world) ==> Believes(w, s.sent) == Granted(s, u, w)
  }

  // No watcher is on both lists, and no query meets its LIMIT.
  ghost predicate Calm(s: State, u: nat, world: World) {
    && |Holders(s.contacts, u)| <= world.limit
    && s.status < 0x1_0000
    && (forall w :: Watches(s, u, w, world) ==>
          !(w in Listed(s.contacts, u, Visible) && w in Listed(s.contacts, u, Invisible)))
  }

  lemma WantedFits(s: State, u: nat, q: Query, world: World, a: Answer)
    requires |Holders(s.contacts, u)| <= world.limit && IsAnswer(a, Wanted(s.contacts, u, q), world)
    ensures a.picked == Wanted(s.contacts, u, q)
  {
    SubsetIsSmaller(Wanted(s.contacts, u, q), Holders(s.contacts, u));
    UnlimitedPicksAll(a, Wanted(s.contacts, u, q), world);
  }

  // Going offline deletes the user's own rows; who else holds him does not change.
  lemma OwnRowsGone(contacts: set<Contact>, u: nat)
    ensures Listed(WithoutOwn(contacts, u), u, Visible) == {}
    ensures Listed(WithoutOwn(contacts, u), u, Invisible) == {}
    ensures Holders(WithoutOwn(contacts, u), u) == Holders(contacts, u) - {u}
  {
    forall w | w in Holders(contacts, u) - {u} ensures w in Holders(WithoutOwn(contacts, u), u) {
      var c :| c in contacts && c.tuin == u && c.kind == Normal && c.ouin == w;
      assert c in WithoutOwn(contacts, u);
    }
  }

  // Loading replaces the two lists of the user, and touches no other row.
  lemma LoadedLists(contacts: set<Contact>, u: nat, lists: Lists)
    ensures Listed(Loaded(contacts, u, lists), u, Visible) == lists.visible
    ensures Listed(Loaded(contacts, u, lists), u, Invisible) == lists.invisible
    ensures Holders(Loaded(contacts, u, lists), u) == Holders(contacts, u)
    ensures forall c: Contact :: c.ouin != u || c.kind !in {Visible, Invisible} ==>
      (c in Loaded(contacts, u, lists) <==> c in contacts)
  {
    var after := Loaded(contacts, u, lists);
    forall w | w in lists.visible ensures w in Listed(after, u, Visible) {
      assert Contact(u, w, Visible) in after;
    }
    forall w | w in lists.invisible ensures w in Listed(after, u, Invisible) {
      assert Contact(u, w, Invisible) in after;
    }
    forall w | w in Holders(contacts, u) ensures w in Holders(after, u) {
      var c :| c in contacts && c.tuin == u && c.kind == Normal && c.ouin == w;
      assert c in after;
    }
  }

  // One watcher, one event.
  lemma StepTellsTruth(s: State, e: Event, u: nat, w: nat, world: World, lists: Lists)
    requires Calm(s, u, world) && Legal(s, e, u, world) && Watches(s, u, w, world)
    requires Believes(w, s.sent) == Granted(s, u, w)
    ensures var s1 := Step(s, e, u, world, lists); Believes(w, s1.sent) == Granted(s1, u, w)
  {
    hide Believes, Told, IsAnswer, Reachable;
    match e {
      case GoOnline(status, a) =>
        WantedFits(s, u, OnlineQuery(status), world, a);
        AnswerDecides(w, s.sent, a, a.picked, world, IsOnline);
      case SetStatus(status, a, b) =>
        match StatusCasts(s.status, status) {
          case Nothing => assert s.sent + [] == s.sent;
          case Once(q, kind) =>
            WantedFits(s, u, q, world, a);
            AnswerDecides(w, s.sent, a, a.picked, world, kind);
          case Hide =>
            WantedFits(s, u, NotInvisible, world, a);
            WantedFits(s, u, OnlyVisible, world, b);
            var told := s.sent + Told(a.rows, world.slots, IsOffline);
            AnswerDecides(w, s.sent, a, a.picked, world, IsOffline);
            AnswerDecides(w, told, b, b.picked, world, HasStatus);
            assert s.sent + (Told(a.rows, world.slots, IsOffline) + Told(b.rows, world.slots, HasStatus))
                == told + Told(b.rows, world.slots, HasStatus);
        }
      case GoOffline(a) =>
        OwnRowsGone(s.contacts, u);
        SubsetIsSmaller(Holders(s.contacts, u) - {u}, Holders(s.contacts, u));
        WantedFits(s.(contacts := WithoutOwn(s.contacts, u)), u, Everyone, world, a);
        AnswerDecides(w, s.sent, a, a.picked, world, IsOffline);
      case LoadLists => assert s.sent + [] == s.sent;
    }
  }

  ghost predicate ListsApart(s: State, u: nat, world: World, lists: Lists) {
    forall w :: w in lists.visible && w in lists.invisible ==> !Watches(s, u, w, world)
  }

  lemma StepKeepsCalm(s: State, e: Event, u: nat, world: World, lists: Lists)
    requires Calm(s, u, world) && Legal(s, e, u, world) && ListsApart(s, u, world, lists)
    ensures var s1 := Step(s, e, u, world, lists);
      Calm(s1, u, world) && ListsApart(s1, u, world, lists)
      && (forall w :: Watches(s1, u, w, world) <==> Watches(s, u, w, world))
  {
    OwnRowsGone(s.contacts, u);
    SubsetIsSmaller(Holders(s.contacts, u) - {u}, Holders(s.contacts, u));
    LoadedLists(s.contacts, u, lists);
  }

  // Over every run every watcher's last notice says present exactly when the user is online and
  // the rule grants that watcher.
  lemma {:induction false} RunTellsTruth(s: State, events: seq<Event>, u: nat, world: World, lists: Lists)
    requires Truthful(s, u, world) && Calm(s, u, world) && ListsApart(s, u, world, lists)
    requires LegalRun(s, events, u, world, lists)
    ensures Truthful(Run(s, events, u, world, lists), u, world)
    decreases events
  {
    if events != [] {
      var s1 := Step(s, events[0], u, world, lists);
      StepKeepsCalm(s, events[0], u, world, lists);
      forall w | Watches(s1, u, w, world) ensures Believes(w, s1.sent) == Granted(s1, u, w) {
        StepTellsTruth(s, events[0], u, w, world, lists);
      }
      RunTellsTruth(s1, events[1..], u, world, lists);
    }
  }

  // ---------------------------------------------------------------- and when it fails

  // Logged out, nobody on the invisible list yet, nothing told yet; the user is not in his own list.
  predicate LoggedOut(s: State, u: nat) {
    && !s.online && s.sent == [] && s.status < 0x1_0000
    && Listed(s.contacts, u, Invisible) == {}
    && u !in Holders(s.contacts, u)
  }

  ghost predicate AlwaysTruthful(s: State, u: nat, world: World, lists: Lists) {
    forall events :: LegalRun(s, events, u, world, lists) ==> Truthful(Run(s, events, u, world, lists), u, world)
  }

  lemma {:induction false} RowsFor(users: set<Row>, picked: set<nat>) returns (rows: seq<Row>)
    ensures forall r :: r in rows <==> r in users && r.active && r.uin in picked
    decreases users
  {
    rows := [];
    if users != {} {
      var r :| r in users;
      rows := RowsFor(users - {r}, picked);
      if r.active && r.uin in picked { rows := rows + [r]; }
    }
  }

  lemma {:induction false} PickFrom(s: set<nat>, n: nat) returns (p: set<nat>)
    requires n <= |s|
    ensures p <= s && |p| == n
    decreases s
  {
    p := s;
    if n < |s| {
      var x :| x in s;
      p := PickFrom(s - {x}, n);
    }
  }

  // A LIMIT of zero: nobody is told that the user came online.
  lemma ZeroLies(s: State, u: nat, w: nat, world: World, lists: Lists) returns (events: seq<Event>)
    requires LoggedOut(s, u) && Watches(s, u, w, world) && world.limit == 0
    ensures LegalRun(s, events, u, world, lists) && !Truthful(Run(s, events, u, world, lists), u, world)
  {
    var on := GoOnline(0, Answer({}, []));
    events := [on];
    var s1 := Step(s, on, u, world, lists);
    assert Run(s, events, u, world, lists) == s1;
    assert Watches(s1, u, w, world) && Granted(s1, u, w) && s1.sent == [];
  }

  // Two answers a LIMIT allows: one lets w through, the other does not.
  lemma AnswersDiffer(h: set<nat>, w: nat, world: World) returns (a: Answer, b: Answer)
    requires w in h && 0 < world.limit < |h|
    ensures IsAnswer(a, h, world) && w in a.picked
    ensures IsAnswer(b, h, world) && w !in b.picked
  {
    var p := PickFrom(h - {w}, world.limit - 1);
    var rows := RowsFor(world.users, p + {w});
    a := Answer(p + {w}, rows);
    p := PickFrom(h - {w}, world.limit);
    rows := RowsFor(world.users, p);
    b := Answer(p, rows);
  }

  // A LIMIT below the number of holders: a watcher told of the login is not told of the logout.
  lemma LimitLies(s: State, u: nat, w: nat, world: World, lists: Lists) returns (events: seq<Event>)
    requires LoggedOut(s, u) && Watches(s, u, w, world) && 0 < world.limit < |Holders(s.contacts, u)|
    ensures LegalRun(s, events, u, world, lists) && !Truthful(Run(s, events, u, world, lists), u, world)
  {
    hide Told, Believes, Reachable, Run, LegalRun;
    var h := Holders(s.contacts, u);
    assert Wanted(s.contacts, u, NotInvisible) == h;
    var a1, a2 := AnswersDiffer(h, w, world);
    hide IsAnswer;
    OwnRowsGone(s.contacts, u);
    assert h - {u} == h;
    var on, off := GoOnline(0, a1), GoOffline(a2);
    var s1 := Step(s, on, u, world, lists);
    AnswerDecides(w, s.sent, a1, h, world, IsOnline);
    var s2 := Step(s1, off, u, world, lists);
    AnswerDecides(w, s1.sent, a2, h, world, IsOffline);
    events := [on, off];
    TwoSteps(s, on, off, u, world, lists);
    assert Watches(s2, u, w, world) && !Granted(s2, u, w);
  }

  lemma TwoSteps(s: State, e1: Event, e2: Event, u: nat, world: World, lists: Lists)
    ensures var s1 := Step(s, e1, u, world, lists);
      && Run(s, [e1, e2], u, world, lists) == Step(s1, e2, u, world, lists)
      && (LegalRun(s, [e1, e2], u, world, lists) <==> Legal(s, e1, u, world) && Legal(s1, e2, u, world))
  {
    var s1 := Step(s, e1, u, world, lists);
    hide Step, Legal;
    assert [e1, e2][1..] == [e2];
    assert Run(s1, [e2], u, world, lists) == Step(s1, e2, u, world, lists);
    assert LegalRun(s1, [e2], u, world, lists) <==> Legal(s1, e2, u, world);
  }

  lemma ThreeSteps(s: State, e1: Event, e2: Event, e3: Event, u: nat, world: World, lists: Lists)
    ensures var s1 := Step(s, e1, u, world, lists); var s2 := Step(s1, e2, u, world, lists);
      && Run(s, [e1, e2, e3], u, world, lists) == Step(s2, e3, u, world, lists)
      && (LegalRun(s, [e1, e2, e3], u, world, lists) <==>
            Legal(s, e1, u, world) && Legal(s1, e2, u, world) && Legal(s2, e3, u, world))
  {
    hide Step, Legal;
    TwoSteps(Step(s, e1, u, world, lists), e2, e3, u, world, lists);
    assert [e1, e2, e3][1..] == [e2, e3];
  }

  lemma NothingTold(w: nat)
    ensures !Believes(w, [])
  {}

  // A watcher on both lists: told under a private status, he is not told when it becomes public,
  // though he then may not see the user.
  lemma BothListsLie(s: State, u: nat, w: nat, world: World, lists: Lists) returns (events: seq<Event>)
    requires LoggedOut(s, u) && Watches(s, u, w, world) && |Holders(s.contacts, u)| <= world.limit
    requires w in lists.visible && w in lists.invisible
    ensures LegalRun(s, events, u, world, lists) && !Truthful(Run(s, events, u, world, lists), u, world)
  {
    hide Told, Believes, Reachable, Run, LegalRun;
    LoadedLists(s.contacts, u, lists);
    var s1 := Step(s, LoadLists, u, world, lists);
    var h := Holders(s1.contacts, u);
    var p1, p2 := Wanted(s1.contacts, u, OnlyVisible), Wanted(s1.contacts, u, NotInvisible);
    SubsetIsSmaller(p1, h);
    SubsetIsSmaller(p2, h);
    var rows1 := RowsFor(world.users, p1);
    var rows2 := RowsFor(world.users, p2);
    var a1, a2 := Answer(p1, rows1), Answer(p2, rows2);
    var on, change := GoOnline(PRIVATE, a1), SetStatus(0, a2, a2);
    var s2 := Step(s1, on, u, world, lists);
    AnswerDecides(w, s1.sent, a1, p1, world, IsOnline);
    var s3 := Step(s2, change, u, world, lists);
    AnswerDecides(w, s2.sent, a2, p2, world, IsOnline);
    events := [LoadLists, on, change];
    ThreeSteps(s, LoadLists, on, change, u, world, lists);
    assert Watches(s3, u, w, world) && !Granted(s3, u, w);
  }

  lemma {:induction false} RunKeepsWatchers(s: State, events: seq<Event>, u: nat, w: nat, world: World, lists: Lists)
    ensures Watches(Run(s, events, u, world, lists), u, w, world) <==> Watches(s, u, w, world)
    decreases events
  {
    if events != [] {
      OwnRowsGone(s.contacts, u);
      LoadedLists(s.contacts, u, lists);
      RunKeepsWatchers(Step(s, events[0], u, world, lists), events[1..], u, w, world, lists);
    }
  }

  // The notices tell the truth over every run exactly when no watcher is on both lists and the
  // LIMIT is no less than the number of holders (or there is nobody to tell).
  lemma ExactlyWhen(s: State, u: nat, world: World, lists: Lists)
    requires LoggedOut(s, u)
    ensures AlwaysTruthful(s, u, world, lists) <==>
      && ListsApart(s, u, world, lists)
      && (|Holders(s.contacts, u)| <= world.limit || forall w :: !Watches(s, u, w, world))
  {
    if w :| Watches(s, u, w, world) && |Holders(s.contacts, u)| > world.limit {
      if world.limit == 0 {
        var events := ZeroLies(s, u, w, world, lists);
        assert !AlwaysTruthful(s, u, world, lists);
      } else {
        var events := LimitLies(s, u, w, world, lists);
        assert !AlwaysTruthful(s, u, world, lists);
      }
    } else if w :| Watches(s, u, w, world) && w in lists.visible && w in lists.invisible {
      var events := BothListsLie(s, u, w, world, lists);
      assert !AlwaysTruthful(s, u, world, lists);
    } else {
      forall events | LegalRun(s, events, u, world, lists)
        ensures Truthful(Run(s, events, u, world, lists), u, world)
      {
        if |Holders(s.contacts, u)| <= world.limit {
          forall w | Watches(s, u, w, world) ensures Believes(w, s.sent) == Granted(s, u, w) { NothingTold(w); }
          RunTellsTruth(s, events, u, world, lists);
        } else {
          forall w | Watches(Run(s, events, u, world, lists), u, w, world) ensures false {
            RunKeepsWatchers(s, events, u, w, world, lists);
          }
        }
      }
    }
  }

  // ---------------------------------------------------------------- which notices are sent

  lemma {:induction false} ToldHas(rows: seq<Row>, slots: seq<User>, kind: NoticeKind, n: Notice)
    ensures n in Told(rows, slots, kind) <==> n.kind == kind && HasRow(rows, n.to) && Find(slots, n.to) < |slots|
    decreases rows
  {
    if rows != [] {
      ToldHas(rows[..|rows| - 1], slots, kind, n);
      LastRow(rows, n.to);
    }
  }

  lemma QueryTells(s: State, u: nat, q: Query, a: Answer, kind: NoticeKind, w: nat, world: World)
    requires |Holders(s.contacts, u)| <= world.limit && IsAnswer(a, Wanted(s.contacts, u, q), world)
    requires Reachable(w, world)
    ensures forall k :: Notice(w, k) in Told(a.rows, world.slots, kind) <==>
                          k == kind && w in Wanted(s.contacts, u, q)
  {
    hide Wanted, Holders;
    WantedFits(s, u, q, world, a);
    var r :| r in world.users && r.active && r.uin == w;
    if w in a.picked { assert r in a.rows; }
    forall k: NoticeKind { ToldHas(a.rows, world.slots, kind, Notice(w, k)); }
  }

  // What a watcher gets for a change of status, told from the two statuses and the lists: word that
  // the user is there when he stops hiding, the new status while he does not hide, and when he
  // starts hiding the farewell, and the new status if he may see the hidden one.
  lemma StatusNotices(s: State, status: nat, a: Answer, b: Answer, u: nat, w: nat, world: World)
    requires Legal(s, SetStatus(status, a, b), u, world) && Watches(s, u, w, world)
    requires s.status < 0x1_0000 && |Holders(s.contacts, u)| <= world.limit
    ensures var sent := Notices(s.status, SetStatus(status, a, b), world.slots);
      var seen, hid, hides := w !in Listed(s.contacts, u, Invisible), s.status == 0x0100, status == 0x0100;
      && (Notice(w, IsOnline) in sent <==> hid && !hides && seen)
      && (Notice(w, IsOffline) in sent <==> !hid && hides && seen)
      && (Notice(w, HasStatus) in sent <==>
            !hid && if hides then w in Listed(s.contacts, u, Visible) else seen)
  {
    hide Told, IsAnswer, Reachable, Listed;
    match StatusCasts(s.status, status) {
      case Nothing =>
      case Once(q, kind) => QueryTells(s, u, q, a, kind, w, world);
      case Hide =>
        QueryTells(s, u, NotInvisible, a, IsOffline, w, world);
        QueryTells(s, u, OnlyVisible, b, HasStatus, w, world);
    }
  }

  // And for a login and a logout: word that the user is there, if he does not hide from the watcher;
  // the farewell goes to everyone.
  lemma LoginNotices(s: State, status: nat, a: Answer, u: nat, w: nat, world: World)
    requires Legal(s, GoOnline(status, a), u, world) && Watches(s, u, w, world)
    requires |Holders(s.contacts, u)| <= world.limit
    ensures forall kind :: Notice(w, kind) in Notices(s.status, GoOnline(status, a), world.slots) <==>
      kind == IsOnline && if status == 0x0100 then w in Listed(s.contacts, u, Visible)
                          else w !in Listed(s.contacts, u, Invisible)
  {
    hide Told, IsAnswer, Reachable;
    QueryTells(s, u, OnlineQuery(status), a, IsOnline, w, world);
  }

  lemma LogoutNotices(s: State, a: Answer, u: nat, w: nat, world: World)
    requires Legal(s, GoOffline(a), u, world) && Watches(s, u, w, world)
    requires |Holders(s.contacts, u)| <= world.limit
    ensures forall kind :: Notice(w, kind) in Notices(s.status, GoOffline(a), world.slots) <==> kind == IsOffline
  {
    hide Told, IsAnswer, Reachable;
    OwnRowsGone(s.contacts, u);
    SubsetIsSmaller(Holders(s.contacts, u) - {u}, Holders(s.contacts, u));
    QueryTells(s.(contacts := WithoutOwn(s.contacts, u)), u, Everyone, a, IsOffline, w, world);
  }

  // ---------------------------------------------------------------- the broadcasts

  // The notices a server process sends about one user.
  class Broadcaster {
    var sent: seq<Notice>
    const table: Table

    constructor (users: Table)
      ensures sent == [] && table == users
    {
      sent, table := [], users;
    }

    // The loop over a query's rows, with the lookup of each user's slot.
    method Alert(rows: seq<Row>, kind: NoticeKind)
      modifies this`sent
      ensures sent == old(sent) + Told(rows, table.slots[..], kind)
    {
      for i := 0 to |rows|
        invariant sent == old(sent) + Told(rows[..i], table.slots[..], kind)
      {
        assert rows[..i + 1][..i] == rows[..i];
        var index := table.IGetUser(rows[i].uin, rows[i].ishm);
        if index == table.slots.Length { continue; }
        sent := sent + [Notice(table.slots[index].uin, kind)];
      }
      assert rows[..|rows|] == rows;
    }

    // broadcast_online; answers stands for the database, which answers the query it is asked.
    method BroadcastOnline(status: nat, answers: Query -> Answer)
      modifies this`sent
      ensures sent == old(sent) + Notices(0, GoOnline(status, answers(OnlineQuery(status))), table.slots[..])
    {
      var query := OnlyVisible;
      if status != PRIVATE { query := NotInvisible; }
      Alert(answers(query).rows, IsOnline);
    }

    // broadcast_status
    method BroadcastStatus(status: nat, before: nat, answers: Query -> Answer)
      modifies this`sent
      ensures var e := SetStatus(status, answers(NotInvisible), answers(OnlyVisible));
        sent == old(sent) + Notices(before, e, table.slots[..])
    {
      if Low16(status) == PRIVATE && Low16(before) != PRIVATE {
        Alert(answers(NotInvisible).rows, IsOffline);
        Alert(answers(OnlyVisible).rows, HasStatus);
        return;
      }
      if Low16(status) != PRIVATE && Low16(before) == PRIVATE {
        Alert(answers(NotInvisible).rows, IsOnline);
        return;
      }
      if Low16(status) != PRIVATE && Low16(before) != PRIVATE {
        Alert(answers(NotInvisible).rows, HasStatus);
        return;
      }
      assert old(sent) + [] == old(sent);
    }

    // broadcast_offline
    method BroadcastOffline(answers: Query -> Answer)
      modifies this`sent
      ensures sent == old(sent) + Notices(0, GoOffline(answers(Everyone)), table.slots[..])
    {
      Alert(answers(Everyone).rows, IsOffline);
    }
  }
}
