/** The incoming pipe and its shared counters: any number of processes run pipe_send_packet and
    pipe_receive_packet (system/util_pipe.cpp), one statement at a time in any interleaving,
    under the semaphores of isdcore/process_init.cpp. */
module PipeQueue {

  const MAX_PACKET_SIZE: nat := 8192

  /** Where a process stands. The datagram it handles is told by its size as sent (size) and as
      received (got). */
  datatype Process =
    | Idle
    // pipe_send_packet
    | HoldsIncw(size: nat)
    | HoldsBoth(size: nat)
    | Sent(size: nat)
    | PackCounted(size: nat)
    | ByteCounted
    | MaxSizeSet
    | SendDone
    | IpcReleased
    // pipe_receive_packet
    | HoldsPipe
    | Received(got: nat)
    | PipeReleased(got: nat)
    | HoldsIpc(got: nat)
    | PackUncounted(got: nat)
    | ReceiveDone

  /** Values of the three semaphores: 0 is free. */
  datatype Sems = Sems(inc: nat, incw: nat, ipcw: nat)

  /** pack_in_queue, byte_in_queue, max_queue_size, max_queue_pack; and whether the branch that
      repairs them ever ran. */
  datatype Vars = Vars(pack: int, byte: int, maxSize: int, maxPack: int, repaired: bool)

  /** The socket: sizes of the datagrams in it, and of all that ever went in and came out. */
  datatype Socket = Socket(queue: seq<nat>, sentLog: seq<nat>, recvLog: seq<nat>)

  /** The largest values the two counters ever had. */
  datatype Peak = Peak(pack: int, byte: int)

  datatype State = State(procs: seq<Process>, sock: Socket, sems: Sems, vars: Vars, peak: Peak)

  /** What the scheduler and the kernel decide. A disabled action changes nothing. */
  datatype Choice = BeginSend(size: nat) | BeginReceive | Go | Refuse

  function Min(a: nat, b: nat): nat { if a < b then a else b }
  function Max(a: int, b: int): int { if a < b then b else a }

  /** What one statement of a process leaves: its own place, and the shared state. */
  datatype Effect = Effect(p: Process, sock: Socket, sems: Sems, vars: Vars)

  function Send(k: Socket, n: nat): Socket {
    k.(queue := k.queue + [n], sentLog := k.sentLog + [n])
  }

  function Receive(k: Socket): Socket
    requires k.queue != []
  {
    k.(queue := k.queue[1..], recvLog := k.recvLog + [k.queue[0]])
  }

  /** One statement of a process that stands at p. */
  function Act(p: Process, k: Socket, m: Sems, v: Vars, c: Choice): Effect {
    match p
    case Idle =>
      if c.BeginSend? && m.incw == 0 then Effect(HoldsIncw(c.size), k, m.(incw := 1), v)
      else if c.BeginReceive? && m.inc == 0 then Effect(HoldsPipe, k, m.(inc := 1), v)
      else Effect(p, k, m, v)
    case HoldsIncw(n) =>
      if m.ipcw == 0 then Effect(HoldsBoth(n), k, m.(ipcw := 1), v) else Effect(p, k, m, v)
    case HoldsBoth(n) =>
      if c.Refuse? || n == 0 then Effect(SendDone, k, m, v)
      else Effect(Sent(n), Send(k, n), m, v)
    case Sent(n) => Effect(PackCounted(n), k, m, v.(pack := v.pack + 1))
    case PackCounted(n) => Effect(ByteCounted, k, m, v.(byte := v.byte + n))
    case ByteCounted =>
      Effect(MaxSizeSet, k, m, if v.maxSize < v.byte then v.(maxSize := v.byte) else v)
    case MaxSizeSet =>
      Effect(SendDone, k, m, if v.maxPack < v.pack then v.(maxPack := v.pack) else v)
    case SendDone => Effect(IpcReleased, k, m.(ipcw := Less(m.ipcw)), v)
    case IpcReleased => Effect(Idle, k, m.(incw := Less(m.incw)), v)
    case HoldsPipe =>
      if c.Refuse? then Effect(Received(0), k, m, v)
      else if k.queue == [] then Effect(p, k, m, v)
      else Effect(Received(Min(k.queue[0], MAX_PACKET_SIZE)), Receive(k), m, v)
    case Received(n) => Effect(PipeReleased(n), k, m.(inc := Less(m.inc)), v)
    case PipeReleased(n) =>
      if m.ipcw == 0 then Effect(HoldsIpc(n), k, m.(ipcw := 1), v) else Effect(p, k, m, v)
    case HoldsIpc(n) =>
      if n == 0 then Effect(ReceiveDone, k, m, v)
      else if v.pack != 0 || v.byte != 0 then
        Effect(PackUncounted(n), k, m, v.(pack := v.pack - 1))
      else Effect(ReceiveDone, k, m, v.(byte := 0, repaired := true))
    case PackUncounted(n) => Effect(ReceiveDone, k, m, v.(byte := v.byte - n))
    case ReceiveDone => Effect(Idle, k, m.(ipcw := Less(m.ipcw)), v)
  }

  function Less(n: nat): nat { if n == 0 then 0 else n - 1 }

  /** One statement of process i, with the record of the largest values kept up to date. */
  function Step(s: State, i: nat, c: Choice): (t: State)
    requires i < |s.procs|
    ensures |t.procs| == |s.procs|
  {
    var e := Act(s.procs[i], s.sock, s.sems, s.vars, c);
    State(s.procs[i := e.p], e.sock, e.sems, e.vars,
          Peak(Max(s.peak.pack, e.vars.pack), Max(s.peak.byte, e.vars.byte)))
  }

  // ---- sums over the processes ----

  datatype Measure =
    | Incw | Ipcw | Pipe                    // who holds which semaphore
    | SentPacks | SentBytes                 // in the queue but not in the counters yet
    | GotPacks | GotBytes                   // out of the queue but still in the counters
    | PackWindow | ByteWindow               // counted but not in the maximum yet

  function Weight(m: Measure, p: Process): nat {
    match m
    case Incw => if p.HoldsIncw? || p.HoldsBoth? || p.Sent? || p.PackCounted? || p.ByteCounted?
                    || p.MaxSizeSet? || p.SendDone? || p.IpcReleased? then 1 else 0
    case Ipcw => if p.HoldsBoth? || p.Sent? || p.PackCounted? || p.ByteCounted? || p.MaxSizeSet?
                    || p.SendDone? || p.HoldsIpc? || p.PackUncounted? || p.ReceiveDone? then 1 else 0
    case Pipe => if p.HoldsPipe? || p.Received? then 1 else 0
    case SentPacks => if p.Sent? then 1 else 0
    case SentBytes => if p.Sent? || p.PackCounted? then p.size else 0
    case GotPacks => if (p.Received? || p.PipeReleased? || p.HoldsIpc?) && p.got > 0 then 1 else 0
    case GotBytes => if p.Received? || p.PipeReleased? || p.HoldsIpc? || p.PackUncounted?
                     then p.got else 0
    case PackWindow => if p.PackCounted? || p.ByteCounted? || p.MaxSizeSet? then 1 else 0
    case ByteWindow => if p.ByteCounted? then 1 else 0
  }

  function Total(m: Measure, ps: seq<Process>): nat {
    if ps == [] then 0 else Weight(m, ps[0]) + Total(m, ps[1..])
  }

  lemma {:induction false} TotalAfter(m: Measure, ps: seq<Process>, i: nat, p: Process)
    requires i < |ps|
    ensures Total(m, ps[i := p]) == Total(m, ps) - Weight(m, ps[i]) + Weight(m, p)
    ensures Total(m, ps) >= Weight(m, ps[i])
  {
    if i == 0 {
      assert ps[0 := p][1..] == ps[1..];
    } else {
      assert ps[i := p][1..] == ps[1..][i - 1 := p];
      TotalAfter(m, ps[1..], i - 1, p);
    }
  }

  lemma {:induction false} NoHolderNoWindow(m: Measure, ps: seq<Process>)
    requires m.SentPacks? || m.SentBytes? || m.PackWindow? || m.ByteWindow?
    requires Total(Ipcw, ps) == 0
    ensures Total(m, ps) == 0
  {
    if ps != [] { NoHolderNoWindow(m, ps[1..]); }
  }

  /** What only the holder of the ipc lock does, the holder does alone. */
  lemma OnlyTheHolder(m: Measure, ps: seq<Process>, i: nat)
    requires m.SentPacks? || m.SentBytes? || m.PackWindow? || m.ByteWindow?
    requires i < |ps| && Weight(Ipcw, ps[i]) == 1 && Total(Ipcw, ps) == 1
    ensures Total(m, ps) == Weight(m, ps[i])
  {
    TotalAfter(Ipcw, ps, i, Idle);
    TotalAfter(m, ps, i, Idle);
    NoHolderNoWindow(m, ps[i := Idle]);
  }

  function Sum(q: seq<nat>): nat { if q == [] then 0 else q[0] + Sum(q[1..]) }

  lemma {:induction false} SumAppend(q: seq<nat>, n: nat)
    ensures Sum(q + [n]) == Sum(q) + n
  {
    if q == [] {
      assert Sum([n][1..]) == 0;
    } else {
      assert (q + [n])[1..] == q[1..] + [n];
      SumAppend(q[1..], n);
    }
  }

  /** Bytes cut off by receives into a buffer of MAX_PACKET_SIZE bytes. */
  function Lost(q: seq<nat>): nat {
    if q == [] then 0 else q[0] - Min(q[0], MAX_PACKET_SIZE) + Lost(q[1..])
  }

  lemma {:induction false} LostAppend(q: seq<nat>, n: nat)
    ensures Lost(q + [n]) == Lost(q) + (n - Min(n, MAX_PACKET_SIZE))
  {
    if q == [] {
      assert Lost([n][1..]) == 0;
    } else {
      assert (q + [n])[1..] == q[1..] + [n];
      LostAppend(q[1..], n);
    }
  }

  lemma {:induction false} NothingLost(q: seq<nat>)
    ensures Lost(q) == 0 <==> forall i :: 0 <= i < |q| ==> q[i] <= MAX_PACKET_SIZE
  {
    if q != [] {
      NothingLost(q[1..]);
      if forall i :: 0 <= i < |q| ==> q[i] <= MAX_PACKET_SIZE {
        assert forall i :: 0 <= i < |q[1..]| ==> q[1..][i] == q[i + 1];
      } else if q[0] <= MAX_PACKET_SIZE {
        var i :| 0 <= i < |q| && q[i] > MAX_PACKET_SIZE;
        assert q[1..][i - 1] == q[i];
      }
    }
  }

  // ---- the invariant ----

  ghost predicate Locks(m: Sems, ps: seq<Process>) {
    m.incw == Total(Incw, ps) <= 1 && m.ipcw == Total(Ipcw, ps) <= 1 && m.inc == Total(Pipe, ps) <= 1
  }

  /** The counters, corrected by what is between the queue and the counters. */
  ghost predicate PacksCounted(v: Vars, k: Socket, ps: seq<Process>) {
    v.pack + Total(SentPacks, ps) == |k.queue| + Total(GotPacks, ps) && !v.repaired
  }

  ghost predicate BytesCounted(v: Vars, k: Socket, ps: seq<Process>) {
    v.byte + Total(SentBytes, ps) == Sum(k.queue) + Total(GotBytes, ps) + Lost(k.recvLog)
  }

  ghost predicate Peaks(v: Vars, h: Peak, ps: seq<Process>) {
    && h.pack == (if Total(PackWindow, ps) == 0 then v.maxPack else Max(v.maxPack, v.pack))
    && h.byte == (if Total(ByteWindow, ps) == 0 then v.maxSize else Max(v.maxSize, v.byte))
    && v.pack <= h.pack && v.byte <= h.byte
  }

  ghost predicate Logged(k: Socket) {
    && k.sentLog == k.recvLog + k.queue
    && (forall i :: 0 <= i < |k.queue| ==> k.queue[i] > 0)
  }

  ghost predicate Inv(s: State) {
    && Locks(s.sems, s.procs)
    && PacksCounted(s.vars, s.sock, s.procs) && BytesCounted(s.vars, s.sock, s.procs)
    && Peaks(s.vars, s.peak, s.procs) && Logged(s.sock)
  }

  /** ipc_objects_init, with n processes about to run. */
  function Init(n: nat): State {
    State(seq(n, _ => Idle), Socket([], [], []), Sems(0, 0, 0), Vars(0, 0, 0, 0, false), Peak(0, 0))
  }

  lemma InitHolds(n: nat)
    ensures Inv(Init(n))
  {
    forall m: Measure ensures Total(m, Init(n).procs) == 0 { AllIdle(m, Init(n).procs); }
  }

  lemma {:induction false} AllIdle(m: Measure, ps: seq<Process>)
    requires forall i :: 0 <= i < |ps| ==> ps[i] == Idle
    ensures Total(m, ps) == 0
  {
    if ps != [] { AllIdle(m, ps[1..]); }
  }

  /** Inside the ipc lock nobody else is between the queue and the counters. */
  lemma Alone(ps: seq<Process>, i: nat)
    requires i < |ps| && Weight(Ipcw, ps[i]) == 1 && Total(Ipcw, ps) == 1
    ensures Total(SentPacks, ps) == Weight(SentPacks, ps[i])
    ensures Total(SentBytes, ps) == Weight(SentBytes, ps[i])
    ensures Total(PackWindow, ps) == Weight(PackWindow, ps[i])
    ensures Total(ByteWindow, ps) == Weight(ByteWindow, ps[i])
  {
    OnlyTheHolder(SentPacks, ps, i);
    OnlyTheHolder(SentBytes, ps, i);
    OnlyTheHolder(PackWindow, ps, i);
    OnlyTheHolder(ByteWindow, ps, i);
  }

  lemma LocksKept(s: State, i: nat, c: Choice)
    requires i < |s.procs| && Locks(s.sems, s.procs)
    ensures Locks(Step(s, i, c).sems, Step(s, i, c).procs)
  {
    hide Total;
    var p := Act(s.procs[i], s.sock, s.sems, s.vars, c).p;
    TotalAfter(Incw, s.procs, i, p);
    TotalAfter(Ipcw, s.procs, i, p);
    TotalAfter(Pipe, s.procs, i, p);
  }

  lemma PacksKept(s: State, i: nat, c: Choice)
    requires i < |s.procs| && Locks(s.sems, s.procs) && Logged(s.sock)
    requires PacksCounted(s.vars, s.sock, s.procs)
    ensures var t := Step(s, i, c); PacksCounted(t.vars, t.sock, t.procs)
  {
    hide Total;
    var p := Act(s.procs[i], s.sock, s.sems, s.vars, c).p;
    TotalAfter(SentPacks, s.procs, i, p);
    TotalAfter(GotPacks, s.procs, i, p);
    if s.procs[i].HoldsIpc? {
      TotalAfter(Ipcw, s.procs, i, p);
      Alone(s.procs, i);
    }
  }

  /** Bytes in the socket, and bytes cut off, before and after one statement. */
  lemma SocketBytes(p: Process, k: Socket, m: Sems, v: Vars, c: Choice)
    ensures var e := Act(p, k, m, v, c);
            Sum(e.sock.queue) + Lost(e.sock.recvLog) == Sum(k.queue) + Lost(k.recvLog)
              + if p.HoldsBoth? && e.p.Sent? then e.p.size
                else if p.HoldsPipe? && e.p.Received? then 0 - e.p.got else 0
  {
    match p
    case HoldsBoth(n) => SumAppend(k.queue, n);
    case HoldsPipe => if k.queue != [] { LostAppend(k.recvLog, k.queue[0]); }
    case _ =>
  }

  lemma BytesKept(s: State, i: nat, c: Choice)
    requires i < |s.procs| && BytesCounted(s.vars, s.sock, s.procs)
    requires s.procs[i].HoldsIpc? && s.procs[i].got > 0 ==> s.vars.pack != 0
    ensures var t := Step(s, i, c); BytesCounted(t.vars, t.sock, t.procs)
  {
    hide Sum, Lost, Send, Receive, Total, Min, Less;
    SocketBytes(s.procs[i], s.sock, s.sems, s.vars, c);
    var p := Act(s.procs[i], s.sock, s.sems, s.vars, c).p;
    TotalAfter(SentBytes, s.procs, i, p);
    TotalAfter(GotBytes, s.procs, i, p);
  }

  /** A process about to account for a packet finds the counter above zero. */
  lemma PackIsPositive(s: State, i: nat)
    requires i < |s.procs| && Locks(s.sems, s.procs) && PacksCounted(s.vars, s.sock, s.procs)
    requires s.procs[i].HoldsIpc? && s.procs[i].got > 0
    ensures s.vars.pack >= 1
  {
    TotalAfter(Ipcw, s.procs, i, Idle);
    TotalAfter(GotPacks, s.procs, i, Idle);
    Alone(s.procs, i);
  }

  lemma PeaksKept(s: State, i: nat, c: Choice)
    requires i < |s.procs| && Locks(s.sems, s.procs) && Peaks(s.vars, s.peak, s.procs)
    ensures var t := Step(s, i, c); Peaks(t.vars, t.peak, t.procs)
  {
    hide Total, Send, Receive, Min, Less;
    var p := Act(s.procs[i], s.sock, s.sems, s.vars, c).p;
    TotalAfter(PackWindow, s.procs, i, p);
    TotalAfter(ByteWindow, s.procs, i, p);
    TotalAfter(Ipcw, s.procs, i, p);
    if Weight(Ipcw, s.procs[i]) == 1 { Alone(s.procs, i); }
  }

  lemma LoggedKept(s: State, i: nat, c: Choice)
    requires i < |s.procs| && Logged(s.sock)
    ensures Logged(Step(s, i, c).sock)
  {
    var k := s.sock;
    match s.procs[i]
    case HoldsBoth(n) => assert k.recvLog + k.queue + [n] == k.recvLog + (k.queue + [n]);
    case HoldsPipe =>
      if k.queue != [] { assert k.recvLog + [k.queue[0]] + k.queue[1..] == k.recvLog + k.queue; }
    case _ =>
  }

  /** Every statement of every process keeps the invariant. */
  lemma StepKeepsInv(s: State, i: nat, c: Choice)
    requires i < |s.procs| && Inv(s)
    ensures Inv(Step(s, i, c))
  {
    hide Step, Locks, PacksCounted, BytesCounted, Peaks, Logged;
    LocksKept(s, i, c);
    PacksKept(s, i, c);
    if s.procs[i].HoldsIpc? && s.procs[i].got > 0 { PackIsPositive(s, i); }
    BytesKept(s, i, c);
    PeaksKept(s, i, c);
    LoggedKept(s, i, c);
  }

  // ---- all interleavings ----

  datatype Action = Action(process: nat, choice: Choice)

  /** The states of a run, one more than its actions. */
  function Run(s: State, acts: seq<Action>): seq<State>
    requires forall a :: a in acts ==> a.process < |s.procs|
    decreases |acts|
  {
    if acts == [] then [s] else
      [s] + Run(Step(s, acts[0].process, acts[0].choice), acts[1..])
  }

  lemma {:induction false} RunKeepsInv(s: State, acts: seq<Action>)
    requires (forall a :: a in acts ==> a.process < |s.procs|) && Inv(s)
    ensures forall t :: t in Run(s, acts) ==> Inv(t)
    decreases |acts|
  {
    hide Inv, Step;
    if acts != [] {
      StepKeepsInv(s, acts[0].process, acts[0].choice);
      RunKeepsInv(Step(s, acts[0].process, acts[0].choice), acts[1..]);
    }
  }

  /** Whenever the ipc lock is free, in every interleaving of n processes: pack_in_queue counts
      the datagrams queued or received but not yet accounted; byte_in_queue is their size plus
      whatever receives have cut off, so it is exact as long as no datagram exceeds
      MAX_PACKET_SIZE; and the maxima are the largest values the counters ever had. */
  lemma CountersAreExact(n: nat, acts: seq<Action>, t: State)
    requires forall a :: a in acts ==> a.process < n
    requires t in Run(Init(n), acts) && t.sems.ipcw == 0
    ensures t.vars.pack == |t.sock.queue| + Total(GotPacks, t.procs)
    ensures t.vars.byte == Sum(t.sock.queue) + Total(GotBytes, t.procs) + Lost(t.sock.recvLog)
    ensures t.vars.byte == Sum(t.sock.queue) + Total(GotBytes, t.procs) <==>
            forall i :: 0 <= i < |t.sock.recvLog| ==> t.sock.recvLog[i] <= MAX_PACKET_SIZE
    ensures t.vars.maxPack == t.peak.pack && t.vars.maxSize == t.peak.byte
    ensures t.sock.sentLog == t.sock.recvLog + t.sock.queue
  {
    InitHolds(n);
    RunKeepsInv(Init(n), acts);
    NoHolderNoWindow(SentPacks, t.procs);
    NoHolderNoWindow(SentBytes, t.procs);
    NoHolderNoWindow(PackWindow, t.procs);
    NoHolderNoWindow(ByteWindow, t.procs);
    NothingLost(t.sock.recvLog);
  }

  /** Accounting for a received datagram never underflows, and the branch that repairs the
      counters is never taken. */
  lemma AccountingIsSafe(n: nat, acts: seq<Action>, t: State, i: nat)
    requires forall a :: a in acts ==> a.process < n
    requires t in Run(Init(n), acts) && i < |t.procs|
    ensures t.procs[i].HoldsIpc? && t.procs[i].got > 0 ==> t.vars.pack >= 1 && t.vars.byte >= t.procs[i].got
    ensures t.procs[i].PackUncounted? ==> t.vars.pack >= 0 && t.vars.byte >= t.procs[i].got
    ensures !t.vars.repaired
  {
    InitHolds(n);
    RunKeepsInv(Init(n), acts);
    TotalAfter(GotPacks, t.procs, i, Idle);
    TotalAfter(GotBytes, t.procs, i, Idle);
    TotalAfter(Ipcw, t.procs, i, Idle);
    if Weight(Ipcw, t.procs[i]) == 1 { Alone(t.procs, i); }
  }

  lemma TwoHolders(m: Measure, ps: seq<Process>, i: nat, j: nat)
    requires i < j < |ps| && Weight(m, ps[i]) == 1 && Weight(m, ps[j]) == 1
    ensures Total(m, ps) >= 2
  {
    TotalAfter(m, ps, i, Idle);
    TotalAfter(m, ps[i := Idle], j, Idle);
  }

  /** The semaphores exclude: no two processes are inside the same lock. */
  lemma MutualExclusion(n: nat, acts: seq<Action>, t: State, i: nat, j: nat)
    requires forall a :: a in acts ==> a.process < n
    requires t in Run(Init(n), acts) && i < j < |t.procs|
    ensures !(Weight(Ipcw, t.procs[i]) == 1 && Weight(Ipcw, t.procs[j]) == 1)
    ensures !(Weight(Incw, t.procs[i]) == 1 && Weight(Incw, t.procs[j]) == 1)
    ensures !(Weight(Pipe, t.procs[i]) == 1 && Weight(Pipe, t.procs[j]) == 1)
  {
    InitHolds(n);
    RunKeepsInv(Init(n), acts);
    forall m: Measure | m in [Ipcw, Incw, Pipe]
      ensures !(Weight(m, t.procs[i]) == 1 && Weight(m, t.procs[j]) == 1)
    {
      if Weight(m, t.procs[i]) == 1 && Weight(m, t.procs[j]) == 1 { TwoHolders(m, t.procs, i, j); }
    }
  }

  datatype Counter = Packs | Bytes

  function Now(c: Counter, v: Vars): int { if c.Packs? then v.pack else v.byte }

  function Top(c: Counter, p: Peak): int { if c.Packs? then p.pack else p.byte }

  lemma StepPeak(c: Counter, s: State, a: Action)
    requires a.process < |s.procs|
    ensures var t := Step(s, a.process, a.choice);
            Top(c, t.peak) == Max(Top(c, s.peak), Now(c, t.vars)) && |t.procs| == |s.procs|
  {
  }

  /** The recorded peak really is the largest value of its counter in the run. */
  lemma {:induction false} PeakIsMaximum(c: Counter, s: State, acts: seq<Action>)
    requires (forall a :: a in acts ==> a.process < |s.procs|) && Now(c, s.vars) <= Top(c, s.peak)
    ensures var run := Run(s, acts);
            var last := run[|run| - 1];
            && Top(c, last.peak) >= Top(c, s.peak)
            && (forall t :: t in run ==> Now(c, t.vars) <= Top(c, last.peak))
            && (Top(c, last.peak) == Top(c, s.peak)
                || exists t :: t in run && Now(c, t.vars) == Top(c, last.peak))
    decreases |acts|
  {
    hide Step, Now, Top;
    if acts != [] {
      var s' := Step(s, acts[0].process, acts[0].choice);
      StepPeak(c, s, acts[0]);
      PeakIsMaximum(c, s', acts[1..]);
      var rest := Run(s', acts[1..]);
      assert Run(s, acts) == [s] + rest;
      assert rest[0] == s' && s' in rest;
      var last := rest[|rest| - 1];
      if Top(c, last.peak) == Top(c, s'.peak) != Top(c, s.peak) {
        assert Now(c, s'.vars) == Top(c, last.peak);
      } else if Top(c, last.peak) != Top(c, s'.peak) {
        var t :| t in rest && Now(c, t.vars) == Top(c, last.peak);
        assert t in Run(s, acts);
      }
    }
  }

  /** So max_queue_pack and max_queue_size, when the lock is free, are the largest values their
      counters had since the start. */
  lemma MaximaAreReached(n: nat, acts: seq<Action>)
    requires forall a :: a in acts ==> a.process < n
    ensures var run := Run(Init(n), acts);
            var last := run[|run| - 1];
            last.sems.ipcw == 0 ==>
              && (forall t :: t in run ==> t.vars.pack <= last.vars.maxPack && t.vars.byte <= last.vars.maxSize)
              && (exists t :: t in run && t.vars.pack == last.vars.maxPack)
              && (exists t :: t in run && t.vars.byte == last.vars.maxSize)
  {
    hide Step, Inv;
    var run := Run(Init(n), acts);
    var last := run[|run| - 1];
    PeakIsMaximum(Packs, Init(n), acts);
    PeakIsMaximum(Bytes, Init(n), acts);
    if last.sems.ipcw == 0 { CountersAreExact(n, acts, last); }
    assert run[0] == Init(n) && Init(n) in run;
    assert forall t :: t in run ==> Now(Packs, t.vars) == t.vars.pack && Now(Bytes, t.vars) == t.vars.byte;
  }

  // ---- what one send and one receive come to ----

  /** The statements of process i, one after the other, while nobody else moves. */
  function Gos(i: nat, k: nat): (acts: seq<Action>)
    ensures |acts| == k && forall a :: a in acts ==> a == Action(i, Go)
  {
    if k == 0 then [] else [Action(i, Go)] + Gos(i, k - 1)
  }

  function End(s: State, acts: seq<Action>): State
    requires forall a :: a in acts ==> a.process < |s.procs|
    decreases |acts|
  {
    if acts == [] then s else End(Step(s, acts[0].process, acts[0].choice), acts[1..])
  }

  lemma {:induction false} EndIsLast(s: State, acts: seq<Action>)
    requires forall a :: a in acts ==> a.process < |s.procs|
    ensures |Run(s, acts)| == |acts| + 1 && Run(s, acts)[|acts|] == End(s, acts)
    decreases |acts|
  {
    hide Step;
    if acts != [] { EndIsLast(Step(s, acts[0].process, acts[0].choice), acts[1..]); }
  }

  lemma FirstGo(s: State, i: nat, k: nat)
    requires i < |s.procs| && k > 0
    ensures End(s, Gos(i, k)) == End(Step(s, i, Go), Gos(i, k - 1))
  {
    hide Step;
    assert Gos(i, k)[1..] == Gos(i, k - 1);
  }

  lemma FirstOf(s: State, i: nat, c: Choice, k: nat)
    requires i < |s.procs|
    ensures var acts := [Action(i, c)] + Gos(i, k);
      var run := Run(s, acts);
      run[|run| - 1] == End(Step(s, i, c), Gos(i, k))
  {
    hide Step;
    var acts := [Action(i, c)] + Gos(i, k);
    EndIsLast(s, acts);
    assert acts[1..] == Gos(i, k);
  }

  /** A send with its two locks free, up to the four statements of accounting. */
  lemma SendsIt(s: State, i: nat, n: nat)
    requires i < |s.procs| && s.procs[i] == Idle && s.sems.incw == 0 && s.sems.ipcw == 0 && n > 0
    ensures var t := Step(Step(Step(s, i, BeginSend(n)), i, Go), i, Go);
      && t.procs == s.procs[i := Sent(n)] && t.sems == s.sems.(incw := 1, ipcw := 1) && t.vars == s.vars
      && t.sock == Socket(s.sock.queue + [n], s.sock.sentLog + [n], s.sock.recvLog)
  {
  }

  lemma CountsIt(s: State, i: nat, n: nat)
    requires i < |s.procs| && s.procs[i] == Sent(n)
    ensures var t := Step(Step(s, i, Go), i, Go);
      && t.procs == s.procs[i := ByteCounted] && t.sems == s.sems && t.sock == s.sock
      && t.vars == s.vars.(pack := s.vars.pack + 1, byte := s.vars.byte + n)
  {
  }

  lemma RaisesMaxima(s: State, i: nat)
    requires i < |s.procs| && s.procs[i] == ByteCounted
    ensures var t := Step(Step(s, i, Go), i, Go);
      && t.procs == s.procs[i := SendDone] && t.sems == s.sems && t.sock == s.sock
      && t.vars == s.vars.(maxSize := Max(s.vars.maxSize, s.vars.byte), maxPack := Max(s.vars.maxPack, s.vars.pack))
  {
  }

  lemma LetsGo(s: State, i: nat)
    requires i < |s.procs| && s.procs[i] == SendDone && s.sems.incw == s.sems.ipcw == 1
    ensures var t := Step(Step(s, i, Go), i, Go);
      && t.procs == s.procs[i := Idle] && t.sems == s.sems.(incw := 0, ipcw := 0)
      && t.sock == s.sock && t.vars == s.vars
  {
  }

  /** A process that sends while the locks are free puts exactly its datagram behind the others,
      counts it once, raises the maxima as far as needed, and leaves all locks as they were. */
  lemma SendGoesThrough(s: State, i: nat, n: nat)
    requires i < |s.procs| && s.procs[i] == Idle && s.sems.incw == 0 && s.sems.ipcw == 0 && n > 0
    ensures var run := Run(s, [Action(i, BeginSend(n))] + Gos(i, 8));
      var t := run[|run| - 1];
      && t.procs == s.procs && t.sems == s.sems
      && t.sock.queue == s.sock.queue + [n]
      && t.sock.sentLog == s.sock.sentLog + [n] && t.sock.recvLog == s.sock.recvLog
      && t.vars.pack == s.vars.pack + 1 && t.vars.byte == s.vars.byte + n
      && t.vars.maxSize == (if t.vars.byte > s.vars.maxSize then t.vars.byte else s.vars.maxSize)
      && t.vars.maxPack == (if t.vars.pack > s.vars.maxPack then t.vars.pack else s.vars.maxPack)
      && t.vars.repaired == s.vars.repaired
  {
    hide Step, End, Gos, Run;
    FirstOf(s, i, BeginSend(n), 8);
    SendsIt(s, i, n);
    var s1 := Step(s, i, BeginSend(n));
    FirstGo(s1, i, 8);
    FirstGo(Step(s1, i, Go), i, 7);
    var s2 := Step(Step(s1, i, Go), i, Go);
    CountsIt(s2, i, n);
    FirstGo(s2, i, 6);
    FirstGo(Step(s2, i, Go), i, 5);
    var s3 := Step(Step(s2, i, Go), i, Go);
    RaisesMaxima(s3, i);
    FirstGo(s3, i, 4);
    FirstGo(Step(s3, i, Go), i, 3);
    var s4 := Step(Step(s3, i, Go), i, Go);
    LetsGo(s4, i);
    FirstGo(s4, i, 2);
    FirstGo(Step(s4, i, Go), i, 1);
    NoMore(Step(Step(s4, i, Go), i, Go), i);
  }

  lemma NoMore(s: State, i: nat)
    ensures Gos(i, 0) == [] && End(s, Gos(i, 0)) == s
  {
  }

  lemma TakesIt(s: State, i: nat)
    requires i < |s.procs| && s.procs[i] == Idle && s.sems.inc == 0 && s.sock.queue != []
    ensures var q := s.sock.queue;
      var t := Step(Step(Step(s, i, BeginReceive), i, Go), i, Go);
      && t.procs == s.procs[i := PipeReleased(if q[0] > 8192 then 8192 else q[0])]
      && t.sems == s.sems && t.vars == s.vars
      && t.sock == Socket(q[1..], s.sock.sentLog, s.sock.recvLog + [q[0]])
  {
  }

  lemma UncountsIt(s: State, i: nat, got: nat)
    requires i < |s.procs| && s.procs[i] == PipeReleased(got) && got > 0 && s.sems.ipcw == 0 && s.vars.pack != 0
    ensures var t := Step(Step(s, i, Go), i, Go);
      && t.procs == s.procs[i := PackUncounted(got)] && t.sems == s.sems.(ipcw := 1) && t.sock == s.sock
      && t.vars == s.vars.(pack := s.vars.pack - 1)
  {
  }

  lemma EndsIt(s: State, i: nat, got: nat)
    requires i < |s.procs| && s.procs[i] == PackUncounted(got) && s.sems.ipcw == 1
    ensures var t := Step(Step(s, i, Go), i, Go);
      && t.procs == s.procs[i := Idle] && t.sems == s.sems.(ipcw := 0) && t.sock == s.sock
      && t.vars == s.vars.(byte := s.vars.byte - got)
  {
  }

  lemma WaitingIsCounted(s: State)
    requires Inv(s) && s.sems.ipcw == 0 && s.sock.queue != []
    ensures s.vars.pack != 0 && s.sock.queue[0] > 0
  {
    NoHolderNoWindow(SentPacks, s.procs);
  }

  /** A process that receives while the locks are free and a datagram waits takes exactly the
      first one, and the counters fall by one and by what it received. */
  lemma ReceiveGoesThrough(s: State, i: nat)
    requires Inv(s) && i < |s.procs| && s.procs[i] == Idle && s.sems.inc == 0 && s.sems.ipcw == 0
    requires s.sock.queue != []
    ensures var q := s.sock.queue;
      var run := Run(s, [Action(i, BeginReceive)] + Gos(i, 6));
      var t := run[|run| - 1];
      && t.procs == s.procs && t.sems == s.sems
      && t.sock.queue == q[1..]
      && t.sock.sentLog == s.sock.sentLog && t.sock.recvLog == s.sock.recvLog + [q[0]]
      && t.vars == s.vars.(pack := s.vars.pack - 1,
                           byte := s.vars.byte - if q[0] > 8192 then 8192 else q[0])
  {
    hide Step, End, Gos, Inv, Run;
    WaitingIsCounted(s);
    var got := if s.sock.queue[0] > 8192 then 8192 else s.sock.queue[0];
    FirstOf(s, i, BeginReceive, 6);
    TakesIt(s, i);
    var s1 := Step(s, i, BeginReceive);
    FirstGo(s1, i, 6);
    FirstGo(Step(s1, i, Go), i, 5);
    var s2 := Step(Step(s1, i, Go), i, Go);
    UncountsIt(s2, i, got);
    FirstGo(s2, i, 4);
    FirstGo(Step(s2, i, Go), i, 3);
    var s3 := Step(Step(s2, i, Go), i, Go);
    EndsIt(s3, i, got);
    FirstGo(s3, i, 2);
    FirstGo(Step(s3, i, Go), i, 1);
    NoMore(Step(Step(s3, i, Go), i, Go), i);
  }

  /** All that is shared, and where every process stands. */
  predicate Same(t: State, s: State) {
    t.procs == s.procs && t.sock == s.sock && t.sems == s.sems && t.vars == s.vars
  }

  lemma EndFront(s: State, i: nat, c: Choice, rest: seq<Action>)
    requires i < |s.procs| && forall a :: a in rest ==> a.process < |s.procs|
    ensures End(s, [Action(i, c)] + rest) == End(Step(s, i, c), rest)
  {
    assert ([Action(i, c)] + rest)[1..] == rest;
  }

  lemma NotSent(s: State, i: nat, n: nat, c: Choice)
    requires i < |s.procs| && s.procs[i] == Idle && s.sems.incw == 0 && s.sems.ipcw == 0
    requires c == Refuse || (c == Go && n == 0)
    ensures var t := Step(Step(Step(s, i, BeginSend(n)), i, Go), i, c);
      && t.procs == s.procs[i := SendDone] && t.sems == s.sems.(incw := 1, ipcw := 1)
      && t.sock == s.sock && t.vars == s.vars
  {
  }

  /** A send that fails, or has nothing to send, leaves everything as it was. */
  lemma FailedSend(s: State, i: nat, n: nat, c: Choice)
    requires i < |s.procs| && s.procs[i] == Idle && s.sems.incw == 0 && s.sems.ipcw == 0
    requires c == Refuse || (c == Go && n == 0)
    ensures var acts := [Action(i, BeginSend(n))] + ([Action(i, Go)] + ([Action(i, c)] + Gos(i, 2)));
      var run := Run(s, acts);
      Same(run[|run| - 1], s)
  {
    hide Step, End, Gos, Run;
    var third := [Action(i, c)] + Gos(i, 2);
    EndIsLast(s, [Action(i, BeginSend(n))] + ([Action(i, Go)] + third));
    var s1 := Step(s, i, BeginSend(n));
    var s2 := Step(s1, i, Go);
    var s3 := Step(s2, i, c);
    EndFront(s, i, BeginSend(n), [Action(i, Go)] + third);
    EndFront(s1, i, Go, third);
    EndFront(s2, i, c, Gos(i, 2));
    NotSent(s, i, n, c);
    FirstGo(s3, i, 2);
    FirstGo(Step(s3, i, Go), i, 1);
    LetsGo(s3, i);
    NoMore(Step(Step(s3, i, Go), i, Go), i);
  }

  lemma NotReceived(s: State, i: nat)
    requires i < |s.procs| && s.procs[i] == Idle && s.sems.inc == 0
    ensures var t := Step(Step(Step(s, i, BeginReceive), i, Refuse), i, Go);
      t.procs == s.procs[i := PipeReleased(0)] && t.sems == s.sems && t.sock == s.sock && t.vars == s.vars
  {
  }

  lemma NothingToCount(s: State, i: nat)
    requires i < |s.procs| && s.procs[i] == PipeReleased(0) && s.sems.ipcw == 0
    ensures var t := Step(Step(Step(s, i, Go), i, Go), i, Go);
      t.procs == s.procs[i := Idle] && t.sems == s.sems && t.sock == s.sock && t.vars == s.vars
  {
  }

  /** So does a receive that fails. */
  lemma FailedReceive(s: State, i: nat)
    requires i < |s.procs| && s.procs[i] == Idle && s.sems.inc == 0 && s.sems.ipcw == 0
    ensures var acts := [Action(i, BeginReceive)] + ([Action(i, Refuse)] + Gos(i, 4));
      var run := Run(s, acts);
      Same(run[|run| - 1], s)
  {
    hide Step, End, Gos, Run;
    EndIsLast(s, [Action(i, BeginReceive)] + ([Action(i, Refuse)] + Gos(i, 4)));
    var s1 := Step(s, i, BeginReceive);
    var s2 := Step(s1, i, Refuse);
    EndFront(s, i, BeginReceive, [Action(i, Refuse)] + Gos(i, 4));
    EndFront(s1, i, Refuse, Gos(i, 4));
    NotReceived(s, i);
    var s3 := Step(s2, i, Go);
    FirstGo(s2, i, 4);
    FirstGo(s3, i, 3);
    FirstGo(Step(s3, i, Go), i, 2);
    FirstGo(Step(Step(s3, i, Go), i, Go), i, 1);
    NothingToCount(s3, i);
    NoMore(Step(Step(Step(s3, i, Go), i, Go), i, Go), i);
  }

  /** A process begins a call only when asked to. */
  lemma IdleStays(s: State, i: nat, c: Choice)
    requires i < |s.procs| && s.procs[i] == Idle && (c == Go || c == Refuse)
    ensures Same(Step(s, i, c), s)
  {
  }

  // ---- nobody waits for ever on the locks ----

  lemma {:induction false} Holder(m: Measure, ps: seq<Process>) returns (i: nat)
    requires Total(m, ps) > 0
    ensures i < |ps| && Weight(m, ps[i]) > 0
  {
    if Weight(m, ps[0]) > 0 {
      i := 0;
    } else {
      i := Holder(m, ps[1..]);
      i := i + 1;
    }
  }

  /** A receiver that waits for a datagram. */
  predicate WaitsForData(s: State, i: nat)
    requires i < |s.procs|
  {
    s.procs[i] == HoldsPipe && s.sock.queue == []
  }

  /** A process that holds the ipc lock can always move; with that lock free every process can
      that is inside a call and does not just wait for a datagram. */
  lemma CanMove(s: State, i: nat)
    requires i < |s.procs| && s.procs[i] != Idle && !WaitsForData(s, i)
    requires Weight(Ipcw, s.procs[i]) > 0 || s.sems.ipcw == 0
    ensures Step(s, i, Go).procs[i] != s.procs[i]
  {
  }

  lemma LockIsHeld(s: State)
    requires Inv(s)
    ensures s.sems.ipcw == Total(Ipcw, s.procs)
  {
  }

  /** No interleaving deadlocks: as long as some process is inside a call and does not just wait
      for a datagram, some process can move. */
  lemma NoDeadlock(n: nat, acts: seq<Action>, t: State, i: nat)
    requires forall a :: a in acts ==> a.process < n
    requires t in Run(Init(n), acts) && i < |t.procs|
    requires t.procs[i] != Idle && !WaitsForData(t, i)
    ensures exists j :: 0 <= j < |t.procs| && Step(t, j, Go).procs[j] != t.procs[j]
  {
    hide Step, Inv, Run;
    InitHolds(n);
    RunKeepsInv(Init(n), acts);
    LockIsHeld(t);
    var j := i;
    if t.sems.ipcw != 0 { j := Holder(Ipcw, t.procs); }
    CanMove(t, j);
  }
}
