/** The doubly linked lists of event/epacket.cpp: every user owns a list of
    unacknowledged packets, and the users themselves form a list. */
module EPacket {
  import opened RetryQueue
  import opened RetryRuns

  class PackNode {
    var next: PackNode?
    var prev: PackNode?
    var stamp: nat
    var buff: seq<bv8>
    var retries: nat
    var ctime: nat
    ghost const owner: UserNode

    constructor (stamp: nat, buff: seq<bv8>, retries: nat, ctime: nat, ghost owner: UserNode)
      ensures View() == Pack(stamp, buff, retries, ctime) && this.owner == owner
      ensures next == null && prev == null
    {
      this.stamp, this.buff, this.retries, this.ctime := stamp, buff, retries, ctime;
      next, prev := null, null;
      this.owner := owner;
    }

    ghost function View(): Pack
      reads this`stamp, this`buff, this`retries, this`ctime
    {
      Pack(stamp, buff, retries, ctime)
    }
  }

  class UserNode {
    var uin: nat
    var usid: nat
    var ishm: nat
    var ip: nat
    var port: nat
    var timeOut: nat
    var pqueue: PackNode?
    var next: UserNode?
    var prev: UserNode?
    ghost var packs: seq<PackNode>
    ghost var vals: seq<Pack>
    ghost var repr: set<PackNode>

    /** The list from pqueue is linked both ways through exactly the nodes packs. */
    ghost predicate Linked()
      reads this`pqueue, this`packs, this`repr, repr`next, repr`prev
    {
      && (forall i :: 0 <= i < |packs| ==> packs[i] in repr)
      && pqueue == (if packs == [] then null else packs[0])
      && (forall i, j :: 0 <= i < j < |packs| ==> packs[i] != packs[j])
      && (forall i {:trigger packs[i].next} :: 0 <= i < |packs| ==>
            packs[i].next == (if i + 1 < |packs| then packs[i + 1] else null))
      && (forall i {:trigger packs[i].prev} :: 0 <= i < |packs| ==>
            packs[i].prev == (if i > 0 then packs[i - 1] else null))
    }

    /** The nodes hold the packets vals. */
    ghost predicate Filled()
      reads this`packs, this`vals, this`repr, repr`stamp, repr`buff, repr`retries, repr`ctime
    {
      && |vals| == |packs|
      && (forall p :: p in repr ==> p.owner == this)
      && (forall i :: 0 <= i < |packs| ==> packs[i] in repr)
      && (forall i {:trigger packs[i].View()} :: 0 <= i < |packs| ==> packs[i].View() == vals[i])
    }

    ghost predicate Valid()
      reads this`pqueue, this`packs, this`vals, this`repr, repr
    {
      Linked() && Filled()
    }

    ghost function View(): Queue
      reads this`uin, this`usid, this`ishm, this`ip, this`port, this`timeOut, this`vals
    {
      Queue(uin, usid, ishm, ip, port, timeOut, vals)
    }

    constructor (u: User, r: Request)
      ensures Valid() && packs == [] && next == null && prev == null
      ensures View() == NewQueue(u, r) && repr == {}
    {
      uin, usid, ishm, ip, port, timeOut := u.uin, u.usid, u.ishm, u.ip, u.port, r.timeOut;
      pqueue, next, prev := null, null, null;
      packs, vals, repr := [], [], {};
    }

    method LinkFirst(node: PackNode)
      requires Linked() && node !in repr
      modifies this`pqueue, this`packs, this`repr, repr`prev, node`next, node`prev
      ensures Linked() && packs == [node] + old(packs) && repr == old(repr) + {node}
    {
      if pqueue != null { pqueue.prev := node; }
      node.next := pqueue;
      node.prev := null;
      pqueue := node;
      packs, repr := [node] + packs, repr + {node};
    }

    /** user_queue_add_packet: a new packet goes to the head of the list. */
    method AddPacket(r: Request, stamp: nat, a: Alloc)
      requires Valid()
      modifies this`pqueue, this`packs, this`vals, this`repr, repr`prev
      ensures Valid()
      ensures View() == Enqueue(old(View()), r, stamp, a)
      ensures fresh(repr - old(repr))
    {
      if !a.record || !a.buffer { return; }
      var node := new PackNode(stamp, r.buff, r.retries, timeOut, this);
      ghost var was := packs;
      LinkFirst(node);
      vals := [node.View()] + vals;
      assert forall i {:trigger packs[i].View()} :: 0 < i < |packs| ==>
        packs[i] == was[i - 1] && packs[i].View() == old(was[i - 1].View());
    }

    /** The relinking shared by acknowledgement and expiry. */
    method Relink(p: PackNode, ghost k: nat)
      requires Linked() && k < |packs| && packs[k] == p
      modifies this`pqueue, this`packs, repr`next, repr`prev
      ensures Linked() && packs == old(packs)[..k] + old(packs)[k + 1..]
    {
      assert packs[k].next == (if k + 1 < |packs| then packs[k + 1] else null);
      assert packs[k].prev == (if k > 0 then packs[k - 1] else null);
      if p.next != null { p.next.prev := p.prev; }
      if p.prev != null { p.prev.next := p.next; } else { pqueue := p.next; }
      packs := packs[..k] + packs[k + 1..];
    }

    method Unlink(p: PackNode, ghost k: nat)
      requires Valid() && k < |packs| && packs[k] == p
      modifies this`pqueue, this`packs, this`vals, repr`next, repr`prev
      ensures Valid() && packs == old(packs)[..k] + old(packs)[k + 1..]
      ensures vals == old(vals)[..k] + old(vals)[k + 1..]
    {
      Relink(p, k);
      vals := vals[..k] + vals[k + 1..];
    }

    /** Node number k of the list, null past its end. */
    ghost function At(k: nat): PackNode?
      reads this`packs
    {
      if k < |packs| then packs[k] else null
    }

    /** One iteration of user_queue_del_packet: done is handled, p heads rest. */
    method DelOne(p: PackNode, stamp: nat, ghost done: seq<Pack>, ghost rest: seq<Pack>)
      returns (next: PackNode?, ghost done': seq<Pack>)
      requires Valid() && vals == done + rest && p == At(|done|)
      modifies this`pqueue, this`packs, this`vals, repr`next, repr`prev
      ensures Valid()
      ensures rest != [] && done' == done + Keep(rest[0], stamp)
      ensures vals == done' + rest[1..] && next == At(|done'|)
    {
      assert packs[|done|].View() == vals[|done|];
      next := p.next;
      done' := done + Keep(rest[0], stamp);
      if p.stamp == stamp { Unlink(p, |done|); }
    }

    /** user_queue_del_packet: drop every packet that carries the stamp. */
    method DelPacket(stamp: nat)
      requires Valid()
      modifies this`pqueue, this`packs, this`vals, repr`next, repr`prev
      ensures Valid()
      ensures View() == DropStamp(old(View()), stamp)
    {
      ghost var done: seq<Pack>, rest := [], vals;
      var cur := pqueue;
      while cur != null
        invariant Valid() && vals == done + rest && cur == At(|done|)
        invariant WithoutStamp(old(vals), stamp) == done + WithoutStamp(rest, stamp)
        invariant cur != null ==> rest != []
        decreases |rest|
      {
        WithoutStampStep(old(vals), stamp, done, rest);
        cur, done := DelOne(cur, stamp, done, rest);
        rest := rest[1..];
      }
    }

    /** Write the retry data of the packet at position k. */
    method Store(p: PackNode, retries: nat, ctime: nat, ghost k: nat)
      requires Valid() && p == At(k)
      modifies this`vals, p`retries, p`ctime
      ensures Valid()
      ensures vals == old(vals)[k := old(vals)[k].(retries := retries, ctime := ctime)]
    {
      assert packs[k].View() == vals[k];
      p.retries, p.ctime := retries, ctime;
      vals := vals[k := p.View()];
      assert forall i {:trigger packs[i].View()} :: 0 <= i < |packs| && i != k ==>
        packs[i].View() == old(packs[i].View());
    }

    /** One iteration of user_pqueue_check: done is handled, p heads rest. */
    method CheckOne(p: PackNode, ghost done: seq<Pack>, ghost rest: seq<Pack>)
      returns (next: PackNode?, sent: seq<Resend>, ghost done': seq<Pack>)
      requires Valid() && vals == done + rest && p == At(|done|)
      modifies this`pqueue, this`packs, this`vals, repr
      ensures Valid()
      ensures rest != [] && done' == done + TickPack(rest[0], timeOut)
      ensures vals == done' + rest[1..] && next == At(|done'|)
      ensures sent == PackResend(View(), rest[0])
    {
      ghost var k := |done|;
      assert packs[k].View() == vals[k] == rest[0];
      next, sent, done' := p.next, [], done + TickPack(rest[0], timeOut);
      if p.ctime == 0 && p.retries != 0 {
        sent := [Resend(uin, p.stamp, ip, port, p.buff)];
        Store(p, p.retries - 1, timeOut, k);
      }
      assert packs[k].View() == vals[k] == Reload(rest[0], timeOut);
      if p.ctime == 0 && p.retries == 0 {
        Unlink(p, k);
        return;
      }
      if p.ctime != 0 { Store(p, p.retries, p.ctime - 1, k); }
    }

    /** user_pqueue_check: one second passes for every packet of this user. */
    method Check() returns (sent: seq<Resend>)
      requires Valid()
      modifies this`pqueue, this`packs, this`vals, repr
      ensures Valid()
      ensures View() == TickQueue(old(View()))
      ensures sent == QueueResends(old(View()))
    {
      ghost var done: seq<Pack>, rest, q := [], vals, View();
      sent := [];
      var cur := pqueue;
      while cur != null
        invariant Valid() && vals == done + rest && cur == At(|done|)
        invariant TickPacks(q.packs, timeOut) == done + TickPacks(rest, timeOut)
        invariant QueueResends(q) == sent + PackResends(q, rest)
        invariant cur != null ==> rest != []
        decreases |rest|
      {
        TickPacksStep(q, done, sent, rest);
        var s;
        cur, s, done := CheckOne(cur, done, rest);
        sent, rest := sent + s, rest[1..];
      }
    }

    /** The branch of add_packet_to_list for a packet of another session. */
    method Renew(u: User, r: Request)
      requires Valid()
      modifies this`pqueue, this`packs, this`vals
      modifies this`uin, this`usid, this`ishm, this`ip, this`port, this`timeOut
      ensures Valid() && View() == NewQueue(u, r)
    {
      if pqueue != null { Clear(); }
      uin, usid, ishm, ip, port, timeOut := u.uin, u.usid, u.ishm, u.ip, u.port, r.timeOut;
    }

    /** delete_user_pqueue */
    method Clear()
      requires Valid()
      modifies this`pqueue, this`packs, this`vals
      ensures Valid() && packs == []
    {
      var cur := pqueue;
      ghost var k := 0;
      while cur != null
        invariant k <= |packs|
        invariant cur == if k < |packs| then packs[k] else null
        decreases |packs| - k
      {
        cur := cur.next;
        k := k + 1;
      }
      pqueue := null;
      packs, vals := [], [];
    }
  }

  /** The node u is well formed and holds the row v. */
  ghost predicate Row(u: UserNode, v: Queue)
    reads u`uin, u`usid, u`ishm, u`ip, u`port, u`timeOut, u`vals, u`packs, u`pqueue, u`repr
    reads u.repr
  {
    u.Valid() && u.View() == v
  }

  ghost predicate Distinct(us: seq<UserNode>) {
    forall i, j :: 0 <= i < j < |us| ==> us[i] != us[j]
  }

  /** The list of users, from uqueue_root to uqueue_last. */
  class Processor {
    var root: UserNode?
    var last: UserNode?
    var users: map<nat, User>  // the shared records of online users
    ghost var queues: seq<UserNode>
    ghost var table: seq<Queue>
    ghost var repr: set<UserNode>
    ghost var packRepr: set<PackNode>

    ghost predicate Linked()
      reads this`root, this`last, this`queues, this`repr, repr`next, repr`prev
    {
      && (forall i :: 0 <= i < |queues| ==> queues[i] in repr)
      && root == (if queues == [] then null else queues[0])
      && last == (if queues == [] then null else queues[|queues| - 1])
      && Distinct(queues)
      && (forall i {:trigger queues[i].next} :: 0 <= i < |queues| ==>
            queues[i].next == (if i + 1 < |queues| then queues[i + 1] else null))
      && (forall i {:trigger queues[i].prev} :: 0 <= i < |queues| ==>
            queues[i].prev == (if i > 0 then queues[i - 1] else null))
    }

    /** Node i of us holds row i of t. */
    ghost predicate Rows(us: seq<UserNode>, t: seq<Queue>)
      reads this`packRepr, packRepr
      reads us`uin, us`usid, us`ishm, us`ip, us`port, us`timeOut
      reads us`vals, us`packs, us`pqueue, us`repr
    {
      && |t| == |us|
      && (forall i :: 0 <= i < |us| ==> us[i].repr <= packRepr)
      && (forall i {:trigger Row(us[i], t[i])} :: 0 <= i < |us| ==> Row(us[i], t[i]))
    }

    ghost predicate Valid()
      reads this, repr, packRepr, queues
    {
      Linked() && Rows(queues, table)
    }

    ghost function At(k: nat): UserNode?
      reads this`queues
    {
      if k < |queues| then queues[k] else null
    }

    /** init_packets_list */
    constructor ()
      ensures Valid() && table == [] && users == map[]
    {
      users := map[];
      root, last := null, null;
      queues, table, repr, packRepr := [], [], {}, {};
    }

    /** The search loop shared by insertion and acknowledgement. */
    method FindQueue(uin: nat) returns (q: UserNode?, ghost k: nat)
      requires Valid()
      ensures k == Find(table, uin) && q == At(Find(table, uin))
    {
      q, k := root, 0;
      while q != null && q.uin != uin
        invariant k <= |queues| && q == At(k)
        invariant forall i :: 0 <= i < k ==> table[i].uin != uin
        decreases |queues| - k
      {
        assert Row(queues[k], table[k]);
        q, k := q.next, k + 1;
      }
      assert k < |queues| ==> Row(queues[k], table[k]);
    }

    method RelinkQueue(q: UserNode, ghost k: nat)
      requires Linked() && k < |queues| && queues[k] == q
      modifies this`root, this`last, this`queues, repr`next, repr`prev
      ensures Linked() && queues == old(queues)[..k] + old(queues)[k + 1..]
    {
      assert queues[k].next == (if k + 1 < |queues| then queues[k + 1] else null);
      assert queues[k].prev == (if k > 0 then queues[k - 1] else null);
      if q.next != null { q.next.prev := q.prev; } else { last := q.prev; }
      if q.prev != null { q.prev.next := q.next; } else { root := q.next; }
      queues := queues[..k] + queues[k + 1..];
    }

    /** Forget the row at position k; its node q is already out of the list. */
    method DropRow(q: UserNode, ghost k: nat, ghost was: seq<UserNode>)
      requires Rows(was, table) && Distinct(was) && k < |was| && was[k] == q
      requires queues == was[..k] + was[k + 1..]
      modifies this`table, q`pqueue, q`packs, q`vals
      ensures Rows(queues, table) && table == old(table)[..k] + old(table)[k + 1..]
    {
      assert Row(was[k], table[k]);
      ghost var t := table;
      table := table[..k] + table[k + 1..];
      q.Clear();
      forall i | 0 <= i < |queues|
        ensures Row(queues[i], table[i])
      {
        var n := if i < k then i else i + 1;
        assert queues[i] == was[n] && table[i] == t[n];
        assert old(Row(was[n], table[n]));
      }
    }

    /** delete_user_queue */
    method DeleteQueue(q: UserNode, ghost k: nat)
      requires Valid() && q == At(k)
      modifies this`root, this`last, this`queues, this`table, repr`next, repr`prev
      modifies q`pqueue, q`packs, q`vals
      ensures Valid() && queues == old(queues)[..k] + old(queues)[k + 1..]
      ensures table == old(table)[..k] + old(table)[k + 1..]
    {
      ghost var was := queues;
      RelinkQueue(q, k);
      forall i | 0 <= i < |was|
        ensures Row(was[i], table[i])
      {
        assert old(Row(queues[i], table[i]));
      }
      DropRow(q, k, was);
    }

    /** user_queue_del_packet on the user at position k. */
    method DropAt(q: UserNode, ghost k: nat, stamp: nat)
      requires Rows(queues, table) && Distinct(queues) && q == At(k)
      modifies this`table, q`pqueue, q`packs, q`vals, q.repr`next, q.repr`prev
      ensures Rows(queues, table)
      ensures table == old(table)[k := DropStamp(old(table)[k], stamp)]
      ensures q.pqueue == null <==> table[k].packs == []
    {
      assert Row(queues[k], table[k]);
      q.DelPacket(stamp);
      table := table[k := q.View()];
      forall i | 0 <= i < |queues|
        ensures Row(queues[i], table[i])
      {
        if i != k {
          assert old(Row(queues[i], table[i])) && queues[i] != q;
          assert queues[i].repr !! q.repr;
        }
      }
    }

    /** Acknowledge at position k; a queue left empty goes away. */
    method RemoveAt(q: UserNode, ghost k: nat, stamp: nat)
      requires Valid() && q == At(k)
      modifies this`root, this`last, this`queues, this`table, repr`next, repr`prev
      modifies q`pqueue, q`packs, q`vals, q.repr`next, q.repr`prev
      ensures Valid()
      ensures table == old(table)[..k] + IfAny(DropStamp(old(table)[k], stamp)) + old(table)[k + 1..]
    {
      ghost var t := table;
      DropAt(q, k, stamp);
      assert table == t[..k] + [DropStamp(t[k], stamp)] + t[k + 1..];
      if q.pqueue == null { DeleteQueue(q, k); }
    }

    /** remove_packet_from_list */
    method RemovePacket(uin: nat, stamp: nat)
      requires Valid()
      modifies this`root, this`last, this`queues, this`table, repr, packRepr
      ensures Valid() && table == RetryQueue.RemovePacket(old(table), uin, stamp)
    {
      var q, k := FindQueue(uin);
      if q != null {
        assert Row(queues[k], table[k]);
        RemoveAt(q, k, stamp);
      }
    }

    method LinkLast(q: UserNode)
      requires Linked() && q !in repr && q.next == null && q.prev == null
      modifies this`root, this`last, this`queues, this`repr, repr`next, q`prev
      ensures Linked() && queues == old(queues) + [q] && repr == old(repr) + {q}
    {
      if last != null {
        assert queues[|queues| - 1].next == null;
        last.next := q;
        q.prev := last;
        last := q;
      } else {
        root, last := q, q;
      }
      queues, repr := queues + [q], repr + {q};
    }

    lemma RowsGrow(us: seq<UserNode>, t: seq<Queue>, q: UserNode, v: Queue)
      requires Rows(us, t) && Row(q, v) && q.repr <= packRepr
      ensures Rows(us + [q], t + [v])
    {
      assert forall i :: 0 <= i < |us| ==> Row((us + [q])[i], (t + [v])[i]) by {
        assert forall i :: 0 <= i < |us| ==> Row(us[i], t[i]);
      }
    }

    /** create_user_queue, linked at the end of the list. */
    method Append(u: User, r: Request) returns (q: UserNode)
      requires Valid()
      modifies this`root, this`last, this`queues, this`repr, this`table, repr`next
      ensures Valid() && table == old(table) + [NewQueue(u, r)]
      ensures q == At(|old(table)|)
      ensures fresh(repr - old(repr)) && fresh(q) && q.repr == {}
    {
      q := new UserNode(u, r);
      ghost var us, t := queues, table;
      LinkLast(q);
      table := t + [NewQueue(u, r)];
      RowsGrow(us, t, q, NewQueue(u, r));
    }

    /** Reuse the node at position k for another session of the same user. */
    method RenewAt(q: UserNode, ghost k: nat, u: User, r: Request)
      requires Rows(queues, table) && Distinct(queues) && q == At(k)
      modifies this`table, q`pqueue, q`packs, q`vals
      modifies q`uin, q`usid, q`ishm, q`ip, q`port, q`timeOut
      ensures Rows(queues, table) && table == old(table)[k := NewQueue(u, r)]
    {
      assert Row(queues[k], table[k]);
      q.Renew(u, r);
      table := table[k := q.View()];
      forall i | 0 <= i < |queues|
        ensures Row(queues[i], table[i])
      {
        if i != k {
          assert old(Row(queues[i], table[i])) && queues[i] != q;
          assert queues[i].repr !! q.repr;
        }
      }
    }

    /** user_queue_add_packet on the user at position k. */
    method PushAt(q: UserNode, ghost k: nat, r: Request, stamp: nat, a: Alloc)
      requires Rows(queues, table) && Distinct(queues) && q == At(k)
      modifies this`table, this`packRepr, q`pqueue, q`packs, q`vals, q`repr, q.repr
      ensures Rows(queues, table) && table == old(table)[k := Enqueue(old(table)[k], r, stamp, a)]
    {
      assert Row(queues[k], table[k]);
      q.AddPacket(r, stamp, a);
      table := table[k := q.View()];
      packRepr := packRepr + q.repr;
      forall i | 0 <= i < |queues|
        ensures Row(queues[i], table[i])
      {
        if i != k {
          assert old(Row(queues[i], table[i])) && queues[i] != q;
          assert queues[i].repr !! q.repr;
        }
      }
    }

    /** A packet for a user who has a queue already, perhaps of another session. */
    method AddKnown(q: UserNode, ghost k: nat, u: User, r: Request, stamp: nat, a: Alloc)
      requires Rows(queues, table) && Distinct(queues) && q == At(k)
      modifies this`table, this`packRepr, q`pqueue, q`packs, q`vals, q`repr, q.repr
      modifies q`uin, q`usid, q`ishm, q`ip, q`port, q`timeOut
      ensures Rows(queues, table)
      ensures table == old(table)[k := Enqueue(ForSession(old(table)[k], u, r), r, stamp, a)]
    {
      assert Row(queues[k], table[k]);
      if q.usid != u.usid { RenewAt(q, k, u, r); }
      PushAt(q, k, r, stamp, a);
    }

    method AddNew(u: User, r: Request, stamp: nat, a: Alloc)
      requires Valid()
      modifies this`root, this`last, this`queues, this`table, this`repr, this`packRepr
      modifies repr`next
      ensures Valid() && table == old(table) + [Enqueue(NewQueue(u, r), r, stamp, a)]
    {
      hide Enqueue, NewQueue;
      ghost var t := table;
      var q := Append(u, r);
      PushAt(q, |t|, r, stamp, a);
      assert table == (t + [NewQueue(u, r)])[|t| := Enqueue(NewQueue(u, r), r, stamp, a)];
    }

    /** add_packet_to_list */
    method AddPacket(u: User, r: Request, stamp: nat, a: Alloc)
      requires Valid()
      modifies this`root, this`last, this`queues, this`table, this`repr, this`packRepr
      modifies repr, packRepr
      ensures Valid() && table == RetryQueue.AddPacket(old(table), u, r, stamp, a)
    {
      hide Enqueue, NewQueue, ForSession, Find;
      var q, k := FindQueue(u.uin);
      if q == null {
        if !a.queue { return; }
        AddNew(u, r, stamp, a);
      } else {
        AddKnown(q, k, u, r, stamp, a);
      }
    }

    /** user_pqueue_check on the user at position k. */
    method CheckAt(q: UserNode, ghost k: nat) returns (sent: seq<Resend>)
      requires Rows(queues, table) && Distinct(queues) && q == At(k)
      modifies this`table, q`pqueue, q`packs, q`vals, q.repr
      ensures Rows(queues, table)
      ensures table == old(table)[k := TickQueue(old(table)[k])]
      ensures sent == QueueResends(old(table)[k])
      ensures q.pqueue == null <==> table[k].packs == []
    {
      assert Row(queues[k], table[k]);
      sent := q.Check();
      table := table[k := q.View()];
      forall i | 0 <= i < |queues|
        ensures Row(queues[i], table[i])
      {
        if i != k {
          assert old(Row(queues[i], table[i])) && queues[i] != q;
          assert queues[i].repr !! q.repr;
        }
      }
    }

    /** One iteration of check_ack_list: done is handled, q heads rest. */
    method CheckOne(q: UserNode, ghost done: seq<Queue>, ghost rest: seq<Queue>)
      returns (next: UserNode?, sent: seq<Resend>, ghost done': seq<Queue>)
      requires Valid() && table == done + rest && q == At(|done|)
      modifies this`root, this`last, this`queues, this`table, repr, packRepr
      ensures Valid()
      ensures rest != [] && done' == done + IfAny(TickQueue(rest[0]))
      ensures table == done' + rest[1..] && next == At(|done'|)
      ensures sent == QueueResends(rest[0])
    {
      ghost var k := |done|;
      assert Row(queues[k], table[k]) && table[k] == rest[0];
      next, done' := q.next, done + IfAny(TickQueue(rest[0]));
      sent := CheckAt(q, k);
      assert table == done + [TickQueue(rest[0])] + rest[1..];
      if q.pqueue == null { DeleteQueue(q, k); }
    }

    /** check_ack_list: one second passes for every user. */
    method CheckAll() returns (sent: seq<Resend>)
      requires Valid()
      modifies this`root, this`last, this`queues, this`table, repr, packRepr
      ensures Valid() && table == TickTable(old(table)) && sent == TickOut(old(table))
    {
      ghost var done: seq<Queue>, rest, t := [], table, table;
      sent := [];
      var cur := root;
      while cur != null
        invariant Valid() && table == done + rest && cur == At(|done|)
        invariant TickTable(t) == done + TickTable(rest)
        invariant TickOut(t) == sent + TickOut(rest)
        invariant cur != null ==> rest != []
        decreases |rest|
      {
        TickTableStep(t, done, sent, rest);
        var s;
        cur, s, done := CheckOne(cur, done, rest);
        sent, rest := sent + s, rest[1..];
      }
    }

    /** epacket_process_packet: number the packet, remember it until it is acknowledged. */
    method ProcessPacket(r: Request, a: Alloc)
      requires Valid()
      modifies this, repr, packRepr
      ensures Valid()
      ensures State(users, table) == Step(old(State(users, table)), Send(r, a))
    {
      if r.uin !in users { return; }
      var u := users[r.uin].(uin := r.uin);
      var stamp := Stamp(r.uin, u.servseq, 0);
      if r.proto != V3_PROTO && r.proto != V5_PROTO { return; }
      users := users[r.uin := u.(servseq := (u.servseq + 1) % ULONG)];
      AddPacket(u, r, stamp, a);
    }

    /** epacket_process_event */
    method ProcessEvent(e: Event) returns (sent: seq<Resend>)
      requires Valid() && (e.Ack? || e.Tick?)
      modifies this, repr, packRepr
      ensures Valid()
      ensures State(users, table) == Step(old(State(users, table)), e)
      ensures sent == if e.Tick? then TickOut(old(table)) else []
    {
      sent := [];
      match e
      case Ack(uin, stamp) => RemovePacket(uin, stamp);
      case Tick => sent := CheckAll();
    }
  }
}
