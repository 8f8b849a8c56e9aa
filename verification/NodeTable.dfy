/**
  The nodes of kernel/messaging.c and the four queues they are linked in: one
  node on every process's kernel stack, and a pool for the hardware's messages.
 */
module NodeTable {
  import opened Limits
  import opened Messaging
  import opened MessageQueues
  import R = Rendezvous

  // The four queues.
  const SMALL_SEND := 0
  const SMALL_RECV := 1
  const BIG_SEND := 2
  const BIG_RECV := 3

  predicate OfSenders(j: int) {
    j == SMALL_SEND || j == BIG_SEND
  }

  function SendQueue(big: bool): int {
    if big then BIG_SEND else SMALL_SEND
  }

  function RecvQueue(big: bool): int {
    if big then BIG_RECV else SMALL_RECV
  }

  lemma RemovedMembers<T>(q: seq<T>, k: nat)
    requires k < |q| && forall i, j :: 0 <= i < j < |q| ==> q[i] != q[j]
    ensures forall x :: x in Remove(q, k) <==> x in q && x != q[k]
  {
    forall x | x in q && x != q[k] ensures x in Remove(q, k) {
      var i :| 0 <= i < |q| && q[i] == x;
      assert Remove(q, k)[if i < k then i else i - 1] == x;
    }
  }

  class Nodes {
    const queues: seq<MsgQueue>
    const stack: seq<MsgNode>  // the node on each process's kernel stack
    const hw: seq<MsgNode>     // msg_hardware
    const saved: seq<Saved>    // the saved registers on each kernel stack

    // -------------------------------------------------------------- layout

    ghost function All(): set<MsgNode> {
      (set n: MsgNode | n in stack) + (set n: MsgNode | n in hw)
    }

    ghost predicate Layout() {
      && |queues| == 4 && |stack| == NR_PROCS && |hw| == NR_MSG_HARDWARE && |saved| == NR_PROCS
      && (forall p {:trigger stack[p]} :: 0 <= p < NR_PROCS ==> stack[p].owner == p && stack[p].slot == -1)
      && (forall i {:trigger hw[i]} :: 0 <= i < NR_MSG_HARDWARE ==> hw[i].owner == MSG_HARDWARE && hw[i].slot == i)
      && (forall p, x :: 0 <= p < x < NR_PROCS ==> saved[p] != saved[x])
      && (forall i, j :: 0 <= i < j < 4 ==> queues[i] != queues[j])
    }

    /** The node is where its owner and slot say. */
    predicate Home(n: MsgNode) {
      if n.slot == -1 then 0 <= n.owner < |stack| && stack[n.owner] == n
      else 0 <= n.slot < |hw| && hw[n.slot] == n && n.owner == MSG_HARDWARE
    }

    /** A node of queue j: its owner is the sender or the receiver, a receiver's
        points at its own registers, and only small_send takes pool nodes. */
    ghost predicate Belongs(n: MsgNode, j: int)
      reads n`src, n`dest, n`regs, n`where
    {
      && Home(n) && n.where == j && (n.slot == -1 || j == SMALL_SEND)
      && (if OfSenders(j) then n.src == n.owner
          else n.dest == n.owner && n.owner < |saved| && n.regs == saved[n.owner])
    }

    ghost predicate AllBelong(l: MsgQueue, j: int)
      reads l`q, l.q`src, l.q`dest, l.q`regs, l.q`where
    {
      forall n: MsgNode :: n in l.q ==> Belongs(n, j)
    }

    ghost predicate Within()
      reads queues`q
    {
      forall l: MsgQueue, n: MsgNode :: l in queues && n in l.q ==> n in All()
    }

    /** Every queue is a well-formed list. */
    ghost predicate Linked()
      reads queues`head, queues`tail, queues`q, All()`next
    {
      Within() && forall l: MsgQueue :: l in queues ==> l.Valid()
    }

    /** Every queue holds nodes of its kind. */
    ghost predicate Typed()
      reads queues`q, All()`src, All()`dest, All()`regs, All()`where
    {
      Within() && forall j :: 0 <= j < |queues| ==> AllBelong(queues[j], j)
    }

    /** A pool slot is marked as the hardware's iff it is linked in small_send. */
    ghost predicate PoolOk()
      reads queues`q, hw`src
      requires |queues| == 4
    {
      forall i {:trigger hw[i]} :: 0 <= i < |hw| ==> (hw[i].src == MSG_HARDWARE <==> hw[i] in queues[SMALL_SEND].q)
    }

    ghost predicate Wired()
      reads queues`head, queues`tail, queues`q, hw`src
      reads All()`next, All()`src, All()`dest, All()`regs, All()`where
    {
      Layout() && Linked() && Typed() && PoolOk()
    }

    /** The node is in no queue. */
    ghost predicate Loose(n: MsgNode)
      reads queues`q
    {
      forall l: MsgQueue :: l in queues ==> n !in l.q
    }

    /** The queues as values. */
    ghost function Abs(): Queues
      reads queues`q, All()`src, All()`dest, All()`msg, saved`ebx
      requires |queues| == 4 && Within()
    {
      Queues(Sends(queues[SMALL_SEND].q), Recvs(queues[SMALL_RECV].q, saved),
             Sends(queues[BIG_SEND].q), Recvs(queues[BIG_RECV].q, saved))
    }

    /** msg_init */
    constructor (stack: seq<MsgNode>, hw: seq<MsgNode>, saved: seq<Saved>)
      requires |stack| == NR_PROCS && |hw| == NR_MSG_HARDWARE && |saved| == NR_PROCS
      requires forall p {:trigger stack[p]} :: 0 <= p < NR_PROCS ==> stack[p].owner == p && stack[p].slot == -1
      requires forall i {:trigger hw[i]} :: 0 <= i < NR_MSG_HARDWARE ==> hw[i].owner == MSG_HARDWARE && hw[i].slot == i
      requires forall p, x :: 0 <= p < x < NR_PROCS ==> saved[p] != saved[x]
      modifies hw`src, hw`dest, hw`msg, hw`next
      ensures this.stack == stack && this.hw == hw && this.saved == saved
      ensures forall l: MsgQueue :: l in queues ==> fresh(l)
      ensures Wired() && Abs() == Queues([], [], [], [])
    {
      var smallSend := new MsgQueue();
      var smallRecv := new MsgQueue();
      var bigSend := new MsgQueue();
      var bigRecv := new MsgQueue();
      queues := [smallSend, smallRecv, bigSend, bigRecv];
      this.stack, this.hw, this.saved := stack, hw, saved;
      new;
      assert forall l: MsgQueue :: l in queues ==> fresh(l) && l.q == [] && l.head == l.tail == null;
      ClearPool();
      EmptyIsWired();
    }

    lemma EmptyIsWired()
      requires Layout() && forall l: MsgQueue :: l in queues ==> l.q == [] && l.head == l.tail == null
      requires forall i {:trigger hw[i]} :: 0 <= i < NR_MSG_HARDWARE ==> hw[i].src == 0
      ensures Wired() && Abs() == Queues([], [], [], [])
    {
    }

    method ClearPool()
      requires |hw| == NR_MSG_HARDWARE
      modifies hw`src, hw`dest, hw`msg, hw`next
      ensures forall i {:trigger hw[i]} :: 0 <= i < NR_MSG_HARDWARE ==> hw[i].src == 0
    {
      var i := 0;
      while i < NR_MSG_HARDWARE
        invariant 0 <= i <= NR_MSG_HARDWARE
        invariant forall x {:trigger hw[x]} :: 0 <= x < i ==> hw[x].src == 0
        modifies hw`src, hw`dest, hw`msg, hw`next
      {
        hw[i].src, hw[i].dest, hw[i].msg, hw[i].next := 0, 0, 0, null;
        i := i + 1;
      }
    }

    // ------------------------------------------------------- linking, unlinking

    /** Queue j is relinked; no other queue's list is disturbed. */
    method LinkInto(l: MsgQueue, n: MsgNode, ghost j: int)
      requires Layout() && Linked() && Typed()
      requires 0 <= j < 4 && l == queues[j] && Loose(n) && Home(n)
      modifies l`head, l`tail, l`q, All()`next
      ensures Linked() && l.q == old(l.q) + [n]
    {
      ghost var was := l.q;
      assert AllBelong(l, j) == true;
      assert forall x: MsgNode :: x in was ==> x.where == j && x in All();
      l.Append(n);
      forall i | 0 <= i < 4 && i != j ensures queues[i].Valid() == true {
        var o := queues[i];
        assert o != l && old(o.Valid()) && old(AllBelong(o, i)) == true;
        forall x {:trigger o.q[x]} | 0 <= x < |o.q| ensures o.q[x].next == old(o.q[x].next) {
          assert o.q[x] in o.q && o.q[x].where == i;
        }
      }
    }

    method UnlinkFrom(l: MsgQueue, prev: MsgNode?, n: MsgNode, ghost j: int, ghost k: nat)
      requires Layout() && Linked() && Typed()
      requires 0 <= j < 4 && l == queues[j] && k < |l.q| && n == l.q[k]
      requires prev == if k == 0 then null else l.q[k - 1]
      modifies l`head, l`tail, l`q, All()`next
      ensures Linked() && l.q == Remove(old(l.q), k)
    {
      ghost var was := l.q;
      assert AllBelong(l, j) == true;
      assert forall x: MsgNode :: x in was ==> x.where == j && x in All();
      l.Unlink(prev, n, k);
      forall i | 0 <= i < 4 && i != j ensures queues[i].Valid() == true {
        var o := queues[i];
        assert o != l && old(o.Valid()) && old(AllBelong(o, i)) == true;
        forall x {:trigger o.q[x]} | 0 <= x < |o.q| ensures o.q[x].next == old(o.q[x].next) {
          assert o.q[x] in o.q && o.q[x].where == i;
        }
      }
    }

    /** Linking node n behind queue j. */
    method Link(l: MsgQueue, n: MsgNode, ghost j: int)
      requires Layout() && Linked() && Typed()
      requires 0 <= j < 4 && l == queues[j] && Loose(n) && Belongs(n, j)
      modifies l`head, l`tail, l`q, All()`next
      ensures Linked() && Typed() && l.q == old(l.q) + [n]
    {
      assert AllBelong(l, j) == true;
      LinkInto(l, n, j);
      forall i | 0 <= i < 4 && i != j ensures AllBelong(queues[i], i) == true {
        assert queues[i] != l && old(AllBelong(queues[i], i)) == true;
      }
      assert AllBelong(l, j) == true;
    }

    lemma RemovedIsLoose(l: MsgQueue, n: MsgNode, j: int, k: nat, was: seq<MsgNode>)
      requires Layout() && Typed() && 0 <= j < 4 && l == queues[j] && n.where == j
      requires k < |was| && was[k] == n && l.q == Remove(was, k)
      requires forall x, y :: 0 <= x < y < |was| ==> was[x] != was[y]
      ensures Loose(n)
    {
      forall o: MsgQueue | o in queues ensures n !in o.q {
        var i :| 0 <= i < 4 && queues[i] == o;
        assert AllBelong(o, i);
      }
    }

    /** Taking node k out of queue j. */
    method Unlink(l: MsgQueue, prev: MsgNode?, n: MsgNode, ghost j: int, ghost k: nat)
      requires Layout() && Linked() && Typed()
      requires 0 <= j < 4 && l == queues[j] && k < |l.q| && n == l.q[k]
      requires prev == if k == 0 then null else l.q[k - 1]
      modifies l`head, l`tail, l`q, All()`next
      ensures Linked() && Typed() && l.q == Remove(old(l.q), k) && Loose(n)
    {
      ghost var was := l.q;
      assert n in l.q && AllBelong(l, j) && l.Valid();
      RemoveMembers(l.q, k);
      UnlinkFrom(l, prev, n, j, k);
      forall i | 0 <= i < 4 && i != j ensures AllBelong(queues[i], i) == true {
        assert queues[i] != l && old(AllBelong(queues[i], i)) == true;
      }
      assert AllBelong(l, j) == true;
      RemovedIsLoose(l, n, j, k, was);
    }

    // ------------------------------------------------------------- primitives

    /** Filling in a node that is in no queue, and linking it behind queue j. */
    method Put(l: MsgQueue, n: MsgNode, src: int, dest: int, msg: int, regs: Saved?, ghost j: int)
      requires Layout() && Linked() && Typed() && Loose(n) && Home(n) && 0 <= j < 4 && l == queues[j]
      requires n.slot == -1 || j == SMALL_SEND
      requires if OfSenders(j) then src == n.owner else dest == n.owner && n.owner < |saved| && regs == saved[n.owner]
      modifies l`head, l`tail, l`q, All()`next, n`src, n`dest, n`msg, n`regs, n`where
      ensures Linked() && Typed() && l.q == old(l.q) + [n]
      ensures n.src == src && n.dest == dest && n.msg == msg
    {
      n.src, n.dest, n.msg, n.regs := src, dest, msg, regs;
      n.where := j;
      forall i | 0 <= i < 4 ensures AllBelong(queues[i], i) == true {
        assert old(AllBelong(queues[i], i));
        assert queues[i] in queues;
      }
      forall l: MsgQueue | l in queues ensures l.Valid() == true {
        assert old(l.Valid()) == true;
      }
      Link(l, n, j);
    }

    /** ... and what that makes of the queue as a value. */
    method PutValue(l: MsgQueue, n: MsgNode, src: int, dest: int, msg: int, regs: Saved?, ghost j: int)
      requires Layout() && Linked() && Typed() && Loose(n) && Home(n) && 0 <= j < 4 && l == queues[j]
      requires n.slot == -1 || j == SMALL_SEND
      requires if OfSenders(j) then src == n.owner else dest == n.owner && n.owner < |saved| && regs == saved[n.owner]
      modifies l`head, l`tail, l`q, All()`next, n`src, n`dest, n`msg, n`regs, n`where
      ensures Linked() && Typed() && l.q == old(l.q) + [n] && n.src == src
      ensures Sends(l.q) == old(Sends(l.q)) + [Send(src, dest, msg, n.slot)]
      ensures Recvs(l.q, saved) ==
                old(Recvs(l.q, saved)) + [Recv(if 0 <= dest < |saved| then saved[dest].ebx else 0, dest, msg)]
    {
      hide Linked, Typed, PoolOk, AllBelong;
      Put(l, n, src, dest, msg, regs, j);
      AppendedSender(old(l.q), n);
      AppendedReceiver(old(l.q), n, saved);
    }

    /** The other queues keep their values. */
    method Post(l: MsgQueue, n: MsgNode, src: int, dest: int, msg: int, regs: Saved?, ghost j: int)
      requires Layout() && Linked() && Typed() && Loose(n) && Home(n) && 0 <= j < 4 && l == queues[j]
      requires n.slot == -1 || j == SMALL_SEND
      requires if OfSenders(j) then src == n.owner else dest == n.owner && n.owner < |saved| && regs == saved[n.owner]
      modifies l`head, l`tail, l`q, All()`next, n`src, n`dest, n`msg, n`regs, n`where
      ensures Linked() && Typed() && l.q == old(l.q) + [n] && n.src == src
      ensures Sends(l.q) == old(Sends(l.q)) + [Send(src, dest, msg, n.slot)]
      ensures Recvs(l.q, saved) ==
                old(Recvs(l.q, saved)) + [Recv(if 0 <= dest < |saved| then saved[dest].ebx else 0, dest, msg)]
      ensures forall o: MsgQueue :: o in queues && o != l ==>
                Sends(o.q) == old(Sends(o.q)) && Recvs(o.q, saved) == old(Recvs(o.q, saved))
    {
      hide Linked, Typed, PoolOk, AllBelong, MessageQueues.Sends, MessageQueues.Recvs;
      PutValue(l, n, src, dest, msg, regs, j);
    }

    /** Queueing a sender's node. */
    method PostSender(n: MsgNode, src: int, dest: int, msg: int, big: bool)
      requires Wired() && Loose(n) && Home(n) && n.owner == src && (big ==> n.slot == -1)
      modifies queues`head, queues`tail, queues`q, All()`next, n`src, n`dest, n`msg, n`regs, n`where
      ensures Wired()
      ensures Abs() == R.WithSendQ(old(Abs()), big, R.SendQ(old(Abs()), big) + [Send(src, dest, msg, n.slot)])
    {
      hide Linked, Typed, MessageQueues.Sends, MessageQueues.Recvs;
      var j := SendQueue(big);
      Post(queues[j], n, src, dest, msg, null, j);
    }

    /** Queueing a receiver's node. */
    method PostReceiver(n: MsgNode, dest: int, msg: int, big: bool)
      requires Wired() && Loose(n) && Home(n) && n.owner == dest && n.slot == -1 && 0 <= dest < NR_PROCS
      modifies queues`head, queues`tail, queues`q, All()`next, n`src, n`dest, n`msg, n`regs, n`where
      ensures Wired()
      ensures Abs() == R.WithRecvQ(old(Abs()), big, R.RecvQ(old(Abs()), big) + [Recv(old(saved[dest].ebx), dest, msg)])
    {
      hide Linked, Typed, MessageQueues.Sends, MessageQueues.Recvs;
      var j := RecvQueue(big);
      Post(queues[j], n, 0, dest, msg, saved[dest], j);
    }

    /** Taking node k out of queue j, and what that makes of the queue as a value. */
    method UnlinkValue(l: MsgQueue, prev: MsgNode?, n: MsgNode, ghost j: int, ghost k: nat)
      requires Layout() && Linked() && Typed()
      requires 0 <= j < 4 && l == queues[j] && k < |l.q| && n == l.q[k]
      requires prev == if k == 0 then null else l.q[k - 1]
      modifies l`head, l`tail, l`q, All()`next
      ensures Linked() && Typed() && l.q == Remove(old(l.q), k) && Loose(n)
      ensures Sends(l.q) == Remove(old(Sends(l.q)), k)
      ensures Recvs(l.q, saved) == Remove(old(Recvs(l.q, saved)), k)
    {
      hide Linked, Typed, PoolOk, AllBelong;
      Unlink(l, prev, n, j, k);
      RemovedSender(old(l.q), k);
      RemovedReceiver(old(l.q), k, saved);
    }

    /** The other queues keep their values. */
    method TakeOut(l: MsgQueue, prev: MsgNode?, n: MsgNode, ghost j: int, ghost k: nat)
      requires Layout() && Linked() && Typed()
      requires 0 <= j < 4 && l == queues[j] && k < |l.q| && n == l.q[k]
      requires prev == if k == 0 then null else l.q[k - 1]
      modifies l`head, l`tail, l`q, All()`next
      ensures Linked() && Typed() && l.q == Remove(old(l.q), k) && Loose(n)
      ensures Sends(l.q) == Remove(old(Sends(l.q)), k)
      ensures Recvs(l.q, saved) == Remove(old(Recvs(l.q, saved)), k)
      ensures forall o: MsgQueue :: o in queues && o != l ==>
                Sends(o.q) == old(Sends(o.q)) && Recvs(o.q, saved) == old(Recvs(o.q, saved))
    {
      hide Linked, Typed, PoolOk, AllBelong, MessageQueues.Sends, MessageQueues.Recvs;
      UnlinkValue(l, prev, n, j, k);
    }

    /** Taking a receiver's node out. */
    method TakeReceiver(prev: MsgNode?, n: MsgNode, big: bool, ghost k: nat)
      requires Wired() && k < |queues[RecvQueue(big)].q| && n == queues[RecvQueue(big)].q[k]
      requires prev == if k == 0 then null else queues[RecvQueue(big)].q[k - 1]
      modifies queues`head, queues`tail, queues`q, All()`next
      ensures Wired() && Loose(n)
      ensures Abs() == R.WithRecvQ(old(Abs()), big, Remove(R.RecvQ(old(Abs()), big), k))
    {
      hide Linked, Typed, MessageQueues.Sends, MessageQueues.Recvs;
      TakeOut(queues[RecvQueue(big)], prev, n, RecvQueue(big), k);
    }

    /** Taking a sender's node out. */
    method PullSender(prev: MsgNode?, n: MsgNode, big: bool, ghost k: nat)
      requires Wired() && k < |queues[SendQueue(big)].q| && n == queues[SendQueue(big)].q[k]
      requires prev == if k == 0 then null else queues[SendQueue(big)].q[k - 1]
      modifies queues`head, queues`tail, queues`q, All()`next
      ensures Layout() && Linked() && Typed() && Loose(n)
      ensures forall x: MsgNode :: x in queues[SMALL_SEND].q <==> old(x in queues[SMALL_SEND].q) && (big || x != n)
      ensures Abs() == R.WithSendQ(old(Abs()), big, Remove(R.SendQ(old(Abs()), big), k))
    {
      hide Typed, MessageQueues.Sends, MessageQueues.Recvs;
      var l := queues[SendQueue(big)];
      assert l.Valid();
      RemovedMembers(l.q, k);
      TakeOut(l, prev, n, SendQueue(big), k);
    }

    /** Freeing a pool slot. */
    method Release(n: MsgNode)
      requires Layout() && Linked() && Typed() && Loose(n)
      modifies n`src
      ensures Linked() && Typed() && n.src == 0 && Abs() == old(Abs())
    {
      ghost var was := Abs();
      n.src := 0;
      forall i | 0 <= i < 4 ensures AllBelong(queues[i], i) == true {
        assert old(AllBelong(queues[i], i));
        assert queues[i] in queues;
      }
      forall l: MsgQueue | l in queues ensures l.Valid() == true {
        assert old(l.Valid()) == true;
      }
      assert Sends(queues[SMALL_SEND].q) == was.smallSend;
      assert Sends(queues[BIG_SEND].q) == was.bigSend;
    }

    lemma SenderIsHome(n: MsgNode, big: bool)
      requires Wired() && n in queues[SendQueue(big)].q
      ensures Home(n) && n.src == n.owner && (big ==> n.slot == -1)
      ensures n.src != MSG_HARDWARE ==> forall i {:trigger hw[i]} :: 0 <= i < |hw| ==> hw[i] != n
    {
      assert AllBelong(queues[SendQueue(big)], SendQueue(big));
      assert Belongs(n, SendQueue(big));
    }

    /** Taking a sender's node out; a pool node is free again. */
    method TakeSender(prev: MsgNode?, n: MsgNode, big: bool, ghost k: nat)
      requires Wired() && k < |queues[SendQueue(big)].q| && n == queues[SendQueue(big)].q[k]
      requires prev == if k == 0 then null else queues[SendQueue(big)].q[k - 1]
      modifies queues`head, queues`tail, queues`q, All()`next, n`src
      ensures Wired() && Loose(n)
      ensures Abs() == R.WithSendQ(old(Abs()), big, Remove(R.SendQ(old(Abs()), big), k))
    {
      hide MessageQueues.Sends, MessageQueues.Recvs, R.WithSendQ, R.SendQ, Remove;
      SenderIsHome(n, big);
      PullSender(prev, n, big, k);
      if n.src == MSG_HARDWARE {
        Release(n);
      }
    }

    /** The value of a queue of receivers depends on its receivers' registers. */
    lemma OthersRequest(l: MsgQueue, p: int, was: seq<Recv>, r: Saved)
      requires Layout() && Typed() && (l == queues[SMALL_RECV] || l == queues[BIG_RECV])
      requires 0 <= p < NR_PROCS && r == saved[p] && Loose(stack[p])
      requires |was| == |l.q|
      requires forall i {:trigger l.q[i]} {:trigger was[i]} ::
        0 <= i < |l.q| && 0 <= l.q[i].dest < NR_PROCS && saved[l.q[i].dest] != r ==>
        was[i] == Request(l.q[i], saved)
      ensures Recvs(l.q, saved) == was
    {
      forall i | 0 <= i < |l.q| ensures was[i] == Request(l.q[i], saved) {
        assert l.q[i] in l.q;
        assert AllBelong(queues[SMALL_RECV], SMALL_RECV) && AllBelong(queues[BIG_RECV], BIG_RECV);
        assert l.q[i].dest != p;
      }
    }

    /** Writing a process's saved registers while its node is in no queue. */
    method WriteRegs(p: int, ebx: int, ecx: int)
      requires Wired() && 0 <= p < NR_PROCS && Loose(stack[p])
      modifies {saved[p]}`ebx, {saved[p]}`ecx
      ensures Wired() && Abs() == old(Abs())
      ensures Contents(saved) == old(Contents(saved))[p := Regs(ebx, ecx)]
    {
      ghost var was := Abs();
      ghost var values := Contents(saved);
      var r := saved[p];
      r.ebx, r.ecx := ebx, ecx;
      OthersRequest(queues[SMALL_RECV], p, was.smallRecv, r);
      OthersRequest(queues[BIG_RECV], p, was.bigRecv, r);
      assert forall i :: 0 <= i < NR_PROCS ==> Contents(saved)[i] == values[p := Regs(ebx, ecx)][i];
    }

    /** Pool slot i holds a queued message iff it is marked so. */
    lemma SlotUsedIs(i: int)
      requires Wired() && 0 <= i < NR_MSG_HARDWARE
      ensures SlotUsed(Abs().smallSend, i) <==> hw[i].src == MSG_HARDWARE
      ensures hw[i].src != MSG_HARDWARE ==> Loose(hw[i])
    {
      var l := queues[SMALL_SEND];
      assert AllBelong(l, SMALL_SEND);
      if SlotUsed(Abs().smallSend, i) {
        var k :| 0 <= k < |l.q| && Abs().smallSend[k].slot == i;
        assert l.q[k] in l.q && Belongs(l.q[k], SMALL_SEND);
      }
      if hw[i] in l.q {
        var k :| 0 <= k < |l.q| && l.q[k] == hw[i];
        assert Abs().smallSend[k].slot == i;
      }
      if hw[i].src != MSG_HARDWARE {
        forall o: MsgQueue | o in queues ensures hw[i] !in o.q {
          var j :| 0 <= j < 4 && queues[j] == o;
          assert AllBelong(o, j);
        }
      }
    }

    /** The search for a free pool slot. */
    method FindFree() returns (n: MsgNode?, ghost i: nat)
      requires Wired()
      ensures i == FreeSlot(Abs().smallSend, 0)
      ensures n == if i < NR_MSG_HARDWARE then hw[i] else null
      ensures n != null ==> Loose(n)
    {
      ghost var ss := Abs().smallSend;
      var k := 0;
      while k < NR_MSG_HARDWARE
        invariant 0 <= k <= NR_MSG_HARDWARE
        invariant forall x :: 0 <= x < k ==> SlotUsed(ss, x)
      {
        SlotUsedIs(k);
        if hw[k].src != MSG_HARDWARE {
          n, i := hw[k], k;
          return;
        }
        k := k + 1;
      }
      n, i := null, k;
    }

    /** The node a sender's message is put in: on its own stack, or from the pool. */
    method NodeFor(src: int) returns (n: MsgNode?)
      requires Wired() && (src == MSG_HARDWARE || (0 <= src < NR_PROCS && Loose(stack[src])))
      ensures n == null <==> src == MSG_HARDWARE && FreeSlot(Abs().smallSend, 0) == NR_MSG_HARDWARE
      ensures n != null ==> n in All() && Loose(n) && Home(n) && n.owner == src
      ensures n != null ==> n.slot == if src == MSG_HARDWARE then FreeSlot(Abs().smallSend, 0) else -1
    {
      if src == MSG_HARDWARE {
        ghost var slot;
        n, slot := FindFree();
      } else {
        n := stack[src];
      }
    }

    lemma LinkedIsOwned(p: int, j: int, k: nat)
      requires Wired() && 0 <= p < NR_PROCS && 0 <= j < 4 && k < |queues[j].q| && queues[j].q[k] == stack[p]
      ensures if OfSenders(j) then Sends(queues[j].q)[k].src == p else Recvs(queues[j].q, saved)[k].dest == p
    {
      assert queues[j].q[k] in queues[j].q && AllBelong(queues[j], j);
      assert Belongs(queues[j].q[k], j);
    }

    /** The node on the stack of a process that owns none in the queues is loose. */
    lemma AwakeIsLoose(p: int, asleep: set<int>)
      requires Wired() && R.OwnersAre(Abs(), asleep) && 0 <= p < NR_PROCS && p !in asleep
      ensures Loose(stack[p])
    {
      R.AwakeOwnsNothing(Abs(), asleep, p);
      forall o: MsgQueue | o in queues ensures stack[p] !in o.q {
        var j :| 0 <= j < 4 && queues[j] == o;
        forall k | 0 <= k < |o.q| ensures o.q[k] != stack[p] {
          if o.q[k] == stack[p] {
            LinkedIsOwned(p, j, k);
          }
        }
      }
    }

    /** A receiver's node is the one on its own stack. */
    lemma ReceiverIsHome(n: MsgNode, big: bool)
      requires Wired() && n in queues[RecvQueue(big)].q
      ensures 0 <= n.dest < NR_PROCS && n == stack[n.dest] && n.regs == saved[n.dest]
    {
      assert AllBelong(queues[RecvQueue(big)], RecvQueue(big));
      assert Belongs(n, RecvQueue(big));
    }

    /** A receiver found in its queue leaves it with the sender's name, if it
        asked for anybody, and a small message in its saved registers. */
    method MeetReceiver(prev: MsgNode?, n: MsgNode, big: bool, src: int, msg: int, ghost k: nat)
      requires Wired() && k < |queues[RecvQueue(big)].q| && n == queues[RecvQueue(big)].q[k]
      requires prev == if k == 0 then null else queues[RecvQueue(big)].q[k - 1]
      modifies queues`head, queues`tail, queues`q, All()`next, saved
      ensures Wired() && 0 <= n.dest < NR_PROCS
      ensures Abs() == R.WithRecvQ(old(Abs()), big, Remove(R.RecvQ(old(Abs()), big), k))
      ensures var was := old(Contents(saved));
              Contents(saved) ==
                was[n.dest := if big then Named(was[n.dest], src) else Delivered(was[n.dest], src, msg)]
    {
      hide Linked, PoolOk, MessageQueues.Sends, MessageQueues.Recvs;
      assert n in queues[RecvQueue(big)].q;
      ReceiverIsHome(n, big);
      var ebx, ecx := n.regs.ebx, if big then n.regs.ecx else msg;
      TakeReceiver(prev, n, big, k);
      WriteRegs(n.dest, if ebx == MSG_ANY then src else ebx, ecx);
    }

    /** A receiver that found a sender gets its name, if it asked for anybody, and
        a small message in its own saved registers; the sender leaves its queue. */
    method MeetSender(prev: MsgNode?, n: MsgNode, big: bool, dest: int, ghost k: nat) returns (src: int)
      requires Wired() && k < |queues[SendQueue(big)].q| && n == queues[SendQueue(big)].q[k]
      requires prev == if k == 0 then null else queues[SendQueue(big)].q[k - 1]
      requires 0 <= dest < NR_PROCS && Loose(stack[dest])
      modifies queues`head, queues`tail, queues`q, All()`next, n`src, saved
      ensures Wired() && src == old(n.src)
      ensures Abs() == R.WithSendQ(old(Abs()), big, Remove(R.SendQ(old(Abs()), big), k))
      ensures var was := old(Contents(saved));
              Contents(saved) == was[dest := if big then Named(was[dest], src) else Delivered(was[dest], src, n.msg)]
    {
      hide Linked, Typed, PoolOk, Within, MessageQueues.Sends, MessageQueues.Recvs, MessageQueues.Contents,
          R.WithSendQ, R.SendQ, Remove;
      src := n.src;
      var r := saved[dest];
      WriteRegs(dest, if r.ebx == MSG_ANY then src else r.ebx, if big then r.ecx else n.msg);
      ghost var c := Contents(saved);
      TakeSender(prev, n, big, k);
      assert Contents(saved) == c;
    }

    // --------------------------------------------------------------- searches

    lemma PointsHome(big: bool)
      requires Wired()
      ensures queues[RecvQueue(big)].Valid() && queues[RecvQueue(big)].PointsHome(saved)
    {
      var l := queues[RecvQueue(big)];
      forall i | 0 <= i < |l.q| ensures 0 <= l.q[i].dest < |saved| && l.q[i].regs == saved[l.q[i].dest] {
        assert l.q[i] in l.q;
        ReceiverIsHome(l.q[i], big);
      }
    }

    method FindReceiver(src: int, dest: int, big: bool) returns (prev: MsgNode?, n: MsgNode?, ghost k: nat)
      requires Wired()
      ensures k == FindRecv(R.RecvQ(Abs(), big), src, dest)
      ensures k <= |queues[RecvQueue(big)].q| == |R.RecvQ(Abs(), big)|
      ensures n == (if k < |queues[RecvQueue(big)].q| then queues[RecvQueue(big)].q[k] else null)
      ensures n != null ==> prev == if k == 0 then null else queues[RecvQueue(big)].q[k - 1]
      ensures n != null ==> n.dest == dest && k < |R.RecvQ(Abs(), big)| && R.RecvQ(Abs(), big)[k].buf == n.msg
    {
      PointsHome(big);
      prev, n, k := queues[RecvQueue(big)].SearchRecv(src, dest, saved);
    }

    method FindSender(want: int, dest: int, big: bool) returns (prev: MsgNode?, n: MsgNode?, ghost k: nat)
      requires Wired()
      ensures k == FindSend(R.SendQ(Abs(), big), want, dest)
      ensures k <= |queues[SendQueue(big)].q| == |R.SendQ(Abs(), big)|
      ensures n == (if k < |queues[SendQueue(big)].q| then queues[SendQueue(big)].q[k] else null)
      ensures n != null ==> prev == if k == 0 then null else queues[SendQueue(big)].q[k - 1]
      ensures n != null ==> n in All() && R.SendQ(Abs(), big)[k] == Send(n.src, n.dest, n.msg, n.slot)
    {
      prev, n, k := queues[SendQueue(big)].SearchSend(want, dest);
    }

    method IsSending(p: int, d: int, big: bool) returns (found: bool)
      requires Wired()
      ensures found == Sending(R.SendQ(Abs(), big), p, d)
    {
      found := queues[SendQueue(big)].HasSender(p, d);
    }

    method IsReceiving(p: int, w: int, big: bool) returns (found: bool)
      requires Wired()
      ensures found == Receiving(R.RecvQ(Abs(), big), p, w)
    {
      PointsHome(big);
      found := queues[RecvQueue(big)].HasReceiver(p, w, saved);
    }

    // The mutual-wait checks: is partner p blocked on caller c?

    method WaitsForSmallSender(p: int, c: int) returns (found: bool)
      requires Wired()
      ensures var q := Abs();
                found == (Sending(q.smallSend, p, c) || Sending(q.bigSend, p, c) || Receiving(q.bigRecv, p, c))
    {
      hide Messaging.Sending, Messaging.Receiving, MessageQueues.Sends, MessageQueues.Recvs;
      found := IsSending(p, c, false);
      if !found {
        found := IsSending(p, c, true);
      }
      if !found {
        found := IsReceiving(p, c, true);
      }
    }

    method WaitsForSmallReceiver(p: int, c: int) returns (found: bool)
      requires Wired()
      ensures var q := Abs();
                found == (Receiving(q.smallRecv, p, c) || Sending(q.bigSend, p, c) || Receiving(q.bigRecv, p, c))
    {
      hide Messaging.Sending, Messaging.Receiving, MessageQueues.Sends, MessageQueues.Recvs;
      found := IsReceiving(p, c, false);
      if !found {
        found := IsSending(p, c, true);
      }
      if !found {
        found := IsReceiving(p, c, true);
      }
    }

    method WaitsForBigSender(p: int, c: int) returns (found: bool)
      requires Wired()
      ensures var q := Abs();
                found == (Sending(q.smallSend, p, c) || Receiving(q.smallRecv, p, c) || Sending(q.bigSend, p, c))
    {
      hide Messaging.Sending, Messaging.Receiving, MessageQueues.Sends, MessageQueues.Recvs;
      found := IsSending(p, c, false);
      if !found {
        found := IsReceiving(p, c, false);
      }
      if !found {
        found := IsSending(p, c, true);
      }
    }

    method WaitsForBigReceiver(p: int, c: int) returns (found: bool)
      requires Wired()
      ensures var q := Abs();
                found == (Sending(q.smallSend, p, c) || Receiving(q.smallRecv, p, c) || Receiving(q.bigRecv, p, c))
    {
      hide Messaging.Sending, Messaging.Receiving, MessageQueues.Sends, MessageQueues.Recvs;
      found := IsSending(p, c, false);
      if !found {
        found := IsReceiving(p, c, false);
      }
      if !found {
        found := IsReceiving(p, c, true);
      }
    }
  }
}
