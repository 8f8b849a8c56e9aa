/**
  kernel/messaging.c as it is written: blocking message calls that relink nodes
  on kernel stacks, write into the partner's saved registers, share pages, put
  processes to sleep and wake them.
 */
module MessagePassing {
  import opened Limits
  import opened MessageQueues
  import opened NodeTable
  import opened ProcessTable
  import opened Memory
  import Faults
  import K = Kernel
  import M = Messaging
  import MailOrder
  import MemoryRuns
  import Paging
  import R = Rendezvous
  import S = Scheduling
  import TimeSlices

  class Machine {
    const nodes: Nodes
    const sched: Scheduler
    const mem: PageManager
    ghost var books: MailOrder.Books  // the messages accepted and received so far

    /** After proc_init, msg_init and mem_init. */
    constructor (nodes: Nodes, sched: Scheduler, mem: PageManager)
      requires nodes.Wired() && nodes.Abs() == M.Queues([], [], [], [])
      requires sched.Valid() && sched.Abs().cur == 0 && sched.Abs().ready == [[], [], []]
      requires mem.Valid()
      requires forall p :: 0 <= p < NR_PROCS && sched.Abs().procs[p].Proc? ==> sched.Abs().procs[p].state.Running?
      ensures this.nodes == nodes && this.sched == sched && this.mem == mem
      ensures Valid() && K.Boot(Abs())
    {
      this.nodes, this.sched, this.mem, this.books := nodes, sched, mem, MailOrder.NO_BOOKS;
      new;
      K.BootInv(Abs());
    }

    // ----------------------------------------------------------------- scheduling

    /** A process changes its state and somebody is chosen to run. */
    method ChangeAndSchedule(p: int, state: S.State)
      requires nodes.Wired() && sched.Valid() && 0 <= p < NR_PROCS && sched.procs[p] != null
      requires S.Inv(S.SetState(sched.Abs(), p, state))
      modifies sched`current, sched.Lists()`head, sched.Lists()`tail, sched.Lists()`q
      modifies sched.Blocks()`state, sched.Blocks()`nextReady, sched.Blocks()`counter
      ensures sched.Valid() && old(sched.Abs()).procs[p].Proc?
      ensures sched.Abs() == S.Schedule(S.SetState(old(sched.Abs()), p, state))
      ensures nodes.Wired() && nodes.Abs() == old(nodes.Abs()) && Contents(nodes.saved) == old(Contents(nodes.saved))
    {
      hide MessageQueues.Sends, MessageQueues.Recvs, MessageQueues.Contents;
      hide sched.Valid, sched.Shape, sched.Holds, sched.Belongs, sched.Abs, sched.Slots, S.Inv;
      sched.Reschedule(p, state);
      assert nodes.Wired() == true;
    }

    method Schedule()
      requires nodes.Wired() && sched.Valid()
      modifies sched`current, sched.Lists()`head, sched.Lists()`tail, sched.Lists()`q
      modifies sched.Blocks()`state, sched.Blocks()`nextReady, sched.Blocks()`counter
      ensures sched.Valid() && sched.Abs() == S.Schedule(old(sched.Abs()))
      ensures nodes.Wired() && nodes.Abs() == old(nodes.Abs()) && Contents(nodes.saved) == old(Contents(nodes.saved))
    {
      hide MessageQueues.Sends, MessageQueues.Recvs, MessageQueues.Contents;
      hide sched.Valid, sched.Shape, sched.Holds, sched.Belongs, sched.Abs, sched.Slots, S.Inv;
      sched.Schedule();
      assert nodes.Wired() == true;
    }

    /** Waking a partner, unless it is the hardware. */
    method Wake(peer: int, ghost caller: int, ghost out: M.Outcome)
      requires nodes.Wired() && sched.Valid() && out.Met? && out.peer == peer
      requires peer == M.MSG_HARDWARE || (0 <= peer < NR_PROCS && sched.procs[peer] != null)
      requires S.Inv(K.StatesAfter(sched.Abs(), caller, out))
      modifies sched`current, sched.Lists()`head, sched.Lists()`tail, sched.Lists()`q
      modifies sched.Blocks()`state, sched.Blocks()`nextReady, sched.Blocks()`counter
      ensures sched.Valid() && S.Inv(K.StatesAfter(old(sched.Abs()), caller, out))
      ensures sched.Abs() == K.Reschedule(old(sched.Abs()), caller, out)
      ensures nodes.Wired() && nodes.Abs() == old(nodes.Abs()) && Contents(nodes.saved) == old(Contents(nodes.saved))
    {
      hide nodes.Wired, nodes.Abs, MessageQueues.Contents;
      if peer == M.MSG_HARDWARE {
        Schedule();
      } else {
        assert sched.Abs().procs[peer] == sched.procs[peer].Slot();
        ChangeAndSchedule(peer, S.Running);
      }
    }

    /** Putting the caller to sleep, unless it is the hardware. */
    method Sleep(caller: int, ghost out: M.Outcome)
      requires nodes.Wired() && sched.Valid() && out.Queued?
      requires caller == M.MSG_HARDWARE || (0 <= caller < NR_PROCS && sched.procs[caller] != null)
      requires S.Inv(K.StatesAfter(sched.Abs(), caller, out))
      modifies sched`current, sched.Lists()`head, sched.Lists()`tail, sched.Lists()`q
      modifies sched.Blocks()`state, sched.Blocks()`nextReady, sched.Blocks()`counter
      ensures sched.Valid() && S.Inv(K.StatesAfter(old(sched.Abs()), caller, out))
      ensures sched.Abs() == K.Reschedule(old(sched.Abs()), caller, out)
      ensures nodes.Wired() && nodes.Abs() == old(nodes.Abs()) && Contents(nodes.saved) == old(Contents(nodes.saved))
    {
      hide nodes.Wired, nodes.Abs, MessageQueues.Contents;
      if caller == M.MSG_HARDWARE {
        Schedule();
      } else {
        assert sched.Abs().procs[caller] == sched.procs[caller].Slot();
        ChangeAndSchedule(caller, S.Sleeping);
      }
    }

    // ---------------------------------------------------------------- the calls

    /** The state is what a call with result r leaves of scheduler state s. */
    ghost predicate Leaves(s: S.Sched, caller: int, r: M.Result, res: int)
      reads nodes.queues, nodes.All(), nodes.saved
      reads sched, sched.Lists(), sched.task.q, sched.server.q, sched.user.q, sched.Blocks()
    {
      && nodes.Wired() && sched.Valid()
      && nodes.Abs() == r.q && Contents(nodes.saved) == r.regs
      && S.Inv(K.StatesAfter(s, caller, r.out)) && sched.Abs() == K.Reschedule(s, caller, r.out)
      && res == (if r.out.Rejected? then -1 else 1)
    }

    // The queue work of a call leaves the scheduler alone.

    method ServeReceiver(prev: MsgNode?, n: MsgNode, big: bool, src: int, msg: int, ghost k: nat)
      requires nodes.Wired() && sched.Valid()
      requires k < |nodes.queues[RecvQueue(big)].q| && n == nodes.queues[RecvQueue(big)].q[k]
      requires prev == if k == 0 then null else nodes.queues[RecvQueue(big)].q[k - 1]
      modifies nodes.queues`head, nodes.queues`tail, nodes.queues`q, nodes.All()`next, nodes.saved
      ensures nodes.Wired() && sched.Valid() && sched.Abs() == old(sched.Abs()) && 0 <= n.dest < NR_PROCS
      ensures nodes.Abs() == R.WithRecvQ(old(nodes.Abs()), big, M.Remove(R.RecvQ(old(nodes.Abs()), big), k))
      ensures var was := old(Contents(nodes.saved));
              Contents(nodes.saved) ==
                  was[n.dest := if big then M.Named(was[n.dest], src) else M.Delivered(was[n.dest], src, msg)]
    {
      hide sched.Slots, sched.Holds, sched.Belongs;
      hide nodes.Wired, nodes.Linked, nodes.Typed, nodes.Layout, nodes.Within, nodes.PoolOk, nodes.Abs;
      hide R.WithRecvQ, R.RecvQ, MessageQueues.Contents, M.Remove;
      nodes.MeetReceiver(prev, n, big, src, msg, k);
      assert sched.Shape() == true;
      assert sched.Abs() == old(sched.Abs());
    }

    method ServeSender(prev: MsgNode?, n: MsgNode, big: bool, dest: int, ghost k: nat) returns (src: int)
      requires nodes.Wired() && sched.Valid()
      requires k < |nodes.queues[SendQueue(big)].q| && n == nodes.queues[SendQueue(big)].q[k]
      requires prev == if k == 0 then null else nodes.queues[SendQueue(big)].q[k - 1]
      requires 0 <= dest < NR_PROCS && nodes.Loose(nodes.stack[dest])
      modifies nodes.queues`head, nodes.queues`tail, nodes.queues`q, nodes.All()`next, n`src, nodes.saved
      ensures nodes.Wired() && sched.Valid() && sched.Abs() == old(sched.Abs()) && src == old(n.src)
      ensures nodes.Abs() == R.WithSendQ(old(nodes.Abs()), big, M.Remove(R.SendQ(old(nodes.Abs()), big), k))
      ensures var was := old(Contents(nodes.saved));
              Contents(nodes.saved) ==
                  was[dest := if big then M.Named(was[dest], src) else M.Delivered(was[dest], src, n.msg)]
    {
      hide sched.Slots, sched.Holds, sched.Belongs;
      hide nodes.Wired, nodes.Linked, nodes.Typed, nodes.Layout, nodes.Within, nodes.PoolOk, nodes.Abs;
      hide nodes.Loose, R.WithSendQ, R.SendQ, MessageQueues.Contents, M.Remove;
      src := nodes.MeetSender(prev, n, big, dest, k);
      assert sched.Shape() == true;
      assert sched.Abs() == old(sched.Abs());
    }

    method QueueSender(n: MsgNode, src: int, dest: int, msg: int, big: bool)
      requires nodes.Wired() && sched.Valid()
      requires nodes.Loose(n) && nodes.Home(n) && n.owner == src && (big ==> n.slot == -1)
      modifies nodes.queues`head, nodes.queues`tail, nodes.queues`q
      modifies nodes.All()`next, n`src, n`dest, n`msg, n`regs, n`where
      ensures nodes.Wired() && sched.Valid() && sched.Abs() == old(sched.Abs())
      ensures nodes.Abs() ==
                R.WithSendQ(old(nodes.Abs()), big, R.SendQ(old(nodes.Abs()), big) + [M.Send(src, dest, msg, n.slot)])
      ensures Contents(nodes.saved) == old(Contents(nodes.saved))
    {
      hide sched.Slots, sched.Holds, sched.Belongs;
      hide nodes.Wired, nodes.Linked, nodes.Typed, nodes.Layout, nodes.Within, nodes.PoolOk, nodes.Abs;
      hide nodes.Loose, nodes.Home, R.WithSendQ, R.SendQ, MessageQueues.Contents;
      nodes.PostSender(n, src, dest, msg, big);
      assert sched.Shape() == true;
      assert sched.Abs() == old(sched.Abs());
    }

    method QueueReceiver(n: MsgNode, dest: int, msg: int, big: bool)
      requires nodes.Wired() && sched.Valid() && 0 <= dest < NR_PROCS
      requires nodes.Loose(n) && nodes.Home(n) && n.owner == dest && n.slot == -1
      modifies nodes.queues`head, nodes.queues`tail, nodes.queues`q
      modifies nodes.All()`next, n`src, n`dest, n`msg, n`regs, n`where
      ensures nodes.Wired() && sched.Valid() && sched.Abs() == old(sched.Abs())
      ensures var r := M.Recv(old(nodes.saved[dest].ebx), dest, msg);
              nodes.Abs() == R.WithRecvQ(old(nodes.Abs()), big, R.RecvQ(old(nodes.Abs()), big) + [r])
      ensures Contents(nodes.saved) == old(Contents(nodes.saved))
    {
      hide sched.Slots, sched.Holds, sched.Belongs;
      hide nodes.Wired, nodes.Linked, nodes.Typed, nodes.Layout, nodes.Within, nodes.PoolOk, nodes.Abs;
      hide nodes.Loose, nodes.Home, R.WithRecvQ, R.RecvQ, MessageQueues.Contents;
      nodes.PostReceiver(n, dest, msg, big);
      assert sched.Shape() == true;
      assert sched.Abs() == old(sched.Abs());
    }

    // ---------------------------------------------------------------- the calls

    /** The queues, the registers and the processes fit together, and caller may
        make a call: it is the hardware, or the current process. */
    ghost predicate Ready(caller: int)
      reads nodes.queues, nodes.All(), nodes.saved
      reads sched, sched.Lists(), sched.task.q, sched.server.q, sched.user.q, sched.Blocks()
    {
      && nodes.Wired() && sched.Valid()
      && K.ProcsOk(sched.Abs()) && S.IsRunning(sched.Abs(), sched.Abs().cur)
      && (caller == M.MSG_HARDWARE || caller == sched.Abs().cur)
      && R.Ready(nodes.Abs(), Contents(nodes.saved), K.Asleep(sched.Abs()), caller)
    }

    /** The scheduler's side of a call with result r can be carried out. */
    ghost predicate Sound(caller: int, out: M.Outcome)
      reads sched, sched.Lists(), sched.task.q, sched.server.q, sched.user.q, sched.Blocks()
    {
      && sched.Valid() && S.Inv(K.StatesAfter(sched.Abs(), caller, out))
      && (caller != M.MSG_HARDWARE ==> 0 <= caller < NR_PROCS && sched.procs[caller] != null)
      && (out.Met? && out.peer != M.MSG_HARDWARE ==> 0 <= out.peer < NR_PROCS && sched.procs[out.peer] != null)
    }

    lemma ProcExists(p: int)
      requires sched.Valid() && 0 <= p < NR_PROCS && sched.Abs().procs[p].Proc?
      ensures sched.procs[p] != null
    {
      assert sched.Abs().procs[p] == if sched.procs[p] == null then S.Empty else sched.procs[p].Slot();
    }

    lemma IsSound(caller: int, r: M.Result)
      requires Ready(caller) && R.Kept(r, K.Asleep(sched.Abs()), caller)
      ensures Sound(caller, r.out)
      ensures caller != M.MSG_HARDWARE ==> nodes.Loose(nodes.stack[caller])
    {
      K.StatesAfterKeepInv(sched.Abs(), caller, r.out);
      if caller != M.MSG_HARDWARE {
        ProcExists(caller);
        nodes.AwakeIsLoose(caller, K.Asleep(sched.Abs()));
      }
      if r.out.Met? && r.out.peer != M.MSG_HARDWARE {
        ProcExists(r.out.peer);
      }
    }

    /** A receiver that was found is served and woken. */
    method MeetReceiver(prev: MsgNode?, n: MsgNode, big: bool, src: int, msg: int, ghost k: nat, ghost r: M.Result)
      requires nodes.Wired() && Sound(src, r.out)
      requires k < |nodes.queues[RecvQueue(big)].q| && n == nodes.queues[RecvQueue(big)].q[k]
      requires prev == if k == 0 then null else nodes.queues[RecvQueue(big)].q[k - 1]
      requires r.out.Met? && r.out.peer == n.dest && 0 <= n.dest < NR_PROCS
      requires r.q == R.WithRecvQ(nodes.Abs(), big, M.Remove(R.RecvQ(nodes.Abs(), big), k))
      requires var was := Contents(nodes.saved);
               r.regs == was[n.dest := if big then M.Named(was[n.dest], src) else M.Delivered(was[n.dest], src, msg)]
      modifies nodes.queues`head, nodes.queues`tail, nodes.queues`q, nodes.All()`next, nodes.saved
      modifies sched`current, sched.Lists()`head, sched.Lists()`tail, sched.Lists()`q
      modifies sched.Blocks()`state, sched.Blocks()`nextReady, sched.Blocks()`counter
      ensures Leaves(old(sched.Abs()), src, r, 1)
    {
      hide nodes.Wired, nodes.Linked, nodes.Typed, nodes.Layout, nodes.Within, nodes.PoolOk, nodes.Abs;
      hide MessageQueues.Contents;
      hide sched.Valid, sched.Abs, sched.Shape, S.Inv, K.StatesAfter, K.Reschedule;
      ServeReceiver(prev, n, big, src, msg, k);
      Wake(n.dest, src, r.out);
    }

    /** A sender that was found hands over its message and is woken. */
    method MeetSender(prev: MsgNode?, n: MsgNode, big: bool, dest: int, ghost k: nat, ghost r: M.Result)
      requires nodes.Wired() && Sound(dest, r.out)
      requires k < |nodes.queues[SendQueue(big)].q| && n == nodes.queues[SendQueue(big)].q[k]
      requires prev == if k == 0 then null else nodes.queues[SendQueue(big)].q[k - 1]
      requires 0 <= dest < NR_PROCS && nodes.Loose(nodes.stack[dest])
      requires r.out.Met? && r.out.peer == n.src
      requires r.q == R.WithSendQ(nodes.Abs(), big, M.Remove(R.SendQ(nodes.Abs(), big), k))
      requires var was := Contents(nodes.saved);
               r.regs == was[dest := if big then M.Named(was[dest], n.src) else M.Delivered(was[dest], n.src, n.msg)]
      modifies nodes.queues`head, nodes.queues`tail, nodes.queues`q, nodes.All()`next, n`src, nodes.saved
      modifies sched`current, sched.Lists()`head, sched.Lists()`tail, sched.Lists()`q
      modifies sched.Blocks()`state, sched.Blocks()`nextReady, sched.Blocks()`counter
      ensures Leaves(old(sched.Abs()), dest, r, 1)
    {
      hide nodes.Wired, nodes.Linked, nodes.Typed, nodes.Layout, nodes.Within, nodes.PoolOk, nodes.Abs;
      hide MessageQueues.Contents;
      hide sched.Valid, sched.Abs, sched.Shape, S.Inv, K.StatesAfter, K.Reschedule;
      var src := ServeSender(prev, n, big, dest, k);
      Wake(src, dest, r.out);
    }

    /** Nobody met: the sender's node is queued and its owner goes to sleep. */
    method PostSender(n: MsgNode, src: int, dest: int, msg: int, big: bool, ghost r: M.Result)
      requires nodes.Wired() && Sound(src, r.out) && r.out.Queued?
      requires nodes.Loose(n) && nodes.Home(n) && n.owner == src && (big ==> n.slot == -1)
      requires r.q == R.WithSendQ(nodes.Abs(), big, R.SendQ(nodes.Abs(), big) + [M.Send(src, dest, msg, n.slot)])
      requires r.regs == Contents(nodes.saved)
      modifies nodes.queues`head, nodes.queues`tail, nodes.queues`q
      modifies nodes.All()`next, n`src, n`dest, n`msg, n`regs, n`where
      modifies sched`current, sched.Lists()`head, sched.Lists()`tail, sched.Lists()`q
      modifies sched.Blocks()`state, sched.Blocks()`nextReady, sched.Blocks()`counter
      ensures Leaves(old(sched.Abs()), src, r, 1)
    {
      hide nodes.Wired, nodes.Linked, nodes.Typed, nodes.Layout, nodes.Within, nodes.PoolOk, nodes.Abs;
      hide MessageQueues.Contents;
      hide sched.Valid, sched.Abs, sched.Shape, S.Inv, K.StatesAfter, K.Reschedule;
      QueueSender(n, src, dest, msg, big);
      Sleep(src, r.out);
    }

    /** Nobody met: the receiver's node is queued and its owner goes to sleep. */
    method PostReceiver(n: MsgNode, dest: int, msg: int, big: bool, ghost r: M.Result)
      requires nodes.Wired() && Sound(dest, r.out) && r.out.Queued? && 0 <= dest < NR_PROCS
      requires nodes.Loose(n) && nodes.Home(n) && n.owner == dest && n.slot == -1
      requires var w := M.Recv(nodes.saved[dest].ebx, dest, msg);
               r.q == R.WithRecvQ(nodes.Abs(), big, R.RecvQ(nodes.Abs(), big) + [w])
      requires r.regs == Contents(nodes.saved)
      modifies nodes.queues`head, nodes.queues`tail, nodes.queues`q
      modifies nodes.All()`next, n`src, n`dest, n`msg, n`regs, n`where
      modifies sched`current, sched.Lists()`head, sched.Lists()`tail, sched.Lists()`q
      modifies sched.Blocks()`state, sched.Blocks()`nextReady, sched.Blocks()`counter
      ensures Leaves(old(sched.Abs()), dest, r, 1)
    {
      hide nodes.Wired, nodes.Linked, nodes.Typed, nodes.Layout, nodes.Within, nodes.PoolOk, nodes.Abs;
      hide MessageQueues.Contents;
      hide sched.Valid, sched.Abs, sched.Shape, S.Inv, K.StatesAfter, K.Reschedule;
      QueueReceiver(n, dest, msg, big);
      Sleep(dest, r.out);
    }

    /** small_send, when no receiver took the message. */
    method SmallSendWaits(src: int, dest: int, msg: int, ghost r: M.Result) returns (res: int)
      requires nodes.Wired() && Sound(src, r.out) && (src != M.MSG_HARDWARE ==> nodes.Loose(nodes.stack[src]))
      requires |Contents(nodes.saved)| == NR_PROCS
                && r == M.SmallSend(nodes.Abs(), Contents(nodes.saved), src, dest, msg)
      requires M.SendArgsOk(src, dest) && M.FindRecv(nodes.Abs().smallRecv, src, dest) == |nodes.Abs().smallRecv|
      modifies nodes.queues`head, nodes.queues`tail, nodes.queues`q
      modifies nodes.All()`next, nodes.All()`src, nodes.All()`dest, nodes.All()`msg, nodes.All()`regs, nodes.All()`where
      modifies sched`current, sched.Lists()`head, sched.Lists()`tail, sched.Lists()`q
      modifies sched.Blocks()`state, sched.Blocks()`nextReady, sched.Blocks()`counter
      ensures Leaves(old(sched.Abs()), src, r, res)
    {
      hide nodes.Wired, nodes.Linked, nodes.Typed, nodes.Layout, nodes.Within, nodes.PoolOk, nodes.Abs;
      hide MessageQueues.Contents;
      hide sched.Valid, sched.Abs, sched.Shape, S.Inv, K.StatesAfter, S.Schedule, nodes.Loose, nodes.Home;
      hide M.Sending, M.Receiving, M.FindRecv, M.FreeSlot, MessageQueues.Sends, MessageQueues.Recvs;
      var found := nodes.WaitsForSmallSender(dest, src);
      if found {
        return -1;
      }
      var n := nodes.NodeFor(src);
      if n == null {
        return -1;
      }
      PostSender(n, src, dest, msg, false, r);
      return 1;
    }

    lemma SmallSendIsSound(src: int, dest: int, msg: int)
      requires Ready(src)
      ensures |Contents(nodes.saved)| == NR_PROCS && nodes.Wired() && |nodes.queues| == 4 && nodes.Within()
      ensures Sound(src, M.SmallSend(nodes.Abs(), Contents(nodes.saved), src, dest, msg).out)
      ensures src != M.MSG_HARDWARE ==> nodes.Loose(nodes.stack[src])
    {
      var r := M.SmallSend(nodes.Abs(), Contents(nodes.saved), src, dest, msg);
      R.SmallSendKeeps(nodes.Abs(), Contents(nodes.saved), K.Asleep(sched.Abs()), src, dest, msg);
      IsSound(src, r);
    }

    /** small_send */
    method SmallSend(src: int, dest: int, msg: int) returns (res: int)
      requires Ready(src)
      modifies nodes.queues`head, nodes.queues`tail, nodes.queues`q, nodes.saved
      modifies nodes.All()`next, nodes.All()`src, nodes.All()`dest, nodes.All()`msg, nodes.All()`regs, nodes.All()`where
      modifies sched`current, sched.Lists()`head, sched.Lists()`tail, sched.Lists()`q
      modifies sched.Blocks()`state, sched.Blocks()`nextReady, sched.Blocks()`counter
      ensures var r := M.SmallSend(old(nodes.Abs()), old(Contents(nodes.saved)), src, dest, msg);
              Leaves(old(sched.Abs()), src, r, res)
    {
      hide nodes.Wired, nodes.Linked, nodes.Typed, nodes.Layout, nodes.Within, nodes.PoolOk, nodes.Abs;
      hide MessageQueues.Contents;
      hide sched.Valid, sched.Abs, sched.Shape, S.Inv, K.StatesAfter, S.Schedule, nodes.Loose, nodes.Home;
      hide M.Sending, M.Receiving, M.FindRecv, M.FindSend, M.FreeSlot, MessageQueues.Sends, MessageQueues.Recvs;
      hide Ready, R.Ready, R.Inv, R.OwnersAre, K.ProcsOk, K.Asleep;
      SmallSendIsSound(src, dest, msg);
      ghost var r := M.SmallSend(nodes.Abs(), Contents(nodes.saved), src, dest, msg);
      if (src < 0 && src != M.MSG_HARDWARE) || src >= NR_PROCS {
        return -1;
      }
      if dest < 0 || dest >= NR_PROCS {
        return -1;
      }
      var prev, n, k := nodes.FindReceiver(src, dest, false);
      if n != null {
        MeetReceiver(prev, n, false, src, msg, k, r);
        return 1;
      }
      res := SmallSendWaits(src, dest, msg, r);
    }

    /** small_receive, when no sender offered a message. */
    method SmallReceiveWaits(dest: int, ghost r: M.Result) returns (res: int)
      requires nodes.Wired() && 0 <= dest < NR_PROCS && Sound(dest, r.out) && nodes.Loose(nodes.stack[dest])
      requires |Contents(nodes.saved)| == NR_PROCS && r == M.SmallReceive(nodes.Abs(), Contents(nodes.saved), dest)
      requires M.SmallRecvArgsOk(nodes.saved[dest].ebx, dest)
      requires M.FindSend(nodes.Abs().smallSend, nodes.saved[dest].ebx, dest) == |nodes.Abs().smallSend|
      modifies nodes.queues`head, nodes.queues`tail, nodes.queues`q
      modifies nodes.All()`next, nodes.All()`src, nodes.All()`dest, nodes.All()`msg, nodes.All()`regs, nodes.All()`where
      modifies sched`current, sched.Lists()`head, sched.Lists()`tail, sched.Lists()`q
      modifies sched.Blocks()`state, sched.Blocks()`nextReady, sched.Blocks()`counter
      ensures Leaves(old(sched.Abs()), dest, r, res)
    {
      hide nodes.Wired, nodes.Linked, nodes.Typed, nodes.Layout, nodes.Within, nodes.PoolOk, nodes.Abs;
      hide MessageQueues.Contents;
      hide sched.Valid, sched.Abs, sched.Shape, S.Inv, K.StatesAfter, S.Schedule, nodes.Loose, nodes.Home;
      hide M.Sending, M.Receiving, M.FindRecv, M.FindSend, M.FreeSlot, MessageQueues.Sends, MessageQueues.Recvs;
      var found := nodes.WaitsForSmallReceiver(nodes.saved[dest].ebx, dest);
      if found {
        return -1;
      }
      var n := nodes.NodeFor(dest);
      PostReceiver(n, dest, 0, false, r);
      return 1;
    }

    lemma SmallReceiveIsSound(dest: int)
      requires Ready(dest) && dest != M.MSG_HARDWARE
      ensures |Contents(nodes.saved)| == NR_PROCS && nodes.Wired() && |nodes.queues| == 4 && nodes.Within()
      ensures 0 <= dest < NR_PROCS && Sound(dest, M.SmallReceive(nodes.Abs(), Contents(nodes.saved), dest).out)
      ensures nodes.Loose(nodes.stack[dest])
    {
      R.SmallReceiveKeeps(nodes.Abs(), Contents(nodes.saved), K.Asleep(sched.Abs()), dest);
      IsSound(dest, M.SmallReceive(nodes.Abs(), Contents(nodes.saved), dest));
    }

    /** small_receive, for the process whose saved ebx names the partner. */
    method SmallReceive(dest: int) returns (res: int)
      requires Ready(dest) && dest != M.MSG_HARDWARE
      modifies nodes.queues`head, nodes.queues`tail, nodes.queues`q, nodes.saved
      modifies nodes.All()`next, nodes.All()`src, nodes.All()`dest, nodes.All()`msg, nodes.All()`regs, nodes.All()`where
      modifies sched`current, sched.Lists()`head, sched.Lists()`tail, sched.Lists()`q
      modifies sched.Blocks()`state, sched.Blocks()`nextReady, sched.Blocks()`counter
      ensures 0 <= dest < NR_PROCS && |old(Contents(nodes.saved))| == NR_PROCS
      ensures Leaves(old(sched.Abs()), dest, M.SmallReceive(old(nodes.Abs()), old(Contents(nodes.saved)), dest), res)
    {
      hide nodes.Wired, nodes.Linked, nodes.Typed, nodes.Layout, nodes.Within, nodes.PoolOk, nodes.Abs;
      hide MessageQueues.Contents;
      hide sched.Valid, sched.Abs, sched.Shape, S.Inv, K.StatesAfter, S.Schedule, nodes.Loose, nodes.Home;
      hide M.Sending, M.Receiving, M.FindRecv, M.FindSend, M.FreeSlot, MessageQueues.Sends, MessageQueues.Recvs;
      hide Ready, R.Ready, R.Inv, R.OwnersAre, K.ProcsOk, K.Asleep;
      SmallReceiveIsSound(dest);
      ghost var r := M.SmallReceive(nodes.Abs(), Contents(nodes.saved), dest);
      var want := nodes.saved[dest].ebx;
      if (want < 0 && want != M.MSG_ANY && want != M.MSG_HARDWARE) || want >= NR_PROCS {
        return -1;
      }
      var prev, n, k := nodes.FindSender(want, dest, false);
      if n != null {
        MeetSender(prev, n, false, dest, k, r);
        return 1;
      }
      res := SmallReceiveWaits(dest, r);
    }

    // ------------------------------------------------------------ sharing a page

    /** share_page can be carried out. */
    ghost predicate Shareable(from: int, to: int)
      reads mem.memMap, mem.phys
    {
      && mem.Valid() && 0 <= from < 0x1_0000_0000 && 0 <= to < 0x1_0000_0000
      && Faults.CanShare(mem.Abs(), mem.base, from / 4096, to / 4096)
    }

    /** The sender's page is shared; nothing else is touched. */
    method Share(from: int, to: int)
      requires nodes.Wired() && sched.Valid() && Shareable(from, to)
      modifies mem.memMap, mem.phys
      ensures nodes.Wired() && nodes.Abs() == old(nodes.Abs()) && Contents(nodes.saved) == old(Contents(nodes.saved))
      ensures sched.Valid() && sched.Abs() == old(sched.Abs())
      ensures |nodes.queues| == 4 && forall j {:trigger nodes.queues[j]} :: 0 <= j < 4 ==>
                nodes.queues[j].q == old(nodes.queues[j].q)
      ensures MemoryRuns.Step(old(mem.Abs()), mem.base, MemoryRuns.Share(from / 4096, to / 4096), mem.Abs())
    {
      hide mem.Abs, Faults.CanShare, Faults.ShareEnds, Faults.AfterShare, Faults.Shared, Paging.Sized;
      hide MessageQueues.Sends, MessageQueues.Recvs, MessageQueues.Contents, sched.Slots;
      Faults.CanShareEnds(mem.Abs(), mem.base, from / 4096, to / 4096);
      mem.SharePage(from, to);
      assert nodes.Wired() == true && sched.Shape() == true && sched.Abs() == old(sched.Abs());
    }

    /** When a big call meets its partner, the page is shared; otherwise memory
        stays as it is. */
    ghost predicate Paged(m: Paging.Mem, out: M.Outcome)
      reads mem.memMap, mem.phys
    {
      if out.Met? && out.copy.Copy?
      then MemoryRuns.Step(m, mem.base, MemoryRuns.Share(out.copy.from / 4096, out.copy.to / 4096), mem.Abs())
      else mem.Abs() == m
    }

    /** big_send, when a receiver takes the message. */
    method BigSendMeets(prev: MsgNode?, n: MsgNode, src: int, entry: int, ghost k: nat, ghost r: M.Result)
      requires nodes.Wired() && Sound(src, r.out)
      requires k < |nodes.queues[BIG_RECV].q| && n == nodes.queues[BIG_RECV].q[k]
      requires prev == if k == 0 then null else nodes.queues[BIG_RECV].q[k - 1]
      requires 0 <= n.dest < NR_PROCS && r.out == M.Met(n.dest, M.Copy(entry, n.msg)) && Shareable(entry, n.msg)
      requires r.q == nodes.Abs().(bigRecv := M.Remove(nodes.Abs().bigRecv, k))
      requires r.regs == Contents(nodes.saved)[n.dest := M.Named(Contents(nodes.saved)[n.dest], src)]
      modifies mem.memMap, mem.phys
      modifies nodes.queues`head, nodes.queues`tail, nodes.queues`q, nodes.saved
      modifies nodes.All()`next, nodes.All()`src, nodes.All()`dest, nodes.All()`msg, nodes.All()`regs, nodes.All()`where
      modifies sched`current, sched.Lists()`head, sched.Lists()`tail, sched.Lists()`q
      modifies sched.Blocks()`state, sched.Blocks()`nextReady, sched.Blocks()`counter
      ensures Leaves(old(sched.Abs()), src, r, 1) && Paged(old(mem.Abs()), r.out)
    {
      hide Shareable, Leaves, M.Remove;
      hide nodes.Wired, nodes.Linked, nodes.Typed, nodes.Layout, nodes.Within, nodes.PoolOk, nodes.Abs;
      hide MessageQueues.Contents;
      hide sched.Valid, sched.Abs, sched.Shape, S.Inv, K.StatesAfter, S.Schedule, nodes.Loose, nodes.Home;
      hide M.Sending, M.Receiving, M.FindRecv, M.FindSend, M.FreeSlot, MessageQueues.Sends, MessageQueues.Recvs;
      hide mem.Valid, MemoryRuns.Step, Faults.CanShare;
      Share(entry, n.msg);
      ghost var m := mem.Abs();
      MeetReceiver(prev, n, true, src, 0, k, r);
      assert mem.Abs() == m;
    }

    /** big_send, when no receiver takes the message.  The address key is compared
        where the partner's pid was meant. */
    method BigSendWaits(src: int, dest: int, key: int, entry: int, ghost r: M.Result) returns (res: int)
      requires nodes.Wired() && 0 <= src < NR_PROCS && Sound(src, r.out) && nodes.Loose(nodes.stack[src])
      requires |Contents(nodes.saved)| == NR_PROCS
      requires r == M.BigSend(nodes.Abs(), Contents(nodes.saved), src, dest, key, entry)
      requires M.IsPid(dest) && M.FindRecv(nodes.Abs().bigRecv, src, dest) == |nodes.Abs().bigRecv|
      modifies nodes.queues`head, nodes.queues`tail, nodes.queues`q
      modifies nodes.All()`next, nodes.All()`src, nodes.All()`dest, nodes.All()`msg, nodes.All()`regs, nodes.All()`where
      modifies sched`current, sched.Lists()`head, sched.Lists()`tail, sched.Lists()`q
      modifies sched.Blocks()`state, sched.Blocks()`nextReady, sched.Blocks()`counter
      ensures Leaves(old(sched.Abs()), src, r, res) && Paged(old(mem.Abs()), r.out)
    {
      hide nodes.Wired, nodes.Linked, nodes.Typed, nodes.Layout, nodes.Within, nodes.PoolOk, nodes.Abs;
      hide MessageQueues.Contents;
      hide sched.Valid, sched.Abs, sched.Shape, S.Inv, K.StatesAfter, S.Schedule, nodes.Loose, nodes.Home;
      hide M.Sending, M.Receiving, M.FindRecv, M.FindSend, M.FreeSlot, MessageQueues.Sends, MessageQueues.Recvs;
      hide mem.Valid, MemoryRuns.Step, Faults.CanShare;
      var found := nodes.WaitsForBigSender(key, src);
      if found {
        return -1;
      }
      var n := nodes.NodeFor(src);
      ghost var m := mem.Abs();
      PostSender(n, src, dest, entry, true, r);
      assert mem.Abs() == m;
      return 1;
    }

    lemma BigSendIsSound(src: int, dest: int, key: int, entry: int)
      requires Ready(src) && src != M.MSG_HARDWARE
      ensures |Contents(nodes.saved)| == NR_PROCS && nodes.Wired() && |nodes.queues| == 4 && nodes.Within()
      ensures 0 <= src < NR_PROCS
                && Sound(src, M.BigSend(nodes.Abs(), Contents(nodes.saved), src, dest, key, entry).out)
      ensures nodes.Loose(nodes.stack[src])
    {
      R.BigSendKeeps(nodes.Abs(), Contents(nodes.saved), K.Asleep(sched.Abs()), src, dest, key, entry);
      IsSound(src, M.BigSend(nodes.Abs(), Contents(nodes.saved), src, dest, key, entry));
    }

    /** big_send, to a valid destination. */
    method BigSendTo(src: int, dest: int, key: int, entry: int, ghost r: M.Result) returns (res: int)
      requires nodes.Wired() && 0 <= src < NR_PROCS && Sound(src, r.out) && nodes.Loose(nodes.stack[src])
      requires |Contents(nodes.saved)| == NR_PROCS && M.IsPid(dest) && |nodes.queues| == 4 && nodes.Within()
      requires r == M.BigSend(nodes.Abs(), Contents(nodes.saved), src, dest, key, entry)
      requires r.out.Met? ==> Shareable(r.out.copy.from, r.out.copy.to)
      modifies mem.memMap, mem.phys
      modifies nodes.queues`head, nodes.queues`tail, nodes.queues`q, nodes.saved
      modifies nodes.All()`next, nodes.All()`src, nodes.All()`dest, nodes.All()`msg, nodes.All()`regs, nodes.All()`where
      modifies sched`current, sched.Lists()`head, sched.Lists()`tail, sched.Lists()`q
      modifies sched.Blocks()`state, sched.Blocks()`nextReady, sched.Blocks()`counter
      ensures Leaves(old(sched.Abs()), src, r, res) && Paged(old(mem.Abs()), r.out)
    {
      hide nodes.Wired, nodes.Linked, nodes.Typed, nodes.Layout, nodes.Within, nodes.PoolOk, nodes.Abs;
      hide MessageQueues.Contents;
      hide sched.Valid, sched.Abs, sched.Shape, S.Inv, K.StatesAfter, S.Schedule, nodes.Loose, nodes.Home;
      hide M.Sending, M.Receiving, M.FindRecv, M.FindSend, M.FreeSlot, MessageQueues.Sends, MessageQueues.Recvs;
      hide Ready, R.Ready, R.Inv, R.OwnersAre, K.ProcsOk, K.Asleep;
      hide mem.Valid, Shareable, MemoryRuns.Step, Faults.CanShare;
      var prev, n, k := nodes.FindReceiver(src, dest, true);
      if n != null {
        BigSendMeets(prev, n, src, entry, k, r);
        return 1;
      }
      res := BigSendWaits(src, dest, key, entry, r);
    }

    /** big_send; entry is the page in the sender's buffer. */
    method BigSend(src: int, dest: int, key: int, entry: int) returns (res: int)
      requires Ready(src) && src != M.MSG_HARDWARE
      requires |Contents(nodes.saved)| == NR_PROCS
      requires var out := M.BigSend(nodes.Abs(), Contents(nodes.saved), src, dest, key, entry).out;
               out.Met? ==> Shareable(out.copy.from, out.copy.to)
      modifies mem.memMap, mem.phys
      modifies nodes.queues`head, nodes.queues`tail, nodes.queues`q, nodes.saved
      modifies nodes.All()`next, nodes.All()`src, nodes.All()`dest, nodes.All()`msg, nodes.All()`regs, nodes.All()`where
      modifies sched`current, sched.Lists()`head, sched.Lists()`tail, sched.Lists()`q
      modifies sched.Blocks()`state, sched.Blocks()`nextReady, sched.Blocks()`counter
      ensures var r := M.BigSend(old(nodes.Abs()), old(Contents(nodes.saved)), src, dest, key, entry);
              Leaves(old(sched.Abs()), src, r, res) && Paged(old(mem.Abs()), r.out)
    {
      hide nodes.Wired, nodes.Linked, nodes.Typed, nodes.Layout, nodes.Within, nodes.PoolOk, nodes.Abs;
      hide MessageQueues.Contents;
      hide sched.Valid, sched.Abs, sched.Shape, S.Inv, K.StatesAfter, S.Schedule, nodes.Loose, nodes.Home;
      hide M.Sending, M.Receiving, M.FindRecv, M.FindSend, M.FreeSlot, MessageQueues.Sends, MessageQueues.Recvs;
      hide Ready, R.Ready, R.Inv, R.OwnersAre, K.ProcsOk, K.Asleep;
      hide mem.Valid, Shareable, MemoryRuns.Step, Faults.CanShare;
      BigSendIsSound(src, dest, key, entry);
      ghost var r := M.BigSend(nodes.Abs(), Contents(nodes.saved), src, dest, key, entry);
      if dest < 0 || dest >= NR_PROCS {
        return -1;
      }
      res := BigSendTo(src, dest, key, entry, r);
    }

    /** big_receive, when a sender offers a message. */
    method BigReceiveMeets(prev: MsgNode?, n: MsgNode, dest: int, entry: int, ghost k: nat, ghost r: M.Result)
      requires nodes.Wired() && Sound(dest, r.out)
      requires k < |nodes.queues[BIG_SEND].q| && n == nodes.queues[BIG_SEND].q[k]
      requires prev == if k == 0 then null else nodes.queues[BIG_SEND].q[k - 1]
      requires 0 <= dest < NR_PROCS && nodes.Loose(nodes.stack[dest]) && n in nodes.All()
      requires r.out == M.Met(n.src, M.Copy(n.msg, entry)) && Shareable(n.msg, entry)
      requires r.q == nodes.Abs().(bigSend := M.Remove(nodes.Abs().bigSend, k))
      requires r.regs == Contents(nodes.saved)[dest := M.Named(Contents(nodes.saved)[dest], n.src)]
      modifies mem.memMap, mem.phys
      modifies nodes.queues`head, nodes.queues`tail, nodes.queues`q, nodes.saved
      modifies nodes.All()`next, nodes.All()`src, nodes.All()`dest, nodes.All()`msg, nodes.All()`regs, nodes.All()`where
      modifies sched`current, sched.Lists()`head, sched.Lists()`tail, sched.Lists()`q
      modifies sched.Blocks()`state, sched.Blocks()`nextReady, sched.Blocks()`counter
      ensures Leaves(old(sched.Abs()), dest, r, 1) && Paged(old(mem.Abs()), r.out)
    {
      hide Shareable, Leaves, M.Remove;
      hide nodes.Wired, nodes.Linked, nodes.Typed, nodes.Layout, nodes.Within, nodes.PoolOk, nodes.Abs;
      hide MessageQueues.Contents;
      hide sched.Valid, sched.Abs, sched.Shape, S.Inv, K.StatesAfter, S.Schedule, nodes.Home;
      hide M.Sending, M.Receiving, M.FindRecv, M.FindSend, M.FreeSlot, MessageQueues.Sends, MessageQueues.Recvs;
      hide mem.Valid, MemoryRuns.Step, Faults.CanShare;
      Share(n.msg, entry);
      ghost var m := mem.Abs();
      MeetSender(prev, n, true, dest, k, r);
      assert mem.Abs() == m;
    }

    /** big_receive, when no sender offered a message. */
    method BigReceiveWaits(dest: int, entry: int, ghost r: M.Result) returns (res: int)
      requires nodes.Wired() && 0 <= dest < NR_PROCS && Sound(dest, r.out) && nodes.Loose(nodes.stack[dest])
      requires |Contents(nodes.saved)| == NR_PROCS && r == M.BigReceive(nodes.Abs(), Contents(nodes.saved), dest, entry)
      requires M.BigRecvArgsOk(nodes.saved[dest].ebx, dest)
      requires M.FindSend(nodes.Abs().bigSend, nodes.saved[dest].ebx, dest) == |nodes.Abs().bigSend|
      modifies nodes.queues`head, nodes.queues`tail, nodes.queues`q
      modifies nodes.All()`next, nodes.All()`src, nodes.All()`dest, nodes.All()`msg, nodes.All()`regs, nodes.All()`where
      modifies sched`current, sched.Lists()`head, sched.Lists()`tail, sched.Lists()`q
      modifies sched.Blocks()`state, sched.Blocks()`nextReady, sched.Blocks()`counter
      ensures Leaves(old(sched.Abs()), dest, r, res) && Paged(old(mem.Abs()), r.out)
    {
      hide nodes.Wired, nodes.Linked, nodes.Typed, nodes.Layout, nodes.Within, nodes.PoolOk, nodes.Abs;
      hide MessageQueues.Contents;
      hide sched.Valid, sched.Abs, sched.Shape, S.Inv, K.StatesAfter, S.Schedule, nodes.Loose, nodes.Home;
      hide M.Sending, M.Receiving, M.FindRecv, M.FindSend, M.FreeSlot, MessageQueues.Sends, MessageQueues.Recvs;
      hide mem.Valid, MemoryRuns.Step, Faults.CanShare;
      var found := nodes.WaitsForBigReceiver(nodes.saved[dest].ebx, dest);
      if found {
        return -1;
      }
      var n := nodes.NodeFor(dest);
      ghost var m := mem.Abs();
      PostReceiver(n, dest, entry, true, r);
      assert mem.Abs() == m;
      return 1;
    }

    lemma BigReceiveIsSound(dest: int, entry: int)
      requires Ready(dest) && dest != M.MSG_HARDWARE
      ensures |Contents(nodes.saved)| == NR_PROCS && nodes.Wired() && |nodes.queues| == 4 && nodes.Within()
      ensures 0 <= dest < NR_PROCS && Sound(dest, M.BigReceive(nodes.Abs(), Contents(nodes.saved), dest, entry).out)
      ensures nodes.Loose(nodes.stack[dest])
    {
      R.BigReceiveKeeps(nodes.Abs(), Contents(nodes.saved), K.Asleep(sched.Abs()), dest, entry);
      IsSound(dest, M.BigReceive(nodes.Abs(), Contents(nodes.saved), dest, entry));
    }

    /** big_receive, for a valid partner. */
    method BigReceiveFrom(want: int, dest: int, entry: int, ghost r: M.Result) returns (res: int)
      requires nodes.Wired() && 0 <= dest < NR_PROCS && Sound(dest, r.out) && nodes.Loose(nodes.stack[dest])
      requires |Contents(nodes.saved)| == NR_PROCS && r == M.BigReceive(nodes.Abs(), Contents(nodes.saved), dest, entry)
      requires want == nodes.saved[dest].ebx && M.BigRecvArgsOk(want, dest) && |nodes.queues| == 4 && nodes.Within()
      requires r.out.Met? ==> Shareable(r.out.copy.from, r.out.copy.to)
      modifies mem.memMap, mem.phys
      modifies nodes.queues`head, nodes.queues`tail, nodes.queues`q, nodes.saved
      modifies nodes.All()`next, nodes.All()`src, nodes.All()`dest, nodes.All()`msg, nodes.All()`regs, nodes.All()`where
      modifies sched`current, sched.Lists()`head, sched.Lists()`tail, sched.Lists()`q
      modifies sched.Blocks()`state, sched.Blocks()`nextReady, sched.Blocks()`counter
      ensures Leaves(old(sched.Abs()), dest, r, res) && Paged(old(mem.Abs()), r.out)
    {
      hide nodes.Wired, nodes.Linked, nodes.Typed, nodes.Layout, nodes.Within, nodes.PoolOk, nodes.Abs;
      hide MessageQueues.Contents;
      hide sched.Valid, sched.Abs, sched.Shape, S.Inv, K.StatesAfter, S.Schedule, nodes.Loose, nodes.Home;
      hide M.Sending, M.Receiving, M.FindRecv, M.FindSend, M.FreeSlot, MessageQueues.Sends, MessageQueues.Recvs;
      hide Ready, R.Ready, R.Inv, R.OwnersAre, K.ProcsOk, K.Asleep;
      hide mem.Valid, Shareable, MemoryRuns.Step, Faults.CanShare;
      var prev, n, k := nodes.FindSender(want, dest, true);
      if n != null {
        BigReceiveMeets(prev, n, dest, entry, k, r);
        return 1;
      }
      res := BigReceiveWaits(dest, entry, r);
    }

    /** big_receive; entry is the page in the receiver's buffer. */
    method BigReceive(dest: int, entry: int) returns (res: int)
      requires Ready(dest) && 0 <= dest < NR_PROCS && |Contents(nodes.saved)| == NR_PROCS
      requires var out := M.BigReceive(nodes.Abs(), Contents(nodes.saved), dest, entry).out;
               out.Met? ==> Shareable(out.copy.from, out.copy.to)
      modifies mem.memMap, mem.phys
      modifies nodes.queues`head, nodes.queues`tail, nodes.queues`q, nodes.saved
      modifies nodes.All()`next, nodes.All()`src, nodes.All()`dest, nodes.All()`msg, nodes.All()`regs, nodes.All()`where
      modifies sched`current, sched.Lists()`head, sched.Lists()`tail, sched.Lists()`q
      modifies sched.Blocks()`state, sched.Blocks()`nextReady, sched.Blocks()`counter
      ensures var r := M.BigReceive(old(nodes.Abs()), old(Contents(nodes.saved)), dest, entry);
              Leaves(old(sched.Abs()), dest, r, res) && Paged(old(mem.Abs()), r.out)
    {
      hide nodes.Wired, nodes.Linked, nodes.Typed, nodes.Layout, nodes.Within, nodes.PoolOk, nodes.Abs;
      hide MessageQueues.Contents;
      hide sched.Valid, sched.Abs, sched.Shape, S.Inv, K.StatesAfter, S.Schedule, nodes.Loose, nodes.Home;
      hide M.Sending, M.Receiving, M.FindRecv, M.FindSend, M.FreeSlot, MessageQueues.Sends, MessageQueues.Recvs;
      hide Ready, R.Ready, R.Inv, R.OwnersAre, K.ProcsOk, K.Asleep;
      hide mem.Valid, Shareable, MemoryRuns.Step, Faults.CanShare;
      BigReceiveIsSound(dest, entry);
      ghost var r := M.BigReceive(nodes.Abs(), Contents(nodes.saved), dest, entry);
      var want := nodes.saved[dest].ebx;
      if (want < 0 && want != M.MSG_ANY) || want >= NR_PROCS {
        return -1;
      }
      res := BigReceiveFrom(want, dest, entry, r);
    }

    // ------------------------------------------------------------- kernel entries

    lemma ReadyIsWellFormed(caller: int)
      requires Ready(caller)
      ensures |Contents(nodes.saved)| == NR_PROCS && nodes.Wired() && |nodes.queues| == 4 && nodes.Within()
      ensures sched.Valid() && S.Inv(K.StatesAfter(sched.Abs(), caller, M.Rejected))
      ensures caller != M.MSG_HARDWARE ==> 1 <= caller < NR_PROCS
    {
    }

    /** What the four calls come to: the request is in p's saved registers. */
    method Serve(fn: int, p: int, ghost ecx: int, key: int, ghost r: M.Result) returns (res: int)
      requires Ready(p) && 0 <= p < NR_PROCS && |Contents(nodes.saved)| == NR_PROCS
                && Contents(nodes.saved)[p].ecx == ecx
      requires r == K.Serve(nodes.Abs(), Contents(nodes.saved), p, K.Call(fn, Contents(nodes.saved)[p].ebx, ecx, key))
      requires r.out.Met? && r.out.copy.Copy? ==> Shareable(r.out.copy.from, r.out.copy.to)
      modifies mem.memMap, mem.phys
      modifies nodes.queues`head, nodes.queues`tail, nodes.queues`q, nodes.saved
      modifies nodes.All()`next, nodes.All()`src, nodes.All()`dest, nodes.All()`msg, nodes.All()`regs, nodes.All()`where
      modifies sched`current, sched.Lists()`head, sched.Lists()`tail, sched.Lists()`q
      modifies sched.Blocks()`state, sched.Blocks()`nextReady, sched.Blocks()`counter
      ensures Leaves(old(sched.Abs()), p, r, res) && Paged(old(mem.Abs()), r.out)
    {
      hide nodes.Wired, nodes.Linked, nodes.Typed, nodes.Layout, nodes.Within, nodes.PoolOk, nodes.Abs;
      hide MessageQueues.Contents;
      hide sched.Valid, sched.Abs, sched.Shape, S.Inv, K.StatesAfter, S.Schedule, nodes.Loose, nodes.Home;
      hide M.Sending, M.Receiving, M.FindRecv, M.FindSend, M.FreeSlot, MessageQueues.Sends, MessageQueues.Recvs;
      hide Ready, R.Ready, R.Inv, R.OwnersAre, K.ProcsOk, K.Asleep;
      hide mem.Valid, Shareable, MemoryRuns.Step, Faults.CanShare;
      ReadyIsWellFormed(p);
      ghost var m := mem.Abs();
      var dest, msg := nodes.saved[p].ebx, nodes.saved[p].ecx;
      assert Contents(nodes.saved)[p := M.Regs(dest, msg)] == Contents(nodes.saved);
      if p == dest {
        return -1;
      }
      if fn == 1 {
        res := SmallSend(p, dest, msg);
        assert mem.Abs() == m;
      } else if fn == 2 {
        res := SmallReceive(p);
        assert mem.Abs() == m;
      } else if fn == 3 {
        var entry := (msg - msg % 4096 + 4096 + p * 0x4000000) % 0x1_0000_0000;
        res := BigSend(p, dest, key, entry);
      } else if fn == 4 {
        var entry := (msg - msg % 4096 + 4096 + p * 0x4000000) % 0x1_0000_0000;
        res := BigReceive(p, entry);
      } else {
        return -1;
      }
    }

    /** The kernel as a value: books is what the processes have been told. */
    ghost function Abs(): K.World
      reads `books, nodes.queues, nodes.All(), nodes.saved
      reads sched, sched.Lists(), sched.Blocks()
      requires |nodes.queues| == 4 && nodes.Within()
    {
      K.World(sched.Abs(), nodes.Abs(), Contents(nodes.saved), books)
    }

    ghost predicate Valid()
      reads `books, nodes.queues, nodes.All(), nodes.saved, mem.memMap, mem.phys
      reads sched, sched.Lists(), sched.task.q, sched.server.q, sched.user.q, sched.Blocks()
    {
      nodes.Wired() && sched.Valid() && mem.Valid() && K.Inv(Abs())
    }

    lemma PagedKeepsMemory(m: Paging.Mem, out: M.Outcome)
      requires Paging.Inv(m, mem.base) && Paged(m, out)
      ensures mem.Valid()
    {
      if out.Met? && out.copy.Copy? {
        MemoryRuns.StepKeepsInv(m, mem.base, MemoryRuns.Share(out.copy.from / 4096, out.copy.to / 4096), mem.Abs());
      }
    }

    /** A pool slot is marked as the hardware's iff its message is queued in
        small_send, and then it is queued once. */
    lemma PoolAgrees(i: int)
      requires Valid() && 0 <= i < M.NR_MSG_HARDWARE
      ensures var q := nodes.Abs().smallSend;
              && (nodes.hw[i].src == M.MSG_HARDWARE <==> M.SlotUsed(q, i))
              && (forall k, l :: 0 <= k < |q| && 0 <= l < |q| && q[k].slot == q[l].slot == i ==> k == l)
              && (forall k :: 0 <= k < |q| && q[k].slot == i ==> q[k].src == M.MSG_HARDWARE)
    {
      nodes.SlotUsedIs(i);
      var q := nodes.Abs().smallSend;
      forall k | 0 <= k < |q| && q[k].slot == i ensures q[k].src == M.MSG_HARDWARE {
        assert R.SendOk(q[k]);
      }
    }

    /** In a valid kernel the hardware may send, and the current process may call
        once its request is in its registers. */
    lemma HardwareIsReady()
      requires Valid()
      ensures Ready(M.MSG_HARDWARE)
    {
      K.CurrentIsAwake(Abs());
    }

    lemma CallerIsReady(p: int, r: M.Regs)
      requires Valid() && p == sched.Abs().cur != 0
      ensures 1 <= p < NR_PROCS && |Contents(nodes.saved)| == NR_PROCS
      ensures nodes.Wired() && sched.Valid() && nodes.Loose(nodes.stack[p])
      ensures K.ProcsOk(sched.Abs()) && S.IsRunning(sched.Abs(), sched.Abs().cur)
      ensures R.Ready(nodes.Abs(), Contents(nodes.saved)[p := r], K.Asleep(sched.Abs()), p)
    {
      K.CurrentIsAwake(Abs());
      nodes.AwakeIsLoose(p, K.Asleep(sched.Abs()));
      R.RegsOfAwake(nodes.Abs(), Contents(nodes.saved), p, r, K.Asleep(sched.Abs()));
    }

    /** int 0x80 saves the caller's registers; b is what the books will say. */
    method SaveRegs(p: int, ebx: int, ecx: int, ghost b: MailOrder.Books)
      requires Valid() && p == sched.Abs().cur != 0
      modifies nodes.saved`ebx, nodes.saved`ecx, `books
      ensures books == b
      ensures Ready(p) && 1 <= p < NR_PROCS
      ensures nodes.Abs() == old(nodes.Abs()) && sched.Abs() == old(sched.Abs())
      ensures |old(Contents(nodes.saved))| == NR_PROCS
      ensures Contents(nodes.saved) == old(Contents(nodes.saved))[p := M.Regs(ebx, ecx)]
    {
      hide Valid, nodes.Wired, nodes.Linked, nodes.Typed, nodes.PoolOk, nodes.Abs, MessageQueues.Contents, nodes.Loose;
      hide R.Ready, K.ProcsOk, K.Asleep, S.Inv;
      CallerIsReady(p, M.Regs(ebx, ecx));
      nodes.WriteRegs(p, ebx, ecx);
      books := b;
      assert sched.Shape() == true && sched.Abs() == old(sched.Abs());
    }

    /** The result of a call by the current process. */
    ghost function Outcome(act: K.Act): M.Outcome
      reads `books, nodes.queues, nodes.All(), nodes.saved, mem.memMap, mem.phys
      reads sched, sched.Lists(), sched.task.q, sched.server.q, sched.user.q, sched.Blocks()
      requires Valid() && act.Call?
    {
      K.Serve(Abs().q, Abs().regs, Abs().sched.cur, act).out
    }

    lemma WiredIsWellFormed()
      requires nodes.Wired()
      ensures |nodes.queues| == 4 && nodes.Within()
    {
    }

    lemma ValidIsWellFormed()
      requires Valid()
      ensures |nodes.queues| == 4 && nodes.Within() && |Contents(nodes.saved)| == NR_PROCS
      ensures 0 <= sched.Abs().cur < NR_PROCS && sched.Abs().cur == sched.current.pid
      ensures Paging.Inv(mem.Abs(), mem.base)
    {
    }

    /** do_intr_msg: a step of the kernel, which shares the page of a big message. */
    method DoIntrMsg(fn: int, ebx: int, ecx: int, key: int) returns (res: int)
      requires Valid() && Abs().sched.cur != 0
      requires var out := Outcome(K.Call(fn, ebx, ecx, key));
               out.Met? && out.copy.Copy? ==> Shareable(out.copy.from, out.copy.to)
      modifies `books, mem.memMap, mem.phys
      modifies nodes.queues`head, nodes.queues`tail, nodes.queues`q, nodes.saved
      modifies nodes.All()`next, nodes.All()`src, nodes.All()`dest, nodes.All()`msg, nodes.All()`regs, nodes.All()`where
      modifies sched`current, sched.Lists()`head, sched.Lists()`tail, sched.Lists()`q
      modifies sched.Blocks()`state, sched.Blocks()`nextReady, sched.Blocks()`counter
      ensures Valid() && Abs() == K.Do(old(Abs()), K.Call(fn, ebx, ecx, key))
      ensures res == if old(K.Refused(Abs().q, Abs().sched.cur, fn, ebx, key)) then -1 else 1
      ensures res == 1 ==> TimeSlices.GaveWay(old(Abs()).sched, Abs().sched)
      ensures Paged(old(mem.Abs()), old(Outcome(K.Call(fn, ebx, ecx, key))))
    {
      hide nodes.Wired, nodes.Linked, nodes.Typed, nodes.PoolOk, nodes.Layout, nodes.Abs, MessageQueues.Contents;
      hide sched.Valid, S.Inv, K.Inv, K.Do, K.Serve, K.BooksAfter, K.Reschedule, K.StatesAfter, Ready;
      hide K.Refused, TimeSlices.GaveWay;
      hide mem.Valid, Shareable, MemoryRuns.Step, Faults.CanShare;
      hide sched.Abs, sched.Shape, Paged, nodes.Within, nodes.Loose, nodes.Home, Paging.Inv;
      ValidIsWellFormed();
      ghost var m := mem.Abs();
      ghost var w, act := Abs(), K.Call(fn, ebx, ecx, key);
      var p := sched.current.pid;
      ghost var r := K.Serve(w.q, w.regs, p, act);
      K.DoOfCall(w, act);
      K.CallRefusedExactly(w, act);
      if !r.out.Rejected? {
        TimeSlices.AcceptedCallGivesWay(w, act);
      }
      K.DoKeepsInv(w, act);
      K.ServeReloads(w.q, w.regs, p, act);
      SaveRegs(p, ebx, ecx, K.BooksAfter(w.books, p, act, r));
      assert mem.Abs() == m;
      res := Serve(fn, p, ecx, key, r);
      PagedKeepsMemory(m, r.out);
      WiredIsWellFormed();
      assert Abs() == K.Do(w, act);
    }

    /** small_send by an interrupt handler. */
    method HardwareSend(dest: int, msg: int) returns (res: int)
      requires Valid()
      modifies `books
      modifies nodes.queues`head, nodes.queues`tail, nodes.queues`q, nodes.saved
      modifies nodes.All()`next, nodes.All()`src, nodes.All()`dest, nodes.All()`msg, nodes.All()`regs, nodes.All()`where
      modifies sched`current, sched.Lists()`head, sched.Lists()`tail, sched.Lists()`q
      modifies sched.Blocks()`state, sched.Blocks()`nextReady, sched.Blocks()`counter
      ensures Valid() && Abs() == K.Do(old(Abs()), K.Hardware(dest, msg))
      ensures res == if old(K.HardwareRefused(Abs().q, dest)) then -1 else 1
      ensures res == 1 ==> TimeSlices.GaveWay(old(Abs()).sched, Abs().sched)
    {
      hide nodes.Wired, nodes.Linked, nodes.Typed, nodes.PoolOk, nodes.Layout, nodes.Abs, MessageQueues.Contents;
      hide sched.Valid, S.Inv, K.Inv, K.Do, K.Reschedule, K.StatesAfter, Ready, M.SmallSend;
      hide K.HardwareRefused, TimeSlices.GaveWay;
      hide sched.Abs, sched.Shape, nodes.Within, nodes.Loose, nodes.Home, MailOrder.AfterSend;
      ValidIsWellFormed();
      HardwareIsReady();
      ghost var w, act := Abs(), K.Hardware(dest, msg);
      ghost var r := M.SmallSend(w.q, w.regs, M.MSG_HARDWARE, dest, msg);
      K.DoOfHardware(w, dest, msg);
      K.HardwareRefusedExactly(w, dest, msg);
      TimeSlices.AcceptedHardwareMessageGivesWay(w, dest, msg);
      K.DoKeepsInv(w, act);
      books := w.books.(small := MailOrder.AfterSend(w.books.small, M.MSG_HARDWARE, dest, msg, r));
      ghost var m := mem.Abs();
      res := SmallSend(M.MSG_HARDWARE, dest, msg);
      assert mem.Abs() == m;
      WiredIsWellFormed();
      assert Abs() == K.Do(w, act);
    }

    /** do_intr_clock. */
    method DoIntrClock(cpl: int)
      requires Valid()
      modifies sched`current, sched`jiffies, sched.Lists()`head, sched.Lists()`tail, sched.Lists()`q
      modifies sched.Blocks()`state, sched.Blocks()`nextReady, sched.Blocks()`counter, sched.Blocks()`utime,
          sched.Blocks()`stime
      ensures Valid() && Abs() == K.Do(old(Abs()), K.Clock(cpl))
      ensures TimeSlices.Ticked(old(Abs()).sched, cpl, Abs().sched)
    {
      hide MessageQueues.Sends, MessageQueues.Recvs, MessageQueues.Contents;
      hide sched.Valid, sched.Shape, sched.Holds, sched.Belongs, sched.Abs, sched.Slots, S.Inv, K.Inv, S.Tick;
      hide TimeSlices.Ticked;
      ghost var w := Abs();
      K.DoKeepsInv(w, K.Clock(cpl));
      TimeSlices.ClockTicksExactly(w, cpl);
      ghost var m := mem.Abs();
      sched.DoIntrClock(cpl);
      assert mem.Abs() == m;
      assert nodes.Wired() == true;
      assert nodes.Abs() == w.q;
      assert Abs() == K.Do(w, K.Clock(cpl));
    }

    /** do_intr_page: processes, messages and registers stay as they are. */
    method DoIntrPage(addr: int, errorCode: int)
      requires Valid() && 0 <= addr < 0x1_0000_0000 && errorCode >= 0
      requires errorCode % 2 == (if Paging.Mapped(mem.Abs(), addr / 4096) then 1 else 0)
      requires errorCode % 2 == 1 ==> Paging.IsUser(addr / 4096) && Faults.WpPageEnds(mem.Abs(), addr / 4096)
      requires errorCode % 2 == 0 ==> Faults.NoPageEnds(mem.Abs(), addr / 4096)
      modifies mem.memMap, mem.phys
      ensures Valid() && Abs() == old(Abs())
      ensures var op := if errorCode % 2 == 0 then MemoryRuns.NoPage(addr / 4096)
                else MemoryRuns.WriteProtect(addr / 4096);
              MemoryRuns.Step(old(mem.Abs()), mem.base, op, mem.Abs())
    {
      hide mem.Abs, Paging.Mapped, Paging.Inv, Faults.NoPageEnds, Faults.WpPageEnds, MemoryRuns.Step, K.Inv;
      hide MessageQueues.Sends, MessageQueues.Recvs, MessageQueues.Contents, sched.Slots;
      ghost var w := Abs();
      mem.DoIntrPage(addr, errorCode);
      assert nodes.Wired() == true && sched.Shape() == true && sched.Abs() == w.sched;
      assert Abs() == w;
    }
  }
}
