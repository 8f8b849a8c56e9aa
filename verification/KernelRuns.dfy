/**
  Properties of whole runs of the kernel: no rendezvous is missed, who closes a
  cycle of waiting processes, and in what order mail arrives.
 */
module KernelRuns {
  import opened Limits
  import S = Scheduling
  import R = Rendezvous
  import opened Messaging
  import opened MailOrder
  import opened Kernel

  // --------------------------------------------------- no missed rendezvous

  /** No queued sender and queued receiver of any reachable state match. */
  lemma NoMissedRendezvous(ws: seq<World>, acts: seq<Act>, k: nat)
    requires Run(ws, acts) && Boot(ws[0]) && k <= |acts|
    ensures R.NoMissed(ws[k].q.smallSend, ws[k].q.smallRecv)
    ensures R.NoMissed(ws[k].q.bigSend, ws[k].q.bigRecv)
  {
    BootInv(ws[0]);
    RunKeepsInv(ws, acts, k);
  }

  // --------------------------------------------------------- mutual waiting

  /** The step is a big_send that blocks p on x while x is blocked on p, with
      something else than the pid compared. */
  ghost predicate ClosedByBigSend(w: World, act: Act, p: int, x: int) {
    && act.Call? && act.fn == 3 && w.sched.cur == p && act.ebx == x && act.key != x
    && R.BlockedOn(w.q, x, p)
  }

  lemma CallClosesCycle(w: World, act: Act, p: int, x: int)
    requires Inv(w) && Enabled(w, act) && act.Call?
    requires !R.Deadlocked(w.q, p, x) && R.Deadlocked(Do(w, act).q, p, x)
    ensures ClosedByBigSend(w, act, p, x) || ClosedByBigSend(w, act, x, p)
  {
    var c := w.sched.cur;
    CurrentIsAwake(w);
    var regs := w.regs[c := Regs(act.ebx, act.ecx)];
    R.RegsOfAwake(w.q, w.regs, c, Regs(act.ebx, act.ecx), Asleep(w.sched));
    if act.ebx != c {
      if act.fn == 1 {
        R.SmallSendClosesNoCycle(w.q, regs, c, act.ebx, act.ecx);
      } else if act.fn == 2 {
        R.SmallReceiveClosesNoCycle(w.q, regs, c);
      } else if act.fn == 3 {
        BigSendCallClosesCycle(w.q, regs, c, act, p, x);
      } else if act.fn == 4 {
        R.BigReceiveClosesNoCycle(w.q, regs, c, BufferPage(act.ecx, c));
      }
    }
  }

  lemma BigSendCallClosesCycle(q: Queues, regs: seq<Regs>, c: int, act: Act, p: int, x: int)
    requires R.Inv(q, regs) && 1 <= c < NR_PROCS && act.Call? && act.ebx != c
    requires !R.Deadlocked(q, p, x)
    requires R.Deadlocked(BigSend(q, regs, c, act.ebx, act.key, BufferPage(act.ecx, c)).q, p, x)
    ensures act.key != act.ebx
    ensures (c == p && act.ebx == x && R.BlockedOn(q, x, p)) || (c == x && act.ebx == p && R.BlockedOn(q, p, x))
  {
    var entry := BufferPage(act.ecx, c);
    if act.key == act.ebx {
      R.BigSendByPidClosesNoCycle(q, regs, c, act.ebx, entry);
    }
    R.BigSendBlocks(q, regs, c, act.ebx, act.key, entry);
    var r := BigSend(q, regs, c, act.ebx, act.key, entry);
    assert R.BlockedOn(r.q, p, x) && R.BlockedOn(r.q, x, p);
  }

  lemma DoClosesCycle(w: World, act: Act, p: int, x: int)
    requires Inv(w) && Enabled(w, act)
    requires !R.Deadlocked(w.q, p, x) && R.Deadlocked(Do(w, act).q, p, x)
    ensures ClosedByBigSend(w, act, p, x) || ClosedByBigSend(w, act, x, p)
  {
    match act
    case Call(_, _, _, _) => CallClosesCycle(w, act, p, x);
    case Hardware(dest, msg) => R.SmallSendClosesNoCycle(w.q, w.regs, MSG_HARDWARE, dest, msg);
    case Clock(_) =>
  }

  /** Two processes blocked on each other after some run: the cycle was closed by
      a big_send of one of them. */
  lemma {:induction false} CycleWasClosedByBigSend(ws: seq<World>, acts: seq<Act>, n: nat, p: int, x: int)
      returns (k: nat)
    requires Run(ws, acts) && Inv(ws[0]) && !R.Deadlocked(ws[0].q, p, x)
    requires n <= |acts| && R.Deadlocked(ws[n].q, p, x)
    ensures k < n && Inv(ws[k]) && !R.Deadlocked(ws[k].q, p, x) && R.Deadlocked(ws[k + 1].q, p, x)
    ensures ClosedByBigSend(ws[k], acts[k], p, x) || ClosedByBigSend(ws[k], acts[k], x, p)
  {
    k := LastStepBefore(ws, acts, n, p, x);
    RunKeepsInv(ws, acts, k);
    assert StepAt(ws, acts, k);
    DoClosesCycle(ws[k], acts[k], p, x);
  }

  /** The step of a run that closes a cycle. */
  lemma {:induction false} LastStepBefore(ws: seq<World>, acts: seq<Act>, n: nat, p: int, x: int) returns (k: nat)
    requires |ws| == |acts| + 1 && n <= |acts|
    requires !R.Deadlocked(ws[0].q, p, x) && R.Deadlocked(ws[n].q, p, x)
    ensures k < n && !R.Deadlocked(ws[k].q, p, x) && R.Deadlocked(ws[k + 1].q, p, x)
  {
    if R.Deadlocked(ws[n - 1].q, p, x) {
      k := LastStepBefore(ws, acts, n - 1, p, x);
    } else {
      k := n - 1;
    }
  }

  lemma BootHasNoCycle(w: World, p: int, x: int)
    requires Boot(w)
    ensures Inv(w) && !R.Deadlocked(w.q, p, x)
  {
    BootInv(w);
  }

  /** Had big_send compared the pid, no two processes would ever wait for each
      other. */
  lemma NoCycleByPid(ws: seq<World>, acts: seq<Act>, n: nat, p: int, x: int)
    requires Run(ws, acts) && Boot(ws[0]) && n <= |acts|
    requires forall k :: 0 <= k < |acts| && acts[k].Call? ==> acts[k].key == acts[k].ebx
    ensures !R.Deadlocked(ws[n].q, p, x)
  {
    BootHasNoCycle(ws[0], p, x);
    if R.Deadlocked(ws[n].q, p, x) {
      var k := CycleWasClosedByBigSend(ws, acts, n, p, x);
    }
  }

  // ------------------------------------------------------------ order of mail

  function LogOf(b: Books, big: bool): Log {
    if big then b.big else b.small
  }

  /** The call that receives: big_receive or small_receive. */
  function ReceiveCall(big: bool): int {
    if big then 4 else 2
  }

  ghost predicate BooksInOrder(q: Queues, b: Books, big: bool, pick: Pick) {
    InOrder(R.SendQ(q, big), LogOf(b, big), pick) && ReceiversKeep(R.RecvQ(q, big), pick)
  }

  lemma SmallSendKeepsBooks(q: Queues, regs: seq<Regs>, b: Books, src: int, dest: int, msg: int, big: bool, pick: Pick)
    requires R.Inv(q, regs) && BooksInOrder(q, b, big, pick)
    ensures var r := SmallSend(q, regs, src, dest, msg);
            BooksInOrder(r.q, b.(small := AfterSend(b.small, src, dest, msg, r)), big, pick)
  {
    hide InOrder, ReceiversKeep, R.Inv, AfterSend, FindRecv, Sending, Receiving, FreeSlot;
    if !big {
      SmallSendInOrder(q, regs, b.small, src, dest, msg, pick);
    }
  }

  lemma SmallReceiveKeepsBooks(q: Queues, regs: seq<Regs>, b: Books, p: int, big: bool, pick: Pick)
    requires R.Inv(q, regs) && 1 <= p < NR_PROCS && BooksInOrder(q, b, big, pick)
    requires !big ==> Kept(pick, p, regs[p].ebx)
    ensures var r := SmallReceive(q, regs, p);
            BooksInOrder(r.q, b.(small := AfterReceive(b.small, p, r)), big, pick)
  {
    hide InOrder, ReceiversKeep, Kept, AfterReceive, FindSend, Sending, Receiving;
    if !big {
      SmallReceiveInOrder(q, regs, b.small, p, pick);
    }
  }

  lemma BigSendKeepsBooks(q: Queues, regs: seq<Regs>, b: Books, p: int, dest: int, key: int, entry: int,
                          big: bool, pick: Pick)
    requires R.Inv(q, regs) && BooksInOrder(q, b, big, pick)
    ensures var r := BigSend(q, regs, p, dest, key, entry);
            BooksInOrder(r.q, b.(big := AfterSend(b.big, p, dest, entry, r)), big, pick)
  {
    hide InOrder, ReceiversKeep, R.Inv, AfterSend, FindRecv, Sending, Receiving;
    if big {
      BigSendInOrder(q, regs, b.big, p, dest, key, entry, pick);
    }
  }

  lemma BigReceiveKeepsBooks(q: Queues, regs: seq<Regs>, b: Books, p: int, entry: int, big: bool, pick: Pick)
    requires R.Inv(q, regs) && 1 <= p < NR_PROCS && BooksInOrder(q, b, big, pick)
    requires big ==> Kept(pick, p, regs[p].ebx)
    ensures var r := BigReceive(q, regs, p, entry);
            BooksInOrder(r.q, b.(big := AfterReceive(b.big, p, r)), big, pick)
  {
    hide InOrder, ReceiversKeep, Kept, AfterReceive, FindSend, Sending, Receiving;
    if big {
      BigReceiveInOrder(q, regs, b.big, p, entry, pick);
    }
  }

  lemma ServeInOrder(q: Queues, regs: seq<Regs>, b: Books, p: int, act: Act, big: bool, pick: Pick)
    requires act.Call? && 1 <= p < NR_PROCS && R.Inv(q, regs) && R.Inv(q, regs[p := Regs(act.ebx, act.ecx)])
    requires BooksInOrder(q, b, big, pick)
    requires act.fn == ReceiveCall(big) ==> Kept(pick, p, act.ebx)
    ensures var r := Serve(q, regs, p, act); BooksInOrder(r.q, BooksAfter(b, p, act, r), big, pick)
  {
    var loaded := regs[p := Regs(act.ebx, act.ecx)];
    hide BooksInOrder, R.Inv, AfterSend, AfterReceive, Kept, BufferPage, SmallSend, SmallReceive, BigSend, BigReceive;
    if act.ebx == p {
    } else if act.fn == 1 {
      SmallSendKeepsBooks(q, loaded, b, p, act.ebx, act.ecx, big, pick);
    } else if act.fn == 2 {
      SmallReceiveKeepsBooks(q, loaded, b, p, big, pick);
    } else if act.fn == 3 {
      BigSendKeepsBooks(q, loaded, b, p, act.ebx, act.key, BufferPage(act.ecx, p), big, pick);
    } else if act.fn == 4 {
      BigReceiveKeepsBooks(q, loaded, b, p, BufferPage(act.ecx, p), big, pick);
    }
  }

  lemma DoInOrder(w: World, act: Act, big: bool, pick: Pick)
    requires Inv(w) && Enabled(w, act)
    requires BooksInOrder(w.q, w.books, big, pick)
    requires act.Call? && act.fn == ReceiveCall(big) ==> Kept(pick, w.sched.cur, act.ebx)
    ensures BooksInOrder(Do(w, act).q, Do(w, act).books, big, pick)
  {
    hide BooksInOrder, Serve, SmallSend, BooksAfter, AfterSend;
    CurrentIsAwake(w);
    match act
    case Call(_, _, _, _) =>
      var p := w.sched.cur;
      R.RegsOfAwake(w.q, w.regs, p, Regs(act.ebx, act.ecx), Asleep(w.sched));
      ServeInOrder(w.q, w.regs, w.books, p, act, big, pick);
      DoOfCall(w, act);
    case Hardware(dest, msg) =>
      SmallSendKeepsBooks(w.q, w.regs, w.books, MSG_HARDWARE, dest, msg, big, pick);
      DoOfHardware(w, dest, msg);
    case Clock(_) =>
  }

  /** Every receive of the run keeps the selection. */
  ghost predicate RunKeepsPick(ws: seq<World>, acts: seq<Act>, big: bool, pick: Pick)
    requires |ws| == |acts| + 1
  {
    forall k :: 0 <= k < |acts| && acts[k].Call? && acts[k].fn == ReceiveCall(big) ==>
      Kept(pick, ws[k].sched.cur, acts[k].ebx)
  }

  lemma BootInOrder(w: World, big: bool, pick: Pick)
    requires Boot(w)
    ensures Inv(w) && BooksInOrder(w.q, w.books, big, pick)
  {
    BootInv(w);
  }

  lemma {:induction false} RunInOrder(ws: seq<World>, acts: seq<Act>, k: nat, big: bool, pick: Pick)
    requires Run(ws, acts) && Boot(ws[0]) && k <= |acts| && RunKeepsPick(ws, acts, big, pick)
    ensures BooksInOrder(ws[k].q, ws[k].books, big, pick)
  {
    BootInOrder(ws[0], big, pick);
    hide BooksInOrder, Inv, Boot, Step;
    if k > 0 {
      RunInOrder(ws, acts, k - 1, big, pick);
      RunKeepsInv(ws, acts, k - 1);
      assert StepAt(ws, acts, k - 1);
      DoInOrder(ws[k - 1], acts[k - 1], big, pick);
    }
  }

  /** First in, first out between any two parties, the hardware included. */
  lemma MailIsFifo(ws: seq<World>, acts: seq<Act>, k: nat, src: int, dest: int)
    requires Run(ws, acts) && Boot(ws[0]) && k <= |acts|
    ensures var l, pick := ws[k].books.small, Between(src, dest);
            && Only(l.got, pick) <= Only(l.sent, pick)
            && Only(l.sent, pick) == Only(l.got, pick) + Only(Pending(ws[k].q.smallSend), pick)
  {
    RunInOrder(ws, acts, k, false, Between(src, dest));
    ReceivedIsPrefix(ws[k].q.smallSend, ws[k].books.small, Between(src, dest));
  }

  /** The same for the pages of big messages. */
  lemma BigMailIsFifo(ws: seq<World>, acts: seq<Act>, k: nat, src: int, dest: int)
    requires Run(ws, acts) && Boot(ws[0]) && k <= |acts|
    ensures var l, pick := ws[k].books.big, Between(src, dest);
            && Only(l.got, pick) <= Only(l.sent, pick)
            && Only(l.sent, pick) == Only(l.got, pick) + Only(Pending(ws[k].q.bigSend), pick)
  {
    RunInOrder(ws, acts, k, true, Between(src, dest));
    ReceivedIsPrefix(ws[k].q.bigSend, ws[k].books.big, Between(src, dest));
  }

  /** dest always asks for anybody. */
  ghost predicate AsksAnybody(ws: seq<World>, acts: seq<Act>, big: bool, dest: int)
    requires |ws| == |acts| + 1
  {
    forall i :: 0 <= i < |acts| && acts[i].Call? && acts[i].fn == ReceiveCall(big) && ws[i].sched.cur == dest ==>
      acts[i].ebx == MSG_ANY
  }

  /** ... and across all senders to a destination that always asks for anybody. */
  lemma MailToAnybodyIsFifo(ws: seq<World>, acts: seq<Act>, k: nat, dest: int)
    requires Run(ws, acts) && Boot(ws[0]) && k <= |acts| && AsksAnybody(ws, acts, false, dest)
    ensures var l, pick := ws[k].books.small, To(dest);
            && Only(l.got, pick) <= Only(l.sent, pick)
            && Only(l.sent, pick) == Only(l.got, pick) + Only(Pending(ws[k].q.smallSend), pick)
  {
    RunInOrder(ws, acts, k, false, To(dest));
    ReceivedIsPrefix(ws[k].q.smallSend, ws[k].books.small, To(dest));
  }

  lemma BigMailToAnybodyIsFifo(ws: seq<World>, acts: seq<Act>, k: nat, dest: int)
    requires Run(ws, acts) && Boot(ws[0]) && k <= |acts| && AsksAnybody(ws, acts, true, dest)
    ensures var l, pick := ws[k].books.big, To(dest);
            && Only(l.got, pick) <= Only(l.sent, pick)
            && Only(l.sent, pick) == Only(l.got, pick) + Only(Pending(ws[k].q.bigSend), pick)
  {
    RunInOrder(ws, acts, k, true, To(dest));
    ReceivedIsPrefix(ws[k].q.bigSend, ws[k].books.big, To(dest));
  }

  /** Received mail is what the receiver finds in its registers: the sender
      where it named or left open the partner, and the value. */
  lemma MailIsInRegisters(q: Queues, regs: seq<Regs>, src: int, dest: int, msg: int)
    requires R.Inv(q, regs)
    ensures var r := SmallSend(q, regs, src, dest, msg);
            r.out.Met? ==> IsPid(dest) && r.out.peer == dest && r.regs == regs[dest := Regs(src, msg)]
    ensures 1 <= dest < NR_PROCS ==>
              var r := SmallReceive(q, regs, dest); var k := FindSend(q.smallSend, regs[dest].ebx, dest);
              r.out.Met? ==> k < |q.smallSend| && r.out.peer == q.smallSend[k].src
                             && r.regs == regs[dest := Regs(q.smallSend[k].src, q.smallSend[k].msg)]
  {
    if SmallSend(q, regs, src, dest, msg).out.Met? {
      assert R.RecvOk(q.smallRecv[FindRecv(q.smallRecv, src, dest)], regs);
    }
  }

  // ------------------------------------------------------------ failing calls

  /** A call that fails leaves the queues and every process as they were, and of
      the saved registers changes only what its own request put there. */
  lemma FailedCallChangesNothing(w: World, act: Act)
    requires Inv(w) && Enabled(w, act) && act.Call? && Serve(w.q, w.regs, w.sched.cur, act).out.Rejected?
    ensures var w' := Do(w, act);
            w'.sched == w.sched && w'.q == w.q && w'.regs == w.regs[w.sched.cur := Regs(act.ebx, act.ecx)]
                && w'.books == w.books
  {
    DoOfCall(w, act);
    RejectedCall(w.q, w.regs, w.books, w.sched.cur, act);
    hide Serve, BooksAfter, Do, R.Inv, R.OwnersAre, S.Inv;
  }

  lemma RejectedCall(q: Queues, regs: seq<Regs>, b: Books, p: int, act: Act)
    requires act.Call? && |regs| == NR_PROCS && IsPid(p) && Serve(q, regs, p, act).out.Rejected?
    ensures var r := Serve(q, regs, p, act);
            |r.regs| == NR_PROCS && r.q == q && r.regs == regs[p := Regs(act.ebx, act.ecx)]
                && BooksAfter(b, p, act, r) == b
  {
    hide FindRecv, FindSend, FreeSlot, Sending, Receiving;
  }

  lemma FailedHardwareMessageChangesNothing(w: World, dest: int, msg: int)
    requires Inv(w) && SmallSend(w.q, w.regs, MSG_HARDWARE, dest, msg).out.Rejected?
    ensures Do(w, Hardware(dest, msg)) == w
    ensures !IsPid(dest) || forall i :: 0 <= i < NR_MSG_HARDWARE ==> SlotUsed(w.q.smallSend, i)
  {
    DoOfHardware(w, dest, msg);
    R.SmallSendRejectsExactly(w.q, w.regs, MSG_HARDWARE, dest, msg);
  }

  // ------------------------------------------- a cycle that big_send closes

  /** The only other running process is scheduled next. */
  lemma OnlyOneRuns(s: S.Sched, p: int)
    requires ProcsOk(s) && 1 <= p < NR_PROCS && S.IsRunning(s, p)
    requires forall x :: 1 <= x < NR_PROCS && S.IsRunning(s, x) ==> x == p
    ensures S.Schedule(s).cur == p
  {
    S.StrictPriority(s);
    S.ScheduleKeepsInv(s);
    var r := S.Schedule(s);
    assert S.IsRunning(r, p);
    assert S.IsRunning(s, r.cur);
  }

  /** big_send to a process that is not waiting blocks its caller, whatever that
      process is doing. */
  lemma BigSendCallBlocks(w: World, c: int, x: int)
    requires Inv(w) && w.sched.cur == c != 0 && IsPid(x) && x != c && |w.q.bigRecv| == 0
    ensures var r := Serve(w.q, w.regs, c, Call(3, x, 0, NR_PROCS));
            r.out.Queued? && R.BlockedOn(r.q, c, x) && |r.q.bigRecv| == 0
                && (R.BlockedOn(w.q, x, c) ==> R.BlockedOn(r.q, x, c))
  {
    CurrentIsAwake(w);
    var regs := w.regs[c := Regs(x, 0)];
    R.RegsOfAwake(w.q, w.regs, c, Regs(x, 0), Asleep(w.sched));
    R.BigSendRejectsExactly(w.q, regs, c, x, NR_PROCS, BufferPage(0, c));
    R.BigSendBlocks(w.q, regs, c, x, NR_PROCS, BufferPage(0, c));
    assert FindRecv(w.q.bigRecv, c, x) == 0;
  }

  /** From boot with two processes beside idle, a tick and one big_send of each to
      the other leave both blocked for good. */
  lemma BigSendsDeadlock(w0: World) returns (ws: seq<World>, acts: seq<Act>)
    requires Boot(w0)
    requires forall p :: 1 <= p < NR_PROCS ==> (w0.sched.procs[p].Proc? <==> p <= 2)
    requires w0.sched.procs[0].counter <= 1
    ensures |acts| == 3 && Run(ws, acts) && ws[0] == w0
    ensures R.Deadlocked(ws[3].q, 1, 2)
  {
    BootInv(w0);
    var w1 := Do(w0, Clock(3));
    var c, x := FirstProcess(w0);
    var a1, a2 := Call(3, x, 0, NR_PROCS), Call(3, c, 0, NR_PROCS);
    SleeperYields(w1, c, x);
    var w2 := Do(w1, a1);
    BigSendCallBlocks(w2, x, c);
    var w3 := Do(w2, a2);
    ThreeSteps(w0, Clock(3), w1, a1, w2, a2, w3);
    ws, acts := [w0, w1, w2, w3], [Clock(3), a1, a2];
  }

  lemma ThreeSteps(w0: World, a0: Act, w1: World, a1: Act, w2: World, a2: Act, w3: World)
    requires Step(w0, a0, w1) && Step(w1, a1, w2) && Step(w2, a2, w3)
    ensures Run([w0, w1, w2, w3], [a0, a1, a2])
  {
    var ws, acts := [w0, w1, w2, w3], [a0, a1, a2];
    assert StepAt(ws, acts, 0) && StepAt(ws, acts, 1) && StepAt(ws, acts, 2);
  }

  lemma FirstProcess(w0: World) returns (c: int, x: int)
    requires Boot(w0) && Inv(w0)
    requires forall p :: 1 <= p < NR_PROCS ==> (w0.sched.procs[p].Proc? <==> p <= 2)
    requires w0.sched.procs[0].counter <= 1
    ensures (c == 1 && x == 2) || (c == 2 && x == 1)
    ensures var w := Do(w0, Clock(3));
            && Inv(w) && w.sched.cur == c && w.q == w0.q && S.IsRunning(w.sched, x)
            && forall p :: 1 <= p < NR_PROCS && S.IsRunning(w.sched, p) ==> p == c || p == x
  {
    DoKeepsInv(w0, Clock(3));
    FirstTick(w0.sched);
    c := Do(w0, Clock(3)).sched.cur;
    assert S.IsRunning(w0.sched, c);
    x := 3 - c;
    assert S.IsRunning(w0.sched, x);
  }

  /** The first tick in user mode leaves idle for a process that runs. */
  lemma FirstTick(s: S.Sched)
    requires ProcsOk(s) && S.IsRunning(s, s.cur) && s.procs[s.cur].counter <= 1 && S.IsRunning(s, 1)
    ensures var r := S.Tick(s, 3);
              S.Inv(r) && r.cur != 0 && S.IsRunning(r, r.cur) && forall p :: S.IsRunning(r, p) <==> S.IsRunning(s, p)
  {
    var c := S.Charge(s, 3);
    S.ChargeKeepsInv(s, 3);
    S.StrictPriority(c);
    S.ScheduleKeepsInv(c);
    assert forall p :: S.IsRunning(c, p) <==> S.IsRunning(s, p);
    assert S.IsRunning(S.Schedule(c), 1);
  }

  /** A big_send call that blocks its caller leaves the only other running process
      current. */
  lemma SleeperYields(w: World, c: int, x: int)
    requires Inv(w) && w.sched.cur == c && 1 <= c < NR_PROCS && 1 <= x < NR_PROCS && x != c && |w.q.bigRecv| == 0
    requires S.IsRunning(w.sched, x)
    requires forall p :: 1 <= p < NR_PROCS && S.IsRunning(w.sched, p) ==> p == c || p == x
    ensures var r := Do(w, Call(3, x, 0, NR_PROCS));
            Inv(r) && r.sched.cur == x && |r.q.bigRecv| == 0 && R.BlockedOn(r.q, c, x)
  {
    CurrentIsAwake(w);
    DoKeepsInv(w, Call(3, x, 0, NR_PROCS));
    BigSendCallBlocks(w, c, x);
    StatesAfterKeepInv(w.sched, c, Queued);
    var s := StatesAfter(w.sched, c, Queued);
    assert forall p :: S.IsRunning(s, p) <==> S.IsRunning(w.sched, p) && p != c;
    OnlyOneRuns(s, x);
  }
}
