/**
  Message calls, hardware messages and clock ticks together: one step is one
  whole kernel entry, because a tick in kernel mode never switches processes.
 */
module Kernel {
  import opened Limits
  import S = Scheduling
  import R = Rendezvous
  import opened Messaging
  import opened MailOrder

  datatype World = World(sched: S.Sched, q: Queues, regs: seq<Regs>, books: Books)

  datatype Act =
    | Call(fn: int, ebx: int, ecx: int, key: int)  // int 0x80 by the current process
    | Hardware(dest: int, msg: int)                      // small_send by an interrupt handler
    | Clock(cpl: int)                                    // the timer interrupt

  predicate IsAsleep(s: S.Sched, p: int) {
    0 <= p < |s.procs| && s.procs[p].Proc? && s.procs[p].state.Sleeping?
  }

  ghost function Asleep(s: S.Sched): set<int> {
    set p | 0 <= p < |s.procs| && IsAsleep(s, p)
  }

  /** The state of processes after a call, before schedule. */
  function StatesAfter(s: S.Sched, caller: int, out: Outcome): S.Sched {
    match out
    case Rejected => s
    case Queued => if 0 <= caller < |s.procs| && s.procs[caller].Proc? then S.SetState(s, caller, S.Sleeping) else s
    case Met(peer, _) => if 0 <= peer < |s.procs| && s.procs[peer].Proc? then S.SetState(s, peer, S.Running) else s
  }

  // ---------------------------------------------------------------- invariant

  ghost predicate ProcsOk(s: S.Sched) {
    && S.Inv(s)
    && (forall p :: 0 <= p < NR_PROCS && s.procs[p].Proc? ==> s.procs[p].state.Running? || s.procs[p].state.Sleeping?)
  }

  /** Before the first call of schedule: idle is current, the lists are empty. */
  ghost predicate Fresh(s: S.Sched)
    requires S.TableOk(s)
  {
    s.cur == 0 && forall k :: 1 <= k <= 3 ==> S.List(s, k) == []
  }

  /** After a call of schedule: at most one process is outside the lists, and
      no running process is of a smaller class than the current one. */
  ghost predicate Settled(s: S.Sched)
    requires S.TableOk(s)
  {
    && (forall p, x :: S.Missing(s, p) && S.Missing(s, x) ==> p == x)
    && (s.cur != 0 ==> forall p :: 1 <= p < NR_PROCS && S.IsRunning(s, p) ==> S.Kind(s, s.cur) <= S.Kind(s, p))
    && (s.cur == 0 ==> forall p :: 1 <= p < NR_PROCS ==> !S.IsRunning(s, p))
  }

  ghost predicate Inv(w: World) {
    && ProcsOk(w.sched) && S.IsRunning(w.sched, w.sched.cur)
    && (Fresh(w.sched) || Settled(w.sched))
    && R.Inv(w.q, w.regs) && R.OwnersAre(w.q, Asleep(w.sched))
  }

  // -------------------------------------------------------------------- steps

  /** Pid 0 makes no message calls. */
  predicate Enabled(w: World, act: Act) {
    act.Call? ==> w.sched.cur != 0
  }

  /** do_intr_msg, up to schedule. */
  function Serve(q: Queues, regs: seq<Regs>, p: int, act: Act): Result
    requires act.Call? && |regs| == NR_PROCS && IsPid(p)
  {
    var r := regs[p := Regs(act.ebx, act.ecx)];
    if act.ebx == p then Result(q, r, Rejected)
    else if act.fn == 1 then SmallSend(q, r, p, act.ebx, act.ecx)
    else if act.fn == 2 then SmallReceive(q, r, p)
    else if act.fn == 3 then BigSend(q, r, p, act.ebx, act.key, BufferPage(act.ecx, p))
    else if act.fn == 4 then BigReceive(q, r, p, BufferPage(act.ecx, p))
    else Result(q, r, Rejected)
  }

  function BooksAfter(b: Books, p: int, act: Act, r: Result): Books
    requires act.Call?
  {
    if act.ebx == p then b
    else if act.fn == 1 then b.(small := AfterSend(b.small, p, act.ebx, act.ecx, r))
    else if act.fn == 2 then b.(small := AfterReceive(b.small, p, r))
    else if act.fn == 3 then b.(big := AfterSend(b.big, p, act.ebx, BufferPage(act.ecx, p), r))
    else if act.fn == 4 then b.(big := AfterReceive(b.big, p, r))
    else b
  }

  ghost function Reschedule(s: S.Sched, caller: int, out: Outcome): S.Sched
    requires S.Inv(StatesAfter(s, caller, out))
  {
    if out.Rejected? then s else S.Schedule(StatesAfter(s, caller, out))
  }

  // --------------------------------------------------------- what steps keep

  lemma StatesAfterKeepInv(s: S.Sched, caller: int, out: Outcome)
    requires ProcsOk(s) && S.IsRunning(s, s.cur)
    requires caller == MSG_HARDWARE || (caller == s.cur && caller != 0)
    requires out.Met? ==> out.peer == MSG_HARDWARE || (out.peer in Asleep(s) && out.peer != 0)
    ensures ProcsOk(StatesAfter(s, caller, out))
    ensures Asleep(StatesAfter(s, caller, out)) == R.AsleepAfter(Asleep(s), caller, out)
  {
    var r := StatesAfter(s, caller, out);
    forall k | 1 <= k <= 3 ensures S.ListOk(r, k) {
      assert S.ListOk(s, k);
    }
  }

  lemma ScheduleSettles(s: S.Sched)
    requires ProcsOk(s)
    ensures var r := S.Schedule(s);
            ProcsOk(r) && S.IsRunning(r, r.cur) && Settled(r) && Asleep(r) == Asleep(s)
  {
    S.ScheduleKeepsInv(s);
    S.StrictPriority(s);
    S.AtMostOneDropped(s);
  }

  lemma RescheduleKeepsInv(s: S.Sched, q: Queues, regs: seq<Regs>, caller: int, r: Result)
    requires ProcsOk(s) && S.IsRunning(s, s.cur) && (Fresh(s) || Settled(s))
    requires caller == MSG_HARDWARE || (caller == s.cur && caller != 0)
    requires R.Kept(r, Asleep(s), caller)
    ensures ProcsOk(StatesAfter(s, caller, r.out))
    ensures forall b :: Inv(World(Reschedule(s, caller, r.out), r.q, r.regs, b))
  {
    StatesAfterKeepInv(s, caller, r.out);
    if !r.out.Rejected? {
      ScheduleSettles(StatesAfter(s, caller, r.out));
    }
  }

  /** The caller's request is loaded into its registers first. */
  lemma ServeKeeps(q: Queues, regs: seq<Regs>, asleep: set<int>, p: int, act: Act)
    requires R.Inv(q, regs) && R.OwnersAre(q, asleep) && 0 !in asleep
    requires 1 <= p < NR_PROCS && p !in asleep && act.Call?
    ensures R.Kept(Serve(q, regs, p, act), asleep, p)
  {
    var r := regs[p := Regs(act.ebx, act.ecx)];
    R.RegsOfAwake(q, regs, p, Regs(act.ebx, act.ecx), asleep);
    assert R.Ready(q, r, asleep, p);
    if act.ebx == p {
    } else if act.fn == 1 {
      R.SmallSendKeeps(q, r, asleep, p, act.ebx, act.ecx);
    } else if act.fn == 2 {
      R.SmallReceiveKeeps(q, r, asleep, p);
    } else if act.fn == 3 {
      R.BigSendKeeps(q, r, asleep, p, act.ebx, act.key, BufferPage(act.ecx, p));
    } else if act.fn == 4 {
      R.BigReceiveKeeps(q, r, asleep, p, BufferPage(act.ecx, p));
    }
  }

  lemma CurrentIsAwake(w: World)
    requires Inv(w)
    ensures w.sched.cur !in Asleep(w.sched) && 0 !in Asleep(w.sched)
  {
  }

  ghost function Do(w: World, act: Act): World
    requires Inv(w) && Enabled(w, act)
  {
    CurrentIsAwake(w);
    match act
    case Call(_, _, _, _) =>
      var p := w.sched.cur;
      var r := Serve(w.q, w.regs, p, act);
      ServeKeeps(w.q, w.regs, Asleep(w.sched), p, act);
      RescheduleKeepsInv(w.sched, w.q, w.regs, p, r);
      World(Reschedule(w.sched, p, r.out), r.q, r.regs, BooksAfter(w.books, p, act, r))
    case Hardware(dest, msg) =>
      var r := SmallSend(w.q, w.regs, MSG_HARDWARE, dest, msg);
      R.SmallSendKeeps(w.q, w.regs, Asleep(w.sched), MSG_HARDWARE, dest, msg);
      RescheduleKeepsInv(w.sched, w.q, w.regs, MSG_HARDWARE, r);
      World(Reschedule(w.sched, MSG_HARDWARE, r.out), r.q, r.regs,
          w.books.(small := AfterSend(w.books.small, MSG_HARDWARE, dest, msg, r)))
    case Clock(cpl) =>
      w.(sched := S.Tick(w.sched, cpl))
  }

  /** A call as a step: what the call comes to, then schedule. */
  lemma DoOfCall(w: World, act: Act)
    requires Inv(w) && act.Call? && w.sched.cur != 0
    ensures var p := w.sched.cur; var r := Serve(w.q, w.regs, p, act);
            && |r.regs| == NR_PROCS && S.Inv(StatesAfter(w.sched, p, r.out))
            && Do(w, act) == World(Reschedule(w.sched, p, r.out), r.q, r.regs, BooksAfter(w.books, p, act, r))
  {
    CurrentIsAwake(w);
    ServeKeeps(w.q, w.regs, Asleep(w.sched), w.sched.cur, act);
    RescheduleKeepsInv(w.sched, w.q, w.regs, w.sched.cur, Serve(w.q, w.regs, w.sched.cur, act));
  }

  lemma DoOfHardware(w: World, dest: int, msg: int)
    requires Inv(w)
    ensures var r := SmallSend(w.q, w.regs, MSG_HARDWARE, dest, msg);
            && S.Inv(StatesAfter(w.sched, MSG_HARDWARE, r.out))
            && Do(w, Hardware(dest, msg)) ==
                 World(Reschedule(w.sched, MSG_HARDWARE, r.out), r.q, r.regs,
                     w.books.(small := AfterSend(w.books.small, MSG_HARDWARE, dest, msg, r)))
  {
    CurrentIsAwake(w);
    R.SmallSendKeeps(w.q, w.regs, Asleep(w.sched), MSG_HARDWARE, dest, msg);
    RescheduleKeepsInv(w.sched, w.q, w.regs, MSG_HARDWARE, SmallSend(w.q, w.regs, MSG_HARDWARE, dest, msg));
  }

  /** What do_intr_msg refuses of process p: its own pid, an unknown function, an
      invalid partner; and, when nobody in the queues meets it, a partner that is
      blocked on p, as far as each call looks. */
  predicate Refused(q: Queues, p: int, fn: int, partner: int, key: int) {
    || partner == p
    || !(1 <= fn <= 4)
    || (fn == 1 && (!IsPid(partner) || (NobodyTakes(q.smallRecv, p, partner) && R.BlockedOn(q, partner, p))))
    || (fn == 2 && ((partner != MSG_ANY && partner != MSG_HARDWARE && !IsPid(partner))
                   || (NobodyOffers(q.smallSend, partner, p) && R.BlockedOn(q, partner, p))))
    || (fn == 3 && (!IsPid(partner) || (NobodyTakes(q.bigRecv, p, partner) && KeyBlockedOn(q, key, p))))
    || (fn == 4 && ((partner != MSG_ANY && !IsPid(partner))
                   || (NobodyOffers(q.bigSend, partner, p) && R.BlockedOn(q, partner, p))))
  }

  /** What big_send looks for: a node owned by key that waits for p. */
  predicate KeyBlockedOn(q: Queues, key: int, p: int) {
    Sending(q.smallSend, key, p) || Receiving(q.smallRecv, key, p) || Sending(q.bigSend, key, p)
  }

  /** ... and of the hardware: an invalid destination, and a message for which
      there is neither a receiver nor a free slot. */
  predicate HardwareRefused(q: Queues, dest: int) {
    || !IsPid(dest)
    || (NobodyTakes(q.smallRecv, MSG_HARDWARE, dest)
        && forall i :: 0 <= i < NR_MSG_HARDWARE ==> SlotUsed(q.smallSend, i))
  }

  lemma ServeRefusesExactly(q: Queues, regs: seq<Regs>, p: int, act: Act)
    requires act.Call? && 1 <= p < NR_PROCS && |regs| == NR_PROCS && R.Inv(q, regs[p := Regs(act.ebx, act.ecx)])
    ensures Serve(q, regs, p, act).out.Rejected? <==> Refused(q, p, act.fn, act.ebx, act.key)
  {
    var r := regs[p := Regs(act.ebx, act.ecx)];
    if act.ebx == p {
    } else if act.fn == 1 {
      R.SmallSendRejectsExactly(q, r, p, act.ebx, act.ecx);
    } else if act.fn == 2 {
      R.SmallReceiveRejectsExactly(q, r, p);
    } else if act.fn == 4 {
      R.BigReceiveRejectsExactly(q, r, p, BufferPage(act.ecx, p));
    }
  }

  /** A call fails exactly when it is refused. */
  lemma CallRefusedExactly(w: World, act: Act)
    requires Inv(w) && Enabled(w, act) && act.Call?
    ensures Serve(w.q, w.regs, w.sched.cur, act).out.Rejected? <==>
              Refused(w.q, w.sched.cur, act.fn, act.ebx, act.key)
  {
    hide Serve, Refused;
    CurrentIsAwake(w);
    R.RegsOfAwake(w.q, w.regs, w.sched.cur, Regs(act.ebx, act.ecx), Asleep(w.sched));
    ServeRefusesExactly(w.q, w.regs, w.sched.cur, act);
  }

  lemma HardwareRefusedExactly(w: World, dest: int, msg: int)
    requires Inv(w)
    ensures SmallSend(w.q, w.regs, MSG_HARDWARE, dest, msg).out.Rejected? <==> HardwareRefused(w.q, dest)
  {
    R.SmallSendRejectsExactly(w.q, w.regs, MSG_HARDWARE, dest, msg);
  }

  /** Loading the request into the registers beforehand changes nothing. */
  lemma ServeReloads(q: Queues, regs: seq<Regs>, p: int, act: Act)
    requires act.Call? && |regs| == NR_PROCS && IsPid(p)
    ensures Serve(q, regs[p := Regs(act.ebx, act.ecx)], p, act) == Serve(q, regs, p, act)
  {
    var r := regs[p := Regs(act.ebx, act.ecx)];
    assert r[p := Regs(act.ebx, act.ecx)] == r;
  }

  lemma ChargeKeeps(s: S.Sched, cpl: int)
    requires ProcsOk(s) && S.IsRunning(s, s.cur) && (Fresh(s) || Settled(s))
    ensures var r := S.Charge(s, cpl);
            && ProcsOk(r) && S.IsRunning(r, r.cur) && (Fresh(r) || Settled(r)) && Asleep(r) == Asleep(s)
  {
    var r := S.Charge(s, cpl);
    S.ChargeKeepsInv(s, cpl);
    assert forall p :: S.IsRunning(r, p) <==> S.IsRunning(s, p);
    assert forall k :: 1 <= k <= 3 ==> S.List(r, k) == S.List(s, k);
    if Settled(s) {
      assert forall p :: S.Missing(r, p) <==> S.Missing(s, p);
    }
  }

  lemma TickKeeps(s: S.Sched, cpl: int)
    requires ProcsOk(s) && S.IsRunning(s, s.cur) && (Fresh(s) || Settled(s))
    ensures var r := S.Tick(s, cpl);
            && ProcsOk(r) && S.IsRunning(r, r.cur) && (Fresh(r) || Settled(r)) && Asleep(r) == Asleep(s)
  {
    ChargeKeeps(s, cpl);
    ScheduleSettles(S.Charge(s, cpl));
  }

  /** Every step of the kernel keeps the invariant. */
  lemma DoKeepsInv(w: World, act: Act)
    requires Inv(w) && Enabled(w, act)
    ensures Inv(Do(w, act))
  {
    CurrentIsAwake(w);
    match act
    case Call(_, _, _, _) =>
      var p := w.sched.cur;
      ServeKeeps(w.q, w.regs, Asleep(w.sched), p, act);
      RescheduleKeepsInv(w.sched, w.q, w.regs, p, Serve(w.q, w.regs, p, act));
    case Hardware(dest, msg) =>
      R.SmallSendKeeps(w.q, w.regs, Asleep(w.sched), MSG_HARDWARE, dest, msg);
      RescheduleKeepsInv(w.sched, w.q, w.regs, MSG_HARDWARE, SmallSend(w.q, w.regs, MSG_HARDWARE, dest, msg));
    case Clock(cpl) =>
      TickKeeps(w.sched, cpl);
  }

  // --------------------------------------------------------------------- runs

  /** What proc_init and msg_init leave. */
  ghost predicate Boot(w: World) {
    && S.TableOk(w.sched) && w.sched.cur == 0 && w.sched.ready == [[], [], []]
    && (forall p :: 0 <= p < NR_PROCS && w.sched.procs[p].Proc? ==> w.sched.procs[p].state.Running?)
    && w.q == Queues([], [], [], []) && |w.regs| == NR_PROCS && w.books == NO_BOOKS
  }

  lemma BootInv(w: World)
    requires Boot(w)
    ensures Inv(w)
  {
    assert forall k :: 1 <= k <= 3 ==> S.List(w.sched, k) == [];
  }

  ghost predicate Step(w: World, act: Act, w': World) {
    Enabled(w, act) && (Inv(w) ==> w' == Do(w, act))
  }

  ghost predicate StepAt(ws: seq<World>, acts: seq<Act>, k: nat)
    requires k < |acts| && |ws| == |acts| + 1
  {
    Step(ws[k], acts[k], ws[k + 1])
  }

  /** ws are the states a run of acts goes through. */
  ghost predicate Run(ws: seq<World>, acts: seq<Act>) {
    |ws| == |acts| + 1 && forall k :: 0 <= k < |acts| ==> StepAt(ws, acts, k)
  }

  /** The invariant holds in every state of every run from the boot state. */
  lemma {:induction false} RunKeepsInv(ws: seq<World>, acts: seq<Act>, k: nat)
    requires Run(ws, acts) && Inv(ws[0]) && k <= |acts|
    ensures Inv(ws[k])
  {
    if k > 0 {
      RunKeepsInv(ws, acts, k - 1);
      assert StepAt(ws, acts, k - 1);
      DoKeepsInv(ws[k - 1], acts[k - 1]);
    }
  }

  // ------------------------------------------------------ no process is lost

  ghost predicate InItsList(s: S.Sched, p: int)
    requires S.TableOk(s)
  {
    S.Waiting(s, p) && S.Queued(s, p)
  }

  /** p owns one node in the four queues together. */
  ghost predicate Blocked(w: World, p: int) {
    R.Owners(w.q)[p] == 1
  }

  /** Exactly one of four. */
  predicate OneOf(a: bool, b: bool, c: bool, d: bool) {
    (a && !b && !c && !d) || (!a && b && !c && !d) || (!a && !b && c && !d) || (!a && !b && !c && d)
  }

  /** A process other than idle is exactly one of: current, in the ready list of
      its class, blocked as the owner of one node, or left out until the next
      scan; it is blocked iff it sleeps, and in no other list. */
  ghost predicate Accounted(w: World, p: int)
    requires S.TableOk(w.sched)
  {
    && OneOf(p == w.sched.cur, InItsList(w.sched, p), Blocked(w, p), S.Missing(w.sched, p))
    && (Blocked(w, p) <==> IsAsleep(w.sched, p))
    && (!Blocked(w, p) ==> R.Owners(w.q)[p] == 0)
    && (forall j :: 1 <= j <= 3 && p in S.List(w.sched, j) ==> InItsList(w.sched, p) && j == S.Kind(w.sched, p))
  }

  lemma InvAccounts(w: World, p: int)
    requires Inv(w) && 1 <= p < NR_PROCS && w.sched.procs[p].Proc?
    ensures Accounted(w, p)
  {
    assert R.Owners(w.q)[p] == if p in Asleep(w.sched) then 1 else 0;
    forall j | 1 <= j <= 3 && p in S.List(w.sched, j) ensures InItsList(w.sched, p) && j == S.Kind(w.sched, p) {
      assert S.ListOk(w.sched, j);
    }
  }

  /** In every reachable state every existing process is accounted for, and once
      idle has been left at most one process is left out. */
  lemma NoProcessIsLost(ws: seq<World>, acts: seq<Act>, k: nat, p: int)
    requires Run(ws, acts) && Boot(ws[0]) && k <= |acts|
    requires 1 <= p < NR_PROCS && ws[0].sched.procs[p].Proc?
    ensures Inv(ws[k]) && ws[k].sched.procs[p].Proc? && Accounted(ws[k], p)
    ensures forall x :: ws[k].sched.cur != 0 && S.Missing(ws[k].sched, p) && S.Missing(ws[k].sched, x) ==> x == p
  {
    BootInv(ws[0]);
    RunKeepsInv(ws, acts, k);
    ProcessesStay(ws, acts, k);
    InvAccounts(ws[k], p);
  }

  /** ... and the next scan puts it back in its list. */
  lemma LeftOutIsPutBack(w: World, p: int)
    requires Inv(w) && S.Missing(w.sched, p)
    ensures S.TableOk(S.AddRunning(w.sched)) && InItsList(S.AddRunning(w.sched), p)
  {
    S.AddRunningQueuesAll(w.sched);
    assert !S.Missing(S.AddRunning(w.sched), p);
  }

  /** No process appears, disappears or changes class. */
  ghost predicate SameProcs(s: S.Sched, s': S.Sched) {
    && |s.procs| == |s'.procs|
    && forall p :: 0 <= p < |s.procs| ==>
         s.procs[p].Proc? == s'.procs[p].Proc? && (s.procs[p].Proc? ==> s.procs[p].kind == s'.procs[p].kind)
  }

  lemma RescheduleSame(s: S.Sched, caller: int, out: Outcome)
    requires S.Inv(s) && S.Inv(StatesAfter(s, caller, out))
    ensures SameProcs(s, Reschedule(s, caller, out))
  {
    if !out.Rejected? {
      S.ScheduleKeepsInv(StatesAfter(s, caller, out));
    }
  }

  lemma DoKeepsProcesses(w: World, act: Act)
    requires Inv(w) && Enabled(w, act)
    ensures SameProcs(w.sched, Do(w, act).sched)
  {
    hide Serve, SmallSend, R.OwnersAre;
    CurrentIsAwake(w);
    match act
    case Call(_, _, _, _) =>
      var r := Serve(w.q, w.regs, w.sched.cur, act);
      ServeKeeps(w.q, w.regs, Asleep(w.sched), w.sched.cur, act);
      StatesAfterKeepInv(w.sched, w.sched.cur, r.out);
      RescheduleSame(w.sched, w.sched.cur, r.out);
    case Hardware(dest, msg) =>
      var r := SmallSend(w.q, w.regs, MSG_HARDWARE, dest, msg);
      R.SmallSendKeeps(w.q, w.regs, Asleep(w.sched), MSG_HARDWARE, dest, msg);
      StatesAfterKeepInv(w.sched, MSG_HARDWARE, r.out);
      RescheduleSame(w.sched, MSG_HARDWARE, r.out);
    case Clock(cpl) =>
      S.ChargeKeepsInv(w.sched, cpl);
      S.ScheduleKeepsInv(S.Charge(w.sched, cpl));
  }

  lemma {:induction false} ProcessesStay(ws: seq<World>, acts: seq<Act>, k: nat)
    requires Run(ws, acts) && Inv(ws[0]) && k <= |acts|
    ensures SameProcs(ws[0].sched, ws[k].sched)
  {
    if k > 0 {
      ProcessesStay(ws, acts, k - 1);
      RunKeepsInv(ws, acts, k - 1);
      assert StepAt(ws, acts, k - 1);
      DoKeepsProcesses(ws[k - 1], acts[k - 1]);
    }
  }

  /** In every reachable state after idle was first left, the current process is
      of the smallest class that runs; and idle is current only if it is fresh
      from boot or nothing else runs. */
  lemma PriorityHolds(ws: seq<World>, acts: seq<Act>, k: nat)
    requires Run(ws, acts) && Boot(ws[0]) && k <= |acts|
    ensures Inv(ws[k])
    ensures var s := ws[k].sched;
            && (s.cur != 0 ==> forall p :: 1 <= p < NR_PROCS && S.IsRunning(s, p) ==> S.Kind(s, s.cur) <= S.Kind(s, p))
            && (s.cur == 0 ==> Fresh(s) || forall p :: 1 <= p < NR_PROCS ==> !S.IsRunning(s, p))
  {
    BootInv(ws[0]);
    RunKeepsInv(ws, acts, k);
  }
}
