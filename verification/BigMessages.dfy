/**
  A big message is a snapshot: at a rendezvous of big_send and big_receive, in
  either order, the receiver's buffer comes to show what the sender's held.
 */
module BigMessages {
  import opened Limits
  import opened Kernel
  import opened Messaging
  import Faults
  import MemoryRuns
  import Paging
  import R = Rendezvous

  /** A node of a big message names the page in its owner's buffer, as the saved
      ecx of the blocked owner still gives it. */
  ghost predicate Buffers(q: Queues, regs: seq<Regs>)
    requires |regs| == NR_PROCS
  {
    && (forall k :: 0 <= k < |q.bigSend| && IsPid(q.bigSend[k].src) ==>
          q.bigSend[k].msg == BufferPage(regs[q.bigSend[k].src].ecx, q.bigSend[k].src))
    && (forall k :: 0 <= k < |q.bigRecv| && IsPid(q.bigRecv[k].dest) ==>
          q.bigRecv[k].buf == BufferPage(regs[q.bigRecv[k].dest].ecx, q.bigRecv[k].dest))
  }

  /** Registers may change for a process that owns no node. */
  lemma BuffersOfAwake(q: Queues, regs: seq<Regs>, asleep: set<int>, p: int, r: Regs)
    requires |regs| == NR_PROCS && Buffers(q, regs)
    requires R.OwnersAre(q, asleep) && IsPid(p) && p !in asleep
    ensures Buffers(q, regs[p := r])
  {
    R.AwakeOwnsNothing(q, asleep, p);
  }

  lemma SmallSendKeepsBuffers(q: Queues, regs: seq<Regs>, asleep: set<int>, src: int, dest: int, msg: int)
    requires R.Ready(q, regs, asleep, src) && Buffers(q, regs)
    ensures var r := SmallSend(q, regs, src, dest, msg); |r.regs| == NR_PROCS && Buffers(r.q, r.regs)
  {
    hide FindRecv, FreeSlot, Sending, Receiving, BufferPage;
    var r := SmallSend(q, regs, src, dest, msg);
    R.SmallSendKeeps(q, regs, asleep, src, dest, msg);
    if r.out.Met? {
      BuffersOfAwake(r.q, regs, asleep - {dest}, dest, r.regs[dest]);
    }
  }

  lemma SmallReceiveKeepsBuffers(q: Queues, regs: seq<Regs>, asleep: set<int>, dest: int)
    requires R.Ready(q, regs, asleep, dest) && dest != MSG_HARDWARE && Buffers(q, regs)
    ensures var r := SmallReceive(q, regs, dest); |r.regs| == NR_PROCS && Buffers(r.q, r.regs)
  {
    var r := SmallReceive(q, regs, dest);
    if r.out.Met? {
      BuffersOfAwake(q, regs, asleep, dest, r.regs[dest]);
    }
  }

  lemma BigSendKeepsBuffers(q: Queues, regs: seq<Regs>, asleep: set<int>, src: int, dest: int, key: int)
    requires R.Ready(q, regs, asleep, src) && src != MSG_HARDWARE && Buffers(q, regs)
    ensures var r := BigSend(q, regs, src, dest, key, BufferPage(regs[src].ecx, src));
            |r.regs| == NR_PROCS && Buffers(r.q, r.regs)
  {
    hide R.OwnersAre, FindRecv, FindSend, Sending, Receiving, BufferPage;
  }

  lemma BigReceiveKeepsBuffers(q: Queues, regs: seq<Regs>, asleep: set<int>, dest: int)
    requires R.Ready(q, regs, asleep, dest) && dest != MSG_HARDWARE && Buffers(q, regs)
    ensures var r := BigReceive(q, regs, dest, BufferPage(regs[dest].ecx, dest));
            |r.regs| == NR_PROCS && Buffers(r.q, r.regs)
  {
    hide R.OwnersAre, FindRecv, FindSend, Sending, Receiving, BufferPage;
  }

  lemma ServeKeepsBuffers(q: Queues, regs: seq<Regs>, asleep: set<int>, p: int, act: Act)
    requires R.Inv(q, regs) && R.OwnersAre(q, asleep) && 0 !in asleep && Buffers(q, regs)
    requires 1 <= p < NR_PROCS && p !in asleep && act.Call?
    ensures var r := Serve(q, regs, p, act); |r.regs| == NR_PROCS && Buffers(r.q, r.regs)
  {
    var r := regs[p := Regs(act.ebx, act.ecx)];
    R.RegsOfAwake(q, regs, p, Regs(act.ebx, act.ecx), asleep);
    BuffersOfAwake(q, regs, asleep, p, Regs(act.ebx, act.ecx));
    assert R.Ready(q, r, asleep, p);
    if act.ebx == p {
    } else if act.fn == 1 {
      SmallSendKeepsBuffers(q, r, asleep, p, act.ebx, act.ecx);
    } else if act.fn == 2 {
      SmallReceiveKeepsBuffers(q, r, asleep, p);
    } else if act.fn == 3 {
      BigSendKeepsBuffers(q, r, asleep, p, act.ebx, act.key);
    } else if act.fn == 4 {
      BigReceiveKeepsBuffers(q, r, asleep, p);
    }
  }

  lemma DoKeepsBuffers(w: World, act: Act)
    requires Inv(w) && Enabled(w, act) && Buffers(w.q, w.regs)
    ensures var w' := Do(w, act); |w'.regs| == NR_PROCS && Buffers(w'.q, w'.regs)
  {
    CurrentIsAwake(w);
    DoKeepsInv(w, act);
    match act
    case Call(_, _, _, _) =>
      ServeKeepsBuffers(w.q, w.regs, Asleep(w.sched), w.sched.cur, act);
      DoOfCall(w, act);
    case Hardware(dest, msg) =>
      SmallSendKeepsBuffers(w.q, w.regs, Asleep(w.sched), MSG_HARDWARE, dest, msg);
      DoOfHardware(w, dest, msg);
    case Clock(_) =>
  }

  lemma BootBuffers(w: World)
    requires Boot(w)
    ensures Buffers(w.q, w.regs)
  {
  }

  lemma {:induction false} RunKeepsBuffers(ws: seq<World>, acts: seq<Act>, k: nat)
    requires Run(ws, acts) && Boot(ws[0]) && k <= |acts|
    ensures Inv(ws[k]) && |ws[k].regs| == NR_PROCS && Buffers(ws[k].q, ws[k].regs)
  {
    hide Buffers, Inv, Do;
    BootInv(ws[0]);
    RunKeepsInv(ws, acts, k);
    if k == 0 {
      BootBuffers(ws[0]);
    } else {
      RunKeepsInv(ws, acts, k - 1);
      RunKeepsBuffers(ws, acts, k - 1);
      assert StepAt(ws, acts, k - 1);
      DoKeepsBuffers(ws[k - 1], acts[k - 1]);
    }
  }

  /** What the current process's call comes to. */
  ghost function Comes(w: World, act: Act): Outcome
    requires Inv(w) && act.Call? && w.sched.cur != 0
  {
    Serve(w.q, w.regs, w.sched.cur, act).out
  }

  /** The buffer of the sender and that of the receiver, when caller meets peer. */
  function Sender(w: World, act: Act, peer: int): (pb: (int, int))
    requires act.Call? && |w.regs| == NR_PROCS && IsPid(peer)
  {
    if act.fn == 3 then (w.sched.cur, act.ecx) else (peer, w.regs[peer].ecx)
  }

  function Receiver(w: World, act: Act, peer: int): (pb: (int, int))
    requires act.Call? && |w.regs| == NR_PROCS && IsPid(peer)
  {
    if act.fn == 3 then (peer, w.regs[peer].ecx) else (w.sched.cur, act.ecx)
  }

  lemma BigSendCopies(q: Queues, regs: seq<Regs>, asleep: set<int>, src: int, dest: int, key: int)
    requires R.Ready(q, regs, asleep, src) && src != MSG_HARDWARE && src != dest && Buffers(q, regs)
    requires BigSend(q, regs, src, dest, key, BufferPage(regs[src].ecx, src)).out.Met?
    ensures 1 <= dest < NR_PROCS
    ensures BigSend(q, regs, src, dest, key, BufferPage(regs[src].ecx, src)).out
         == Met(dest, Copy(BufferPage(regs[src].ecx, src), BufferPage(regs[dest].ecx, dest)))
  {
    hide R.OwnersAre, FindRecv, Sending, Receiving, BufferPage;
  }

  lemma BigReceiveCopies(q: Queues, regs: seq<Regs>, asleep: set<int>, dest: int)
    requires R.Ready(q, regs, asleep, dest) && dest != MSG_HARDWARE && Buffers(q, regs)
    requires BigReceive(q, regs, dest, BufferPage(regs[dest].ecx, dest)).out.Met?
    ensures var out := BigReceive(q, regs, dest, BufferPage(regs[dest].ecx, dest)).out;
            1 <= out.peer < NR_PROCS && out.peer != dest
            && out.copy == Copy(BufferPage(regs[out.peer].ecx, out.peer), BufferPage(regs[dest].ecx, dest))
  {
    R.AwakeOwnsNothing(q, asleep, dest);
    hide R.OwnersAre, FindSend, Sending, Receiving, BufferPage;
  }

  /** Whichever side came first, a big rendezvous shares the page inside the
      sender's buffer with the page inside the receiver's. */
  lemma BigRendezvousCopies(w: World, act: Act)
    requires Inv(w) && act.Call? && w.sched.cur != 0 && Buffers(w.q, w.regs)
    requires (act.fn == 3 || act.fn == 4) && Comes(w, act).Met?
    ensures var peer := Comes(w, act).peer;
            && 1 <= peer < NR_PROCS && peer != w.sched.cur
            && var s := Sender(w, act, peer); var d := Receiver(w, act, peer);
               Comes(w, act).copy == Copy(BufferPage(s.1, s.0), BufferPage(d.1, d.0))
  {
    hide BufferPage, BigSend, BigReceive, Buffers;
    CurrentIsAwake(w);
    var p := w.sched.cur;
    var r := w.regs[p := Regs(act.ebx, act.ecx)];
    R.RegsOfAwake(w.q, w.regs, p, Regs(act.ebx, act.ecx), Asleep(w.sched));
    BuffersOfAwake(w.q, w.regs, Asleep(w.sched), p, Regs(act.ebx, act.ecx));
    if act.fn == 3 {
      BigSendCopies(w.q, r, Asleep(w.sched), p, act.ebx, act.key);
    } else {
      BigReceiveCopies(w.q, r, Asleep(w.sched), p);
    }
  }

  /** A two-page buffer inside its process's segment. */
  predicate InSegment(buffer: (int, int)) {
    1 <= buffer.0 < NR_PROCS && 0 <= buffer.1 && buffer.1 + 8192 <= 0x4000000
  }

  function Page(buffer: (int, int)): int {
    BufferPage(buffer.1, buffer.0) / 4096
  }

  /** The page lies wholly inside the buffer and in no other segment. */
  predicate InBuffer(page: int, buffer: (int, int)) {
    && buffer.0 * 0x4000000 + buffer.1 < page * 4096 && page * 4096 + 4096 <= buffer.0 * 0x4000000 + buffer.1 + 8192
    && buffer.0 * 0x4000000 <= page * 4096 < (buffer.0 + 1) * 0x4000000
  }

  lemma PageInBuffer(buffer: (int, int))
    requires InSegment(buffer)
    ensures InBuffer(Page(buffer), buffer) && Paging.IsUser(Page(buffer))
              && BufferPage(buffer.1, buffer.0) == Page(buffer) * 4096
  {
    BufferPageInside(buffer.1, buffer.0);
  }

  /** The call meets its partner, and both name buffers in their segments. */
  ghost predicate BigMeeting(w: World, act: Act) {
    && Inv(w) && act.Call? && w.sched.cur != 0 && (act.fn == 3 || act.fn == 4)
    && Comes(w, act).Met? && IsPid(Comes(w, act).peer)
    && InSegment(Sender(w, act, Comes(w, act).peer)) && InSegment(Receiver(w, act, Comes(w, act).peer))
  }

  ghost function SenderBuffer(w: World, act: Act): (int, int)
    requires BigMeeting(w, act)
  {
    Sender(w, act, Comes(w, act).peer)
  }

  ghost function ReceiverBuffer(w: World, act: Act): (int, int)
    requires BigMeeting(w, act)
  {
    Receiver(w, act, Comes(w, act).peer)
  }

  /** In every run a big rendezvous shares pages inside the two buffers. */
  lemma BigRendezvousPages(ws: seq<World>, acts: seq<Act>, k: nat)
    requires Run(ws, acts) && Boot(ws[0]) && k < |acts| && BigMeeting(ws[k], acts[k])
    ensures var s := SenderBuffer(ws[k], acts[k]); var d := ReceiverBuffer(ws[k], acts[k]);
            && InBuffer(Page(s), s) && InBuffer(Page(d), d) && s.0 != d.0
            && Paging.IsUser(Page(s)) && Paging.IsUser(Page(d))
            && Comes(ws[k], acts[k]).copy == Copy(Page(s) * 4096, Page(d) * 4096)
  {
    hide Serve, Buffers, BufferPage;
    var w, act := ws[k], acts[k];
    RunKeepsBuffers(ws, acts, k);
    BigRendezvousCopies(w, act);
    PageInBuffer(SenderBuffer(w, act));
    PageInBuffer(ReceiverBuffer(w, act));
  }

  /** In a run of memory in which the call's share is step j, each of the two
      pages shows at k what `from` showed at j, unless it was disturbed since. */
  ghost predicate Delivered(ms: seq<Paging.Mem>, base: int, ops: seq<MemoryRuns.Op>, j: nat, k: nat, from: int, to: int)
    requires j < k < |ms| && Paging.Sized(ms[j]) && Paging.Sized(ms[k]) && Paging.IsUser(from) && Paging.IsUser(to)
  {
    var was := Paging.PageOf(ms[j], base, from);
    && (MemoryRuns.Undisturbed(ops, j + 1, k, to, was) ==> Paging.PageOf(ms[k], base, to) == was)
    && (MemoryRuns.Undisturbed(ops, j, k, from, was) ==> Paging.PageOf(ms[k], base, from) == was)
  }

  lemma ShareDelivers(ms: seq<Paging.Mem>, base: int, ops: seq<MemoryRuns.Op>, j: nat, k: nat, from: int, to: int)
    requires MemoryRuns.Run(ms, base, ops) && Paging.Inv(ms[0], base) && j < k <= |ops|
    requires ops[j] == MemoryRuns.Share(from, to) && Paging.IsUser(from) && Paging.IsUser(to)
    ensures Paging.Sized(ms[j]) && Paging.Sized(ms[k]) && Delivered(ms, base, ops, j, k, from, to)
  {
    hide MemoryRuns.Undisturbed, Paging.PageOf, MemoryRuns.StepAt;
    MemoryRuns.SharedPageIsSnapshot(ms, base, ops, j, k, from, to);
  }

  /** In every run of the kernel and every run of memory: once a big message is
      delivered, the receiver's page shows what the sender's page held at that
      moment, until the receiver's own page is disturbed, and the sender's page
      keeps it until the sender's is; both pages lie inside the buffers the two
      processes named. */
  lemma BigMessageIsSnapshot(ws: seq<World>, acts: seq<Act>, i: nat,
                             ms: seq<Paging.Mem>, base: int, ops: seq<MemoryRuns.Op>, j: nat, k: nat)
    requires Run(ws, acts) && Boot(ws[0]) && i < |acts| && BigMeeting(ws[i], acts[i])
    requires MemoryRuns.Run(ms, base, ops) && Paging.Inv(ms[0], base) && j < k <= |ops|
    requires var copy := Comes(ws[i], acts[i]).copy;
             copy.Copy? ==> ops[j] == MemoryRuns.Share(copy.from / 4096, copy.to / 4096)
    ensures Paging.Sized(ms[j]) && Paging.Sized(ms[k])
    ensures var s := SenderBuffer(ws[i], acts[i]); var d := ReceiverBuffer(ws[i], acts[i]);
            && InBuffer(Page(s), s) && InBuffer(Page(d), d) && s.0 != d.0
            && Paging.IsUser(Page(s)) && Paging.IsUser(Page(d))
            && Delivered(ms, base, ops, j, k, Page(s), Page(d))
  {
    hide BigMeeting, Comes, SenderBuffer, ReceiverBuffer, Page, InBuffer, MemoryRuns.StepAt, Delivered;
    BigRendezvousPages(ws, acts, i);
    ShareDelivers(ms, base, ops, j, k, Page(SenderBuffer(ws[i], acts[i])), Page(ReceiverBuffer(ws[i], acts[i])));
  }
}
