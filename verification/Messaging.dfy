/**
  kernel/messaging.c on values: blocking messages over four queues.  A blocked
  process owns one node; a message from the hardware sits in a pool slot.
 */
module Messaging {
  import opened Limits

  const MSG_ANY := -1
  const MSG_HARDWARE := -2
  const NR_MSG_HARDWARE := 1024

  /** A blocked sender; slot is the pool slot of a hardware message, or -1. */
  datatype Send = Send(src: int, dest: int, msg: int, slot: int)

  /** A blocked receiver of a message from want, or from anybody. */
  datatype Recv = Recv(want: int, dest: int, buf: int)

  datatype Queues = Queues(smallSend: seq<Send>, smallRecv: seq<Recv>, bigSend: seq<Send>, bigRecv: seq<Recv>)

  /** The saved registers that carry the partner and the message. */
  datatype Regs = Regs(ebx: int, ecx: int)

  datatype Copy = NoCopy | Copy(from: int, to: int)

  /** What a call comes to: rejected, its caller (or the hardware message)
      queued, or a rendezvous with peer. */
  datatype Outcome = Rejected | Queued | Met(peer: int, copy: Copy)

  datatype Result = Result(q: Queues, regs: seq<Regs>, out: Outcome)

  // ------------------------------------------------------------ the searches

  predicate IsPid(p: int) {
    0 <= p < NR_PROCS
  }

  /** Receiver r takes a message from src to dest. */
  predicate Takes(r: Recv, src: int, dest: int) {
    dest == r.dest && (src == r.want || r.want == MSG_ANY)
  }

  /** Sender s has a message for dest, who asks for want. */
  predicate Offers(s: Send, want: int, dest: int) {
    dest == s.dest && (want == s.src || want == MSG_ANY)
  }

  predicate NobodyTakes(rs: seq<Recv>, src: int, dest: int) {
    forall i :: 0 <= i < |rs| ==> !Takes(rs[i], src, dest)
  }

  predicate NobodyOffers(ss: seq<Send>, want: int, dest: int) {
    forall i :: 0 <= i < |ss| ==> !Offers(ss[i], want, dest)
  }

  /** The first receiver that takes the message, or the length of the queue. */
  function FindRecv(q: seq<Recv>, src: int, dest: int): (k: nat)
    ensures k <= |q| && (k < |q| ==> Takes(q[k], src, dest))
    ensures forall i :: 0 <= i < k ==> !Takes(q[i], src, dest)
  {
    if q == [] || Takes(q[0], src, dest) then 0 else
      var k := FindRecv(q[1..], src, dest);
      assert forall i :: 0 < i <= k ==> q[1..][i - 1] == q[i] || i == |q|;
      k + 1
  }

  function FindSend(q: seq<Send>, want: int, dest: int): (k: nat)
    ensures k <= |q| && (k < |q| ==> Offers(q[k], want, dest))
    ensures forall i :: 0 <= i < k ==> !Offers(q[i], want, dest)
  {
    if q == [] || Offers(q[0], want, dest) then 0 else
      var k := FindSend(q[1..], want, dest);
      assert forall i :: 0 < i <= k ==> q[1..][i - 1] == q[i] || i == |q|;
      k + 1
  }

  function Remove<T>(q: seq<T>, k: nat): (r: seq<T>)
    requires k < |q|
    ensures |r| == |q| - 1
    ensures forall i {:trigger r[i]} :: 0 <= i < |r| ==> r[i] == if i < k then q[i] else q[i + 1]
  {
    q[..k] + q[k + 1..]
  }

  lemma RemoveMembers<T>(q: seq<T>, k: nat)
    requires k < |q|
    ensures forall x :: x in Remove(q, k) ==> x in q
  {
  }

  /** p is blocked sending to d. */
  predicate Sending(q: seq<Send>, p: int, d: int) {
    exists k :: 0 <= k < |q| && q[k].src == p && q[k].dest == d
  }

  /** p is blocked receiving from w by name. */
  predicate Receiving(q: seq<Recv>, p: int, w: int) {
    exists k :: 0 <= k < |q| && q[k].dest == p && q[k].want == w
  }

  predicate SlotUsed(q: seq<Send>, slot: int) {
    exists k :: 0 <= k < |q| && q[k].slot == slot
  }

  /** The first free slot from n on, or the size of the pool. */
  function FreeSlot(q: seq<Send>, n: nat): (slot: nat)
    requires n <= NR_MSG_HARDWARE
    ensures n <= slot <= NR_MSG_HARDWARE
    ensures forall i :: n <= i < slot ==> SlotUsed(q, i)
    ensures slot < NR_MSG_HARDWARE ==> !SlotUsed(q, slot)
    decreases NR_MSG_HARDWARE - n
  {
    if n == NR_MSG_HARDWARE || !SlotUsed(q, n) then n else FreeSlot(q, n + 1)
  }

  // ------------------------------------------------------------- the calls

  function Delivered(r: Regs, src: int, msg: int): Regs {
    Regs(if r.ebx == MSG_ANY then src else r.ebx, msg)
  }

  function Named(r: Regs, src: int): Regs {
    if r.ebx == MSG_ANY then r.(ebx := src) else r
  }

  predicate SendArgsOk(src: int, dest: int) {
    (src == MSG_HARDWARE || IsPid(src)) && IsPid(dest)
  }

  /** small_send */
  function SmallSend(q: Queues, regs: seq<Regs>, src: int, dest: int, msg: int): Result
    requires |regs| == NR_PROCS
  {
    var k := FindRecv(q.smallRecv, src, dest);
    if !SendArgsOk(src, dest) then Result(q, regs, Rejected)
    else if k < |q.smallRecv| then
      Result(q.(smallRecv := Remove(q.smallRecv, k)), regs[dest := Delivered(regs[dest], src, msg)], Met(dest, NoCopy))
    else if Sending(q.smallSend, dest, src) || Sending(q.bigSend, dest, src) || Receiving(q.bigRecv, dest, src) then
      Result(q, regs, Rejected)
    else if src == MSG_HARDWARE then
      var slot := FreeSlot(q.smallSend, 0);
      if slot == NR_MSG_HARDWARE then Result(q, regs, Rejected)
      else Result(q.(smallSend := q.smallSend + [Send(src, dest, msg, slot)]), regs, Queued)
    else
      Result(q.(smallSend := q.smallSend + [Send(src, dest, msg, -1)]), regs, Queued)
  }

  predicate SmallRecvArgsOk(want: int, dest: int) {
    (want == MSG_ANY || want == MSG_HARDWARE || IsPid(want)) && IsPid(dest)
  }

  /** small_receive, for the process whose saved ebx names the partner. */
  function SmallReceive(q: Queues, regs: seq<Regs>, dest: int): Result
    requires |regs| == NR_PROCS && IsPid(dest)
  {
    var want := regs[dest].ebx;
    var k := FindSend(q.smallSend, want, dest);
    if !SmallRecvArgsOk(want, dest) then Result(q, regs, Rejected)
    else if k < |q.smallSend| then
      var s := q.smallSend[k];
      Result(q.(smallSend := Remove(q.smallSend, k)), regs[dest := Delivered(regs[dest], s.src, s.msg)],
          Met(s.src, NoCopy))
    else if Receiving(q.smallRecv, want, dest) || Sending(q.bigSend, want, dest)
        || Receiving(q.bigRecv, want, dest) then
      Result(q, regs, Rejected)
    else
      Result(q.(smallRecv := q.smallRecv + [Recv(want, dest, 0)]), regs, Queued)
  }

  /** big_send; key is what the source compares with the owners of the other
      nodes: the address of the caller's saved ebx, where the pid stored there
      was meant. */
  function BigSend(q: Queues, regs: seq<Regs>, src: int, dest: int, key: int, entry: int): Result
    requires |regs| == NR_PROCS
  {
    var k := FindRecv(q.bigRecv, src, dest);
    if !IsPid(src) || !IsPid(dest) then Result(q, regs, Rejected)
    else if k < |q.bigRecv| then
      Result(q.(bigRecv := Remove(q.bigRecv, k)), regs[dest := Named(regs[dest], src)],
          Met(dest, Copy(entry, q.bigRecv[k].buf)))
    else if Sending(q.smallSend, key, src) || Receiving(q.smallRecv, key, src) || Sending(q.bigSend, key, src) then
      Result(q, regs, Rejected)
    else
      Result(q.(bigSend := q.bigSend + [Send(src, dest, entry, -1)]), regs, Queued)
  }

  predicate BigRecvArgsOk(want: int, dest: int) {
    (want == MSG_ANY || IsPid(want)) && IsPid(dest)
  }

  /** big_receive */
  function BigReceive(q: Queues, regs: seq<Regs>, dest: int, entry: int): Result
    requires |regs| == NR_PROCS && IsPid(dest)
  {
    var want := regs[dest].ebx;
    var k := FindSend(q.bigSend, want, dest);
    if !BigRecvArgsOk(want, dest) then Result(q, regs, Rejected)
    else if k < |q.bigSend| then
      var s := q.bigSend[k];
      Result(q.(bigSend := Remove(q.bigSend, k)), regs[dest := Named(regs[dest], s.src)],
          Met(s.src, Copy(s.msg, entry)))
    else if Sending(q.smallSend, want, dest) || Receiving(q.smallRecv, want, dest)
        || Receiving(q.bigRecv, want, dest) then
      Result(q, regs, Rejected)
    else
      Result(q.(bigRecv := q.bigRecv + [Recv(want, dest, entry)]), regs, Queued)
  }

  // ------------------------------------------------------------ user buffers

  /** get_msg_entry: the page-aligned address inside a two-page buffer. */
  function MsgEntry(p: int): int {
    p - p % 4096 + 4096
  }

  /** The linear address do_intr_msg hands on: segment base plus entry, in 32 bits. */
  function BufferPage(p: int, pid: int): int {
    (MsgEntry(p) + pid * 0x4000000) % 0x1_0000_0000
  }

  lemma PageAddress(e: int)
    requires 0 <= e < 1048576
    ensures (4096 * e) % 0x1_0000_0000 == 4096 * e && (4096 * e) % 4096 == 0 && (4096 * e) / 4096 == e
  {
  }

  /** The page is whole and, since do_intr_msg does not check the address, lies in
      its own process's 64 MB segment exactly when the buffer starts before the
      segment's last page, or in the last page of the 32-bit space, where the sum
      wraps around to the segment's first page. */
  lemma BufferPageInside(p: int, pid: int)
    requires 0 <= p < 0x1_0000_0000 && 1 <= pid < NR_PROCS
    ensures BufferPage(p, pid) % 4096 == 0
    ensures pid * 0x4000000 <= BufferPage(p, pid) < (pid + 1) * 0x4000000 <==>
              p < 0x4000000 - 4096 || p >= 0x1_0000_0000 - 4096
    ensures p < 0x4000000 - 4096 ==>
              p + pid * 0x4000000 < BufferPage(p, pid) && BufferPage(p, pid) + 4096 <= p + pid * 0x4000000 + 8192
  {
    var n := p / 4096;
    assert p == 4096 * n + p % 4096;
    var e := n + 1 + pid * 16384;
    assert MsgEntry(p) + pid * 0x4000000 == 4096 * e;
    if e < 1048576 {
      PageAddress(e);
    } else {
      PageAddress(e - 1048576);
      assert 4096 * e == 4096 * (e - 1048576) + 0x1_0000_0000;
    }
  }
}
