/**
  The hand-linked message queues of kernel/messaging.c.  A node lives on its
  owner's kernel stack or in the pool of hardware messages.
 */
module MessageQueues {
  import opened Messaging

  /** The registers int 0x80 saved on a process's kernel stack. */
  class Saved {
    var ebx: int
    var ecx: int

    constructor ()
    {
      ebx, ecx := 0, 0;
    }
  }

  /** struct msg_struct.  A receiver's src and msg point into its saved
      registers; owner and slot say where the node lives. */
  class MsgNode {
    const owner: int
    const slot: int
    var src: int
    var dest: int
    var msg: int
    var regs: Saved?
    var next: MsgNode?
    ghost var where: int  // the queue the node was last put in

    constructor (owner: int, slot: int)
      ensures this.owner == owner && this.slot == slot
      ensures src == 0 && dest == 0 && msg == 0 && regs == null && next == null
    {
      this.owner, this.slot := owner, slot;
      src, dest, msg, regs, next := 0, 0, 0, null, null;
    }
  }

  // --------------------------------------------------------------- as values

  /** A list of senders' nodes as a value. */
  ghost function Sends(q: seq<MsgNode>): (r: seq<Send>)
    reads q`src, q`dest, q`msg
    ensures |r| == |q|
    ensures forall i {:trigger r[i]} :: 0 <= i < |q| ==> r[i] == Send(q[i].src, q[i].dest, q[i].msg, q[i].slot)
  {
    if q == [] then [] else
      var n := q[|q| - 1];
      Sends(q[..|q| - 1]) + [Send(n.src, n.dest, n.msg, n.slot)]
  }

  ghost function Request(n: MsgNode, saved: seq<Saved>): Recv
    reads n`dest, n`msg, saved`ebx
  {
    Recv(if 0 <= n.dest < |saved| then saved[n.dest].ebx else 0, n.dest, n.msg)
  }

  /** A list of receivers' nodes as a value. */
  ghost function Recvs(q: seq<MsgNode>, saved: seq<Saved>): (r: seq<Recv>)
    reads q`dest, q`msg, saved`ebx
    ensures |r| == |q|
    ensures forall i {:trigger r[i]} :: 0 <= i < |q| ==> r[i] == Request(q[i], saved)
  {
    if q == [] then [] else Recvs(q[..|q| - 1], saved) + [Request(q[|q| - 1], saved)]
  }

  /** The saved registers as values. */
  ghost function Contents(saved: seq<Saved>): (r: seq<Regs>)
    reads saved`ebx, saved`ecx
    ensures |r| == |saved|
    ensures forall i {:trigger r[i]} :: 0 <= i < |saved| ==> r[i] == Regs(saved[i].ebx, saved[i].ecx)
  {
    if saved == [] then [] else
      var s := saved[|saved| - 1];
      Contents(saved[..|saved| - 1]) + [Regs(s.ebx, s.ecx)]
  }

  lemma AppendedSender(q: seq<MsgNode>, n: MsgNode)
    ensures Sends(q + [n]) == Sends(q) + [Send(n.src, n.dest, n.msg, n.slot)]
  {
    assert (q + [n])[..|q|] == q;
  }

  lemma AppendedReceiver(q: seq<MsgNode>, n: MsgNode, saved: seq<Saved>)
    ensures Recvs(q + [n], saved) == Recvs(q, saved) + [Request(n, saved)]
  {
    assert (q + [n])[..|q|] == q;
  }

  lemma RemovedSender(q: seq<MsgNode>, k: nat)
    requires k < |q|
    ensures Sends(Remove(q, k)) == Remove(Sends(q), k)
  {
  }

  lemma RemovedReceiver(q: seq<MsgNode>, k: nat, saved: seq<Saved>)
    requires k < |q|
    ensures Recvs(Remove(q, k), saved) == Remove(Recvs(q, saved), k)
  {
  }

  // ---------------------------------------------------------------- the lists

  function After(q: seq<MsgNode>, i: nat): MsgNode? {
    if i + 1 < |q| then q[i + 1] else null
  }

  /** A head and a tail pointer; q is the list they delimit. */
  class MsgQueue {
    var head: MsgNode?
    var tail: MsgNode?
    ghost var q: seq<MsgNode>

    ghost predicate Valid()
      reads `head, `tail, `q, q`next
    {
      && (forall i {:trigger q[i]} :: 0 <= i < |q| ==> q[i].next == After(q, i))
      && (forall i, j :: 0 <= i < j < |q| ==> q[i] != q[j])
      && head == (if q == [] then null else q[0])
      && tail == (if q == [] then null else q[|q| - 1])
    }

    constructor ()
      ensures Valid() && q == []
    {
      head, tail, q := null, null, [];
    }

    /** Linking a node behind the tail. */
    method Append(n: MsgNode)
      requires Valid() && n !in q
      modifies `head, `tail, `q, q`next, n`next
      ensures Valid() && q == old(q) + [n]
    {
      n.next := null;
      if head == null {
        head, tail := n, n;
      } else {
        tail.next := n;
        tail := n;
      }
      q := q + [n];
    }

    /** Taking out node n, found behind prev. */
    method Unlink(prev: MsgNode?, n: MsgNode, ghost k: nat)
      requires Valid() && k < |q| && n == q[k] && prev == (if k == 0 then null else q[k - 1])
      modifies `head, `tail, `q, q`next
      ensures Valid() && q == Remove(old(q), k)
    {
      hide Messaging.Remove;
      ghost var was := q;
      assert n.next == After(q, k);
      if prev == null {
        head := n.next;
      } else {
        prev.next := n.next;
      }
      if n.next == null {
        tail := prev;
      }
      q := Remove(q, k);
      forall i | 0 <= i < |q| ensures q[i].next == After(q, i) {
        Closed(was, k, i);
      }
    }

    lemma Closed(was: seq<MsgNode>, k: nat, i: nat)
      requires k < |was| && i + 1 < |was|
      ensures var r := Remove(was, k);
              && r[i] == was[if i < k then i else i + 1]
              && After(r, i) == if i + 1 == k then After(was, k) else After(was, if i < k then i else i + 1)
    {
    }

    /** Every receiver's node points at its own saved registers. */
    ghost predicate PointsHome(saved: seq<Saved>)
      reads `q, q`dest, q`regs
    {
      forall i {:trigger q[i]} :: 0 <= i < |q| ==> 0 <= q[i].dest < |saved| && q[i].regs == saved[q[i].dest]
    }

    /** The search for a receiver that takes a message. */
    method SearchRecv(src: int, dest: int, ghost saved: seq<Saved>) returns (prev: MsgNode?, n: MsgNode?, ghost k: nat)
      requires Valid() && PointsHome(saved)
      ensures k == FindRecv(Recvs(q, saved), src, dest)
      ensures n == (if k < |q| then q[k] else null)
      ensures n != null ==> prev == if k == 0 then null else q[k - 1]
    {
      ghost var rs := Recvs(q, saved);
      prev, n, k := null, head, 0;
      while n != null
        invariant 0 <= k <= |q|
        invariant n == if k < |q| then q[k] else null
        invariant prev == if k == 0 then null else q[k - 1]
        invariant forall i :: 0 <= i < k ==> !Takes(rs[i], src, dest)
        decreases |q| - k
      {
        assert q[k].next == After(q, k) && rs[k] == Request(q[k], saved);
        if dest == n.dest && (src == n.regs.ebx || n.regs.ebx == MSG_ANY) {
          assert Takes(rs[k], src, dest);
          return;
        }
        assert !Takes(rs[k], src, dest);
        prev, n, k := n, n.next, k + 1;
      }
    }

    /** The search for a sender that offers a message. */
    method SearchSend(want: int, dest: int) returns (prev: MsgNode?, n: MsgNode?, ghost k: nat)
      requires Valid()
      ensures k == FindSend(Sends(q), want, dest)
      ensures n == (if k < |q| then q[k] else null)
      ensures n != null ==> prev == if k == 0 then null else q[k - 1]
    {
      ghost var ss := Sends(q);
      prev, n, k := null, head, 0;
      while n != null
        invariant 0 <= k <= |q|
        invariant n == if k < |q| then q[k] else null
        invariant prev == if k == 0 then null else q[k - 1]
        invariant forall i :: 0 <= i < k ==> !Offers(ss[i], want, dest)
        decreases |q| - k
      {
        assert q[k].next == After(q, k) && ss[k].src == q[k].src;
        if dest == n.dest && (want == n.src || want == MSG_ANY) {
          assert Offers(ss[k], want, dest);
          return;
        }
        assert !Offers(ss[k], want, dest);
        prev, n, k := n, n.next, k + 1;
      }
    }

    /** Is p blocked here sending to d? */
    method HasSender(p: int, d: int) returns (found: bool)
      requires Valid()
      ensures found == Sending(Sends(q), p, d)
    {
      ghost var ss := Sends(q);
      var n := head;
      ghost var k := 0;
      while n != null
        invariant 0 <= k <= |q|
        invariant n == if k < |q| then q[k] else null
        invariant forall i :: 0 <= i < k ==> !(ss[i].src == p && ss[i].dest == d)
        decreases |q| - k
      {
        assert q[k].next == After(q, k) && ss[k].src == q[k].src;
        if p == n.src && d == n.dest {
          assert ss[k].src == p && ss[k].dest == d;
          return true;
        }
        n := n.next;
        k := k + 1;
      }
      return false;
    }

    /** Is p blocked here receiving from w by name? */
    method HasReceiver(p: int, w: int, ghost saved: seq<Saved>) returns (found: bool)
      requires Valid() && PointsHome(saved)
      ensures found == Receiving(Recvs(q, saved), p, w)
    {
      ghost var rs := Recvs(q, saved);
      var n := head;
      ghost var k := 0;
      while n != null
        invariant 0 <= k <= |q|
        invariant n == if k < |q| then q[k] else null
        invariant forall i :: 0 <= i < k ==> !(rs[i].dest == p && rs[i].want == w)
        decreases |q| - k
      {
        assert q[k].next == After(q, k) && rs[k] == Request(q[k], saved);
        if p == n.dest && w == n.regs.ebx {
          assert rs[k].dest == p && rs[k].want == w;
          return true;
        }
        n := n.next;
        k := k + 1;
      }
      return false;
    }
  }
}
