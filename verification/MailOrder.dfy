/**
  The order of messages: what has been received is, pair by pair, the beginning
  of what has been accepted, small messages and big ones each by themselves.
 */
module MailOrder {
  import opened Limits
  import opened Messaging
  import opened Rendezvous

  /** A message: the value of a small one, the page of a big one. */
  datatype Mail = Mail(src: int, dest: int, msg: int)

  /** A selection of mail: between two parties, or to one of them. */
  datatype Pick = Between(src: int, dest: int) | To(dest: int)

  predicate Picks(pick: Pick, m: Mail) {
    match pick
    case Between(src, dest) => m.src == src && m.dest == dest
    case To(dest) => m.dest == dest
  }

  function Only(ms: seq<Mail>, pick: Pick): seq<Mail> {
    if ms == [] then [] else
      Only(ms[..|ms| - 1], pick) + (if Picks(pick, ms[|ms| - 1]) then [ms[|ms| - 1]] else [])
  }

  lemma OnlyAppend(ms: seq<Mail>, m: Mail, pick: Pick)
    ensures Only(ms + [m], pick) == Only(ms, pick) + (if Picks(pick, m) then [m] else [])
  {
    assert (ms + [m])[..|ms|] == ms;
  }

  lemma {:induction false} OnlyConcat(a: seq<Mail>, b: seq<Mail>, pick: Pick)
    ensures Only(a + b, pick) == Only(a, pick) + Only(b, pick)
  {
    if b == [] {
      assert a + b == a;
    } else {
      var c, m := b[..|b| - 1], b[|b| - 1];
      assert a + b == (a + c) + [m];
      OnlyAppend(a + c, m, pick);
      OnlyConcat(a, c, pick);
    }
  }

  lemma {:induction false} OnlyNone(ms: seq<Mail>, pick: Pick)
    requires forall i :: 0 <= i < |ms| ==> !Picks(pick, ms[i])
    ensures Only(ms, pick) == []
  {
    if ms != [] {
      OnlyNone(ms[..|ms| - 1], pick);
    }
  }

  function Pending(q: seq<Send>): (r: seq<Mail>)
    ensures |r| == |q| && forall i :: 0 <= i < |q| ==> r[i] == Mail(q[i].src, q[i].dest, q[i].msg)
  {
    seq(|q|, i requires 0 <= i < |q| => Mail(q[i].src, q[i].dest, q[i].msg))
  }

  lemma PendingSplit(q: seq<Send>, k: nat)
    requires k < |q|
    ensures Pending(q) == Pending(q)[..k] + [Pending(q)[k]] + Pending(q)[k + 1..]
    ensures Pending(Remove(q, k)) == Pending(q)[..k] + Pending(q)[k + 1..]
  {
  }

  /** The first picked message leaves: it heads what was picked. */
  lemma FirstPickedLeaves(q: seq<Send>, k: nat, pick: Pick)
    requires k < |q|
    requires Picks(pick, Pending(q)[k]) ==> forall i :: 0 <= i < k ==> !Picks(pick, Pending(q)[i])
    ensures Only(Pending(q), pick) ==
              (if Picks(pick, Pending(q)[k]) then [Pending(q)[k]] else []) + Only(Pending(Remove(q, k)), pick)
  {
    PendingSplit(q, k);
    FirstPickedOfThree(Pending(q)[..k], Pending(q)[k], Pending(q)[k + 1..], pick);
  }

  lemma FirstPickedOfThree(a: seq<Mail>, m: Mail, b: seq<Mail>, pick: Pick)
    requires Picks(pick, m) ==> forall i :: 0 <= i < |a| ==> !Picks(pick, a[i])
    ensures Only(a + [m] + b, pick) == (if Picks(pick, m) then [m] else []) + Only(a + b, pick)
  {
    OnlyConcat(a + [m], b, pick);
    OnlyAppend(a, m, pick);
    OnlyConcat(a, b, pick);
    if Picks(pick, m) {
      OnlyNone(a, pick);
    }
  }

  // ------------------------------------------------------- the books of mail

  /** What the senders were told was accepted, and what receivers found. */
  datatype Log = Log(sent: seq<Mail>, got: seq<Mail>)

  datatype Books = Books(small: Log, big: Log)

  const NO_BOOKS := Books(Log([], []), Log([], []))

  /** Accepted mail is received mail followed by queued mail, in order. */
  predicate InOrder(q: seq<Send>, l: Log, pick: Pick) {
    Only(l.sent, pick) == Only(l.got, pick) + Only(Pending(q), pick)
  }

  /** So what was received is a prefix of what was accepted. */
  lemma ReceivedIsPrefix(q: seq<Send>, l: Log, pick: Pick)
    requires InOrder(q, l, pick)
    ensures Only(l.got, pick) <= Only(l.sent, pick)
  {
  }

  /** What dest finds after a rendezvous: the sender in its saved ebx, and the
      value in its saved ecx or the page shared with its buffer. */
  function Found(r: Result, dest: int): seq<Mail> {
    if r.out.Met? && 0 <= dest < |r.regs| then
      [Mail(r.regs[dest].ebx, dest, match r.out.copy case NoCopy => r.regs[dest].ecx case Copy(from, _) => from)]
    else []
  }

  function AfterSend(l: Log, src: int, dest: int, msg: int, r: Result): (l': Log)
    ensures r.out.Rejected? ==> l' == l
  {
    Log(l.sent + (if r.out.Rejected? then [] else [Mail(src, dest, msg)]), l.got + Found(r, dest))
  }

  function AfterReceive(l: Log, dest: int, r: Result): (l': Log)
    ensures !r.out.Met? ==> l' == l
  {
    l.(got := l.got + Found(r, dest))
  }

  /** The selections whose order is kept: two parties always, one destination
      when it asks for anybody. */
  predicate Kept(pick: Pick, dest: int, want: int) {
    pick == To(dest) ==> want == MSG_ANY
  }

  ghost predicate ReceiversKeep(rs: seq<Recv>, pick: Pick) {
    forall k :: 0 <= k < |rs| ==> Kept(pick, rs[k].dest, rs[k].want)
  }

  lemma AcceptedInOrder(q: seq<Send>, l: Log, s: Send, pick: Pick)
    requires InOrder(q, l, pick)
    ensures InOrder(q + [s], Log(l.sent + [Mail(s.src, s.dest, s.msg)], l.got), pick)
  {
    hide Only, Pending;
    var m := Mail(s.src, s.dest, s.msg);
    OnlyAppend(l.sent, m, pick);
    OnlyAppend(Pending(q), m, pick);
    assert Pending(q + [s]) == Pending(q) + [m];
  }

  lemma HandedOverInOrder(q: seq<Send>, l: Log, m: Mail, pick: Pick)
    requires InOrder(q, l, pick)
    requires Picks(pick, m) ==> forall i :: 0 <= i < |q| ==> !Picks(pick, Pending(q)[i])
    ensures InOrder(q, Log(l.sent + [m], l.got + [m]), pick)
  {
    hide Only, Pending;
    OnlyAppend(l.sent, m, pick);
    OnlyAppend(l.got, m, pick);
    if Picks(pick, m) {
      OnlyNone(Pending(q), pick);
    }
  }

  lemma TakenInOrder(q: seq<Send>, l: Log, k: nat, pick: Pick)
    requires InOrder(q, l, pick) && k < |q|
    requires Picks(pick, Pending(q)[k]) ==> forall i :: 0 <= i < k ==> !Picks(pick, Pending(q)[i])
    ensures InOrder(Remove(q, k), l.(got := l.got + [Pending(q)[k]]), pick)
  {
    hide Only, Pending;
    FirstPickedLeaves(q, k, pick);
    OnlyAppend(l.got, Pending(q)[k], pick);
  }

  // ------------------------------------------------------------------- sending

  /** A receiver that takes a message leaves none like it in the queue. */
  lemma NothingLikeItQueued(ss: seq<Send>, rs: seq<Recv>, src: int, dest: int, msg: int, k: nat, pick: Pick)
    requires NoMissed(ss, rs) && k < |rs| && Takes(rs[k], src, dest)
    requires Kept(pick, dest, rs[k].want) && Picks(pick, Mail(src, dest, msg))
    ensures forall i :: 0 <= i < |ss| ==> !Picks(pick, Pending(ss)[i])
  {
    forall i | 0 <= i < |ss| ensures !Picks(pick, Pending(ss)[i]) {
      assert !Takes(rs[k], ss[i].src, ss[i].dest);
    }
  }

  lemma SendMeetsInOrder(ss: seq<Send>, rs: seq<Recv>, l: Log, src: int, dest: int, msg: int, k: nat, pick: Pick)
    requires NoMissed(ss, rs) && k < |rs| && Takes(rs[k], src, dest)
    requires InOrder(ss, l, pick) && ReceiversKeep(rs, pick)
    ensures InOrder(ss, Log(l.sent + [Mail(src, dest, msg)], l.got + [Mail(src, dest, msg)]), pick)
  {
    hide InOrder;
    if Picks(pick, Mail(src, dest, msg)) {
      NothingLikeItQueued(ss, rs, src, dest, msg, k, pick);
    }
    HandedOverInOrder(ss, l, Mail(src, dest, msg), pick);
  }

  lemma SmallSendInOrder(q: Queues, regs: seq<Regs>, l: Log, src: int, dest: int, msg: int, pick: Pick)
    requires Inv(q, regs) && InOrder(q.smallSend, l, pick) && ReceiversKeep(q.smallRecv, pick)
    ensures var r := SmallSend(q, regs, src, dest, msg);
            InOrder(r.q.smallSend, AfterSend(l, src, dest, msg, r), pick) && ReceiversKeep(r.q.smallRecv, pick)
  {
    hide InOrder, NoMissed, SlotsOnce, SendOk, FindRecv, FreeSlot, Sending, Receiving, Kept;
    var r := SmallSend(q, regs, src, dest, msg);
    match r.out
    case Rejected =>
    case Queued =>
      AcceptedInOrder(q.smallSend, l, r.q.smallSend[|q.smallSend|], pick);
      assert AfterSend(l, src, dest, msg, r) == Log(l.sent + [Mail(src, dest, msg)], l.got);
    case Met(_, _) =>
      var k := FindRecv(q.smallRecv, src, dest);
      assert Found(r, dest) == [Mail(src, dest, msg)];
      SendMeetsInOrder(q.smallSend, q.smallRecv, l, src, dest, msg, k, pick);
  }

  lemma BigSendInOrder(q: Queues, regs: seq<Regs>, l: Log, src: int, dest: int, key: int, entry: int, pick: Pick)
    requires Inv(q, regs) && InOrder(q.bigSend, l, pick) && ReceiversKeep(q.bigRecv, pick)
    ensures var r := BigSend(q, regs, src, dest, key, entry);
            InOrder(r.q.bigSend, AfterSend(l, src, dest, entry, r), pick) && ReceiversKeep(r.q.bigRecv, pick)
  {
    hide InOrder, NoMissed, SlotsOnce, SendOk, FindRecv, Sending, Receiving, Kept;
    var r := BigSend(q, regs, src, dest, key, entry);
    match r.out
    case Rejected =>
    case Queued =>
      AcceptedInOrder(q.bigSend, l, r.q.bigSend[|q.bigSend|], pick);
      assert AfterSend(l, src, dest, entry, r) == Log(l.sent + [Mail(src, dest, entry)], l.got);
    case Met(_, _) =>
      var k := FindRecv(q.bigRecv, src, dest);
      assert Found(r, dest) == [Mail(src, dest, entry)];
      SendMeetsInOrder(q.bigSend, q.bigRecv, l, src, dest, entry, k, pick);
  }

  // ----------------------------------------------------------------- receiving

  /** The first message on offer is the first of its kind in the queue. */
  lemma {:induction false} FirstOfItsKind(q: seq<Send>, want: int, dest: int, k: nat, pick: Pick)
    requires k == FindSend(q, want, dest) < |q| && Kept(pick, dest, want) && Picks(pick, Pending(q)[k])
    ensures forall i :: 0 <= i < k ==> !Picks(pick, Pending(q)[i])
  {
    forall i | 0 <= i < k ensures !Picks(pick, Pending(q)[i]) {
      assert !Offers(q[i], want, dest);
    }
  }

  lemma {:induction false} OfferedInOrder(q: seq<Send>, l: Log, want: int, dest: int, pick: Pick)
    requires InOrder(q, l, pick)
    requires FindSend(q, want, dest) < |q| && Kept(pick, dest, want)
    ensures var k := FindSend(q, want, dest);
            InOrder(Remove(q, k), l.(got := l.got + [Pending(q)[k]]), pick)
  {
    var k := FindSend(q, want, dest);
    if Picks(pick, Pending(q)[k]) {
      FirstOfItsKind(q, want, dest, k, pick);
    }
    TakenInOrder(q, l, k, pick);
  }

  lemma SmallReceiveInOrder(q: Queues, regs: seq<Regs>, l: Log, dest: int, pick: Pick)
    requires Inv(q, regs) && 1 <= dest < NR_PROCS
    requires InOrder(q.smallSend, l, pick) && ReceiversKeep(q.smallRecv, pick)
    requires Kept(pick, dest, regs[dest].ebx)
    ensures var r := SmallReceive(q, regs, dest);
            InOrder(r.q.smallSend, AfterReceive(l, dest, r), pick) && ReceiversKeep(r.q.smallRecv, pick)
  {
    hide InOrder, FindSend, Picks, Kept, NoMissed, SlotsOnce, SendOk, RecvOk, Sending, Receiving;
    var r := SmallReceive(q, regs, dest);
    if r.out.Met? {
      assert Found(r, dest) == [Pending(q.smallSend)[FindSend(q.smallSend, regs[dest].ebx, dest)]];
      OfferedInOrder(q.smallSend, l, regs[dest].ebx, dest, pick);
    } else if r.out.Queued? {
      assert Kept(pick, r.q.smallRecv[|q.smallRecv|].dest, r.q.smallRecv[|q.smallRecv|].want);
    }
  }

  lemma BigReceiveInOrder(q: Queues, regs: seq<Regs>, l: Log, dest: int, entry: int, pick: Pick)
    requires Inv(q, regs) && 1 <= dest < NR_PROCS
    requires InOrder(q.bigSend, l, pick) && ReceiversKeep(q.bigRecv, pick)
    requires Kept(pick, dest, regs[dest].ebx)
    ensures var r := BigReceive(q, regs, dest, entry);
            InOrder(r.q.bigSend, AfterReceive(l, dest, r), pick) && ReceiversKeep(r.q.bigRecv, pick)
  {
    hide InOrder, FindSend, Picks, Kept, NoMissed, SlotsOnce, SendOk, RecvOk, Sending, Receiving;
    var r := BigReceive(q, regs, dest, entry);
    if r.out.Met? {
      assert Found(r, dest) == [Pending(q.bigSend)[FindSend(q.bigSend, regs[dest].ebx, dest)]];
      OfferedInOrder(q.bigSend, l, regs[dest].ebx, dest, pick);
    } else if r.out.Queued? {
      assert Kept(pick, r.q.bigRecv[|q.bigRecv|].dest, r.q.bigRecv[|q.bigRecv|].want);
    }
  }
}
