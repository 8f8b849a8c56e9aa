/**
  What every message call keeps: who owns the nodes, that no sender waits beside
  a receiver it could meet, who may block on whom, and the order of messages.
 */
module Rendezvous {
  import opened Limits
  import opened Messaging

  // ------------------------------------------------------------------ owners

  function Senders(q: seq<Send>): (r: seq<int>)
    ensures |r| == |q| && forall i :: 0 <= i < |q| ==> r[i] == q[i].src
  {
    seq(|q|, i requires 0 <= i < |q| => q[i].src)
  }

  function Receivers(q: seq<Recv>): (r: seq<int>)
    ensures |r| == |q| && forall i :: 0 <= i < |q| ==> r[i] == q[i].dest
  {
    seq(|q|, i requires 0 <= i < |q| => q[i].dest)
  }

  /** The owner of every node, as often as it owns one. */
  function Owners(q: Queues): multiset<int> {
    multiset(Senders(q.smallSend)) + multiset(Receivers(q.smallRecv)) +
    multiset(Senders(q.bigSend)) + multiset(Receivers(q.bigRecv))
  }

  lemma RemoveFromMultiset(s: seq<int>, k: nat)
    requires k < |s|
    ensures multiset(Remove(s, k)) == multiset(s) - multiset{s[k]}
  {
    assert s == s[..k] + [s[k]] + s[k + 1..];
  }

  lemma RemoveSender(q: seq<Send>, k: nat)
    requires k < |q|
    ensures multiset(Senders(q)) == multiset(Senders(Remove(q, k))) + multiset{q[k].src}
  {
    assert Senders(Remove(q, k)) == Remove(Senders(q), k);
    RemoveFromMultiset(Senders(q), k);
  }

  lemma RemoveReceiver(q: seq<Recv>, k: nat)
    requires k < |q|
    ensures multiset(Receivers(q)) == multiset(Receivers(Remove(q, k))) + multiset{q[k].dest}
  {
    assert Receivers(Remove(q, k)) == Remove(Receivers(q), k);
    RemoveFromMultiset(Receivers(q), k);
  }

  lemma AddSender(q: seq<Send>, s: Send)
    ensures multiset(Senders(q + [s])) == multiset(Senders(q)) + multiset{s.src}
  {
    assert Senders(q + [s]) == Senders(q) + [s.src];
  }

  lemma AddReceiver(q: seq<Recv>, r: Recv)
    ensures multiset(Receivers(q + [r])) == multiset(Receivers(q)) + multiset{r.dest}
  {
    assert Receivers(q + [r]) == Receivers(q) + [r.dest];
  }

  // -------------------------------------------------------------- invariant

  predicate SendOk(s: Send) {
    && IsPid(s.dest)
    && if s.src == MSG_HARDWARE then 0 <= s.slot < NR_MSG_HARDWARE else 1 <= s.src < NR_PROCS && s.slot == -1
  }

  predicate RecvOk(r: Recv, regs: seq<Regs>)
    requires |regs| == NR_PROCS
  {
    1 <= r.dest < NR_PROCS && SmallRecvArgsOk(r.want, r.dest) && regs[r.dest].ebx == r.want
  }

  /** No queued sender and queued receiver could meet. */
  ghost predicate NoMissed(ss: seq<Send>, rs: seq<Recv>) {
    forall i, j :: 0 <= i < |ss| && 0 <= j < |rs| ==> !Takes(rs[j], ss[i].src, ss[i].dest)
  }

  /** Each pool slot holds at most one queued message. */
  ghost predicate SlotsOnce(ss: seq<Send>) {
    forall i, j :: 0 <= i < |ss| && 0 <= j < |ss| && ss[i].slot == ss[j].slot != -1 ==> i == j
  }

  ghost predicate Inv(q: Queues, regs: seq<Regs>) {
    && |regs| == NR_PROCS
    && (forall k :: 0 <= k < |q.smallSend| ==> SendOk(q.smallSend[k]))
    && (forall k :: 0 <= k < |q.bigSend| ==> SendOk(q.bigSend[k]) && q.bigSend[k].src != MSG_HARDWARE)
    && (forall k :: 0 <= k < |q.smallRecv| ==> RecvOk(q.smallRecv[k], regs))
    && (forall k :: 0 <= k < |q.bigRecv| ==> RecvOk(q.bigRecv[k], regs) && q.bigRecv[k].want != MSG_HARDWARE)
    && NoMissed(q.smallSend, q.smallRecv) && NoMissed(q.bigSend, q.bigRecv)
    && SlotsOnce(q.smallSend)
  }

  /** The node of every process that is blocked, and nothing for the others. */
  ghost predicate OwnersAre(q: Queues, asleep: set<int>) {
    forall p :: IsPid(p) ==> Owners(q)[p] == if p in asleep then 1 else 0
  }

  /** Which processes sleep after a call by caller. */
  function AsleepAfter(asleep: set<int>, caller: int, out: Outcome): set<int> {
    match out
    case Rejected => asleep
    case Queued => if caller == MSG_HARDWARE then asleep else asleep + {caller}
    case Met(peer, _) => asleep - {peer}
  }

  /** A process that owns no node has none in any queue. */
  lemma AwakeOwnsNothing(q: Queues, asleep: set<int>, p: int)
    requires OwnersAre(q, asleep) && IsPid(p) && p !in asleep
    ensures forall k :: 0 <= k < |q.smallSend| ==> q.smallSend[k].src != p
    ensures forall k :: 0 <= k < |q.bigSend| ==> q.bigSend[k].src != p
    ensures forall k :: 0 <= k < |q.smallRecv| ==> q.smallRecv[k].dest != p
    ensures forall k :: 0 <= k < |q.bigRecv| ==> q.bigRecv[k].dest != p
  {
    assert Owners(q)[p] == 0;
    assert p !in multiset(Senders(q.smallSend)) && p !in multiset(Senders(q.bigSend));
    assert p !in multiset(Receivers(q.smallRecv)) && p !in multiset(Receivers(q.bigRecv));
    assert forall k :: 0 <= k < |q.smallSend| ==> Senders(q.smallSend)[k] in Senders(q.smallSend);
    assert forall k :: 0 <= k < |q.bigSend| ==> Senders(q.bigSend)[k] in Senders(q.bigSend);
    assert forall k :: 0 <= k < |q.smallRecv| ==> Receivers(q.smallRecv)[k] in Receivers(q.smallRecv);
    assert forall k :: 0 <= k < |q.bigRecv| ==> Receivers(q.bigRecv)[k] in Receivers(q.bigRecv);
  }

  /** The caller's request is in its registers; nobody else's changed. */
  ghost predicate Ready(q: Queues, regs: seq<Regs>, asleep: set<int>, caller: int) {
    && Inv(q, regs) && OwnersAre(q, asleep) && 0 !in asleep
    && (caller == MSG_HARDWARE || (1 <= caller < NR_PROCS && caller !in asleep))
  }

  /** What a call leaves: the invariant, and a node for exactly the sleepers. */
  ghost predicate Kept(r: Result, asleep: set<int>, caller: int) {
    && Inv(r.q, r.regs)
    && OwnersAre(r.q, AsleepAfter(asleep, caller, r.out))
    && (r.out.Met? ==> r.out.peer == MSG_HARDWARE || (r.out.peer in asleep && 1 <= r.out.peer < NR_PROCS))
  }

  /** Registers may change for a process that owns no node. */
  lemma RegsOfAwake(q: Queues, regs: seq<Regs>, p: int, r: Regs, asleep: set<int>)
    requires Inv(q, regs) && OwnersAre(q, asleep) && IsPid(p) && p !in asleep
    ensures Inv(q, regs[p := r])
  {
    AwakeOwnsNothing(q, asleep, p);
  }

  lemma OwnerSleeps(q: Queues, asleep: set<int>, p: int)
    requires OwnersAre(q, asleep) && IsPid(p) && p in Owners(q)
    ensures p in asleep && Owners(q)[p] == 1
  {
  }

  function RecvQ(q: Queues, big: bool): seq<Recv> {
    if big then q.bigRecv else q.smallRecv
  }

  function SendQ(q: Queues, big: bool): seq<Send> {
    if big then q.bigSend else q.smallSend
  }

  function WithRecvQ(q: Queues, big: bool, l: seq<Recv>): Queues {
    if big then q.(bigRecv := l) else q.(smallRecv := l)
  }

  function WithSendQ(q: Queues, big: bool, l: seq<Send>): Queues {
    if big then q.(bigSend := l) else q.(smallSend := l)
  }

  lemma RecvLeavesInv(q: Queues, regs: seq<Regs>, k: nat, big: bool)
    requires Inv(q, regs) && k < |RecvQ(q, big)|
    ensures Inv(WithRecvQ(q, big, Remove(RecvQ(q, big), k)), regs)
    ensures Owners(q) == Owners(WithRecvQ(q, big, Remove(RecvQ(q, big), k))) + multiset{RecvQ(q, big)[k].dest}
  {
    RemoveReceiver(RecvQ(q, big), k);
    if big {
    } else {
    }
  }

  lemma SendLeavesInv(q: Queues, regs: seq<Regs>, k: nat, big: bool)
    requires Inv(q, regs) && k < |SendQ(q, big)|
    ensures Inv(WithSendQ(q, big, Remove(SendQ(q, big), k)), regs)
    ensures Owners(q) == Owners(WithSendQ(q, big, Remove(SendQ(q, big), k))) + multiset{SendQ(q, big)[k].src}
    ensures SendOk(SendQ(q, big)[k])
  {
    RemoveSender(SendQ(q, big), k);
    hide RecvOk, Takes;
    if big {
    } else {
    }
  }

  lemma SendJoinsInv(q: Queues, regs: seq<Regs>, s: Send, big: bool)
    requires Inv(q, regs) && SendOk(s)
    requires s.src == MSG_HARDWARE ==> !big && !SlotUsed(q.smallSend, s.slot)
    requires FindRecv(RecvQ(q, big), s.src, s.dest) == |RecvQ(q, big)|
    ensures Inv(WithSendQ(q, big, SendQ(q, big) + [s]), regs)
    ensures Owners(WithSendQ(q, big, SendQ(q, big) + [s])) == Owners(q) + multiset{s.src}
  {
    SendJoinsOwners(q, s, big);
    NobodyTakes(SendQ(q, big), RecvQ(q, big), s);
    hide Owners, NoMissed, FindRecv, RecvOk;
    if big {
    } else {
    }
  }

  lemma SendJoinsOwners(q: Queues, s: Send, big: bool)
    ensures Owners(WithSendQ(q, big, SendQ(q, big) + [s])) == Owners(q) + multiset{s.src}
  {
    AddSender(SendQ(q, big), s);
  }

  lemma NobodyTakes(ss: seq<Send>, rs: seq<Recv>, s: Send)
    requires NoMissed(ss, rs) && FindRecv(rs, s.src, s.dest) == |rs|
    ensures NoMissed(ss + [s], rs)
  {
  }

  lemma RecvJoinsInv(q: Queues, regs: seq<Regs>, x: Recv, big: bool)
    requires Inv(q, regs) && RecvOk(x, regs) && (big ==> x.want != MSG_HARDWARE)
    requires FindSend(SendQ(q, big), x.want, x.dest) == |SendQ(q, big)|
    ensures Inv(WithRecvQ(q, big, RecvQ(q, big) + [x]), regs)
    ensures Owners(WithRecvQ(q, big, RecvQ(q, big) + [x])) == Owners(q) + multiset{x.dest}
  {
    RecvJoinsOwners(q, x, big);
    NobodyOffers(SendQ(q, big), RecvQ(q, big), x);
    hide Owners, NoMissed, SlotsOnce, FindSend, SendOk;
    if big {
    } else {
    }
  }

  lemma RecvJoinsOwners(q: Queues, x: Recv, big: bool)
    ensures Owners(WithRecvQ(q, big, RecvQ(q, big) + [x])) == Owners(q) + multiset{x.dest}
  {
    AddReceiver(RecvQ(q, big), x);
  }

  lemma NobodyOffers(ss: seq<Send>, rs: seq<Recv>, x: Recv)
    requires NoMissed(ss, rs) && FindSend(ss, x.want, x.dest) == |ss|
    ensures NoMissed(ss, rs + [x])
  {
    forall i | 0 <= i < |ss| ensures !Takes(x, ss[i].src, ss[i].dest) {
      assert !Offers(ss[i], x.want, x.dest);
    }
  }

  /** Taking a receiver off the small or the big queue. */
  lemma RecvLeaves(q: Queues, regs: seq<Regs>, asleep: set<int>, k: nat, big: bool)
    requires Inv(q, regs) && OwnersAre(q, asleep) && k < |RecvQ(q, big)|
    ensures var r := WithRecvQ(q, big, Remove(RecvQ(q, big), k)); var dest := RecvQ(q, big)[k].dest;
            1 <= dest < NR_PROCS && dest in asleep && Inv(r, regs) && OwnersAre(r, asleep - {dest})
  {
    RecvLeavesInv(q, regs, k, big);
    assert RecvOk(RecvQ(q, big)[k], regs);
    OwnerSleeps(q, asleep, RecvQ(q, big)[k].dest);
  }

  /** Taking a sender off the small or the big queue. */
  lemma SendLeaves(q: Queues, regs: seq<Regs>, asleep: set<int>, k: nat, big: bool)
    requires Inv(q, regs) && OwnersAre(q, asleep) && k < |SendQ(q, big)|
    ensures var r := WithSendQ(q, big, Remove(SendQ(q, big), k)); var src := SendQ(q, big)[k].src;
            && (src == MSG_HARDWARE || (1 <= src < NR_PROCS && src in asleep))
            && Inv(r, regs) && OwnersAre(r, asleep - {src})
  {
    hide Inv, Owners, Remove;
    SendLeavesInv(q, regs, k, big);
    if SendQ(q, big)[k].src != MSG_HARDWARE {
      OwnerSleeps(q, asleep, SendQ(q, big)[k].src);
    }
  }

  /** A sender joins a queue in which nobody takes its message. */
  lemma SendJoins(q: Queues, regs: seq<Regs>, asleep: set<int>, s: Send, big: bool)
    requires Inv(q, regs) && OwnersAre(q, asleep) && SendOk(s)
    requires s.src == MSG_HARDWARE ==> !big && !SlotUsed(q.smallSend, s.slot)
    requires s.src != MSG_HARDWARE ==> s.src !in asleep
    requires FindRecv(RecvQ(q, big), s.src, s.dest) == |RecvQ(q, big)|
    ensures var r := WithSendQ(q, big, SendQ(q, big) + [s]);
            Inv(r, regs) && OwnersAre(r, if s.src == MSG_HARDWARE then asleep else asleep + {s.src})
  {
    SendJoinsInv(q, regs, s, big);
  }

  /** A receiver joins a queue in which nobody offers it a message. */
  lemma RecvJoins(q: Queues, regs: seq<Regs>, asleep: set<int>, x: Recv, big: bool)
    requires Inv(q, regs) && OwnersAre(q, asleep) && RecvOk(x, regs) && x.dest !in asleep
    requires big ==> x.want != MSG_HARDWARE
    requires FindSend(SendQ(q, big), x.want, x.dest) == |SendQ(q, big)|
    ensures var r := WithRecvQ(q, big, RecvQ(q, big) + [x]);
            Inv(r, regs) && OwnersAre(r, asleep + {x.dest})
  {
    RecvJoinsInv(q, regs, x, big);
  }

  // -------------------------------------------------------------- the calls

  lemma SmallSendKeeps(q: Queues, regs: seq<Regs>, asleep: set<int>, src: int, dest: int, msg: int)
    requires Ready(q, regs, asleep, src)
    ensures Kept(SmallSend(q, regs, src, dest, msg), asleep, src)
  {
    var r := SmallSend(q, regs, src, dest, msg);
    var k := FindRecv(q.smallRecv, src, dest);
    match r.out
    case Rejected =>
    case Queued =>
      var slot := if src == MSG_HARDWARE then FreeSlot(q.smallSend, 0) else -1;
      SendJoins(q, regs, asleep, Send(src, dest, msg, slot), false);
    case Met(_, _) =>
      RecvLeaves(q, regs, asleep, k, false);
      RegsOfAwake(r.q, regs, dest, Delivered(regs[dest], src, msg), asleep - {dest});
  }

  lemma SmallReceiveKeeps(q: Queues, regs: seq<Regs>, asleep: set<int>, dest: int)
    requires Ready(q, regs, asleep, dest) && dest != MSG_HARDWARE
    ensures Kept(SmallReceive(q, regs, dest), asleep, dest)
  {
    var r := SmallReceive(q, regs, dest);
    var k := FindSend(q.smallSend, regs[dest].ebx, dest);
    match r.out
    case Rejected =>
    case Queued =>
      RecvJoins(q, regs, asleep, Recv(regs[dest].ebx, dest, 0), false);
    case Met(_, _) =>
      var s := q.smallSend[k];
      SendLeaves(q, regs, asleep, k, false);
      RegsOfAwake(r.q, regs, dest, Delivered(regs[dest], s.src, s.msg), asleep - {s.src});
  }

  lemma BigSendKeeps(q: Queues, regs: seq<Regs>, asleep: set<int>, src: int, dest: int, key: int, entry: int)
    requires Ready(q, regs, asleep, src) && src != MSG_HARDWARE
    ensures Kept(BigSend(q, regs, src, dest, key, entry), asleep, src)
  {
    var r := BigSend(q, regs, src, dest, key, entry);
    var k := FindRecv(q.bigRecv, src, dest);
    match r.out
    case Rejected =>
    case Queued =>
      SendJoins(q, regs, asleep, Send(src, dest, entry, -1), true);
    case Met(_, _) =>
      RecvLeaves(q, regs, asleep, k, true);
      RegsOfAwake(r.q, regs, dest, Named(regs[dest], src), asleep - {dest});
  }

  lemma BigReceiveKeeps(q: Queues, regs: seq<Regs>, asleep: set<int>, dest: int, entry: int)
    requires Ready(q, regs, asleep, dest) && dest != MSG_HARDWARE
    ensures Kept(BigReceive(q, regs, dest, entry), asleep, dest)
  {
    var r := BigReceive(q, regs, dest, entry);
    var k := FindSend(q.bigSend, regs[dest].ebx, dest);
    match r.out
    case Rejected =>
    case Queued =>
      RecvJoins(q, regs, asleep, Recv(regs[dest].ebx, dest, entry), true);
    case Met(_, _) =>
      var s := q.bigSend[k];
      SendLeaves(q, regs, asleep, k, true);
      RegsOfAwake(r.q, regs, dest, Named(regs[dest], s.src), asleep - {s.src});
  }

  // ------------------------------------------------------- mutual waiting

  /** p is blocked on x by name, whichever way. */
  predicate BlockedOn(q: Queues, p: int, x: int) {
    Sending(q.smallSend, p, x) || Receiving(q.smallRecv, p, x) || Sending(q.bigSend, p, x) || Receiving(q.bigRecv, p, x)
  }

  /** small_send refuses exactly an invalid destination and, when no receiver
      takes the message, a partner blocked on the caller; a hardware message is
      refused only for want of a pool slot. */
  lemma SmallSendRejectsExactly(q: Queues, regs: seq<Regs>, src: int, dest: int, msg: int)
    requires Inv(q, regs) && (src == MSG_HARDWARE || 1 <= src < NR_PROCS)
    ensures SmallSend(q, regs, src, dest, msg).out.Rejected? <==>
              || !IsPid(dest)
              || (&& FindRecv(q.smallRecv, src, dest) == |q.smallRecv|
                  && if src == MSG_HARDWARE then forall i :: 0 <= i < NR_MSG_HARDWARE ==> SlotUsed(q.smallSend, i)
                     else BlockedOn(q, dest, src))
  {
    if src == MSG_HARDWARE && IsPid(dest) {
      assert !Sending(q.smallSend, dest, src) && !Sending(q.bigSend, dest, src) && !Receiving(q.bigRecv, dest, src);
    }
  }

  /** small_receive refuses exactly an invalid partner and, when nobody offers a
      message, a named partner blocked on the caller. */
  lemma SmallReceiveRejectsExactly(q: Queues, regs: seq<Regs>, dest: int)
    requires Inv(q, regs) && 1 <= dest < NR_PROCS
    ensures SmallReceive(q, regs, dest).out.Rejected? <==>
              var want := regs[dest].ebx;
              || !SmallRecvArgsOk(want, dest)
              || (FindSend(q.smallSend, want, dest) == |q.smallSend| && BlockedOn(q, want, dest))
  {
    var want := regs[dest].ebx;
    assert FindSend(q.smallSend, want, dest) == |q.smallSend| ==> !Sending(q.smallSend, want, dest);
  }

  lemma BigReceiveRejectsExactly(q: Queues, regs: seq<Regs>, dest: int, entry: int)
    requires Inv(q, regs) && 1 <= dest < NR_PROCS
    ensures BigReceive(q, regs, dest, entry).out.Rejected? <==>
              var want := regs[dest].ebx;
              || !BigRecvArgsOk(want, dest)
              || (FindSend(q.bigSend, want, dest) == |q.bigSend| && BlockedOn(q, want, dest))
  {
    var want := regs[dest].ebx;
    assert FindSend(q.bigSend, want, dest) == |q.bigSend| ==> !Sending(q.bigSend, want, dest);
  }

  /** With the address compared, big_send refuses nothing but invalid pids ... */
  lemma BigSendRejectsExactly(q: Queues, regs: seq<Regs>, src: int, dest: int, key: int, entry: int)
    requires Inv(q, regs) && 1 <= src < NR_PROCS && key >= NR_PROCS
    ensures BigSend(q, regs, src, dest, key, entry).out.Rejected? <==> !IsPid(dest)
  {
  }

  /** ... where with the pid compared it would refuse like the other calls. */
  lemma BigSendByPidRejectsExactly(q: Queues, regs: seq<Regs>, src: int, dest: int, entry: int)
    requires Inv(q, regs) && 1 <= src < NR_PROCS
    ensures BigSend(q, regs, src, dest, dest, entry).out.Rejected? <==>
              !IsPid(dest) || (FindRecv(q.bigRecv, src, dest) == |q.bigRecv| && BlockedOn(q, dest, src))
  {
    assert FindRecv(q.bigRecv, src, dest) == |q.bigRecv| ==> !Receiving(q.bigRecv, dest, src);
  }

  // ------------------------------------------------------------ wait cycles

  /** Two processes blocked on each other. */
  predicate Deadlocked(q: Queues, p: int, x: int) {
    IsPid(p) && IsPid(x) && p != x && BlockedOn(q, p, x) && BlockedOn(q, x, p)
  }

  ghost predicate ClosesNoCycle(q: Queues, r: Queues) {
    forall p, x :: Deadlocked(r, p, x) ==> Deadlocked(q, p, x)
  }

  lemma SenderJoined(q: seq<Send>, s: Send, p: int, d: int)
    ensures Sending(q + [s], p, d) <==> Sending(q, p, d) || (s.src == p && s.dest == d)
  {
    if Sending(q, p, d) {
      var k :| 0 <= k < |q| && q[k].src == p && q[k].dest == d;
      assert (q + [s])[k] == q[k];
    }
    assert (q + [s])[|q|] == s;
  }

  lemma ReceiverJoined(q: seq<Recv>, r: Recv, p: int, w: int)
    ensures Receiving(q + [r], p, w) <==> Receiving(q, p, w) || (r.dest == p && r.want == w)
  {
    if Receiving(q, p, w) {
      var k :| 0 <= k < |q| && q[k].dest == p && q[k].want == w;
      assert (q + [r])[k] == q[k];
    }
    assert (q + [r])[|q|] == r;
  }

  lemma SenderLeft(q: seq<Send>, k: nat, p: int, d: int)
    requires k < |q|
    ensures Sending(Remove(q, k), p, d) ==> Sending(q, p, d)
  {
  }

  lemma ReceiverLeft(q: seq<Recv>, k: nat, p: int, w: int)
    requires k < |q|
    ensures Receiving(Remove(q, k), p, w) ==> Receiving(q, p, w)
  {
  }

  /** A call in which nobody joins a queue blocks nobody. */
  ghost predicate NobodyNewBlocked(q: Queues, r: Queues) {
    forall p, x :: BlockedOn(r, p, x) ==> BlockedOn(q, p, x)
  }

  /** Only caller is newly blocked, on partner alone. */
  ghost predicate OnlyBlocks(q: Queues, r: Queues, caller: int, partner: int) {
    forall p, x :: BlockedOn(r, p, x) <==> BlockedOn(q, p, x) || (p == caller && x == partner)
  }

  lemma SmallSendBlocks(q: Queues, regs: seq<Regs>, src: int, dest: int, msg: int)
    requires Inv(q, regs) && (src == MSG_HARDWARE || 1 <= src < NR_PROCS)
    ensures var r := SmallSend(q, regs, src, dest, msg);
            if r.out.Queued? then OnlyBlocks(q, r.q, src, dest) else NobodyNewBlocked(q, r.q)
  {
    var r := SmallSend(q, regs, src, dest, msg);
    forall p, x ensures r.out.Queued? ==> (BlockedOn(r.q, p, x) <==> BlockedOn(q, p, x) || (p == src && x == dest)) {
      if r.out.Queued? {
        SenderJoined(q.smallSend, r.q.smallSend[|q.smallSend|], p, x);
      }
    }
    if r.out.Met? {
      forall p, x | BlockedOn(r.q, p, x) ensures BlockedOn(q, p, x) {
        ReceiverLeft(q.smallRecv, FindRecv(q.smallRecv, src, dest), p, x);
      }
    }
  }

  lemma SmallReceiveBlocks(q: Queues, regs: seq<Regs>, dest: int)
    requires Inv(q, regs) && 1 <= dest < NR_PROCS
    ensures var r := SmallReceive(q, regs, dest);
            if r.out.Queued? then OnlyBlocks(q, r.q, dest, regs[dest].ebx) else NobodyNewBlocked(q, r.q)
  {
    var r := SmallReceive(q, regs, dest);
    forall p, x ensures r.out.Queued? ==>
        (BlockedOn(r.q, p, x) <==> BlockedOn(q, p, x) || (p == dest && x == regs[dest].ebx)) {
      if r.out.Queued? {
        ReceiverJoined(q.smallRecv, r.q.smallRecv[|q.smallRecv|], p, x);
      }
    }
    if r.out.Met? {
      forall p, x | BlockedOn(r.q, p, x) ensures BlockedOn(q, p, x) {
        SenderLeft(q.smallSend, FindSend(q.smallSend, regs[dest].ebx, dest), p, x);
      }
    }
  }

  lemma BigSendBlocks(q: Queues, regs: seq<Regs>, src: int, dest: int, key: int, entry: int)
    requires Inv(q, regs) && 1 <= src < NR_PROCS
    ensures var r := BigSend(q, regs, src, dest, key, entry);
            && (if r.out.Queued? then OnlyBlocks(q, r.q, src, dest) && Sending(r.q.bigSend, src, dest)
                else NobodyNewBlocked(q, r.q))
  {
    var r := BigSend(q, regs, src, dest, key, entry);
    forall p, x ensures r.out.Queued? ==> (BlockedOn(r.q, p, x) <==> BlockedOn(q, p, x) || (p == src && x == dest)) {
      if r.out.Queued? {
        SenderJoined(q.bigSend, r.q.bigSend[|q.bigSend|], p, x);
      }
    }
    if r.out.Queued? {
      SenderJoined(q.bigSend, r.q.bigSend[|q.bigSend|], src, dest);
    }
    if r.out.Met? {
      forall p, x | BlockedOn(r.q, p, x) ensures BlockedOn(q, p, x) {
        ReceiverLeft(q.bigRecv, FindRecv(q.bigRecv, src, dest), p, x);
      }
    }
  }

  lemma BigReceiveBlocks(q: Queues, regs: seq<Regs>, dest: int, entry: int)
    requires Inv(q, regs) && 1 <= dest < NR_PROCS
    ensures var r := BigReceive(q, regs, dest, entry);
            if r.out.Queued? then OnlyBlocks(q, r.q, dest, regs[dest].ebx) else NobodyNewBlocked(q, r.q)
  {
    var r := BigReceive(q, regs, dest, entry);
    forall p, x ensures r.out.Queued? ==>
        (BlockedOn(r.q, p, x) <==> BlockedOn(q, p, x) || (p == dest && x == regs[dest].ebx)) {
      if r.out.Queued? {
        ReceiverJoined(q.bigRecv, r.q.bigRecv[|q.bigRecv|], p, x);
      }
    }
    if r.out.Met? {
      forall p, x | BlockedOn(r.q, p, x) ensures BlockedOn(q, p, x) {
        SenderLeft(q.bigSend, FindSend(q.bigSend, regs[dest].ebx, dest), p, x);
      }
    }
  }

  lemma NewBlockClosesNoCycle(q: Queues, r: Queues, caller: int, partner: int)
    requires OnlyBlocks(q, r, caller, partner) && caller != partner && !BlockedOn(q, partner, caller)
    ensures ClosesNoCycle(q, r)
  {
    assert !BlockedOn(r, partner, caller);
    forall p, x | Deadlocked(r, p, x) ensures Deadlocked(q, p, x) {
      assert BlockedOn(r, p, x) && BlockedOn(r, x, p);
    }
  }

  lemma NobodyNewClosesNoCycle(q: Queues, r: Queues)
    requires NobodyNewBlocked(q, r)
    ensures ClosesNoCycle(q, r)
  {
  }

  /** small_send never closes a cycle of two processes waiting for each other. */
  lemma SmallSendClosesNoCycle(q: Queues, regs: seq<Regs>, src: int, dest: int, msg: int)
    requires Inv(q, regs) && (src == MSG_HARDWARE || 1 <= src < NR_PROCS) && src != dest
    ensures ClosesNoCycle(q, SmallSend(q, regs, src, dest, msg).q)
  {
    var r := SmallSend(q, regs, src, dest, msg);
    SmallSendBlocks(q, regs, src, dest, msg);
    SmallSendRejectsExactly(q, regs, src, dest, msg);
    if r.out.Queued? && src != MSG_HARDWARE {
      NewBlockClosesNoCycle(q, r.q, src, dest);
    } else if !r.out.Queued? {
      NobodyNewClosesNoCycle(q, r.q);
    }
  }

  lemma SmallReceiveClosesNoCycle(q: Queues, regs: seq<Regs>, dest: int)
    requires Inv(q, regs) && 1 <= dest < NR_PROCS && regs[dest].ebx != dest
    ensures ClosesNoCycle(q, SmallReceive(q, regs, dest).q)
  {
    var r := SmallReceive(q, regs, dest);
    SmallReceiveBlocks(q, regs, dest);
    SmallReceiveRejectsExactly(q, regs, dest);
    if r.out.Queued? {
      NewBlockClosesNoCycle(q, r.q, dest, regs[dest].ebx);
    } else {
      NobodyNewClosesNoCycle(q, r.q);
    }
  }

  lemma BigReceiveClosesNoCycle(q: Queues, regs: seq<Regs>, dest: int, entry: int)
    requires Inv(q, regs) && 1 <= dest < NR_PROCS && regs[dest].ebx != dest
    ensures ClosesNoCycle(q, BigReceive(q, regs, dest, entry).q)
  {
    var r := BigReceive(q, regs, dest, entry);
    BigReceiveBlocks(q, regs, dest, entry);
    BigReceiveRejectsExactly(q, regs, dest, entry);
    if r.out.Queued? {
      NewBlockClosesNoCycle(q, r.q, dest, regs[dest].ebx);
    } else {
      NobodyNewClosesNoCycle(q, r.q);
    }
  }

  /** With the pid compared, as was meant, big_send closes no cycle either. */
  lemma BigSendByPidClosesNoCycle(q: Queues, regs: seq<Regs>, src: int, dest: int, entry: int)
    requires Inv(q, regs) && 1 <= src < NR_PROCS && src != dest
    ensures ClosesNoCycle(q, BigSend(q, regs, src, dest, dest, entry).q)
  {
    var r := BigSend(q, regs, src, dest, dest, entry);
    BigSendBlocks(q, regs, src, dest, dest, entry);
    BigSendByPidRejectsExactly(q, regs, src, dest, entry);
    if r.out.Queued? {
      NewBlockClosesNoCycle(q, r.q, src, dest);
    } else {
      NobodyNewClosesNoCycle(q, r.q);
    }
  }

  /** With the address compared, big_send closes a cycle exactly when it names a
      valid partner that is blocked on the caller while no receiver takes the
      message; and then no other cycle. */
  lemma BigSendClosesCycleExactly(q: Queues, regs: seq<Regs>, src: int, dest: int, key: int, entry: int, p: int, x: int)
    requires Inv(q, regs) && 1 <= src < NR_PROCS && src != dest && key >= NR_PROCS
    requires !Deadlocked(q, p, x)
    ensures var r := BigSend(q, regs, src, dest, key, entry);
            Deadlocked(r.q, p, x) <==>
              && IsPid(dest) && FindRecv(q.bigRecv, src, dest) == |q.bigRecv| && BlockedOn(q, dest, src)
              && ((p == src && x == dest) || (p == dest && x == src))
  {
    var r := BigSend(q, regs, src, dest, key, entry);
    BigSendBlocks(q, regs, src, dest, key, entry);
    BigSendRejectsExactly(q, regs, src, dest, key, entry);
    if r.out.Queued? {
      assert BlockedOn(r.q, p, x) <==> BlockedOn(q, p, x) || (p == src && x == dest);
      assert BlockedOn(r.q, x, p) <==> BlockedOn(q, x, p) || (x == src && p == dest);
    } else {
      assert BlockedOn(r.q, p, x) ==> BlockedOn(q, p, x);
      assert BlockedOn(r.q, x, p) ==> BlockedOn(q, x, p);
    }
  }

  // ---------------------------------------------------------- arrival order

  lemma RemoveLast<T>(q: seq<T>, x: T)
    ensures Remove(q + [x], |q|) == q
  {
  }

  /** When both calls go through and nobody else is in the way, the order of a
      small_send and the matching small_receive does not matter; afterwards both
      parties are awake, and everybody else is as before. */
  lemma SmallOrderDoesNotMatter(q: Queues, regs: seq<Regs>, asleep: set<int>, src: int, dest: int, msg: int)
    requires Inv(q, regs) && 1 <= dest < NR_PROCS && src != dest
    requires src == MSG_HARDWARE || 1 <= src < NR_PROCS
    requires regs[dest].ebx == MSG_ANY || regs[dest].ebx == src
    requires SmallSend(q, regs, src, dest, msg).out.Queued? && SmallReceive(q, regs, dest).out.Queued?
    ensures var sent := SmallSend(q, regs, src, dest, msg); var waiting := SmallReceive(q, regs, dest);
            var a := SmallReceive(sent.q, sent.regs, dest); var b := SmallSend(waiting.q, waiting.regs, src, dest, msg);
            && a.q == b.q == q && a.regs == b.regs == regs[dest := Regs(src, msg)]
            && a.out == Met(src, NoCopy) && b.out == Met(dest, NoCopy)
            && (src !in asleep && dest !in asleep ==>
                  && AsleepAfter(AsleepAfter(asleep, src, sent.out), dest, a.out) == asleep
                  && AsleepAfter(AsleepAfter(asleep, dest, waiting.out), src, b.out) == asleep)
  {
    var sent := SmallSend(q, regs, src, dest, msg);
    var waiting := SmallReceive(q, regs, dest);
    RemoveLast(q.smallSend, sent.q.smallSend[|q.smallSend|]);
    RemoveLast(q.smallRecv, waiting.q.smallRecv[|q.smallRecv|]);
    assert FindSend(sent.q.smallSend, regs[dest].ebx, dest) == |q.smallSend| by {
      assert Offers(sent.q.smallSend[|q.smallSend|], regs[dest].ebx, dest);
      assert forall i :: 0 <= i < |q.smallSend| ==> sent.q.smallSend[i] == q.smallSend[i];
    }
    assert FindRecv(waiting.q.smallRecv, src, dest) == |q.smallRecv| by {
      assert Takes(waiting.q.smallRecv[|q.smallRecv|], src, dest);
      assert forall i :: 0 <= i < |q.smallRecv| ==> waiting.q.smallRecv[i] == q.smallRecv[i];
    }
  }

  lemma BigOrderDoesNotMatter(q: Queues, regs: seq<Regs>, asleep: set<int>,
                              src: int, dest: int, key: int, from: int, to: int)
    requires Inv(q, regs) && 1 <= dest < NR_PROCS && 1 <= src < NR_PROCS && src != dest
    requires regs[dest].ebx == MSG_ANY || regs[dest].ebx == src
    requires BigSend(q, regs, src, dest, key, from).out.Queued? && BigReceive(q, regs, dest, to).out.Queued?
    ensures var sent := BigSend(q, regs, src, dest, key, from); var waiting := BigReceive(q, regs, dest, to);
            var a := BigReceive(sent.q, sent.regs, dest, to);
            var b := BigSend(waiting.q, waiting.regs, src, dest, key, from);
            && a.q == b.q == q && a.regs == b.regs == regs[dest := regs[dest].(ebx := src)]
            && a.out == Met(src, Copy(from, to)) && b.out == Met(dest, Copy(from, to))
            && (src !in asleep && dest !in asleep ==>
                  && AsleepAfter(AsleepAfter(asleep, src, sent.out), dest, a.out) == asleep
                  && AsleepAfter(AsleepAfter(asleep, dest, waiting.out), src, b.out) == asleep)
  {
    var sent := BigSend(q, regs, src, dest, key, from);
    var waiting := BigReceive(q, regs, dest, to);
    RemoveLast(q.bigSend, sent.q.bigSend[|q.bigSend|]);
    RemoveLast(q.bigRecv, waiting.q.bigRecv[|q.bigRecv|]);
    assert FindSend(sent.q.bigSend, regs[dest].ebx, dest) == |q.bigSend| by {
      assert Offers(sent.q.bigSend[|q.bigSend|], regs[dest].ebx, dest);
      assert forall i :: 0 <= i < |q.bigSend| ==> sent.q.bigSend[i] == q.bigSend[i];
    }
    assert FindRecv(waiting.q.bigRecv, src, dest) == |q.bigRecv| by {
      assert Takes(waiting.q.bigRecv[|q.bigRecv|], src, dest);
      assert forall i :: 0 <= i < |q.bigRecv| ==> waiting.q.bigRecv[i] == q.bigRecv[i];
    }
  }
}
