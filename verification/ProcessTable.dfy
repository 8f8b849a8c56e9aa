/**
  kernel/proc.c as it is written: process blocks linked into three ready lists
  through next_ready, each list with a head and a tail pointer.
 */
module ProcessTable {
  import opened Limits
  import opened Scheduling

  class Process {
    const pid: int
    const kind: int
    var state: State
    var counter: int
    var utime: int
    var stime: int
    var nextReady: Process?

    constructor (pid: int, kind: int)
      ensures this.pid == pid && this.kind == kind
      ensures state == Running && counter == 0 && utime == 0 && stime == 0 && nextReady == null
    {
      this.pid, this.kind := pid, kind;
      state, counter, utime, stime, nextReady := Running, 0, 0, 0, null;
    }

    /** The bookkeeping of one clock tick. */
    method Charge(cpl: int)
      modifies `utime, `stime, `counter
      ensures utime == old(utime) + (if cpl != 0 then 1 else 0)
      ensures stime == old(stime) + (if cpl != 0 then 0 else 1)
      ensures counter == if old(counter) - 1 > 0 then old(counter) - 1 else 0
    {
      if cpl != 0 {
        utime := utime + 1;
      } else {
        stime := stime + 1;
      }
      counter := counter - 1;
      if counter <= 0 {
        counter := 0;
      }
    }

    function Slot(): Slot
      reads `state, `counter, `utime, `stime
    {
      Proc(kind, state, counter, utime, stime)
    }
  }

  function ReadyAfter(q: seq<Process>, i: nat): Process? {
    if i + 1 < |q| then q[i + 1] else null
  }

  /** A head and a tail pointer; q is the list they delimit. */
  class ReadyList {
    var head: Process?
    var tail: Process?
    ghost var q: seq<Process>

    ghost predicate Valid()
      reads `head, `tail, `q, q`nextReady
    {
      && (forall i {:trigger q[i]} :: 0 <= i < |q| ==> q[i].nextReady == ReadyAfter(q, i))
      && (forall i, j :: 0 <= i < j < |q| ==> q[i] != q[j])
      && head == (if q == [] then null else q[0])
      && tail == (if q == [] then null else q[|q| - 1])
    }

    constructor ()
      ensures Valid() && q == []
    {
      head, tail, q := null, null, [];
    }

    /** The search loop of add_running_proc. */
    method Contains(pid: int) returns (found: bool)
      requires Valid()
      ensures found <==> exists i :: 0 <= i < |q| && q[i].pid == pid
    {
      var p := head;
      ghost var i := 0;
      while p != null
        invariant 0 <= i <= |q|
        invariant p == if i < |q| then q[i] else null
        invariant forall j :: 0 <= j < i ==> q[j].pid != pid
        decreases |q| - i
      {
        if p.pid == pid {
          return true;
        }
        p := p.nextReady;
        i := i + 1;
      }
      return false;
    }

    /** Linking p behind the tail. */
    method Append(p: Process)
      requires Valid() && p !in q
      modifies `head, `tail, `q, q`nextReady, p`nextReady
      ensures Valid() && q == old(q) + [p]
    {
      if head == null {
        head, tail := p, p;
      } else {
        tail.nextReady := p;
        tail := p;
      }
      p.nextReady := null;
      q := q + [p];
    }

    /** Taking the front off. */
    method PopFront()
      requires Valid() && q != []
      modifies `head, `tail, `q
      ensures Valid() && q == old(q)[1..]
    {
      assert q[0].nextReady == ReadyAfter(q, 0);
      head := head.nextReady;
      if head == null {
        tail := null;
      }
      assert forall i :: 0 <= i < |q[1..]| ==> q[1..][i] == q[i + 1];
      q := q[1..];
    }

    /** What schedule does with the process it displaces: behind the tail, and
        the head steps past the front when the list was not empty. */
    method Rejoin(p: Process)
      requires Valid() && p !in q
      modifies `head, `tail, `q, q`nextReady, p`nextReady
      ensures Valid() && q == if old(q) == [] then [p] else (old(q) + [p])[1..]
    {
      if head == null {
        head, tail := p, p;
        q := [p];
      } else {
        tail.nextReady := p;
        tail := p;
        head := head.nextReady;
        q := (q + [p])[1..];
      }
      p.nextReady := null;
    }
  }

  function Pids(q: seq<Process>): (r: seq<int>)
    ensures |r| == |q| && forall i :: 0 <= i < |q| ==> r[i] == q[i].pid
  {
    seq(|q|, i requires 0 <= i < |q| => q[i].pid)
  }

  /** The process table, the ready lists and the current process. */
  class Scheduler {
    const procs: seq<Process?>
    const task: ReadyList
    const server: ReadyList
    const user: ReadyList
    var current: Process
    var jiffies: int

    ghost function Blocks(): set<Process> {
      set p: Process | p in procs
    }

    ghost function Lists(): set<ReadyList> {
      {task, server, user}
    }

    /** The list of a class, as add_running_proc selects it. */
    function ListOf(kind: int): ReadyList {
      if kind == 1 then task else if kind == 2 then server else user
    }

    /** A list holds process blocks of the table, of its own class. */
    ghost predicate Holds(l: ReadyList, kind: int)
      reads l`head, l`tail, l`q, l.q`nextReady
    {
      && l.Valid()
      && forall x: Process :: x in l.q ==> Belongs(x, kind)
    }

    predicate Belongs(x: Process, kind: int) {
      0 <= x.pid < |procs| && procs[x.pid] == x && x.kind == kind
    }

    ghost predicate Shape()
      reads `current, task`head, task`tail, task`q, server`head, server`tail, server`q, user`head, user`tail, user`q
      reads task.q`nextReady, server.q`nextReady, user.q`nextReady
    {
      && |procs| == NR_PROCS
      && (forall i {:trigger procs[i]} :: 0 <= i < NR_PROCS && procs[i] != null ==>
          procs[i].pid == i && 1 <= procs[i].kind <= 3)
      && procs[0] != null && procs[0].kind == 3
      && 0 <= current.pid < NR_PROCS && procs[current.pid] == current
      && task != server && task != user && server != user
      && forall k :: 1 <= k <= 3 ==> Holds(ListOf(k), k)
    }

    /** The first n slots of the table. */
    ghost function Slots(n: nat): (r: seq<Slot>)
      reads Blocks()`state, Blocks()`counter, Blocks()`utime, Blocks()`stime
      requires n <= |procs|
      ensures |r| == n
      ensures forall i {:trigger r[i]} {:trigger procs[i]} :: 0 <= i < n ==>
        r[i] == if procs[i] == null then Empty else procs[i].Slot()
    {
      if n == 0 then [] else Slots(n - 1) + [if procs[n - 1] == null then Empty else procs[n - 1].Slot()]
    }

    ghost function Abs(): Sched
      reads this`current, task`q, server`q, user`q, Blocks()`state, Blocks()`counter, Blocks()`utime, Blocks()`stime
    {
      Sched(Slots(|procs|), [Pids(task.q), Pids(server.q), Pids(user.q)], current.pid)
    }

    ghost predicate Valid()
      reads `current, task`head, task`tail, task`q, server`head, server`tail, server`q, user`head, user`tail, user`q
      reads task.q`nextReady, server.q`nextReady, user.q`nextReady
      reads Blocks()`state, Blocks()`counter, Blocks()`utime, Blocks()`stime
    {
      Shape() && Inv(Abs())
    }

    /** The queues and the current process as proc_init leaves them. */
    constructor (procs: seq<Process?>)
      requires |procs| == NR_PROCS
      requires forall i {:trigger procs[i]} :: 0 <= i < NR_PROCS && procs[i] != null ==>
                procs[i].pid == i && 1 <= procs[i].kind <= 3
      requires procs[0] != null && procs[0].kind == 3 && procs[0].state.Running?
      ensures Valid() && this.procs == procs && fresh(task) && fresh(server) && fresh(user)
      ensures Abs().ready == [[], [], []] && Abs().cur == 0 && jiffies == 0
    {
      this.procs := procs;
      task := new ReadyList();
      server := new ReadyList();
      user := new ReadyList();
      current := procs[0];
      jiffies := 0;
      new;
      Fresh();
    }

    lemma Fresh()
      requires |procs| == NR_PROCS && procs[0] != null && procs[0].kind == 3 && procs[0].state.Running?
                && current == procs[0]
      requires forall i {:trigger procs[i]} :: 0 <= i < NR_PROCS && procs[i] != null ==>
                procs[i].pid == i && 1 <= procs[i].kind <= 3
      requires task != server && task != user && server != user
      requires task.Valid() && server.Valid() && user.Valid() && task.q == server.q == user.q == []
      ensures Valid() && Abs().ready == [[], [], []] && Abs().cur == 0
    {
      assert Abs().procs[0] == procs[0].Slot();
      assert forall k :: 1 <= k <= 3 ==> ListOf(k).q == [] && List(Abs(), k) == [];
    }

    /** No block is in two lists: the lists' kinds differ. */
    lemma KindsApart()
      requires Shape()
      ensures forall j, x: Process :: 1 <= j <= 3 && x in ListOf(j).q ==> x.kind == j && x in Blocks()
    {
      forall j, x: Process | 1 <= j <= 3 && x in ListOf(j).q ensures x.kind == j && x in Blocks() {
        assert Holds(ListOf(j), j);
        assert procs[x.pid] == x;
      }
    }

    /** The lists other than l keep their blocks and links. */
    method AppendTo(p: Process, l: ReadyList, ghost k: int)
      requires Shape() && p in procs && p !in l.q && p.kind == k && 1 <= k <= 3 && l == ListOf(k)
      modifies l`head, l`tail, l`q, Blocks()`nextReady
      ensures Shape() && l.q == old(l.q) + [p]
    {
      KindsApart();
      ghost var was := l.q;
      assert forall x :: x in was ==> Belongs(x, k);
      l.Append(p);
      assert Holds(l, k);
      forall j | 1 <= j <= 3 && j != k ensures Holds(ListOf(j), j) {
        var o := ListOf(j);
        assert o != l && old(Holds(o, j));
        forall i {:trigger o.q[i]} | 0 <= i < |o.q| ensures o.q[i].nextReady == old(o.q[i].nextReady) {
          assert o.q[i] in o.q && Belongs(o.q[i], j);
          assert o.q[i] !in was;
        }
      }
    }

    /** Linking a block behind the list of its class. */
    method Enqueue(p: Process)
      requires Shape() && p in procs && p !in ListOf(p.kind).q && 1 <= p.kind <= 3
      modifies ListOf(p.kind)`head, ListOf(p.kind)`tail, ListOf(p.kind)`q, Blocks()`nextReady
      ensures Shape()
      ensures Abs() == SetList(old(Abs()), p.kind, List(old(Abs()), p.kind) + [p.pid])
    {
      ghost var s := Abs();
      var l := ListOf(p.kind);
      AppendTo(p, l, p.kind);
      assert Pids(l.q) == Pids(old(l.q)) + [p.pid];
      SameLists(Abs(), SetList(s, p.kind, List(s, p.kind) + [p.pid]));
    }

    lemma InList(p: Process)
      requires Shape() && p in procs
      ensures 1 <= p.kind <= 3 && 0 <= p.pid < NR_PROCS && procs[p.pid] == p
      ensures p in ListOf(p.kind).q <==> p.pid in List(Abs(), p.kind)
    {
      var l := ListOf(p.kind);
      assert Holds(l, p.kind);
      assert List(Abs(), p.kind) == Pids(l.q);
      if p.pid in Pids(l.q) {
        var i :| 0 <= i < |l.q| && l.q[i].pid == p.pid;
        assert l.q[i] in l.q;
        assert l.q[i] == procs[p.pid];
      }
      if p in l.q {
        var i :| 0 <= i < |l.q| && l.q[i] == p;
        assert Pids(l.q)[i] == p.pid;
      }
    }

    /** The scan's test on a slot of the table, on values. */
    lemma MissingIs(i: int)
      requires Valid() && 1 <= i < NR_PROCS
      ensures Missing(Abs(), i) <==>
                procs[i] != null && procs[i].state.Running? && procs[i] != current
                    && procs[i] !in ListOf(procs[i].kind).q
      ensures procs[i] != null ==> 1 <= procs[i].kind <= 3 && Kind(Abs(), i) == procs[i].kind
    {
      assert Abs().procs[i] == if procs[i] == null then Empty else procs[i].Slot();
      if procs[i] != null {
        InList(procs[i]);
      }
    }

    /** One turn of the scan of add_running_proc. */
    method AddIfMissing(i: int)
      requires Valid() && 1 <= i < NR_PROCS
      modifies Lists()`head, Lists()`tail, Lists()`q, Blocks()`nextReady
      ensures Shape() && Abs() == AddProc(old(Abs()), i)
    {
      MissingIs(i);
      if procs[i] != null && procs[i].state.Running? && procs[i] != current {
        var p := procs[i];
        var l := ListOf(p.kind);
        assert Holds(l, p.kind);
        var found := l.Contains(i);
        assert found <==> p in l.q;
        if !found {
          Enqueue(p);
        }
      }
    }

    /** add_running_proc */
    method AddRunningProc()
      requires Valid()
      modifies Lists()`head, Lists()`tail, Lists()`q, Blocks()`nextReady
      ensures Valid() && Abs() == AddRunning(old(Abs()))
    {
      var i := 1;
      while i < NR_PROCS
        invariant 1 <= i <= NR_PROCS
        invariant Valid() && Abs() == AddUpTo(old(Abs()), i)
      {
        AddProcLists(Abs(), i);
        AddIfMissing(i);
        i := i + 1;
      }
    }

    method PopShape(l: ReadyList, ghost k: int)
      requires Shape() && 1 <= k <= 3 && l == ListOf(k) && l.q != []
      modifies l`head, l`tail, l`q
      ensures Shape() && l.q == old(l.q)[1..]
    {
      KindsApart();
      assert Holds(l, k);
      l.PopFront();
      assert forall x :: x in l.q ==> x in old(l.q);
      assert Holds(l, k);
    }

    /** Taking the process to run next off its list. */
    method PopReady(k: int) returns (next: int)
      requires Shape() && 1 <= k <= 3 && ListOf(k).q != []
      modifies ListOf(k)`head, ListOf(k)`tail, ListOf(k)`q
      ensures Shape() && Abs() == PopFront(old(Abs()), k)
      ensures next == List(old(Abs()), k)[0]
    {
      ghost var s := Abs();
      var l := ListOf(k);
      assert Holds(l, k);
      next := l.head.pid;
      PopShape(l, k);
      assert Pids(l.q) == Pids(old(l.q))[1..];
      SameLists(Abs(), PopFront(s, k));
    }

    method RejoinShape(p: Process, l: ReadyList, ghost k: int)
      requires Shape() && p in procs && p !in l.q && p.kind == k && 1 <= k <= 3 && l == ListOf(k)
      modifies l`head, l`tail, l`q, Blocks()`nextReady
      ensures Shape() && l.q == if old(l.q) == [] then [p] else (old(l.q) + [p])[1..]
    {
      KindsApart();
      ghost var was := l.q;
      assert forall x :: x in was ==> Belongs(x, k);
      l.Rejoin(p);
      assert forall x :: x in l.q ==> x == p || x in old(l.q);
      assert Holds(l, k);
      forall j | 1 <= j <= 3 && j != k ensures Holds(ListOf(j), j) {
        var o := ListOf(j);
        assert o != l && old(Holds(o, j));
        forall i {:trigger o.q[i]} | 0 <= i < |o.q| ensures o.q[i].nextReady == old(o.q[i].nextReady) {
          assert o.q[i] in o.q && Belongs(o.q[i], j);
          assert o.q[i] !in was;
        }
      }
    }

    /** The current process, still running, goes back to its list. */
    method RejoinReady()
      requires Shape() && current !in ListOf(current.kind).q && TableOk(Abs())
      modifies ListOf(current.kind)`head, ListOf(current.kind)`tail, ListOf(current.kind)`q, Blocks()`nextReady
      ensures Shape() && current == old(current)
      ensures Abs() == Requeue(old(Abs()))
    {
      hide Holds, Belongs;
      ghost var s := Abs();
      var l := ListOf(current.kind);
      RejoinShape(current, l, current.kind);
      assert Abs().procs == s.procs;
      assert Pids(l.q) == Rejoin(Pids(old(l.q)), current.pid);
      assert Kind(s, s.cur) == current.kind;
      SameLists(Abs(), Requeue(s));
    }

    /** switch_to, after the new process got its time slice. */
    method SwitchToProc(p: Process, counter: int)
      requires Shape() && p in procs
      requires forall k, x: Process :: 1 <= k <= 3 && x in ListOf(k).q ==> x != p
      modifies this`current, p`counter, p`nextReady
      ensures Shape() && 0 <= p.pid < NR_PROCS && old(Abs()).procs[p.pid].Proc?
      ensures Abs() == SwitchTo(old(Abs()), p.pid, counter)
    {
      ghost var s := Abs();
      p.nextReady := null;
      assert Shape() by {
        forall k | 1 <= k <= 3 ensures Holds(ListOf(k), k) {
          var l := ListOf(k);
          assert old(Holds(l, k));
          forall i {:trigger l.q[i]} | 0 <= i < |l.q| ensures l.q[i].nextReady == old(l.q[i].nextReady) {
            assert l.q[i] in ListOf(k).q;
          }
        }
      }
      GiveSlice(p, counter);
      current := p;
    }

    /** Setting a process's time slice. */
    method GiveSlice(p: Process, counter: int)
      requires Shape() && p in procs
      modifies p`counter
      ensures Shape() && 0 <= p.pid < NR_PROCS && old(Abs()).procs[p.pid].Proc?
      ensures Abs() == SetCounter(old(Abs()), p.pid, counter)
    {
      ghost var s := Abs();
      p.counter := counter;
      assert Shape() == true;
      assert forall i {:trigger procs[i]} :: 0 <= i < NR_PROCS && procs[i] != p ==>
        s.procs[i] == if procs[i] == null then Empty else procs[i].Slot();
      BlockChanged(s, p);
    }

    /** Putting a process to sleep or waking it. */
    method ChangeState(p: Process, state: State)
      requires Shape() && p in procs
      modifies p`state
      ensures Shape() && 0 <= p.pid < NR_PROCS && old(Abs()).procs[p.pid].Proc?
      ensures Abs() == SetState(old(Abs()), p.pid, state)
    {
      ghost var s := Abs();
      p.state := state;
      assert Shape() == true;
      assert forall i {:trigger procs[i]} :: 0 <= i < NR_PROCS && procs[i] != p ==>
        s.procs[i] == if procs[i] == null then Empty else procs[i].Slot();
      BlockChanged(s, p);
    }

    lemma BlockChanged(was: Sched, p: Process)
      requires Shape() && p in procs && |was.procs| == NR_PROCS
      requires was.ready == Abs().ready && was.cur == Abs().cur
      requires forall i {:trigger procs[i]} :: 0 <= i < NR_PROCS && procs[i] != p ==>
        was.procs[i] == if procs[i] == null then Empty else procs[i].Slot()
      ensures 0 <= p.pid < NR_PROCS && procs[p.pid] == p && Abs() == was.(procs := was.procs[p.pid := p.Slot()])
    {
      SlotsWith(was.procs, p);
    }

    /** The table after a change to the block of p alone. */
    lemma SlotsWith(was: seq<Slot>, p: Process)
      requires Shape() && |was| == NR_PROCS && p in procs
      requires forall i {:trigger procs[i]} :: 0 <= i < NR_PROCS && procs[i] != p ==>
        was[i] == if procs[i] == null then Empty else procs[i].Slot()
      ensures 0 <= p.pid < NR_PROCS && procs[p.pid] == p && Slots(|procs|) == was[p.pid := p.Slot()]
    {
      var n :| 0 <= n < NR_PROCS && procs[n] == p;
      forall i | 0 <= i < NR_PROCS ensures Slots(|procs|)[i] == was[p.pid := p.Slot()][i] {
        assert procs[i] != null ==> procs[i].pid == i;
      }
    }

    /** schedule */
    method Schedule()
      requires Valid()
      modifies this`current, Lists()`head, Lists()`tail, Lists()`q, Blocks()`nextReady, Blocks()`counter
      ensures Valid() && Abs() == Scheduling.Schedule(old(Abs()))
    {
      ghost var s := Abs();
      AddRunningQueuesAll(s);
      ScheduleKeepsInv(s);
      AddRunningProc();
      Dispatching();
    }

    /** A process changes its state and schedule is called. */
    method Reschedule(p: int, state: State)
      requires Valid() && 0 <= p < NR_PROCS && procs[p] != null && Inv(SetState(Abs(), p, state))
      modifies this`current, Lists()`head, Lists()`tail, Lists()`q, Blocks()`state, Blocks()`nextReady, Blocks()`counter
      ensures Valid() && old(Abs()).procs[p].Proc? && Abs() == Scheduling.Schedule(SetState(old(Abs()), p, state))
    {
      ChangeState(procs[p], state);
      Schedule();
    }

    /** What schedule does after the scan. */
    method Dispatching()
      requires Valid()
      modifies this`current, Lists()`head, Lists()`tail, Lists()`q, Blocks()`nextReady, Blocks()`counter
      ensures Shape() && Abs() == Dispatch(old(Abs()))
    {
      ghost var s := Abs();
      var counter := COUNTER;
      var flag := if current.state.Running? then current.kind else 3;
      assert s.procs[current.pid] == current.Slot();
      assert flag == Flag(s);
      assert List(s, 1) == Pids(task.q) && List(s, 2) == Pids(server.q) && List(s, 3) == Pids(user.q);
      assert Holds(ListOf(1), 1) && Holds(ListOf(2), 2) && Holds(ListOf(3), 3);
      var k := 0;
      if task.head != null {
        k := 1;
      } else if server.head != null && flag > 1 {
        k := 2;
      } else if user.head != null && flag > 2 {
        k := 3;
      }
      assert k == PickKind(s);
      if k == 0 {
        if !current.state.Running? {
          forall j, x: Process | 1 <= j <= 3 && x in ListOf(j).q ensures x != procs[0] {
            ListMembers(j, x);
            assert ListOk(s, j);
          }
          SwitchToProc(procs[0], 0);
        } else if current.pid != 0 {
          GiveSlice(current, counter);
        }
        return;
      }
      RunNext(k);
    }

    lemma ListMembers(k: int, x: Process)
      requires Shape() && 1 <= k <= 3 && x in ListOf(k).q
      ensures x.pid in List(Abs(), k)
    {
      assert Holds(ListOf(k), k) && Belongs(x, k);
      InList(x);
    }

    /** The front process of class k leaves its list, and the current process, if
        it runs and is not idle, goes back to its own. */
    method Displace(k: int) returns (next: int)
      requires Valid() && k == PickKind(Abs()) && k != 0
      modifies Lists()`head, Lists()`tail, Lists()`q, Blocks()`nextReady
      ensures Shape() && Abs() == Displaced(old(Abs()), k)
      ensures next == List(old(Abs()), k)[0]
    {
      ghost var s := Abs();
      HeadIsWaiting(s);
      NextIsNowhere(s, k, 1);
      NextIsNowhere(s, k, 2);
      NextIsNowhere(s, k, 3);
      assert s.procs[current.pid] == current.Slot();
      assert Holds(ListOf(k), k);
      next := PopReady(k);
      if current.state.Running? && current.pid != 0 {
        InList(current);
        RejoinReady();
      }
    }

    /** Running the front process of class k, the class schedule picked. */
    method RunNext(k: int)
      requires Valid() && k == PickKind(Abs()) && k != 0
      modifies this`current, Lists()`head, Lists()`tail, Lists()`q, Blocks()`nextReady, Blocks()`counter
      ensures Shape() && Abs() == Dispatch(old(Abs()))
    {
      ghost var s := Abs();
      HeadIsWaiting(s);
      NextIsNowhere(s, k, 1);
      NextIsNowhere(s, k, 2);
      NextIsNowhere(s, k, 3);
      var next := Displace(k);
      assert s.procs[next] == if procs[next] == null then Empty else procs[next].Slot();
      forall j, x: Process | 1 <= j <= 3 && x in ListOf(j).q ensures x != procs[next] {
        ListMembers(j, x);
      }
      SwitchToProc(procs[next], COUNTER);
    }

    /** The first part of do_intr_clock: the tick is charged. */
    method ChargeTick(p: Process, cpl: int)
      requires Shape() && p == current
      modifies p`utime, p`stime, p`counter
      ensures Shape() && old(Abs()).procs[old(Abs()).cur].Proc? && Abs() == Charge(old(Abs()), cpl)
    {
      ghost var s := Abs();
      assert s.procs[p.pid] == p.Slot();
      p.Charge(cpl);
      assert Shape() == true;
      assert forall i {:trigger procs[i]} :: 0 <= i < NR_PROCS && procs[i] != p ==>
        s.procs[i] == if procs[i] == null then Empty else procs[i].Slot();
      BlockChanged(s, p);
    }

    /** do_intr_clock */
    method DoIntrClock(cpl: int)
      requires Valid()
      modifies this`current, this`jiffies, Lists()`head, Lists()`tail, Lists()`q
      modifies Blocks()`state, Blocks()`nextReady, Blocks()`counter, Blocks()`utime, Blocks()`stime
      ensures Valid() && Abs() == Tick(old(Abs()), cpl) && jiffies == old(jiffies) + 1
    {
      assert Abs().procs[current.pid] == current.Slot();
      ChargeKeepsInv(Abs(), cpl);
      jiffies := jiffies + 1;
      var left := current.counter - 1;
      ChargeTick(current, cpl);
      if left > 0 || cpl == 0 {
        return;
      }
      Schedule();
    }
  }
}
