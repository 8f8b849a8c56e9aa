/**
  kernel/proc.c on values: three ready lists rebuilt by a scan of the process
  table and popped in class order.
 */
module Scheduling {
  import opened Limits

  const COUNTER := 10

  datatype State = Running | Sleeping | Zombie

  /** A slot of the process table; kind is 1 for tasks, 2 for servers, 3 for users. */
  datatype Slot =
    | Empty
    | Proc(kind: int, state: State, counter: int, utime: int, stime: int)

  datatype Sched = Sched(procs: seq<Slot>, ready: seq<seq<int>>, cur: int)

  predicate IsRunning(s: Sched, p: int) {
    0 <= p < |s.procs| && s.procs[p].Proc? && s.procs[p].state.Running?
  }

  function Kind(s: Sched, p: int): int
    requires 0 <= p < |s.procs| && s.procs[p].Proc?
  {
    s.procs[p].kind
  }

  /** A process the scan of the process table looks at: not idle, not current. */
  predicate Waiting(s: Sched, p: int) {
    1 <= p < NR_PROCS && p != s.cur && IsRunning(s, p)
  }

  /** The ready list of class k. */
  function List(s: Sched, k: int): seq<int>
    requires |s.ready| == 3 && 1 <= k <= 3
  {
    s.ready[k - 1]
  }

  function SetList(s: Sched, k: int, q: seq<int>): (r: Sched)
    requires |s.ready| == 3 && 1 <= k <= 3
    ensures |r.ready| == 3 && List(r, k) == q
    ensures forall j :: 1 <= j <= 3 && j != k ==> List(r, j) == List(s, j)
  {
    s.(ready := s.ready[k - 1 := q])
  }

  lemma SameLists(a: Sched, b: Sched)
    requires a.procs == b.procs && a.cur == b.cur && |a.ready| == 3 && |b.ready| == 3
    requires forall k :: 1 <= k <= 3 ==> List(a, k) == List(b, k)
    ensures a == b
  {
    assert List(a, 1) == List(b, 1) && List(a, 2) == List(b, 2) && List(a, 3) == List(b, 3);
  }

  ghost predicate TableOk(s: Sched) {
    && |s.procs| == NR_PROCS && |s.ready| == 3
    && (forall p :: 0 <= p < NR_PROCS && s.procs[p].Proc? ==> 1 <= s.procs[p].kind <= 3)
    && IsRunning(s, 0) && Kind(s, 0) == 3
    && 0 <= s.cur < NR_PROCS && s.procs[s.cur].Proc?
  }

  predicate NoDuplicates(q: seq<int>) {
    forall i, j :: 0 <= i < j < |q| ==> q[i] != q[j]
  }

  ghost predicate ListOk(s: Sched, k: int)
    requires TableOk(s) && 1 <= k <= 3
  {
    && NoDuplicates(List(s, k))
    && forall p :: p in List(s, k) ==> Waiting(s, p) && Kind(s, p) == k
  }

  /** The shape of the ready lists: no duplicates, only running processes of the
      list's class, never idle and never the current process. */
  ghost predicate Inv(s: Sched) {
    TableOk(s) && forall k :: 1 <= k <= 3 ==> ListOk(s, k)
  }

  /** In the ready list of its own class. */
  predicate Queued(s: Sched, p: int)
    requires |s.ready| == 3 && 0 <= p < |s.procs| && s.procs[p].Proc? && 1 <= s.procs[p].kind <= 3
  {
    p in List(s, Kind(s, p))
  }

  /** Waiting, but in no list. */
  ghost predicate Missing(s: Sched, p: int)
    requires TableOk(s)
  {
    Waiting(s, p) && !Queued(s, p)
  }

  // ------------------------------------------------------- add_running_proc

  /** One turn of the scan: p goes to the tail of its list unless it is there. */
  ghost function AddProc(s: Sched, p: int): Sched
    requires TableOk(s)
  {
    if Missing(s, p) then SetList(s, Kind(s, p), List(s, Kind(s, p)) + [p]) else s
  }

  /** The scan over processes 1 to n - 1. */
  ghost function AddUpTo(s: Sched, n: nat): (r: Sched)
    requires TableOk(s)
    ensures TableOk(r) && r.procs == s.procs && r.cur == s.cur
  {
    if n <= 1 then s else AddProc(AddUpTo(s, n - 1), n - 1)
  }

  ghost function AddRunning(s: Sched): (r: Sched)
    requires TableOk(s)
    ensures TableOk(r) && r.procs == s.procs && r.cur == s.cur
  {
    AddUpTo(s, NR_PROCS)
  }

  lemma AddProcLists(s: Sched, p: int)
    requires Inv(s)
    ensures Inv(AddProc(s, p))
    ensures forall k :: 1 <= k <= 3 ==>
      List(AddProc(s, p), k) == List(s, k) + (if Missing(s, p) && Kind(s, p) == k then [p] else [])
    ensures forall q :: Missing(AddProc(s, p), q) <==> Missing(s, q) && q != p
  {
    var r := AddProc(s, p);
    forall k | 1 <= k <= 3 ensures ListOk(r, k) {
      assert ListOk(s, k);
    }
    forall q ensures Missing(r, q) <==> Missing(s, q) && q != p {
      if Waiting(s, q) {
        assert List(r, Kind(s, q)) ==
            List(s, Kind(s, q)) + (if Missing(s, p) && Kind(s, p) == Kind(s, q) then [p] else []);
      }
    }
  }

  lemma {:induction false} AddUpToLists(s: Sched, n: nat)
    requires Inv(s) && n <= NR_PROCS
    ensures Inv(AddUpTo(s, n))
    ensures forall k :: 1 <= k <= 3 ==> List(s, k) <= List(AddUpTo(s, n), k)
    ensures forall p :: Missing(AddUpTo(s, n), p) <==> Missing(s, p) && p >= n
    ensures forall k, p :: 1 <= k <= 3 && p in List(AddUpTo(s, n), k) ==> p in List(s, k) || Missing(s, p)
  {
    if n > 1 {
      var r := AddUpTo(s, n - 1);
      AddUpToLists(s, n - 1);
      AddProcLists(r, n - 1);
      forall k, p | 1 <= k <= 3 && p in List(AddUpTo(s, n), k) ensures p in List(s, k) || Missing(s, p) {
        assert p in List(r, k) || Missing(r, p);
      }
    }
  }

  /** After add_running_proc every running process other than idle and the
      current one is in the list of its class; the lists only grow at the tail. */
  lemma AddRunningQueuesAll(s: Sched)
    requires Inv(s)
    ensures Inv(AddRunning(s))
    ensures forall p :: !Missing(AddRunning(s), p)
    ensures forall k :: 1 <= k <= 3 ==> List(s, k) <= List(AddRunning(s), k)
    ensures forall k, p :: 1 <= k <= 3 && p in List(AddRunning(s), k) ==> p in List(s, k) || Missing(s, p)
  {
    AddUpToLists(s, NR_PROCS);
  }

  // --------------------------------------------------------------- schedule

  /** The lowest class the current process may be displaced for, as the source's
      flag: any class once it stopped running. */
  function Flag(s: Sched): int
    requires 0 <= s.cur < |s.procs| && s.procs[s.cur].Proc?
  {
    if IsRunning(s, s.cur) then Kind(s, s.cur) else 3
  }

  /** The class of the process to run next, or 0. */
  function PickKind(s: Sched): (k: int)
    requires |s.ready| == 3 && 0 <= s.cur < |s.procs| && s.procs[s.cur].Proc?
    ensures 0 <= k <= 3 && (k != 0 ==> List(s, k) != [])
  {
    if List(s, 1) != [] then 1
    else if List(s, 2) != [] && Flag(s) > 1 then 2
    else if List(s, 3) != [] && Flag(s) > 2 then 3
    else 0
  }

  function SetCounter(s: Sched, p: int, c: int): Sched
    requires 0 <= p < |s.procs| && s.procs[p].Proc?
  {
    s.(procs := s.procs[p := s.procs[p].(counter := c)])
  }

  function SetState(s: Sched, p: int, state: State): Sched
    requires 0 <= p < |s.procs| && s.procs[p].Proc?
  {
    s.(procs := s.procs[p := s.procs[p].(state := state)])
  }

  function PopFront(s: Sched, k: int): Sched
    requires |s.ready| == 3 && 1 <= k <= 3 && List(s, k) != []
  {
    SetList(s, k, List(s, k)[1..])
  }

  /** The displaced process joins the tail of its list.  When the list was not
      empty, the source also steps the head past the front process. */
  function Rejoin(q: seq<int>, p: int): seq<int> {
    if q == [] then [p] else (q + [p])[1..]
  }

  ghost function Requeue(s: Sched): Sched
    requires TableOk(s)
  {
    SetList(s, Kind(s, s.cur), Rejoin(List(s, Kind(s, s.cur)), s.cur))
  }

  function SwitchTo(s: Sched, p: int, c: int): Sched
    requires 0 <= p < |s.procs| && s.procs[p].Proc?
  {
    SetCounter(s, p, c).(cur := p)
  }

  /** Everything schedule does after the scan. */
  ghost function Dispatch(s: Sched): Sched
    requires Inv(s)
  {
    var k := PickKind(s);
    if k == 0 then
      if !IsRunning(s, s.cur) then SwitchTo(s, 0, 0)
      else if s.cur != 0 then SetCounter(s, s.cur, COUNTER)
      else s
    else
      HeadIsWaiting(s);
      var next := List(s, k)[0];
      var popped := PopFront(s, k);
      var rest := if IsRunning(s, s.cur) && s.cur != 0 then Requeue(popped) else popped;
      SwitchTo(rest, next, COUNTER)
  }

  ghost function Schedule(s: Sched): Sched
    requires Inv(s)
  {
    AddRunningQueuesAll(s);
    Dispatch(AddRunning(s))
  }

  ghost predicate SameStates(s: Sched, s': Sched) {
    && |s.procs| == |s'.procs|
    && forall p :: 0 <= p < |s.procs| ==>
         s.procs[p].Proc? == s'.procs[p].Proc? &&
         (s.procs[p].Proc? ==> s'.procs[p] == s.procs[p].(counter := s'.procs[p].counter))
  }

  lemma HeadIsWaiting(s: Sched)
    requires Inv(s)
    ensures var k := PickKind(s); k != 0 ==> Waiting(s, List(s, k)[0]) && Kind(s, List(s, k)[0]) == k
  {
    var k := PickKind(s);
    if k != 0 {
      assert ListOk(s, k) && List(s, k)[0] in List(s, k);
    }
  }

  lemma DispatchLists(s: Sched, k: int)
    requires Inv(s) && 1 <= k <= 3
    ensures var r := Dispatch(s);
            && |r.ready| == 3
            && var q := if PickKind(s) == k then List(s, k)[1..] else List(s, k);
               List(r, k) ==
                 if PickKind(s) != 0 && IsRunning(s, s.cur) && s.cur != 0 && Kind(s, s.cur) == k
                 then Rejoin(q, s.cur) else q
  {
  }

  lemma DispatchListOk(s: Sched, k: int)
    requires Inv(s) && 1 <= k <= 3 && TableOk(Dispatch(s)) && SameStates(s, Dispatch(s))
    ensures ListOk(Dispatch(s), k)
  {
    var r := Dispatch(s);
    DispatchLists(s, k);
    HeadIsWaiting(s);
    assert ListOk(s, k);
    var q := if PickKind(s) == k then List(s, k)[1..] else List(s, k);
    if PickKind(s) == k {
      TailMembers(List(s, k));
    }
    RejoinMembers(q, s.cur);
    forall p | p in List(r, k) ensures Waiting(r, p) && Kind(r, p) == k {
      assert p != s.cur ==> p in q && p in List(s, k);
    }
  }

  lemma DispatchKeepsInv(s: Sched)
    requires Inv(s)
    ensures Inv(Dispatch(s)) && SameStates(s, Dispatch(s))
  {
    HeadIsWaiting(s);
    assert TableOk(Dispatch(s)) && SameStates(s, Dispatch(s));
    forall k | 1 <= k <= 3 ensures ListOk(Dispatch(s), k) {
      DispatchListOk(s, k);
    }
  }

  /** The ready lists keep their shape, and schedule changes no process but for
      time slices. */
  lemma ScheduleKeepsInv(s: Sched)
    requires Inv(s)
    ensures Inv(Schedule(s)) && SameStates(s, Schedule(s))
  {
    AddRunningQueuesAll(s);
    DispatchKeepsInv(AddRunning(s));
  }

  /** Strict priority: no running process is of a smaller class than the current
      one, and idle is current only if nothing else runs. */
  lemma StrictPriority(s: Sched)
    requires Inv(s)
    ensures var r := Schedule(s);
            && |r.procs| == NR_PROCS && IsRunning(r, r.cur)
            && (r.cur != 0 ==> forall p :: 1 <= p < NR_PROCS && IsRunning(r, p) ==> Kind(r, r.cur) <= Kind(r, p))
            && (r.cur == 0 <==> forall p :: 1 <= p < NR_PROCS ==> !IsRunning(r, p))
  {
    AddRunningQueuesAll(s);
    var a := AddRunning(s);
    DispatchKeepsInv(a);
    HeadIsWaiting(a);
    var r := Schedule(s);
    forall p | 1 <= p < NR_PROCS && IsRunning(r, p) ensures r.cur != 0 && Kind(r, r.cur) <= Kind(r, p) {
      assert !Missing(a, p);
      assert p != a.cur ==> List(a, Kind(a, p)) != [];
    }
    assert r.cur != 0 ==> IsRunning(r, r.cur) && 1 <= r.cur < NR_PROCS;
  }

  /** The process the next scan has to put back: the front of the displaced
      process's list, when that list was not empty. */
  ghost predicate Dropped(s: Sched, p: int)
    requires Inv(s)
  {
    AddRunningQueuesAll(s);
    var a := AddRunning(s);
    && PickKind(a) != 0 && IsRunning(a, a.cur) && a.cur != 0
    && var q := List(PopFront(a, PickKind(a)), Kind(a, a.cur));
       q != [] && p == q[0]
  }

  lemma TailMembers(q: seq<int>)
    requires NoDuplicates(q) && q != []
    ensures forall p :: p in q[1..] <==> p in q && p != q[0]
    ensures NoDuplicates(q[1..])
  {
    assert q == [q[0]] + q[1..];
  }

  lemma RejoinMembers(q: seq<int>, c: int)
    requires NoDuplicates(q) && c !in q
    ensures forall p :: p in Rejoin(q, c) <==> p == c || (p in q && p != q[0])
  {
    if q != [] {
      TailMembers(q);
      assert Rejoin(q, c) == q[1..] + [c];
    }
  }

  /** schedule leaves at most one running process outside the lists. */
  lemma AtMostOneDropped(s: Sched)
    requires Inv(s)
    ensures Inv(Schedule(s))
    ensures forall p :: Missing(Schedule(s), p) <==> Dropped(s, p)
  {
    AddRunningQueuesAll(s);
    ScheduleKeepsInv(s);
    forall p ensures Missing(Schedule(s), p) <==> Dropped(s, p) {
      MissingAfterDispatch(s, p);
    }
  }

  lemma MissingAfterDispatch(s: Sched, p: int)
    requires Inv(s)
    ensures Inv(Schedule(s)) && (Missing(Schedule(s), p) <==> Dropped(s, p))
  {
    AddRunningQueuesAll(s);
    var a := AddRunning(s);
    var k := PickKind(a);
    ScheduleKeepsInv(s);
    HeadIsWaiting(a);
    if k != 0 {
      var c := Kind(a, a.cur);
      assert ListOk(a, k) && ListOk(a, c);
      TailMembers(List(a, k));
      RejoinMembers(List(PopFront(a, k), c), a.cur);
    }
    if 1 <= p < NR_PROCS && IsRunning(a, p) {
      DispatchLists(a, Kind(a, p));
      assert !Missing(a, p);
    }
    if Dropped(s, p) {
      assert p in List(a, Kind(a, a.cur));
      assert Waiting(a, p) && Kind(a, p) == Kind(a, a.cur);
    }
  }

  // ------------------------------------------------------------ clock ticks

  /** The tick is charged to the current process, in user or in kernel mode. */
  function Charge(s: Sched, cpl: int): Sched
    requires 0 <= s.cur < |s.procs| && s.procs[s.cur].Proc?
  {
    var p := s.procs[s.cur];
    var q := if cpl != 0 then p.(utime := p.utime + 1) else p.(stime := p.stime + 1);
    s.(procs := s.procs[s.cur := q.(counter := if p.counter - 1 > 0 then p.counter - 1 else 0)])
  }

  lemma ChargeKeepsInv(s: Sched, cpl: int)
    requires Inv(s)
    ensures Inv(Charge(s, cpl))
  {
    var r := Charge(s, cpl);
    forall k | 1 <= k <= 3 ensures ListOk(r, k) {
      assert ListOk(s, k);
    }
  }

  /** do_intr_clock: schedule is called when the slice is used up, and never
      from kernel mode. */
  ghost function Tick(s: Sched, cpl: int): Sched
    requires Inv(s)
  {
    ChargeKeepsInv(s, cpl);
    var r := Charge(s, cpl);
    if s.procs[s.cur].counter - 1 > 0 || cpl == 0 then r else Schedule(r)
  }

  function TimeOf(p: Slot): int {
    if p.Proc? then p.utime + p.stime else 0
  }

  /** The time charged to the first n processes. */
  function Total(procs: seq<Slot>, n: nat): int
    requires n <= |procs|
  {
    if n == 0 then 0 else Total(procs, n - 1) + TimeOf(procs[n - 1])
  }

  lemma {:induction false} TotalDiffers(a: seq<Slot>, b: seq<Slot>, n: nat, p: nat, d: int)
    requires |a| == |b| && n <= |a| && p < |a| && TimeOf(b[p]) == TimeOf(a[p]) + d
    requires forall q :: 0 <= q < |a| && q != p ==> TimeOf(b[q]) == TimeOf(a[q])
    ensures Total(b, n) == Total(a, n) + (if p < n then d else 0)
  {
    if n > 0 {
      TotalDiffers(a, b, n - 1, p, d);
    }
  }

  /** Every tick is charged to exactly one process: the total time of all
      processes advances with jiffies. */
  lemma TickChargesOnce(s: Sched, cpl: int)
    requires Inv(s)
    ensures Inv(Tick(s, cpl))
    ensures Total(Tick(s, cpl).procs, NR_PROCS) == Total(s.procs, NR_PROCS) + 1
    ensures cpl == 0 ==> Tick(s, cpl).cur == s.cur && Tick(s, cpl).ready == s.ready
  {
    var r := Charge(s, cpl);
    ChargeKeepsInv(s, cpl);
    TotalDiffers(s.procs, r.procs, NR_PROCS, s.cur, 1);
    ScheduleKeepsInv(r);
    TotalDiffers(r.procs, Schedule(r).procs, NR_PROCS, 0, 0);
  }

  /** The lists once the process to run next is off its list, and the displaced
      process is back on its own. */
  ghost function Displaced(s: Sched, k: int): Sched
    requires TableOk(s) && 1 <= k <= 3 && List(s, k) != []
  {
    if IsRunning(s, s.cur) && s.cur != 0 then Requeue(PopFront(s, k)) else PopFront(s, k)
  }

  /** The process to run next is then in no list. */
  lemma NextIsNowhere(s: Sched, k: int, j: int)
    requires Inv(s) && k == PickKind(s) != 0 && 1 <= j <= 3
    ensures TableOk(PopFront(s, k)) && TableOk(Displaced(s, k))
    ensures s.cur !in List(PopFront(s, k), j)
    ensures List(s, k)[0] !in List(Displaced(s, k), j)
  {
    HeadIsWaiting(s);
    assert ListOk(s, k) && ListOk(s, j);
    TailMembers(List(s, k));
    var q := List(PopFront(s, k), j);
    assert s.cur !in q && List(s, k)[0] !in q;
    assert forall p :: p in Rejoin(q, s.cur) ==> p in q || p == s.cur;
  }
}
