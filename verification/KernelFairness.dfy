/**
  Turns and starvation in runs of the kernel: processes that only compute, with
  the clock as the only interrupt.
 */
module KernelFairness {
  import opened Limits
  import S = Scheduling
  import F = Fairness
  import opened Kernel

  /** A tick changes a process's times and slice, not its class or state. */
  ghost predicate Alike(a: S.Sched, b: S.Sched) {
    && a.ready == b.ready && a.cur == b.cur && |a.procs| == |b.procs|
    && forall p :: 0 <= p < |a.procs| ==>
         a.procs[p].Proc? == b.procs[p].Proc? &&
         (a.procs[p].Proc? ==> a.procs[p].kind == b.procs[p].kind && a.procs[p].state == b.procs[p].state)
  }

  /** One turn of the scan depends on the lists, the states and the classes. */
  lemma AddProcAlike(a: S.Sched, b: S.Sched, p: int)
    requires S.TableOk(a) && S.TableOk(b) && Alike(a, b)
    requires 0 <= p < NR_PROCS
    ensures S.AddProc(a, p).ready == S.AddProc(b, p).ready
  {
    assert a.procs[p].Proc? == b.procs[p].Proc?;
    assert S.IsRunning(a, p) == S.IsRunning(b, p);
  }

  /** The scan builds the same lists for the same lists, states and classes. */
  lemma {:induction false} ScansAlike(a: S.Sched, b: S.Sched, n: nat)
    requires S.TableOk(a) && S.TableOk(b) && Alike(a, b)
    requires n <= NR_PROCS
    ensures S.AddUpTo(a, n).ready == S.AddUpTo(b, n).ready
  {
    hide S.AddProc, S.TableOk;
    if n > 1 {
      ScansAlike(a, b, n - 1);
      AddProcAlike(S.AddUpTo(a, n - 1), S.AddUpTo(b, n - 1), n - 1);
    }
  }

  /** A tick that only charges leaves the current process and its line. */
  lemma ChargeKeepsLine(s: S.Sched, cpl: int)
    requires F.Top(s)
    ensures F.Top(S.Charge(s, cpl)) && S.Charge(s, cpl).cur == s.cur
    ensures F.Line(S.Charge(s, cpl)) == F.Line(s)
  {
    S.ChargeKeepsInv(s, cpl);
    ScansAlike(S.Charge(s, cpl), s, NR_PROCS);
    assert forall p :: S.IsRunning(S.Charge(s, cpl), p) == S.IsRunning(s, p);
  }

  /** The current process has the smallest class, and p of that class starves. */
  ghost predicate Starving(s: S.Sched, p: int) {
    F.Top(s) && p in F.Starved(F.Line(s))
  }

  lemma ClockTicks(w: World, act: Act)
    requires Inv(w) && act.Clock?
    ensures S.Inv(w.sched) && Do(w, act).sched == S.Tick(w.sched, act.cpl)
  {
  }

  /** A clock tick leaves those who starve starving. */
  lemma StarvedStays(s: S.Sched, cpl: int, p: int)
    requires Starving(s, p)
    ensures S.Inv(s) && Starving(S.Tick(s, cpl), p)
  {
    ChargeKeepsLine(s, cpl);
    F.TurnOnce(S.Charge(s, cpl));
    assert p in multiset(F.Starved(F.Line(s)));
  }

  lemma StarvedIsNotCurrent(s: S.Sched, p: int)
    requires Starving(s, p)
    ensures p != s.cur && S.IsRunning(s, p)
  {
    F.LineIsPeers(s);
    F.CycleHasNoDuplicates(s.cur, F.Line(s));
    assert F.Peer(s, p);
  }

  /** In any run, a process that starves once is never current again while only
      the clock ticks. */
  lemma {:induction false} StarvesFrom(ws: seq<World>, acts: seq<Act>, j: nat, k: nat, p: int)
    requires Run(ws, acts) && Inv(ws[0]) && j <= k <= |acts|
    requires forall i :: j <= i < k ==> acts[i].Clock?
    requires Starving(ws[j].sched, p)
    ensures Starving(ws[k].sched, p) && ws[k].sched.cur != p && S.IsRunning(ws[k].sched, p)
  {
    hide Starving, Inv;
    if k > j {
      StarvesFrom(ws, acts, j, k - 1, p);
      assert StepAt(ws, acts, k - 1);
      RunKeepsInv(ws, acts, k - 1);
      ClockTicks(ws[k - 1], acts[k - 1]);
      StarvedStays(ws[k - 1].sched, acts[k - 1].cpl, p);
    }
    StarvedIsNotCurrent(ws[k].sched, p);
  }

  // ------------------------------------------------------------ three processes

  /** Beside idle there are the user processes 1 to 3, and all run. */
  ghost predicate ThreeRun(s: S.Sched) {
    && S.Inv(s)
    && (forall p :: 0 <= p < NR_PROCS ==> if p <= 3 then S.IsRunning(s, p) && S.Kind(s, p) == 3 else !S.IsRunning(s, p))
  }

  /** The lists are empty and idle is current, as after boot. */
  ghost predicate Idle(s: S.Sched) {
    ThreeRun(s) && s.cur == 0 && s.ready == [[], [], []]
  }

  lemma {:induction false} ScanOfThree(s: S.Sched, n: nat)
    requires Idle(s) && 4 <= n <= NR_PROCS
    ensures S.List(S.AddUpTo(s, n), 3) == [1, 2, 3]
    ensures S.List(S.AddUpTo(s, n), 1) == [] && S.List(S.AddUpTo(s, n), 2) == []
  {
    if n == 4 {
      ScanOne(s, 2);
      ScanOne(s, 3);
      ScanOne(s, 4);
    } else {
      ScanOfThree(s, n - 1);
      ScanOne(s, n);
    }
  }

  lemma ScanOne(s: S.Sched, n: nat)
    requires Idle(s) && 2 <= n <= NR_PROCS
    ensures forall k :: 1 <= k <= 3 ==>
              S.List(S.AddUpTo(s, n), k) == S.List(S.AddUpTo(s, n - 1), k) + (if k == 3 && n <= 4 then [n - 1] else [])
  {
    F.AddsNext(s, n, 1);
    F.AddsNext(s, n, 2);
    F.AddsNext(s, n, 3);
    assert S.Missing(s, n - 1) <==> n <= 4;
  }

  /** The first call of schedule runs process 1 and leaves the others in line. */
  lemma FirstSchedule(s: S.Sched)
    requires Idle(s)
    ensures Starving(S.Schedule(s), 3)
  {
    ScanOfThree(s, NR_PROCS);
    S.AddRunningQueuesAll(s);
    S.ScheduleKeepsInv(s);
    S.StrictPriority(s);
    var a := S.AddRunning(s);
    var r := S.Schedule(s);
    S.DispatchLists(a, 3);
    assert S.PickKind(a) == 3;
    assert S.List(r, 3) == [2, 3] && r.cur == 1;
    LineOfTwo(s, r);
  }

  lemma LineOfTwo(s: S.Sched, r: S.Sched)
    requires Idle(s) && S.Inv(r) && S.SameStates(s, r) && r.cur == 1 && S.List(r, 3) == [2, 3]
    ensures F.Top(r) && F.Line(r) == [2, 3] && Starving(r, 3)
  {
    assert forall p :: S.IsRunning(r, p) == S.IsRunning(s, p);
    assert forall p :: S.IsRunning(r, p) ==> S.Kind(r, p) == 3;
    assert ThreeRun(r);
    forall p ensures !(S.Missing(r, p) && S.Kind(r, p) == 3) {
      assert S.Waiting(r, p) ==> p == 2 || p == 3;
      assert 2 in S.List(r, 3) && 3 in S.List(r, 3);
    }
    F.AddsTheMissing(r, NR_PROCS, 3, 0);
    assert F.Odds([2, 3])[0] == 3;
  }

  lemma IdleTick(s: S.Sched, cpl: int)
    requires Idle(s)
    ensures var r := S.Tick(s, cpl);
            Idle(r) || Starving(r, 3)
  {
    S.ChargeKeepsInv(s, cpl);
    var c := S.Charge(s, cpl);
    assert forall p :: S.IsRunning(c, p) == S.IsRunning(s, p);
    assert Idle(c);
    FirstSchedule(c);
  }

  lemma {:induction false} WaitsOrStarves(ws: seq<World>, acts: seq<Act>, k: nat)
    requires Run(ws, acts) && Inv(ws[0]) && Idle(ws[0].sched) && k <= |acts|
    requires forall i :: 0 <= i < |acts| ==> acts[i].Clock?
    ensures Idle(ws[k].sched) || Starving(ws[k].sched, 3)
  {
    hide Idle, Starving, Inv;
    if k > 0 {
      WaitsOrStarves(ws, acts, k - 1);
      assert StepAt(ws, acts, k - 1);
      RunKeepsInv(ws, acts, k - 1);
      ClockTicks(ws[k - 1], acts[k - 1]);
      if Idle(ws[k - 1].sched) {
        IdleTick(ws[k - 1].sched, acts[k - 1].cpl);
      } else {
        StarvedStays(ws[k - 1].sched, acts[k - 1].cpl, 3);
      }
    }
  }

  /** From boot with three user processes that only compute, the third always runs
      and is never current. */
  lemma ThirdProcessStarves(ws: seq<World>, acts: seq<Act>, k: nat)
    requires Run(ws, acts) && Boot(ws[0]) && k <= |acts|
    requires forall p :: 1 <= p < NR_PROCS ==> (ws[0].sched.procs[p].Proc? <==> p <= 3)
    requires forall p :: 1 <= p <= 3 ==> S.Kind(ws[0].sched, p) == 3
    requires forall i :: 0 <= i < |acts| ==> acts[i].Clock?
    ensures S.IsRunning(ws[k].sched, 3) && ws[k].sched.cur != 3
  {
    BootInv(ws[0]);
    assert Idle(ws[0].sched);
    WaitsOrStarves(ws, acts, k);
    if !Idle(ws[k].sched) {
      StarvedIsNotCurrent(ws[k].sched, 3);
    }
  }
}
