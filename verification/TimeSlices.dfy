/**
  Time slices: what schedule and a clock tick do to them, when the current
  process loses the processor, and how user time is shared in runs of the clock.
 */
module TimeSlices {
  import opened Limits
  import S = Scheduling
  import F = Fairness
  import opened Messaging
  import opened Kernel
  import KernelFairness

  function Counter(s: S.Sched, p: int): int
    requires 0 <= p < |s.procs| && s.procs[p].Proc?
  {
    s.procs[p].counter
  }

  // ---------------------------------------------------------------- schedule

  /** schedule gives ten ticks to the process it leaves current, and none to idle
      when a process that stopped running leaves the processor to it. */
  lemma SliceGiven(s: S.Sched)
    requires S.Inv(s)
    ensures var r := S.Schedule(s);
            && S.Inv(r)
            && Counter(r, r.cur) == (if r.cur != 0 then 10 else if s.cur == 0 then Counter(s, 0) else 0)
            && forall p :: 0 <= p < NR_PROCS && p != r.cur ==> r.procs[p] == s.procs[p]
  {
    S.AddRunningQueuesAll(s);
    S.HeadIsWaiting(S.AddRunning(s));
    S.ScheduleKeepsInv(s);
  }

  /** Another process of c's class or a smaller one runs; for idle, any other
      process. */
  ghost predicate Contended(s: S.Sched, c: int)
    requires S.TableOk(s) && 0 <= c < NR_PROCS && s.procs[c].Proc?
  {
    exists p :: 1 <= p < NR_PROCS && p != c && S.IsRunning(s, p) && (c == 0 || S.Kind(s, p) <= S.Kind(s, c))
  }

  /** schedule leaves the current process its place exactly when that still runs
      and nobody else has a claim. */
  lemma StaysExactly(s: S.Sched)
    requires S.Inv(s)
    ensures S.Schedule(s).cur == s.cur <==> S.IsRunning(s, s.cur) && !Contended(s, s.cur)
  {
    S.AddRunningQueuesAll(s);
    var a := S.AddRunning(s);
    S.HeadIsWaiting(a);
    if S.PickKind(a) != 0 {
      var next := S.List(a, S.PickKind(a))[0];
      assert S.Waiting(s, next) && S.Kind(s, next) == S.PickKind(a);
    }
    if Contended(s, s.cur) {
      var p :| 1 <= p < NR_PROCS && p != s.cur && S.IsRunning(s, p)
               && (s.cur == 0 || S.Kind(s, p) <= S.Kind(s, s.cur));
      assert S.Waiting(a, p) && !S.Missing(a, p);
      assert S.List(a, S.Kind(a, p)) != [];
    }
  }

  // -------------------------------------------------------------- clock ticks

  function UserTime(s: S.Sched, p: int): int {
    if 0 <= p < |s.procs| && s.procs[p].Proc? then s.procs[p].utime else 0
  }

  function SystemTime(s: S.Sched, p: int): int {
    if 0 <= p < |s.procs| && s.procs[p].Proc? then s.procs[p].stime else 0
  }

  /** A tick is charged to the current process: user time from user mode, system
      time from kernel mode.  Nobody else's times change. */
  lemma TickCharges(s: S.Sched, cpl: int, p: int)
    requires S.Inv(s)
    ensures UserTime(S.Tick(s, cpl), p) == UserTime(s, p) + (if p == s.cur && cpl != 0 then 1 else 0)
    ensures SystemTime(S.Tick(s, cpl), p) == SystemTime(s, p) + (if p == s.cur && cpl == 0 then 1 else 0)
  {
    S.ChargeKeepsInv(s, cpl);
    S.ScheduleKeepsInv(S.Charge(s, cpl));
  }

  /** The tick uses up the slice, and comes from user mode. */
  predicate TimeIsUp(s: S.Sched, cpl: int)
    requires 0 <= s.cur < |s.procs| && s.procs[s.cur].Proc?
  {
    cpl != 0 && Counter(s, s.cur) <= 1
  }

  /** A tick takes the processor from the current process exactly when its time
      is up and somebody else has a claim; whoever runs then has ten ticks.  Any
      other tick leaves the lists, and takes one from the slice. */
  ghost predicate Ticked(s: S.Sched, cpl: int, r: S.Sched) {
    && S.Inv(s) && S.Inv(r) && (r.cur != s.cur <==> TimeIsUp(s, cpl) && Contended(s, s.cur))
    && (TimeIsUp(s, cpl) && r.cur != 0 ==> Counter(r, r.cur) == 10)
    && (!TimeIsUp(s, cpl) ==>
          r.ready == s.ready && Counter(r, r.cur) == if Counter(s, s.cur) > 0 then Counter(s, s.cur) - 1 else 0)
    && forall p :: 0 <= p < NR_PROCS && p != s.cur && p != r.cur ==> r.procs[p] == s.procs[p]
  }

  lemma TickExactly(s: S.Sched, cpl: int)
    requires S.Inv(s) && S.IsRunning(s, s.cur)
    ensures Ticked(s, cpl, S.Tick(s, cpl))
  {
    var c := S.Charge(s, cpl);
    S.ChargeKeepsInv(s, cpl);
    SliceGiven(c);
    StaysExactly(c);
    assert forall p :: S.IsRunning(c, p) == S.IsRunning(s, p);
    assert Contended(c, c.cur) == Contended(s, s.cur);
  }

  lemma ClockTicksExactly(w: World, cpl: int)
    requires Inv(w)
    ensures Ticked(w.sched, cpl, Do(w, Clock(cpl)).sched)
  {
    hide Ticked;
    KernelFairness.ClockTicks(w, Clock(cpl));
    TickExactly(w.sched, cpl);
  }

  /** Among processes of one class: when its time is up the current process makes
      way for the next in line; any other tick leaves the line as it is. */
  lemma TickTurns(s: S.Sched, cpl: int)
    requires F.Top(s)
    ensures var r := S.Tick(s, cpl);
            if TimeIsUp(s, cpl) then
              && F.Top(r) && Counter(r, r.cur) == 10
              && r.cur == F.NextCurrent(s.cur, F.Line(s)) && F.Line(r) == F.NextList(s.cur, F.Line(s))
            else
              && F.Top(r) && r.cur == s.cur && r.ready == s.ready && F.Line(r) == F.Line(s)
              && Counter(r, r.cur) == if Counter(s, s.cur) > 0 then Counter(s, s.cur) - 1 else 0
  {
    KernelFairness.ChargeKeepsLine(s, cpl);
    SliceGiven(S.Charge(s, cpl));
    F.ScheduleTurns(S.Charge(s, cpl));
  }

  // ------------------------------------------------------------ message calls

  /** The process that was current before the step stays current exactly when it
      still runs and nobody else has a claim. */
  ghost predicate GaveWay(s: S.Sched, r: S.Sched) {
    && S.Inv(s) && S.Inv(r) && r.procs[s.cur].Proc?
    && (r.cur == s.cur <==> S.IsRunning(r, s.cur) && !Contended(r, s.cur))
  }

  lemma ScheduleGivesWay(s: S.Sched, t: S.Sched)
    requires S.Inv(s) && S.Inv(t) && t.cur == s.cur
    ensures GaveWay(s, S.Schedule(t))
  {
    StaysExactly(t);
    S.ScheduleKeepsInv(t);
    var r := S.Schedule(t);
    assert forall p :: S.IsRunning(r, p) == S.IsRunning(t, p);
    assert Contended(r, s.cur) == Contended(t, s.cur);
  }

  /** Every message that is accepted gives the processor away when somebody else
      has a claim: a rendezvous with another process, one with a queued hardware
      message, and a call that blocks alike. */
  lemma AcceptedCallGivesWay(w: World, act: Act)
    requires Inv(w) && Enabled(w, act) && act.Call? && !Serve(w.q, w.regs, w.sched.cur, act).out.Rejected?
    ensures GaveWay(w.sched, Do(w, act).sched)
  {
    hide Serve, Do, GaveWay, BooksAfter;
    DoOfCall(w, act);
    ScheduleGivesWay(w.sched, StatesAfter(w.sched, w.sched.cur, Serve(w.q, w.regs, w.sched.cur, act).out));
  }

  lemma AcceptedHardwareMessageGivesWay(w: World, dest: int, msg: int)
    requires Inv(w)
    ensures !HardwareRefused(w.q, dest) ==> GaveWay(w.sched, Do(w, Hardware(dest, msg)).sched)
  {
    hide SmallSend, Do, GaveWay, HardwareRefused;
    HardwareRefusedExactly(w, dest, msg);
    DoOfHardware(w, dest, msg);
    ScheduleGivesWay(w.sched,
        StatesAfter(w.sched, MSG_HARDWARE, SmallSend(w.q, w.regs, MSG_HARDWARE, dest, msg).out));
  }

  // ------------------------------------------------------------ runs of ticks

  /** From j to before k there are only clock ticks. */
  ghost predicate OnlyTicks(acts: seq<Act>, j: nat, k: nat) {
    k <= |acts| && forall i :: j <= i < k ==> acts[i].Clock?
  }

  ghost predicate OnlyUserTicks(acts: seq<Act>, j: nat, k: nat) {
    k <= |acts| && forall i :: j <= i < k ==> acts[i].Clock? && acts[i].cpl != 0
  }

  lemma TickAt(ws: seq<World>, acts: seq<Act>, k: nat)
    requires Run(ws, acts) && Inv(ws[0]) && k < |acts| && acts[k].Clock?
    ensures S.Inv(ws[k].sched) && S.IsRunning(ws[k].sched, ws[k].sched.cur)
    ensures ws[k + 1].sched == S.Tick(ws[k].sched, acts[k].cpl)
  {
    RunKeepsInv(ws, acts, k);
    assert StepAt(ws, acts, k);
    KernelFairness.ClockTicks(ws[k], acts[k]);
  }

  /** While the clock ticks, the current process keeps the processor until a tick
      from user mode finds its slice used up, and not a tick longer. */
  lemma {:induction false} TurnLasts(ws: seq<World>, acts: seq<Act>, j: nat, k: nat)
    requires Run(ws, acts) && Inv(ws[0]) && j <= k && OnlyTicks(acts, j, k) && F.Top(ws[j].sched)
    requires forall i :: j <= i < k && acts[i].cpl != 0 ==> i - j < Counter(ws[j].sched, ws[j].sched.cur) - 1
    ensures var s, r := ws[j].sched, ws[k].sched;
            && F.Top(r) && r.cur == s.cur && r.ready == s.ready && F.Line(r) == F.Line(s)
            && Counter(r, r.cur) == if j == k || Counter(s, s.cur) > k - j then Counter(s, s.cur) - (k - j) else 0
  {
    hide F.Top, F.Line, S.Tick, Inv;
    if k > j {
      TurnLasts(ws, acts, j, k - 1);
      TickAt(ws, acts, k - 1);
      TickTurns(ws[k - 1].sched, acts[k - 1].cpl);
    }
  }

  lemma TurnEnds(ws: seq<World>, acts: seq<Act>, j: nat, k: nat)
    requires Run(ws, acts) && Inv(ws[0]) && j <= k && OnlyTicks(acts, j, k + 1) && F.Top(ws[j].sched)
    requires forall i :: j <= i < k && acts[i].cpl != 0 ==> i - j < Counter(ws[j].sched, ws[j].sched.cur) - 1
    requires acts[k].cpl != 0 && k - j >= Counter(ws[j].sched, ws[j].sched.cur) - 1
    ensures var s, r := ws[j].sched, ws[k + 1].sched;
            && F.Top(r) && Counter(r, r.cur) == 10
            && r.cur == F.NextCurrent(s.cur, F.Line(s)) && F.Line(r) == F.NextList(s.cur, F.Line(s))
            && (r.cur == s.cur <==> F.Line(s) == [])
  {
    TurnLasts(ws, acts, j, k);
    TickAt(ws, acts, k);
    TickTurns(ws[k].sched, acts[k].cpl);
    F.LineIsPeers(ws[j].sched);
  }

  /** The current process has the smallest class, and was given the processor just
      now. */
  ghost predicate JustScheduled(s: S.Sched) {
    F.Top(s) && Counter(s, s.cur) == 10
  }

  /** With all ticks from user mode each turn is ten ticks long: after ten times t
      ticks the cycle of the processes that take turns has turned t times. */
  lemma {:induction false} TenTicksATurn(ws: seq<World>, acts: seq<Act>, j: nat, k: nat)
    requires Run(ws, acts) && Inv(ws[0]) && j <= k && OnlyUserTicks(acts, j, k)
    requires JustScheduled(ws[j].sched)
    ensures var s, r := ws[j].sched, ws[k].sched;
            && F.Top(r) && Counter(r, r.cur) == 10 - (k - j) % 10
            && F.Cycle(r.cur, F.Line(r)) == F.Turned(F.Cycle(s.cur, F.Line(s)), (k - j) / 10)
  {
    hide F.Top, F.Line, F.Cycle, F.NextList, F.NextCurrent, F.Rotate, S.Tick, Inv;
    if k > j {
      TenTicksATurn(ws, acts, j, k - 1);
      TickAt(ws, acts, k - 1);
      TickTurns(ws[k - 1].sched, acts[k - 1].cpl);
      F.TurnRotates(ws[k - 1].sched.cur, F.Line(ws[k - 1].sched));
      NextTick(k - 1 - j);
    }
  }

  lemma NextTick(n: nat)
    ensures n % 10 < 9 ==> (n + 1) / 10 == n / 10 && (n + 1) % 10 == n % 10 + 1
    ensures n % 10 == 9 ==> (n + 1) / 10 == n / 10 + 1 && (n + 1) % 10 == 0
  {
  }

  lemma LastOfTurned(q: seq<int>, t: nat)
    requires q != []
    ensures F.Turned(q, t)[|q| - 1] == q[F.LastAt(|q|, t)]
  {
    F.TurnedIs(q, t);
    var k := F.LastAt(|q|, t) + 1;
    hide F.Turned, F.LastAt;
    assert (q[k..] + q[..k])[|q| - 1] == q[..k][k - 1];
  }

  /** ... so the process that is current can be read off the cycle. */
  lemma CurrentAtTick(ws: seq<World>, acts: seq<Act>, j: nat, k: nat)
    requires Run(ws, acts) && Inv(ws[0]) && j <= k && OnlyUserTicks(acts, j, k)
    requires JustScheduled(ws[j].sched)
    ensures var s := ws[j].sched;
            ws[k].sched.cur == F.Cycle(s.cur, F.Line(s))[F.LastAt(F.Period(s), (k - j) / 10)]
  {
    hide F.Line, F.Cycle, Inv;
    TenTicksATurn(ws, acts, j, k);
    LastOfTurned(F.Cycle(ws[j].sched.cur, F.Line(ws[j].sched)), (k - j) / 10);
  }

  // ------------------------------------------------------------- shares of time

  /** In how many of the first t turns of a cycle p is current. */
  ghost function Turns(q: seq<int>, t: nat, p: int): nat
    requires q != []
  {
    if t == 0 then 0 else Turns(q, t - 1, p) + (if q[F.LastAt(|q|, t - 1)] == p then 1 else 0)
  }

  /** A process has as many turns as it has places in the cycle, in one period. */
  lemma {:induction false} OneTurn(q: seq<int>, t: nat, p: int, i: nat)
    requires q != [] && forall n :: 0 <= n < t && n != i ==> q[F.LastAt(|q|, n)] != p
    requires i < t ==> q[F.LastAt(|q|, i)] == p
    ensures Turns(q, t, p) == if i < t then 1 else 0
  {
    if t > 0 {
      OneTurn(q, t - 1, p, i);
    }
  }

  lemma TurnsInPeriod(q: seq<int>, p: int)
    requires q != [] && S.NoDuplicates(q)
    ensures Turns(q, |q|, p) == if p in q then 1 else 0
  {
    if p in q {
      var x :| 0 <= x < |q| && q[x] == p;
      var i := F.LastOnceInEveryWindow(|q|, 0, x);
      OneTurn(q, |q|, p, i);
    } else {
      OneTurn(q, |q|, p, |q|);
    }
  }

  /** Over one turn the process that is current is charged ten ticks, and nobody
      else any. */
  lemma {:induction false} TurnIsCharged(ws: seq<World>, acts: seq<Act>, j: nat, k: nat, p: int)
    requires Run(ws, acts) && Inv(ws[0]) && j <= k && OnlyUserTicks(acts, j, k)
    requires forall i :: j <= i < k ==> ws[i].sched.cur == ws[j].sched.cur
    requires S.Inv(ws[j].sched)
    ensures UserTime(ws[k].sched, p) == UserTime(ws[j].sched, p) + (if p == ws[j].sched.cur then k - j else 0)
  {
    hide S.Inv, S.Tick, Inv;
    if k > j {
      TurnIsCharged(ws, acts, j, k - 1, p);
      TickAt(ws, acts, k - 1);
      TickCharges(ws[k - 1].sched, acts[k - 1].cpl, p);
    }
  }

  /** User time after t turns: ten ticks for each turn in which p was current. */
  lemma {:induction false} TurnsAreCharged(ws: seq<World>, acts: seq<Act>, j: nat, k: nat, t: nat, p: int)
    requires Run(ws, acts) && Inv(ws[0]) && j <= k && OnlyUserTicks(acts, j, k) && k - j == 10 * t
    requires JustScheduled(ws[j].sched)
    ensures var s := ws[j].sched;
            UserTime(ws[k].sched, p) == UserTime(s, p) + 10 * Turns(F.Cycle(s.cur, F.Line(s)), t, p)
  {
    hide JustScheduled, F.Line, F.Cycle, S.Inv, Inv;
    if t > 0 {
      TurnsAreCharged(ws, acts, j, k - 10, t - 1, p);
      NextTurnIsCharged(ws, acts, j, k - 10, t - 1, p);
    }
  }

  lemma NextTurnIsCharged(ws: seq<World>, acts: seq<Act>, j: nat, k: nat, t: nat, p: int)
    requires Run(ws, acts) && Inv(ws[0]) && j <= k && OnlyUserTicks(acts, j, k + 10) && k - j == 10 * t
    requires JustScheduled(ws[j].sched)
    ensures var s := ws[j].sched;
            UserTime(ws[k + 10].sched, p) ==
              UserTime(ws[k].sched, p) + (if F.Cycle(s.cur, F.Line(s))[F.LastAt(F.Period(s), t)] == p then 10 else 0)
  {
    hide F.Line, F.Cycle;
    TenTicksATurn(ws, acts, j, k);
    CurrentAtTick(ws, acts, j, k);
    forall i | k <= i < k + 10 ensures ws[i].sched.cur == ws[k].sched.cur {
      CurrentAtTick(ws, acts, j, i);
      assert (i - j) / 10 == t;
    }
    TurnIsCharged(ws, acts, k, k + 10, p);
  }

  lemma CycleIsDistinct(s: S.Sched)
    requires JustScheduled(s)
    ensures S.NoDuplicates(F.Cycle(s.cur, F.Line(s)))
  {
    F.LineIsPeers(s);
    F.CycleHasNoDuplicates(s.cur, F.Line(s));
  }

  /** Equal shares: in a period of user-mode ticks each process that takes turns
      is charged exactly ten, and every other process none. */
  lemma EqualShares(ws: seq<World>, acts: seq<Act>, j: nat, k: nat, p: int)
    requires Run(ws, acts) && Inv(ws[0]) && j <= k && OnlyUserTicks(acts, j, k)
    requires JustScheduled(ws[j].sched) && k - j == 10 * F.Period(ws[j].sched)
    ensures var s := ws[j].sched;
            UserTime(ws[k].sched, p) == UserTime(s, p) + (if p in F.Cycle(s.cur, F.Line(s)) then 10 else 0)
  {
    var s := ws[j].sched;
    hide JustScheduled, F.Line, F.Cycle, Run, Inv, OnlyUserTicks;
    TurnsAreCharged(ws, acts, j, k, F.Period(s), p);
    CycleIsDistinct(s);
    TurnsInPeriod(F.Cycle(s.cur, F.Line(s)), p);
  }
}
