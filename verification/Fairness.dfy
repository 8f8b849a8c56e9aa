/**
  Who runs when schedule is called again and again: the exact turn order of the
  running processes of the highest class that runs.
 */
module Fairness {
  import opened Limits
  import opened Scheduling

  // ------------------------------------------------------------- turn order

  function Evens(q: seq<int>): (r: seq<int>)
    ensures |r| == (|q| + 1) / 2
    ensures forall i :: 0 <= i < |r| ==> r[i] == q[2 * i]
  {
    seq((|q| + 1) / 2, i requires 0 <= i < (|q| + 1) / 2 => q[2 * i])
  }

  function Odds(q: seq<int>): (r: seq<int>)
    ensures |r| == |q| / 2
    ensures forall i :: 0 <= i < |r| ==> r[i] == q[2 * i + 1]
  {
    seq(|q| / 2, i requires 0 <= i < |q| / 2 => q[2 * i + 1])
  }

  /** The processes that take turns, next one first, the current one c last; q
      is the ready list after the add pass. */
  function Cycle(c: int, q: seq<int>): (r: seq<int>)
    ensures |r| > 0 && r[|r| - 1] == c
  {
    if |q| % 2 == 0 then Evens(q) + [c] else Evens(q) + Odds(q) + [c]
  }

  /** The processes that never run: the odd positions of a list of even length. */
  function Starved(q: seq<int>): seq<int> {
    if |q| % 2 == 0 then Odds(q) else []
  }

  function Rotate(q: seq<int>): seq<int>
    requires q != []
  {
    q[1..] + [q[0]]
  }

  /** The ready list after the add pass that follows one call of schedule. */
  function NextList(c: int, q: seq<int>): seq<int> {
    if q == [] then [] else if |q| == 1 then [c] else q[2..] + [c, q[1]]
  }

  function NextCurrent(c: int, q: seq<int>): int {
    if q == [] then c else q[0]
  }

  lemma EvensAfterTurn(c: int, q: seq<int>)
    requires |q| >= 2
    ensures Evens(NextList(c, q)) == Evens(q)[1..] + [if |q| % 2 == 0 then c else q[1]]
    ensures Odds(NextList(c, q)) == Odds(q)[1..] + [if |q| % 2 == 0 then q[1] else c]
  {
    var n := NextList(c, q);
    assert |n| == |q|;
    forall i | 0 <= i < |Evens(n)|
      ensures Evens(n)[i] == (Evens(q)[1..] + [if |q| % 2 == 0 then c else q[1]])[i]
    {
      if i < |Evens(q)| - 1 {
        assert Evens(q)[1..][i] == q[2 * (i + 1)];
      }
    }
    forall i | 0 <= i < |Odds(n)|
      ensures Odds(n)[i] == (Odds(q)[1..] + [if |q| % 2 == 0 then q[1] else c])[i]
    {
      if i < |Odds(q)| - 1 {
        assert Odds(q)[1..][i] == q[2 * (i + 1) + 1];
      }
    }
  }

  lemma RotateTwo(e: seq<int>, c: int)
    requires e != []
    ensures Rotate(e + [c]) == (e[1..] + [c]) + [e[0]]
  {
    assert (e + [c])[1..] == e[1..] + [c];
  }

  lemma RotateThree(e: seq<int>, o: seq<int>, c: int)
    requires e != [] && o != []
    ensures Rotate(e + o + [c]) == (e[1..] + [o[0]]) + (o[1..] + [c]) + [e[0]]
  {
    assert o == [o[0]] + o[1..];
    assert (e + o + [c])[1..] == e[1..] + o + [c];
  }

  /** One call of schedule turns the cycle by one. */
  lemma TurnRotates(c: int, q: seq<int>)
    ensures Cycle(NextCurrent(c, q), NextList(c, q)) == Rotate(Cycle(c, q))
  {
    if |q| >= 2 {
      EvensAfterTurn(c, q);
      if |q| % 2 == 0 {
        RotateTwo(Evens(q), c);
      } else {
        RotateThree(Evens(q), Odds(q), c);
      }
    }
  }

  lemma FrontToBack(q: seq<int>)
    requires q != []
    ensures multiset(q[1..] + [q[0]]) == multiset(q)
  {
    assert q == [q[0]] + q[1..];
  }

  /** ... and only reorders those who never run. */
  lemma TurnKeepsStarved(c: int, q: seq<int>)
    ensures multiset(Starved(NextList(c, q))) == multiset(Starved(q))
  {
    if |q| >= 2 && |q| % 2 == 0 {
      EvensAfterTurn(c, q);
      FrontToBack(Odds(q));
    }
  }

  // -------------------------------------------------------- turns of a cycle

  ghost function Turned(q: seq<int>, j: nat): (r: seq<int>)
    requires q != []
    ensures |r| == |q|
  {
    if j == 0 then q else Rotate(Turned(q, j - 1))
  }

  /** Which position of a cycle of n is last after j turns. */
  ghost function LastAt(n: nat, j: nat): (k: nat)
    requires n > 0
    ensures k < n
  {
    if j == 0 then n - 1 else if LastAt(n, j - 1) == n - 1 then 0 else LastAt(n, j - 1) + 1
  }

  lemma RotateAt(q: seq<int>, k: nat)
    requires 0 < k <= |q|
    ensures Rotate(q[k..] + q[..k]) == if k < |q| then q[k + 1..] + q[..k + 1] else q[1..] + q[..1]
  {
    if k < |q| {
      assert (q[k..] + q[..k])[1..] == q[k + 1..] + q[..k];
      assert q[..k + 1] == q[..k] + [q[k]];
    } else {
      assert q[k..] + q[..k] == q;
      assert q[..1] == [q[0]];
    }
  }

  lemma {:induction false} TurnedIs(q: seq<int>, j: nat)
    requires q != []
    ensures var k := LastAt(|q|, j) + 1; Turned(q, j) == q[k..] + q[..k]
  {
    if j > 0 {
      TurnedIs(q, j - 1);
      RotateAt(q, LastAt(|q|, j - 1) + 1);
    } else {
      assert q[|q|..] + q[..|q|] == q;
    }
  }

  lemma {:induction false} LastAtAdvances(n: nat, a: nat, t: nat)
    requires t <= n && n > 0
    ensures LastAt(n, a + t) == if LastAt(n, a) + t < n then LastAt(n, a) + t else LastAt(n, a) + t - n
  {
    if t > 0 {
      LastAtAdvances(n, a, t - 1);
      assert a + t - 1 == a + (t - 1);
    }
  }

  /** In any n consecutive turns each position of a cycle of n is last once. */
  lemma LastOnceInEveryWindow(n: nat, a: nat, x: nat) returns (j: nat)
    requires x < n
    ensures a <= j < a + n && LastAt(n, j) == x
    ensures forall i :: a <= i < a + n && i != j ==> LastAt(n, i) != x
  {
    var y := LastAt(n, a);
    var t := if y <= x then x - y else x + n - y;
    j := a + t;
    LastAtAdvances(n, a, t);
    forall i | a <= i < a + n && i != j ensures LastAt(n, i) != x {
      LastAtAdvances(n, a, i - a);
    }
  }

  // ------------------------------------------------- schedule again and again

  /** The states before and after each of a series of calls of schedule, with
      nothing else happening in between. */
  ghost predicate Calls(ss: seq<Sched>) {
    |ss| > 0 && Inv(ss[0]) && forall k :: 0 < k < |ss| ==> CalledAt(ss, k)
  }

  ghost predicate CalledAt(ss: seq<Sched>, k: nat)
    requires 0 < k < |ss|
  {
    Inv(ss[k - 1]) ==> ss[k] == Schedule(ss[k - 1])
  }

  /** The current process runs, and no running process is of a smaller class. */
  ghost predicate Top(s: Sched) {
    && Inv(s) && s.cur != 0 && IsRunning(s, s.cur)
    && forall p :: 1 <= p < NR_PROCS && IsRunning(s, p) ==> Kind(s, s.cur) <= Kind(s, p)
  }

  /** The running processes of the current process's class. */
  ghost predicate Peer(s: Sched, p: int)
    requires Top(s)
  {
    1 <= p < NR_PROCS && IsRunning(s, p) && Kind(s, p) == Kind(s, s.cur)
  }

  /** The ready list of the current process's class after the add pass. */
  ghost function Line(s: Sched): seq<int>
    requires Top(s)
  {
    List(AddRunning(s), Kind(s, s.cur))
  }

  lemma LineIsPeers(s: Sched)
    requires Top(s)
    ensures NoDuplicates(Line(s)) && s.cur !in Line(s)
    ensures forall p :: Peer(s, p) <==> p == s.cur || p in Line(s)
  {
    AddRunningQueuesAll(s);
    var a := AddRunning(s);
    assert ListOk(a, Kind(s, s.cur));
    forall p | Peer(s, p) && p != s.cur ensures p in Line(s) {
      assert !Missing(a, p);
    }
  }

  /** When at most one process of class k is missing, the scan puts exactly it
      at the tail of the list. */
  lemma {:induction false} AddsTheMissing(s: Sched, n: nat, k: int, m: int)
    requires Inv(s) && n <= NR_PROCS && 1 <= k <= 3
    requires forall p :: Missing(s, p) && Kind(s, p) == k <==> p == m != 0
    ensures List(AddUpTo(s, n), k) == List(s, k) + (if 0 < m < n then [m] else [])
  {
    if n > 1 {
      AddsTheMissing(s, n - 1, k, m);
      AddsNext(s, n, k);
      assert Missing(s, n - 1) && Kind(s, n - 1) == k <==> n - 1 == m;
    }
  }

  lemma AddsNext(s: Sched, n: nat, k: int)
    requires Inv(s) && 1 < n <= NR_PROCS && 1 <= k <= 3
    ensures List(AddUpTo(s, n), k) ==
              List(AddUpTo(s, n - 1), k) + (if Missing(s, n - 1) && Kind(s, n - 1) == k then [n - 1] else [])
  {
    AddUpToLists(s, n - 1);
    AddProcLists(AddUpTo(s, n - 1), n - 1);
  }

  lemma PicksOwnClass(s: Sched)
    requires Top(s)
    ensures Inv(AddRunning(s)) && PickKind(AddRunning(s)) == if Line(s) == [] then 0 else Kind(s, s.cur)
  {
    AddRunningQueuesAll(s);
    var a := AddRunning(s);
    FirstIsWaiting(a, 1);
    FirstIsWaiting(a, 2);
    FirstIsWaiting(a, 3);
    assert forall p :: 1 <= p < NR_PROCS && IsRunning(a, p) ==> Kind(s, s.cur) <= Kind(a, p) by {
      assert forall p :: 1 <= p < NR_PROCS && IsRunning(a, p) ==> IsRunning(s, p);
    }
  }

  lemma FirstIsWaiting(s: Sched, k: int)
    requires Inv(s) && 1 <= k <= 3
    ensures List(s, k) != [] ==> Waiting(s, List(s, k)[0]) && Kind(s, List(s, k)[0]) == k
  {
    assert ListOk(s, k);
    assert List(s, k) != [] ==> List(s, k)[0] in List(s, k);
  }

  lemma ScheduleTurnsLists(s: Sched)
    requires Top(s)
    ensures Top(Schedule(s)) && Kind(Schedule(s), Schedule(s).cur) == Kind(s, s.cur)
    ensures Schedule(s).cur == NextCurrent(s.cur, Line(s))
    ensures List(Schedule(s), Kind(s, s.cur)) ==
              if |Line(s)| <= 1 then NextList(s.cur, Line(s)) else Line(s)[2..] + [s.cur]
  {
    var k := Kind(s, s.cur);
    AddRunningQueuesAll(s);
    ScheduleKeepsInv(s);
    PicksOwnClass(s);
    HeadIsWaiting(AddRunning(s));
    DispatchLists(AddRunning(s), k);
    LineIsPeers(s);
    assert Peer(s, Schedule(s).cur);
    forall p | 1 <= p < NR_PROCS && IsRunning(Schedule(s), p)
      ensures Kind(s, s.cur) <= Kind(Schedule(s), p)
    {
      assert IsRunning(s, p);
    }
    if |Line(s)| > 1 {
      assert Rejoin(Line(s)[1..], s.cur) == Line(s)[2..] + [s.cur];
    }
  }

  lemma MissingAfterTurn(s: Sched, p: int)
    requires Top(s) && Top(Schedule(s))
    ensures Missing(Schedule(s), p) && Kind(Schedule(s), p) == Kind(s, s.cur) <==> |Line(s)| > 1 && p == Line(s)[1]
  {
    var k := Kind(s, s.cur);
    AddRunningQueuesAll(s);
    AtMostOneDropped(s);
    PicksOwnClass(s);
    ScheduleKeepsInv(s);
    LineIsPeers(s);
    assert Missing(Schedule(s), p) <==> Dropped(s, p);
    if |Line(s)| > 1 {
      assert Line(s)[1] in Line(s) && Peer(s, Line(s)[1]);
    }
  }

  /** One call of schedule, on the current process and its class's list. */
  lemma ScheduleTurns(s: Sched)
    requires Top(s)
    ensures Top(Schedule(s)) && Kind(Schedule(s), Schedule(s).cur) == Kind(s, s.cur)
    ensures Schedule(s).cur == NextCurrent(s.cur, Line(s))
    ensures Line(Schedule(s)) == NextList(s.cur, Line(s))
  {
    ScheduleTurnsLists(s);
    var r := Schedule(s);
    var m := if |Line(s)| > 1 then Line(s)[1] else 0;
    LineIsPeers(s);
    assert |Line(s)| > 1 ==> Line(s)[1] in Line(s) && m != 0;
    forall p ensures Missing(r, p) && Kind(r, p) == Kind(s, s.cur) <==> p == m != 0 {
      MissingAfterTurn(s, p);
    }
    assert m < NR_PROCS;
    AddsTheMissing(r, NR_PROCS, Kind(s, s.cur), m);
  }

  lemma TurnOnce(s: Sched)
    requires Top(s)
    ensures Top(Schedule(s)) && Kind(Schedule(s), Schedule(s).cur) == Kind(s, s.cur)
    ensures Cycle(Schedule(s).cur, Line(Schedule(s))) == Rotate(Cycle(s.cur, Line(s)))
    ensures multiset(Starved(Line(Schedule(s)))) == multiset(Starved(Line(s)))
  {
    ScheduleTurns(s);
    TurnRotates(s.cur, Line(s));
    TurnKeepsStarved(s.cur, Line(s));
  }

  /** After j calls the cycle has turned j times. */
  lemma {:induction false} CallsTurnCycle(ss: seq<Sched>, j: nat)
    requires Calls(ss) && Top(ss[0]) && j < |ss|
    ensures Top(ss[j])
    ensures Cycle(ss[j].cur, Line(ss[j])) == Turned(Cycle(ss[0].cur, Line(ss[0])), j)
    ensures multiset(Starved(Line(ss[j]))) == multiset(Starved(Line(ss[0])))
  {
    hide Line, Cycle, Starved, Rotate;
    if j > 0 {
      CallsTurnCycle(ss, j - 1);
      assert CalledAt(ss, j);
      TurnOnce(ss[j - 1]);
    }
  }

  ghost function Period(s: Sched): nat
    requires Top(s)
  {
    |Cycle(s.cur, Line(s))|
  }

  lemma CurrentAfter(ss: seq<Sched>, j: nat)
    requires Calls(ss) && Top(ss[0]) && j < |ss|
    ensures ss[j].cur == Cycle(ss[0].cur, Line(ss[0]))[LastAt(Period(ss[0]), j)]
  {
    CallsTurnCycle(ss, j);
    TurnedIs(Cycle(ss[0].cur, Line(ss[0])), j);
  }

  // ------------------------------------------------------------ the theorems

  lemma CycleHasNoDuplicates(c: int, q: seq<int>)
    requires NoDuplicates(q) && c !in q
    ensures NoDuplicates(Cycle(c, q))
    ensures forall p :: p in Starved(q) ==> p in q && p !in Cycle(c, q)
    ensures forall p :: p in q ==> p in Cycle(c, q) || p in Starved(q)
  {
    var e, o := Evens(q), Odds(q);
    forall p | p in q ensures p in e || p in o {
      var i :| 0 <= i < |q| && q[i] == p;
      if i % 2 == 0 {
        assert e[i / 2] == p;
      } else {
        assert o[i / 2] == p;
      }
    }
    forall i, j | 0 <= i < |e| && 0 <= j < |o| ensures e[i] != o[j] && e[i] != c && o[j] != c {
    }
    assert |q| % 2 == 1 ==> Cycle(c, q) == e + o + [c];
  }

  lemma {:induction false} DistinctSize(q: seq<int>)
    requires NoDuplicates(q)
    ensures |set p | p in q| == |q|
  {
    if q != [] {
      DistinctSize(q[1..]);
      TailMembers(q);
      assert (set p | p in q) == {q[0]} + (set p | p in q[1..]);
    }
  }

  ghost function Peers(s: Sched): set<int>
    requires Top(s)
  {
    set p | 1 <= p < NR_PROCS && Peer(s, p)
  }

  lemma CountPeers(s: Sched)
    requires Top(s)
    ensures |Peers(s)| == |Line(s)| + 1
  {
    LineIsPeers(s);
    var all := [s.cur] + Line(s);
    DistinctSize(all);
    hide Line;
    assert Peers(s) == set p | p in all;
  }

  /** The number of processes of the class decides who takes turns: all of them
      when they are one or an even number, and only half of the others beside
      the current one when they are an odd number of three or more. */
  lemma WhoTakesTurns(s: Sched)
    requires Top(s)
    ensures var n := |Peers(s)|;
            && n == |Line(s)| + 1
            && (n == 1 || n % 2 == 0 ==> Period(s) == n && Starved(Line(s)) == [])
            && (n % 2 == 1 && n >= 3 ==> Period(s) == (n + 1) / 2 && |Starved(Line(s))| == (n - 1) / 2)
  {
    CountPeers(s);
    hide Line, Peers;
  }

  /** Each process that takes turns is current exactly once in any Period
      consecutive calls of schedule. */
  lemma ExactlyOncePerPeriod(ss: seq<Sched>, a: nat, p: int) returns (j: nat)
    requires Calls(ss) && Top(ss[0]) && Peer(ss[0], p) && p !in Starved(Line(ss[0]))
    requires a + Period(ss[0]) <= |ss|
    ensures a <= j < a + Period(ss[0]) && ss[j].cur == p
    ensures forall i :: a <= i < a + Period(ss[0]) && i != j ==> ss[i].cur != p
  {
    var s := ss[0];
    var q := Cycle(s.cur, Line(s));
    LineIsPeers(s);
    CycleHasNoDuplicates(s.cur, Line(s));
    assert q[Period(s) - 1] == s.cur;
    var x :| 0 <= x < Period(s) && q[x] == p;
    j := LastOnceInEveryWindow(Period(s), a, x);
    CurrentAfter(ss, j);
    forall i | a <= i < a + Period(s) && i != j ensures ss[i].cur != p {
      CurrentAfter(ss, i);
    }
  }

  /** A starved process is never chosen again. */
  lemma NeverChosenAgain(ss: seq<Sched>, j: nat, p: int)
    requires Calls(ss) && Top(ss[0]) && p in Starved(Line(ss[0])) && j < |ss|
    ensures ss[j].cur != p
  {
    CallsTurnCycle(ss, j);
    var r := ss[j];
    assert p in multiset(Starved(Line(r)));
    LineIsPeers(r);
    CycleHasNoDuplicates(r.cur, Line(r));
    assert Cycle(r.cur, Line(r))[Period(r) - 1] == r.cur;
  }
}
