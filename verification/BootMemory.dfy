/**
  Physical memory after boot: what holds there, and runs from there on which the
  page manager loses a frame, overflows a count or never returns.
 */
module BootMemory {
  import opened Paging
  import opened PagingSteps
  import opened FrameAlloc
  import opened Faults
  import opened MemoryRuns

  /** Physical memory as boot/setup32.asm leaves it: eight page tables, in
      frames 8 to 15, map the first 32 MB to itself; bits 0 to 2 of every entry are
      set. */
  ghost predicate Booted(ram: seq<seq<int>>) {
    && |ram| == FRAMES
    && (forall f :: 0 <= f < FRAMES ==> |ram[f]| == 1024)
    && (forall d :: 0 <= d < 1024 ==> ram[DIR][d] == if d < 8 then (8 + d) * 4096 + 7 else 0)
    && (forall f, i :: 8 <= f < 16 && 0 <= i < 1024 ==> ram[f][i] == ((f - 8) * 1024 + i) * 4096 + 7)
  }

  /** After mem_init exactly the frames from base to before end are free. */
  ghost predicate Started(m: Mem, base: int, end: int) {
    && 256 <= base <= end <= FRAMES && base <= BOOT_PAGES
    && Booted(m.phys)
    && |m.cnt| == FRAMES && forall f :: 0 <= f < FRAMES ==> m.cnt[f] == if base <= f < end then 0 else 1
  }

  lemma BootEntries(m: Mem)
    requires Sized(m) && Booted(m.phys)
    ensures forall d :: 0 <= d < 1024 ==> HasTable(m, d) == (d < 8)
    ensures forall d :: 0 <= d < 8 ==> Table(m, d) == 8 + d
    ensures forall p :: IsPage(p) ==> Pte(m, p) == if p < 8192 then Entry(p) else 0
  {
    forall p | IsPage(p) ensures Pte(m, p) == if p < 8192 then Entry(p) else 0 {
      if p < 8192 {
        assert p == p / 1024 * 1024 + p % 1024;
        assert HasTable(m, p / 1024);
        assert m.phys[8 + p / 1024][p % 1024] == Entry(p / 1024 * 1024 + p % 1024);
      } else {
        assert p / 1024 >= 8;
      }
    }
  }

  lemma BootInv(m: Mem, base: int, end: int)
    requires Started(m, base, end)
    ensures Inv(m, base) && Window(m)
    ensures forall p :: IsUser(p) ==> PageOf(m, base, p) == Own(Zeros())
  {
    BootEntries(m);
    assert forall f :: Refs(m, f) == {};
    forall f | IsTable(m, f) ensures 8 <= f < 16 {
      var d :| 0 <= d < 1024 && HasTable(m, d) && Table(m, d) == f;
    }
  }

  /** The usable frames after boot are those of main memory below 32 MB: all of
      main memory, if it ends there. */
  lemma BootUsable(m: Mem, base: int, end: int)
    requires Started(m, base, end)
    ensures forall f :: f in Usable(m) <==> base <= f < end && f < BOOT_PAGES
    ensures Covered(m) <==> end <= BOOT_PAGES
  {
    BootEntries(m);
    forall f ensures Handy(m, f) <==> base <= f < end && f < BOOT_PAGES {
      if base <= f < end && f >= BOOT_PAGES {
        assert !HasTable(m, f / 1024);
      }
    }
    assert end > BOOT_PAGES ==> BOOT_PAGES in Free(m) && BOOT_PAGES !in Usable(m);
  }

  /** Up to 32 MB no page fault and no share is ever stuck in get_free_page: in
      every state of a run it returns, and fails only when no frame is free. */
  lemma SmallMachineEnds(ms: seq<Mem>, base: int, end: int, ops: seq<Op>, k: nat)
    requires Run(ms, base, ops) && Started(ms[0], base, end) && end <= BOOT_PAGES && k <= |ops|
    ensures Inv(ms[k], base) && Ends(ms[k]) && (Allocate(ms[k]).Nothing? <==> Free(ms[k]) == {})
  {
    BootInv(ms[0], base, end);
    BootUsable(ms[0], base, end);
    RunKeepsWindow(ms, base, ops, k);
    CoveredEnds(ms[k]);
    AllocateGot(ms[k], base);
  }

  // ------------------------------------------------------ machines beyond 32 MB

  /** Frame 8192 is free, its region has no page table, and from page USER + n on
      no page above 64 MB was touched. */
  ghost predicate Beyond(m: Mem, base: int, n: nat) {
    && Inv(m, base) && m.cnt[BOOT_PAGES] == 0 && !HasTable(m, BOOT_TABLES)
    && (forall p :: USER + n <= p < PAGES ==> !Mapped(m, p))
    && n + |Usable(m)| <= FRAMES
  }

  /** A page fault above 64 MB leaves frame 8192 alone. */
  lemma FaultLeavesFrame(m: Mem, base: int, p: int, m': Mem)
    requires IsUser(p) && Demanded(m, base, p, m') && DemandedExactly(m, p, m')
    requires m.cnt[BOOT_PAGES] == 0 && !HasTable(m, BOOT_TABLES)
    ensures m'.cnt[BOOT_PAGES] == 0 && !HasTable(m', BOOT_TABLES)
  {
    hide Usable, Free, Inv, EntriesKept;
    assert BOOT_PAGES / 1024 == BOOT_TABLES;
    assert m'.cnt[BOOT_PAGES] != 0 ==> Mapped(m', BOOT_PAGES);
  }

  lemma StaysUntouched(m: Mem, base: int, p: int, m': Mem)
    requires IsUser(p) && Demanded(m, base, p, m') && forall q :: p <= q < PAGES ==> !Mapped(m, q)
    ensures forall q :: p < q < PAGES ==> !Mapped(m', q)
  {
    hide Usable, Free, WindowKept, Placed, TablesOk, LeavesOk, SoleWriter, CountsOk, IdentityWindow;
    forall q | p < q < PAGES ensures !Mapped(m', q) {
      assert !Mapped(m, q);
      assert SameEntry(m, m', q);
    }
  }

  /** The page is mapped, since frame 8192 is free but not usable. */
  lemma FaultTakes(m: Mem, base: int, p: int, m': Mem)
    requires IsUser(p) && Demanded(m, base, p, m') && DemandedExactly(m, p, m') && NoPageEnds(m, p)
    requires m.cnt[BOOT_PAGES] == 0 && !HasTable(m, BOOT_TABLES)
    ensures |Usable(m')| < |Usable(m)|
  {
    hide Usable, Free, Prepared, Inv;
    PreparedIs(m, base, m', {p});
    SizedOfInv(m, base);
    MoreFree(m);
  }

  /** The next page fault takes a usable frame. */
  lemma BeyondStep(m: Mem, base: int, n: nat)
    requires Beyond(m, base, n) && IsPage(USER + n) && NoPageEnds(m, USER + n)
    ensures var m' := AfterNoPage(m, USER + n);
            Step(m, base, NoPage(USER + n), m') && Beyond(m', base, n + 1) && |Usable(m')| < |Usable(m)|
  {
    var p := USER + n;
    assert !Mapped(m, p);
    NoPageEndsExactly(m, base, p);
    NoPageDemands(m, base, p);
    AfterBeyond(m, base, n, AfterNoPage(m, p));
    hide Beyond, Usable, Demanded, DemandedExactly, AfterNoPage, Inv;
  }

  lemma AfterBeyond(m: Mem, base: int, n: nat, m': Mem)
    requires Beyond(m, base, n) && IsPage(USER + n) && NoPageEnds(m, USER + n)
    requires Demanded(m, base, USER + n, m') && DemandedExactly(m, USER + n, m')
    ensures Beyond(m', base, n + 1) && |Usable(m')| < |Usable(m)|
  {
    hide Usable, Free, NoPageEnds, Pte, Demanded, DemandedExactly;
    FaultLeavesFrame(m, base, USER + n, m');
    StaysUntouched(m, base, USER + n, m');
    FaultTakes(m, base, USER + n, m');
    DemandedIs(m, base, USER + n, m');
  }

  lemma DemandedIs(m: Mem, base: int, p: int, m': Mem)
    requires Demanded(m, base, p, m')
    ensures Inv(m', base)
  {
  }

  lemma MoreFree(m: Mem)
    requires Sized(m) && m.cnt[BOOT_PAGES] == 0 && !HasTable(m, BOOT_TABLES)
    ensures |Free(m)| > |Usable(m)|
  {
    assert BOOT_PAGES / 1024 == BOOT_TABLES;
    assert BOOT_PAGES in Free(m) && BOOT_PAGES !in Usable(m);
    SubsetSize(Usable(m) + {BOOT_PAGES}, Free(m));
  }

  /** Touching one new page after the other. */
  ghost predicate Touches(ops: seq<Op>, n: nat) {
    forall k :: 0 <= k < |ops| ==> ops[k] == NoPage(USER + n + k)
  }

  lemma RunPrepend(m: Mem, op: Op, ms: seq<Mem>, base: int, ops: seq<Op>)
    requires Run(ms, base, ops) && Step(m, base, op, ms[0])
    ensures Run([m] + ms, base, [op] + ops)
  {
    hide Step;
    forall k | 0 <= k < |[op] + ops| ensures StepAt([m] + ms, base, [op] + ops, k) {
      assert k > 0 ==> StepAt(ms, base, ops, k - 1);
    }
  }

  /** A run of new pages that ends where the next page fault never returns. */
  ghost predicate Dry(ms: seq<Mem>, base: int, ops: seq<Op>, n: nat) {
    && Run(ms, base, ops) && Touches(ops, n) && IsPage(USER + n + |ops|)
    && Lost(ms[|ops|], base, USER + n + |ops|)
  }

  /** The fault on page p never returns, although a frame is free. */
  ghost predicate Lost(l: Mem, base: int, p: int)
    requires IsPage(p)
  {
    Inv(l, base) && !Mapped(l, p) && BOOT_PAGES in Free(l) && !NoPageEnds(l, p)
  }

  lemma DryPrepend(m: Mem, base: int, n: nat, ms: seq<Mem>, ops: seq<Op>)
    requires Dry(ms, base, ops, n + 1) && Step(m, base, NoPage(USER + n), ms[0])
    ensures Dry([m] + ms, base, [NoPage(USER + n)] + ops, n)
  {
    hide Step, Lost, Run;
    RunLength(ms, base, ops);
    RunPrepend(m, NoPage(USER + n), ms, base, ops);
    assert ([m] + ms)[|ops| + 1] == ms[|ops|];
  }

  lemma RunLength(ms: seq<Mem>, base: int, ops: seq<Op>)
    requires Run(ms, base, ops)
    ensures |ms| == |ops| + 1
  {
  }

  lemma DryNow(m: Mem, base: int, n: nat)
    requires Beyond(m, base, n) && IsPage(USER + n) && !NoPageEnds(m, USER + n)
    ensures Dry([m], base, [], n)
  {
    hide NoPageEnds, TablesOk, LeavesOk, SoleWriter, CountsOk, IdentityWindow;
    assert BOOT_PAGES in Free(m) && !Mapped(m, USER + n);
  }

  lemma BeyondPage(m: Mem, base: int, n: nat)
    requires Beyond(m, base, n)
    ensures Sized(m) && IsPage(USER + n)
  {
  }

  lemma {:induction false} RunsDryFrom(m: Mem, base: int, n: nat) returns (ms: seq<Mem>, ops: seq<Op>)
    requires Sized(m) && Beyond(m, base, n)
    ensures Dry(ms, base, ops, n) && ms[0] == m
    decreases |Usable(m)|
  {
    hide Beyond, Usable, NoPageEnds, Step, Dry, AfterNoPage;
    BeyondPage(m, base, n);
    if NoPageEnds(m, USER + n) {
      BeyondStep(m, base, n);
      ms, ops := RunsDryFrom(AfterNoPage(m, USER + n), base, n + 1);
      DryPrepend(m, base, n, ms, ops);
      ms, ops := [m] + ms, [NoPage(USER + n)] + ops;
    } else {
      DryNow(m, base, n);
      ms, ops := [m], [];
    }
  }

  /** With more than 32 MB of memory, processes that touch new pages one after the
      other come to a page fault that never returns, although frames are free. */
  lemma RunsDry(m: Mem, base: int, end: int) returns (ms: seq<Mem>, ops: seq<Op>)
    requires Started(m, base, end) && end > BOOT_PAGES
    ensures Dry(ms, base, ops, 0) && ms[0] == m
  {
    hide Dry, Beyond;
    StartsBeyond(m, base, end);
    ms, ops := RunsDryFrom(m, base, 0);
  }

  lemma StartsBeyond(m: Mem, base: int, end: int)
    requires Started(m, base, end) && end > BOOT_PAGES
    ensures Sized(m) && Beyond(m, base, 0)
  {
    BootInv(m, base, end);
    BootEntries(m);
    FewFrames(Usable(m));
    hide Usable, Booted;
  }

  ghost function Below(n: nat): (s: set<int>)
    ensures |s| == n && forall f :: f in s <==> 0 <= f < n
  {
    if n == 0 then {} else Below(n - 1) + {n - 1}
  }

  lemma FewFrames(s: set<int>)
    requires forall f :: f in s ==> IsFrame(f)
    ensures |s| <= FRAMES
  {
    SubsetSize(s, Below(FRAMES));
  }

  // ----------------------------------------------------------- a share that waits

  /** With one frame of main memory share_page never returns. */
  lemma ShareNeverReturns(m: Mem, base: int)
    requires base < BOOT_PAGES && Started(m, base, base + 1)
    ensures Inv(m, base) && |Usable(m)| < Need(m, USER, USER + 1) && !ShareEnds(m, USER, USER + 1)
  {
    hide ShareEnds, SourceMapped, Booted;
    BootInv(m, base, base + 1);
    OneUsable(m, base);
    ShareEndsExactly(m, base, USER, USER + 1);
  }

  lemma OneUsable(m: Mem, base: int)
    requires base < BOOT_PAGES && Started(m, base, base + 1)
    ensures |Usable(m)| == 1 && Need(m, USER, USER + 1) == 2
  {
    hide Usable;
    BootUsable(m, base, base + 1);
    assert Usable(m) == {base};
    BootNeed(m);
  }

  lemma BootNeed(m: Mem)
    requires Sized(m) && Booted(m.phys)
    ensures Need(m, USER, USER + 1) == 2
  {
    BootEntries(m);
  }

  // ------------------------------------------------------------ a frame that is lost

  /** Two pages above 64 MB are touched for the first time, and the first is
      shared with the second. */
  const TWO_PAGES := [NoPage(USER), NoPage(USER + 1), Share(USER, USER + 1)]

  ghost function TwoPages(m: Mem): (ms: seq<Mem>)
    requires Sized(m)
    ensures |ms| == 4 && Sized(ms[2]) && Sized(ms[3])
  {
    var m1 := AfterNoPage(m, USER);
    var m2 := AfterNoPage(m1, USER + 1);
    [m, m1, m2, AfterShare(m2, USER, USER + 1)]
  }

  lemma TouchOne(m: Mem, base: int, p: int)
    requires Inv(m, base) && IsUser(p) && !Mapped(m, p) && |Usable(m)| > TableNeed(m, p)
    ensures Step(m, base, NoPage(p), AfterNoPage(m, p))
    ensures var n := AfterNoPage(m, p);
            && Inv(n, base) && Mapped(n, p) && HasTable(n, p / 1024)
            && FreshIn(m, MapsTo(n, p)) && n.cnt[MapsTo(n, p)] == 1
            && |Usable(n)| == |Usable(m)| - TableNeed(m, p) - 1
            && Claimed(m, n) && forall q :: IsUser(q) && q != p ==> Pte(n, q) == Pte(m, q)
  {
    NoPageEndsExactly(m, base, p);
    NoPageDemands(m, base, p);
    forall q | IsUser(q) && q != p ensures Pte(AfterNoPage(m, p), q) == Pte(m, q) {
      assert SameEntry(m, AfterNoPage(m, p), q);
    }
    hide Usable, Free;
  }

  /** Two pages touched one after the other lie in two frames, used once each. */
  lemma TouchTwo(m: Mem, base: int, p: int, q: int)
    requires Inv(m, base) && IsUser(p) && IsUser(q) && p != q && p / 1024 == q / 1024
    requires !Mapped(m, p) && !Mapped(m, q) && |Usable(m)| >= 3
    ensures var m1 := AfterNoPage(m, p); var m2 := AfterNoPage(m1, q);
            && Step(m, base, NoPage(p), m1) && Step(m1, base, NoPage(q), m2)
            && Inv(m2, base) && Mapped(m2, p) && Mapped(m2, q)
            && var f := MapsTo(m2, p); var g := MapsTo(m2, q);
               IsFrame(f) && IsFrame(g) && f != g && m.cnt[g] == 0 && m2.cnt[f] == 1 && m2.cnt[g] == 1
  {
    hide AfterNoPage, Step, Usable, TablesOk, LeavesOk, SoleWriter, CountsOk, IdentityWindow;
    var m1 := AfterNoPage(m, p);
    TouchOne(m, base, p);
    TouchOne(m1, base, q);
    assert Pte(AfterNoPage(m1, q), p) == Pte(m1, p);
  }

  /** Then the frame of the second page is lost: it is counted, but no page maps
      it, it is no page table, and no step of a run makes it free again. */
  lemma ShareLeaks(m: Mem, base: int, end: int)
    requires Started(m, base, end) && |Usable(m)| >= 3
    ensures var ms := TwoPages(m); var g := MapsTo(ms[2], USER + 1);
            && Run(ms, base, TWO_PAGES)
            && IsFrame(g) && m.cnt[g] == 0 && ms[3].cnt[g] == 1 && Refs(ms[3], g) == {} && !IsTable(ms[3], g)
  {
    hide AfterNoPage, AfterShare, Usable, Refs, IsTable;
    var ms := TwoPages(m);
    BootInv(m, base, end);
    BootEntries(m);
    TouchTwo(m, base, USER, USER + 1);
    ShareLoses(ms[2], base, USER, USER + 1);
    assert StepAt(ms, base, TWO_PAGES, 0) && StepAt(ms, base, TWO_PAGES, 1) && StepAt(ms, base, TWO_PAGES, 2);
  }

  /** A share into a page that was the only user of its frame loses the frame. */
  lemma ShareLoses(m: Mem, base: int, from: int, to: int)
    requires Inv(m, base) && IsUser(from) && IsUser(to) && Mapped(m, from) && Mapped(m, to)
    requires IsFrame(MapsTo(m, from)) && IsFrame(MapsTo(m, to)) && MapsTo(m, from) != MapsTo(m, to)
    requires m.cnt[MapsTo(m, from)] < 255 && m.cnt[MapsTo(m, to)] == 1
    ensures CanShare(m, base, from, to)
    ensures var m' := AfterShare(m, from, to); var g := MapsTo(m, to);
            m'.cnt[g] == 1 && Refs(m', g) == {} && !IsTable(m', g)
  {
    assert BeforeShare(m, from, to) == m;
    ShareWritesShare(m, base, from, to);
    ShareRefs(m, from, to, AfterShare(m, from, to));
    CountOneIsPrivate(m, base, to);
  }

  // ---------------------------------------------------------- a count that overflows

  /** Page USER is shared with the k pages behind it, one after the other. */
  ghost function Fan(m: Mem, k: nat): (n: Mem)
    requires Sized(m) && USER + k < PAGES
    ensures Sized(n)
  {
    if k == 0 then m else AfterShare(Fan(m, k - 1), USER, USER + k)
  }

  /** Page USER, on a frame counted c times, with its page table. */
  ghost predicate Hub(m: Mem, base: int, c: int) {
    && Inv(m, base) && Mapped(m, USER) && IsFrame(MapsTo(m, USER)) && m.cnt[MapsTo(m, USER)] == c
  }

  lemma HubShares(m: Mem, base: int, c: int, to: int)
    requires Hub(m, base, c) && USER < to < USER + 1024 && c < 255
    ensures CanShare(m, base, USER, to) && Hub(AfterShare(m, USER, to), base, c + 1)
  {
    assert to / 1024 == USER / 1024 && BeforeShare(m, USER, to) == m;
    SharePageShares(m, base, USER, to);
    ShareWritesShare(m, base, USER, to);
  }

  lemma {:induction false} FanCounts(m: Mem, base: int, c: nat, k: nat)
    requires Hub(m, base, c) && c + k <= 255
    ensures Hub(Fan(m, k), base, c + k)
    ensures k > 0 ==> Step(Fan(m, k - 1), base, Share(USER, USER + k), Fan(m, k))
  {
    hide AfterShare, CanShare, Usable, TablesOk, LeavesOk, SoleWriter, CountsOk, IdentityWindow;
    if k > 0 {
      FanCounts(m, base, c, k - 1);
      HubShares(Fan(m, k - 1), base, c + k - 1, USER + k);
    }
  }

  /** After a page was touched and shared 254 times, the next share returns and
      leaves a frame that is mapped and counts as free. */
  lemma CountOverflows(m: Mem, base: int, end: int)
    requires Started(m, base, end) && |Usable(m)| >= 2
    ensures var m1 := AfterNoPage(m, USER); var l := Fan(m1, 254); var m' := AfterShare(l, USER, USER + 255);
            && Step(m, base, NoPage(USER), m1)
            && (forall k :: 0 < k <= 254 ==> Step(Fan(m1, k - 1), base, Share(USER, USER + k), Fan(m1, k)))
            && Inv(l, base) && ShareEnds(l, USER, USER + 255) && !Inv(m', base)
  {
    BootInv(m, base, end);
    BootEntries(m);
    var m1 := AfterNoPage(m, USER);
    TouchOne(m, base, USER);
    assert Hub(m1, base, 1);
    hide AfterNoPage, Step, Usable;
    forall k | 0 < k <= 254 ensures Step(Fan(m1, k - 1), base, Share(USER, USER + k), Fan(m1, k)) {
      FanCounts(m1, base, 1, k);
    }
    FanCounts(m1, base, 1, 254);
    FullHub(Fan(m1, 254), base, USER + 255);
  }

  lemma FullHub(m: Mem, base: int, to: int)
    requires Hub(m, base, 255) && USER < to < USER + 1024
    ensures ShareEnds(m, USER, to) && !Inv(AfterShare(m, USER, to), base)
  {
    assert to / 1024 == USER / 1024 && BeforeShare(m, USER, to) == m;
    ShareFitsExactly(m, base, USER, to);
  }
}
