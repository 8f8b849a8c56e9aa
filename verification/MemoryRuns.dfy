/**
  Copy on write against plain copying.  A plain machine keeps the contents of
  every user page by value; every run of the page manager's operations shows
  processes exactly what the plain machine shows them.
 */
module MemoryRuns {
  import opened Paging
  import opened PagingSteps
  import opened FrameAlloc
  import opened Faults

  datatype Op =
    | NoPage(page: int)                        // do_no_page
    | WriteProtect(page: int)                  // do_wp_page
    | Share(from: int, to: int)                // share_page
    | Write(page: int, index: int, word: int)  // a store through a writable entry

  /** The processor raises the fault, or allows the store; the handler returns; a
      count that grows does not overflow its byte. */
  ghost predicate Enabled(m: Mem, base: int, op: Op)
    requires Sized(m)
  {
    match op
    case NoPage(p) => IsPage(p) && !Mapped(m, p) && NoPageEnds(m, p)
    case WriteProtect(p) => IsUser(p) && Mapped(m, p) && WpPageEnds(m, p)
    case Share(from, to) => CanShare(m, base, from, to)
    case Write(p, i, _) => IsUser(p) && Mapped(m, p) && Writable(Pte(m, p)) && 0 <= i < 1024
  }

  ghost function Stored(m: Mem, p: int, i: int, w: int): (n: Mem)
    requires Sized(m) && IsPage(p) && 0 <= i < 1024
    ensures Sized(n)
  {
    var f := MapsTo(m, p);
    if IsFrame(f) then SetFrame(m, f, m.phys[f][i := w]) else m
  }

  /** The memory the operation leaves. */
  ghost function Apply(m: Mem, base: int, op: Op): (n: Mem)
    requires Sized(m) && Enabled(m, base, op)
    ensures Sized(n)
  {
    match op
    case NoPage(p) => AfterNoPage(m, p)
    case WriteProtect(p) => AfterWpPage(m, p)
    case Share(from, to) => AfterShare(m, from, to)
    case Write(p, i, w) => Stored(m, p, i, w)
  }

  ghost predicate Step(m: Mem, base: int, op: Op, m': Mem) {
    Sized(m) && Enabled(m, base, op) && m' == Apply(m, base, op)
  }

  // --------------------------------------------------------- the plain machine

  type Contents = map<int, Content>

  ghost function At(ps: Contents, p: int): Content {
    if p in ps then ps[p] else Own(Zeros())
  }

  /** What the plain machine shows when processes see m. */
  ghost function Pages(m: Mem, base: int): (ps: Contents)
    requires Sized(m)
    ensures forall p {:trigger At(ps, p)} :: IsUser(p) ==> At(ps, p) == PageOf(m, base, p)
  {
    map p | USER <= p < PAGES :: PageOf(m, base, p)
  }

  /** What copying from page p copies; pages below 64 MB are those of the kernel
      image. */
  ghost function Copied(ps: Contents, p: int): Content {
    if p < USER then Image(p) else At(ps, p)
  }

  ghost predicate Still(ps: Contents, ps': Contents) {
    forall q {:trigger At(ps', q)} :: IsUser(q) ==> At(ps', q) == At(ps, q)
  }

  /** Page p becomes c, and no other page changes. */
  ghost predicate Becomes(ps: Contents, ps': Contents, p: int, c: Content) {
    forall q {:trigger At(ps', q)} :: IsUser(q) ==> At(ps', q) == if q == p then c else At(ps, q)
  }

  /** One step of the plain machine.  Faults do nothing, except that a page that
      still shows the kernel image becomes words of its own when it is first
      written. */
  ghost predicate PlainStep(ps: Contents, op: Op, ps': Contents) {
    match op
    case NoPage(_) => Still(ps, ps')
    case WriteProtect(p) =>
      || Still(ps, ps')
      || (At(ps, p).Image? && At(ps', p).Own? && |At(ps', p).words| == 1024 && Becomes(ps, ps', p, At(ps', p)))
    case Share(from, to) => Becomes(ps, ps', to, Copied(ps, from))
    case Write(p, i, w) =>
      && At(ps, p).Own? && 0 <= i < |At(ps, p).words|
      && Becomes(ps, ps', p, Own(At(ps, p).words[i := w]))
  }

  ghost predicate PlainRun(pss: seq<Contents>, ops: seq<Op>) {
    |pss| == |ops| + 1 && forall k :: 0 <= k < |ops| ==> PlainStep(pss[k], ops[k], pss[k + 1])
  }

  // ----------------------------------------------------------------- one step

  lemma StoreKeepsInv(m: Mem, base: int, p: int, i: int, w: int)
    requires Inv(m, base) && Enabled(m, base, Write(p, i, w))
    ensures Inv(Stored(m, p, i, w), base)
    ensures PageOf(m, base, p) == Own(m.phys[MapsTo(m, p)])
    ensures OnePage(m, base, Stored(m, p, i, w), p, Own(m.phys[MapsTo(m, p)][i := w]))
  {
    StoreThroughWritable(m, base, p, m.phys[MapsTo(m, p)][i := w], Stored(m, p, i, w));
  }

  /** Each operation keeps the accounting, and no frame in use becomes free. */
  lemma StepKeepsInv(m: Mem, base: int, op: Op, m': Mem)
    requires Inv(m, base) && Step(m, base, op, m')
    ensures Inv(m', base) && Free(m') <= Free(m)
  {
    match op
    case NoPage(p) => NoPageStep(m, base, p);
    case WriteProtect(p) => WpPageUnprotects(m, base, p);
    case Share(from, to) => SharePageShares(m, base, from, to);
    case Write(p, i, w) => StoreKeepsInv(m, base, p, i, w);
  }

  lemma NoPageStep(m: Mem, base: int, p: int)
    requires Inv(m, base) && Enabled(m, base, NoPage(p))
    ensures Demanded(m, base, p, AfterNoPage(m, p))
  {
    NoPageEndsExactly(m, base, p);
    NoPageDemands(m, base, p);
    hide Usable, Free, Inv, Prepared;
  }

  lemma ShownAfterNone(m: Mem, base: int, m': Mem)
    requires Sized(m) && Sized(m') && SamePages(m, base, m')
    ensures Still(Pages(m, base), Pages(m', base))
  {
  }

  lemma ShownAfterOne(m: Mem, base: int, m': Mem, p: int, c: Content)
    requires Sized(m) && Sized(m') && IsUser(p) && OnePage(m, base, m', p, c)
    ensures Becomes(Pages(m, base), Pages(m', base), p, c) && At(Pages(m', base), p) == c
    ensures PageOf(m, base, p) == c ==> Still(Pages(m, base), Pages(m', base))
  {
  }

  lemma WpPageRefinesPlain(m: Mem, base: int, p: int)
    requires Inv(m, base) && IsUser(p) && Mapped(m, p)
    ensures PlainStep(Pages(m, base), WriteProtect(p), Pages(AfterWpPage(m, p), base))
  {
    var m' := AfterWpPage(m, p);
    WpPageUnprotects(m, base, p);
    if m' != m {
      var ws := WordsOf(m, base, p, m');
      assert OnePage(m, base, m', p, Own(ws)) && (PageOf(m, base, p).Own? ==> PageOf(m, base, p) == Own(ws));
      ShownAfterOne(m, base, m', p, Own(ws));
      assert At(Pages(m, base), p) == PageOf(m, base, p);
      hide PageOf, Pages, Inv;
    }
  }

  lemma StoreRefinesPlain(m: Mem, base: int, p: int, i: int, w: int)
    requires Inv(m, base) && Enabled(m, base, Write(p, i, w))
    ensures PlainStep(Pages(m, base), Write(p, i, w), Pages(Stored(m, p, i, w), base))
  {
    StoreKeepsInv(m, base, p, i, w);
    assert At(Pages(m, base), p) == PageOf(m, base, p);
    ShownAfterOne(m, base, Stored(m, p, i, w), p, Own(m.phys[MapsTo(m, p)][i := w]));
  }

  lemma ShareRefinesPlain(m: Mem, base: int, from: int, to: int)
    requires Inv(m, base) && CanShare(m, base, from, to)
    ensures PlainStep(Pages(m, base), Share(from, to), Pages(AfterShare(m, from, to), base))
  {
    SharePageShares(m, base, from, to);
    assert from >= USER ==> At(Pages(m, base), from) == PageOf(m, base, from);
    ShownAfterOne(m, base, AfterShare(m, from, to), to, Source(m, base, from));
  }

  lemma NoPageRefinesPlain(m: Mem, base: int, p: int)
    requires Inv(m, base) && Enabled(m, base, NoPage(p))
    ensures PlainStep(Pages(m, base), NoPage(p), Pages(AfterNoPage(m, p), base))
  {
    NoPageStep(m, base, p);
    ShownAfterNone(m, base, AfterNoPage(m, p));
  }

  /** Each operation shows processes what one step of the plain machine shows. */
  lemma StepRefinesPlain(m: Mem, base: int, op: Op, m': Mem)
    requires Inv(m, base) && Step(m, base, op, m')
    ensures PlainStep(Pages(m, base), op, Pages(m', base))
  {
    hide PlainStep, Pages, AfterNoPage, AfterWpPage, AfterShare, Stored;
    match op
    case NoPage(p) => NoPageRefinesPlain(m, base, p);
    case WriteProtect(p) => WpPageRefinesPlain(m, base, p);
    case Share(from, to) => ShareRefinesPlain(m, base, from, to);
    case Write(p, i, w) => StoreRefinesPlain(m, base, p, i, w);
  }

  // -------------------------------------------------- what the kernel can reach

  /** The kernel reads and writes frames through the linear pages of their
      numbers.  The pages the boot code maps, the page tables and the frames
      processes map are within its reach. */
  ghost predicate Window(m: Mem)
    requires Sized(m)
  {
    && (forall p :: 0 <= p < BOOT_PAGES ==> Mapped(m, p))
    && (forall f {:trigger IsTable(m, f)} :: IsFrame(f) && IsTable(m, f) ==> Mapped(m, f))
    && (forall q :: IsUser(q) && Mapped(m, q) ==> Reaches(m, q))
  }

  /** The frame behind user page q is mapped at its own linear page. */
  ghost predicate Reaches(m: Mem, q: int)
    requires Sized(m) && IsPage(q)
  {
    IsFrame(MapsTo(m, q)) && Mapped(m, MapsTo(m, q))
  }

  lemma WindowStays(m: Mem, base: int, m': Mem, changed: set<int>)
    requires Inv(m, base) && Inv(m', base) && Window(m)
    requires WindowKept(m, m') && EntriesKept(m, m', changed)
    requires forall q :: q in changed && IsUser(q) && Mapped(m', q) ==> Reaches(m', q)
    ensures Window(m')
  {
    forall f | IsFrame(f) && IsTable(m', f) ensures Mapped(m', f) {
      assert m'.cnt[f] >= 1;
      assert IsTable(m, f) || m.cnt[f] == 0;
    }
    forall q | IsUser(q) && Mapped(m', q) ensures Reaches(m', q) {
      if q !in changed {
        assert SameEntry(m, m', q);
        assert Reaches(m, q);
      }
    }
  }

  /** A user page on a frame taken in the step, or behind another page before. */
  lemma ReachesFresh(m: Mem, base: int, m': Mem, q: int)
    requires Inv(m, base) && Inv(m', base) && WindowKept(m, m')
    requires IsUser(q) && Mapped(m', q) && FreshIn(m, MapsTo(m', q))
    ensures Reaches(m', q)
  {
    assert q in Refs(m', MapsTo(m', q));
    assert m'.cnt[MapsTo(m', q)] >= 1;
  }

  lemma NoPageKeepsWindow(m: Mem, base: int, p: int)
    requires Inv(m, base) && Window(m) && Enabled(m, base, NoPage(p))
    ensures Window(AfterNoPage(m, p))
  {
    var m' := AfterNoPage(m, p);
    NoPageStep(m, base, p);
    if IsUser(p) && Mapped(m', p) {
      ReachesFresh(m, base, m', p);
    }
    WindowStays(m, base, m', {p});
  }

  lemma WpPageKeepsWindow(m: Mem, base: int, p: int)
    requires Inv(m, base) && Window(m) && Enabled(m, base, WriteProtect(p))
    ensures Window(AfterWpPage(m, p))
  {
    var m' := AfterWpPage(m, p);
    WpPageUnprotects(m, base, p);
    assert Reaches(m, p);
    if Mapped(m', p) && MapsTo(m', p) != MapsTo(m, p) {
      ReachesFresh(m, base, m', p);
    }
    WindowStays(m, base, m', {p});
  }

  lemma SharedReaches(m: Mem, base: int, from: int, to: int, m': Mem)
    requires Inv(m, base) && Window(m) && Shared(m, base, from, to, m')
    requires from < USER ==> from < base
    ensures Reaches(m', to) && (IsUser(from) ==> Reaches(m', from))
  {
    if from < USER {
      assert MapsTo(m', from) == from;
      assert Mapped(m, from);
    } else if Mapped(m, from) {
      assert Reaches(m, from);
    } else {
      ReachesFresh(m, base, m', from);
    }
    hide OnePage, EntriesKept, CountsOneMore, Usable;
  }

  lemma SharedKeepsWindow(m: Mem, base: int, from: int, to: int, m': Mem)
    requires Inv(m, base) && Window(m) && Shared(m, base, from, to, m') && (from < USER ==> from < base)
    ensures Window(m')
  {
    hide Shared, Window, Reaches, EntriesKept, WindowKept;
    SharedIs(m, base, from, to, m');
    SharedReaches(m, base, from, to, m');
    forall q | q in {from, to} && IsUser(q) && Mapped(m', q) ensures Reaches(m', q) {
      assert q == from || q == to;
    }
    WindowStays(m, base, m', {from, to});
  }

  lemma SharedIs(m: Mem, base: int, from: int, to: int, m': Mem)
    requires Shared(m, base, from, to, m')
    ensures Inv(m', base) && WindowKept(m, m') && EntriesKept(m, m', {from, to}) && IsPage(from) && IsUser(to)
  {
  }

  lemma ShareKeepsWindow(m: Mem, base: int, from: int, to: int)
    requires Inv(m, base) && Window(m) && CanShare(m, base, from, to)
    ensures Window(AfterShare(m, from, to))
  {
    hide AfterShare, Shared, Window, Usable, Need;
    SharePageShares(m, base, from, to);
    SharedKeepsWindow(m, base, from, to, AfterShare(m, from, to));
  }

  lemma SameEntriesSameWindow(m: Mem, m': Mem)
    requires Sized(m) && Sized(m') && Window(m)
    requires forall p :: IsPage(p) ==> Pte(m', p) == Pte(m, p)
    requires forall f :: IsTable(m', f) == IsTable(m, f)
    ensures Window(m')
  {
    assert forall p :: IsPage(p) ==> Mapped(m', p) == Mapped(m, p) && MapsTo(m', p) == MapsTo(m, p);
    forall q | IsUser(q) && Mapped(m', q) ensures Reaches(m', q) {
      assert Reaches(m, q);
    }
    forall f | IsFrame(f) && IsTable(m', f) ensures Mapped(m', f) {
      assert IsTable(m, f);
    }
  }

  lemma StoreKeepsWindow(m: Mem, base: int, p: int, i: int, w: int)
    requires Inv(m, base) && Window(m) && Enabled(m, base, Write(p, i, w))
    ensures Window(Stored(m, p, i, w))
  {
    hide Window;
    DataKeepsInv(m, Stored(m, p, i, w), base);
    SameEntriesSameWindow(m, Stored(m, p, i, w));
  }

  /** Each operation leaves the kernel its reach. */
  lemma StepKeepsWindow(m: Mem, base: int, op: Op, m': Mem)
    requires Inv(m, base) && Window(m) && Step(m, base, op, m')
    ensures Window(m')
  {
    hide Window, AfterNoPage, AfterWpPage, AfterShare, Stored;
    match op
    case NoPage(p) => NoPageKeepsWindow(m, base, p);
    case WriteProtect(p) => WpPageKeepsWindow(m, base, p);
    case Share(from, to) => ShareKeepsWindow(m, base, from, to);
    case Write(p, i, w) => StoreKeepsWindow(m, base, p, i, w);
  }

  // --------------------------------------------------------------------- runs

  ghost predicate StepAt(ms: seq<Mem>, base: int, ops: seq<Op>, k: int) {
    0 <= k < |ops| && k + 1 < |ms| && Step(ms[k], base, ops[k], ms[k + 1])
  }

  /** ms are the states a run of ops goes through. */
  ghost predicate Run(ms: seq<Mem>, base: int, ops: seq<Op>) {
    |ms| == |ops| + 1 && forall k :: 0 <= k < |ops| ==> StepAt(ms, base, ops, k)
  }

  /** The accounting holds in every reachable state, and a frame once used is
      never free again. */
  lemma {:induction false} RunKeepsInv(ms: seq<Mem>, base: int, ops: seq<Op>, k: nat)
    requires Run(ms, base, ops) && Inv(ms[0], base) && k <= |ops|
    ensures Inv(ms[k], base) && Free(ms[k]) <= Free(ms[0])
  {
    if k > 0 {
      RunKeepsInv(ms, base, ops, k - 1);
      assert StepAt(ms, base, ops, k - 1);
      StepKeepsInv(ms[k - 1], base, ops[k - 1], ms[k]);
    }
  }

  /** In every state of a run the kernel reaches what the boot code mapped, every
      page table and every frame a process maps; and on a machine whose regions
      all have page tables they go on having them. */
  lemma {:induction false} RunKeepsWindow(ms: seq<Mem>, base: int, ops: seq<Op>, k: nat)
    requires Run(ms, base, ops) && Inv(ms[0], base) && Window(ms[0]) && k <= |ops|
    ensures Inv(ms[k], base) && Window(ms[k])
    ensures Covered(ms[0]) ==> Covered(ms[k])
  {
    hide Window, Covered, Step;
    if k > 0 {
      RunKeepsWindow(ms, base, ops, k - 1);
      assert StepAt(ms, base, ops, k - 1);
      StepKeepsInv(ms[k - 1], base, ops[k - 1], ms[k]);
      StepKeepsWindow(ms[k - 1], base, ops[k - 1], ms[k]);
      StepKeepsCovered(ms[k - 1], base, ops[k - 1], ms[k]);
    }
  }

  lemma StepKeepsCovered(m: Mem, base: int, op: Op, m': Mem)
    requires Inv(m, base) && Step(m, base, op, m')
    ensures Sized(m') && (Covered(m) ==> Covered(m'))
  {
    hide Covered, Step, Monotone;
    StepIsMonotone(m, base, op, m');
    SizedOfStep(m, base, op, m');
    if Covered(m) {
      CoveredStays(m, m');
    }
  }

  lemma StepIsMonotone(m: Mem, base: int, op: Op, m': Mem)
    requires Inv(m, base) && Step(m, base, op, m')
    ensures Monotone(m, m')
  {
    hide Monotone, AfterNoPage, AfterWpPage, AfterShare, Stored, Inv;
    match op
    case NoPage(p) => NoPageStep(m, base, p);
    case WriteProtect(p) => WpPageUnprotects(m, base, p);
    case Share(from, to) => SharePageShares(m, base, from, to);
    case Write(p, i, w) => StoreTables(m, base, p, i, w);
  }

  lemma StoreTables(m: Mem, base: int, p: int, i: int, w: int)
    requires Inv(m, base) && Enabled(m, base, Write(p, i, w))
    ensures Monotone(m, Stored(m, p, i, w))
  {
    DataKeepsInv(m, Stored(m, p, i, w), base);
    WindowThrough(m, m, Stored(m, p, i, w));
  }

  /** What processes see in the states of a run. */
  ghost function Shown(ms: seq<Mem>, base: int): (pss: seq<Contents>)
    requires forall k :: 0 <= k < |ms| ==> Sized(ms[k])
    ensures |pss| == |ms| && forall k :: 0 <= k < |ms| ==> pss[k] == Pages(ms[k], base)
  {
    seq(|ms|, k requires 0 <= k < |ms| => Pages(ms[k], base))
  }

  /** Copy on write refines plain copying: what processes see in the states of
      any run is a run of the plain machine. */
  lemma RunRefinesPlain(ms: seq<Mem>, base: int, ops: seq<Op>)
    requires Run(ms, base, ops) && Inv(ms[0], base)
    ensures forall k :: 0 <= k < |ms| ==> Sized(ms[k])
    ensures PlainRun(Shown(ms, base), ops)
  {
    hide Step, Inv, PlainStep, Pages;
    forall k | 0 <= k < |ms| ensures Inv(ms[k], base) && Sized(ms[k]) {
      RunKeepsInv(ms, base, ops, k);
      SizedOfInv(ms[k], base);
    }
    forall k | 0 <= k < |ops| ensures PlainStep(Pages(ms[k], base), ops[k], Pages(ms[k + 1], base)) {
      assert StepAt(ms, base, ops, k);
      StepRefinesPlain(ms[k], base, ops[k], ms[k + 1]);
    }
  }

  lemma SizedOfInv(m: Mem, base: int)
    requires Inv(m, base)
    ensures Sized(m)
  {
  }

  // ---------------------------------------------------------------- snapshots

  /** The operation may change page p, which shows c: a store, a share into it,
      or the first write to a page of the kernel image. */
  ghost predicate Disturbs(op: Op, p: int, c: Content) {
    match op
    case NoPage(_) => false
    case WriteProtect(page) => page == p && c.Image?
    case Share(_, to) => to == p
    case Write(page, _, _) => page == p
  }

  /** No operation from j to before k disturbs p. */
  ghost predicate Undisturbed(ops: seq<Op>, j: nat, k: nat, p: int, c: Content) {
    forall i :: j <= i < k && i < |ops| ==> !Disturbs(ops[i], p, c)
  }

  /** A page keeps what it shows in every run that does not disturb it. */
  lemma {:induction false} PageKept(ms: seq<Mem>, base: int, ops: seq<Op>, j: nat, k: nat, p: int)
    requires Run(ms, base, ops) && Inv(ms[0], base) && j <= k <= |ops| && IsUser(p)
    ensures Inv(ms[j], base) && Inv(ms[k], base)
    ensures Undisturbed(ops, j, k, p, PageOf(ms[j], base, p)) ==> PageOf(ms[k], base, p) == PageOf(ms[j], base, p)
    decreases k
  {
    hide Step, Inv, PageOf;
    RunKeepsInv(ms, base, ops, j);
    RunKeepsInv(ms, base, ops, k);
    if k > j && Undisturbed(ops, j, k, p, PageOf(ms[j], base, p)) {
      PageKept(ms, base, ops, j, k - 1, p);
      assert StepAt(ms, base, ops, k - 1);
      StepDisturbs(ms[k - 1], base, ops[k - 1], ms[k], p);
    }
  }

  lemma StepDisturbs(m: Mem, base: int, op: Op, m': Mem, p: int)
    requires Inv(m, base) && Step(m, base, op, m') && IsUser(p) && !Disturbs(op, p, PageOf(m, base, p))
    ensures Sized(m') && PageOf(m', base, p) == PageOf(m, base, p)
  {
    hide PageOf, Step;
    SizedOfStep(m, base, op, m');
    StepRefinesPlain(m, base, op, m');
    assert At(Pages(m', base), p) == PageOf(m', base, p) && At(Pages(m, base), p) == PageOf(m, base, p);
  }

  lemma SizedOfStep(m: Mem, base: int, op: Op, m': Mem)
    requires Step(m, base, op, m')
    ensures Sized(m) && Sized(m')
  {
  }

  /** A shared page is a snapshot: whatever the other side, or anybody else, does
      afterwards, a side whose own page is not disturbed keeps showing what the
      source showed when it was shared. */
  lemma SharedPageIsSnapshot(ms: seq<Mem>, base: int, ops: seq<Op>, j: nat, k: nat, from: int, to: int)
    requires Run(ms, base, ops) && Inv(ms[0], base) && j < k <= |ops| && ops[j] == Share(from, to)
    ensures Inv(ms[j], base) && Inv(ms[k], base) && IsPage(from) && IsUser(to)
    ensures Undisturbed(ops, j + 1, k, to, Source(ms[j], base, from)) ==>
              PageOf(ms[k], base, to) == Source(ms[j], base, from)
    ensures IsUser(from) && Undisturbed(ops, j, k, from, PageOf(ms[j], base, from)) ==>
              PageOf(ms[k], base, from) == PageOf(ms[j], base, from)
  {
    hide Step, PageOf, Undisturbed;
    RunKeepsInv(ms, base, ops, j);
    assert StepAt(ms, base, ops, j);
    StepShares(ms[j], base, from, to, ms[j + 1], to);
    PageKept(ms, base, ops, j + 1, k, to);
    if IsUser(from) {
      PageKept(ms, base, ops, j, k, from);
    }
  }

  lemma StepShares(m: Mem, base: int, from: int, to: int, m': Mem, p: int)
    requires Inv(m, base) && Step(m, base, Share(from, to), m')
    ensures IsPage(from) && IsUser(to) && Sized(m')
    ensures IsUser(p) ==> PageOf(m', base, p) == if p == to then Source(m, base, from) else PageOf(m, base, p)
  {
    SharePageShares(m, base, from, to);
  }
}
