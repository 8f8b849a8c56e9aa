/**
  The page-fault handlers and share_page: the memory each leaves behind, what of
  it processes see, and the frames it takes.
 */
module Faults {
  import opened Paging
  import opened PagingSteps
  import opened FrameAlloc

  // ------------------------------------------------------- the memory they leave

  // Where a handler never returns, the function gives the memory it is stuck at;
  // NoPageEnds, WpPageEnds and ShareEnds tell when that is.

  /** The loop that waits for the page table of p: create_page_table once. */
  ghost function TableFor(m: Mem, p: int): (n: Mem)
    requires Sized(m) && IsPage(p)
    ensures Sized(n)
  {
    if HasTable(m, p / 1024) then m else
    match Allocate(m)
    case Granted(n, r) => SetWord(n, DIR, p / 1024, Entry(r))
    case _ => m
  }

  /** do_no_page: the page table, then the page itself below 64 MB, or a frame,
      if there is one. */
  ghost function AfterNoPage(m: Mem, p: int): (n: Mem)
    requires Sized(m) && IsPage(p)
    ensures Sized(n)
  {
    var n := TableFor(m, p);
    if p < USER then Put(n, p, Entry(p)) else
    match Allocate(n)
    case Granted(n1, r) => Put(n1, p, Entry(r))
    case _ => n
  }

  /** The copy of a write fault: one use less of frame f, its words in frame r,
      and the entry of p pointed at r. */
  ghost function CopyTo(m: Mem, p: int, f: int, r: int): (n: Mem)
    requires Sized(m) && IsPage(p) && IsFrame(f) && IsFrame(r)
    ensures Sized(n)
  {
    Put(SetFrame(SetCnt(m, f, (m.cnt[f] + 255) % 256), r, m.phys[f]), p, Entry(r))
  }

  /** do_wp_page: the entry made writable when its frame counts one use, else a
      copy, if there is a frame for it; a count is one byte. */
  ghost function AfterWpPage(m: Mem, p: int): (n: Mem)
    requires Sized(m) && IsPage(p)
    ensures Sized(n)
  {
    var f := MapsTo(m, p);
    if !IsFrame(f) then m else
    if m.cnt[f] == 1 then Put(m, p, WriteEnabled(Pte(m, p))) else
    match Allocate(m)
    case Granted(n, r) => CopyTo(n, p, f, r)
    case _ => m
  }

  /** The first two loops of share_page: do_no_page, unless the source is mapped. */
  ghost function SourceMapped(m: Mem, from: int): (n: Mem)
    requires Sized(m) && IsPage(from)
    ensures Sized(n)
  {
    if Mapped(m, from) then m else AfterNoPage(m, from)
  }

  /** ... and the third: the target's page table. */
  ghost function BeforeShare(m: Mem, from: int, to: int): (n: Mem)
    requires Sized(m) && IsPage(from) && IsPage(to)
    ensures Sized(n)
  {
    TableFor(SourceMapped(m, from), to)
  }

  ghost function AfterShare(m: Mem, from: int, to: int): (n: Mem)
    requires Sized(m) && IsPage(from) && IsPage(to)
    ensures Sized(n)
  {
    ShareWrites(BeforeShare(m, from, to), from, to)
  }

  // ------------------------------------------------------------------ accounting

  /** Nothing is given back: frames in use stay in use, tables stay, and the
      kernel keeps what it can reach. */
  ghost predicate Monotone(m: Mem, m': Mem) {
    && Sized(m) && Sized(m') && WindowKept(m, m')
    && (forall f :: 0 <= f < FRAMES && m.cnt[f] != 0 ==> m'.cnt[f] != 0)
    && (forall d :: 0 <= d < 1024 && HasTable(m, d) ==> HasTable(m', d) && Table(m', d) == Table(m, d))
  }

  ghost predicate FreshIn(m: Mem, f: int)
    requires Sized(m)
  {
    IsFrame(f) && m.cnt[f] == 0
  }

  ghost predicate Claimed(m: Mem, m': Mem)
    requires Sized(m) && Sized(m')
  {
    forall f :: 0 <= f < FRAMES ==> m'.cnt[f] == m.cnt[f] || (m.cnt[f] == 0 && m'.cnt[f] == 1)
  }

  lemma EmptySize(s: set<int>)
    ensures s == {} <==> |s| == 0
  {
  }

  ghost predicate EntriesKept(m: Mem, m': Mem, changed: set<int>)
    requires Sized(m) && Sized(m')
  {
    forall q {:trigger Pte(m', q)} {:trigger SameEntry(m, m', q)} :: IsPage(q) && q !in changed ==> SameEntry(m, m', q)
  }

  lemma EntriesThrough(m: Mem, n: Mem, m': Mem, a: set<int>, b: set<int>)
    requires Sized(m) && Sized(n) && Sized(m') && EntriesKept(m, n, a) && EntriesKept(n, m', b)
    ensures EntriesKept(m, m', a + b)
  {
    forall q | IsPage(q) && q !in a + b ensures SameEntry(m, m', q) {
      assert SameEntry(m, n, q) && SameEntry(n, m', q);
    }
  }

  /** No page table is new but that of p. */
  ghost predicate OtherTablesSame(m: Mem, p: int, m': Mem)
    requires Sized(m) && Sized(m')
  {
    forall d :: 0 <= d < 1024 && d != p / 1024 ==> HasTable(m', d) == HasTable(m, d)
  }

  /** A missing page table, as a number of frames. */
  ghost function TableNeed(m: Mem, p: int): nat
    requires Sized(m) && IsPage(p)
  {
    if HasTable(m, p / 1024) then 0 else 1
  }

  /** The page table of p is there, or can be made. */
  ghost predicate Reachable(m: Mem, p: int)
    requires Sized(m) && IsPage(p)
  {
    HasTable(m, p / 1024) || !Stuck(m)
  }

  /** n is m with the page table of p in place.  A new table below 64 MB may make
      frames of its region usable. */
  ghost predicate TableReady(m: Mem, base: int, p: int, n: Mem) {
    && Grown(m, base, n) && IsPage(p) && HasTable(n, p / 1024) && OtherTablesSame(m, p, n)
    && |Free(n)| == |Free(m)| - TableNeed(m, p)
    && |Usable(n)| >= |Usable(m)| - TableNeed(m, p)
    && (p >= USER || HasTable(m, p / 1024) ==> |Usable(n)| == |Usable(m)| - TableNeed(m, p))
  }

  lemma TableThere(m: Mem, base: int, p: int)
    requires Inv(m, base) && IsPage(p) && HasTable(m, p / 1024)
    ensures TableReady(m, base, p, m)
  {
    GrownReflexive(m, base);
  }

  lemma CreatedReady(m: Mem, base: int, p: int, n: Mem)
    requires IsPage(p) && Created(m, base, n, p / 1024)
    ensures TableReady(m, base, p, n)
  {
    hide Usable, Free, WindowKept, SameEntry, Inv;
  }

  lemma TableMade(m: Mem, base: int, p: int)
    requires Inv(m, base) && IsPage(p) && Reachable(m, p)
    ensures TableReady(m, base, p, TableFor(m, p))
    ensures !HasTable(m, p / 1024) ==> Created(m, base, TableFor(m, p), p / 1024)
  {
    hide TableReady, Usable;
    if HasTable(m, p / 1024) {
      TableThere(m, base, p);
    } else {
      AllocateGot(m, base);
      TableFromFrame(m, base, Allocate(m).mem, Allocate(m).frame, p / 1024, TableFor(m, p));
      CreatedReady(m, base, p, TableFor(m, p));
    }
  }

  /** On a machine whose page tables the boot code made, the usable frames are
      the free ones, and stay so. */
  lemma CoveredStays(m: Mem, m': Mem)
    requires Monotone(m, m') && Covered(m)
    ensures Covered(m') && |Usable(m')| == |Free(m')|
  {
    forall i | i in Free(m') ensures i in Usable(m') {
      assert i in Free(m);
      assert Handy(m, i);
      forall f | 0 <= f <= i && m'.cnt[f] == 0 ensures HasTable(m', f / 1024) {
        assert m.cnt[f] == 0;
      }
    }
  }

  // ------------------------------------------------ steps that show processes the same

  /** Writing one entry after tables and frames were found. */
  lemma EntryWritten(m: Mem, n: Mem, p: int, m': Mem)
    requires Sized(m) && Sized(n) && SameTables(n, m') && m'.cnt == n.cnt && IsPage(p)
    requires WindowKept(m, n) && EntriesKept(m, n, {})
    requires forall q :: IsPage(q) && q != p ==> Pte(m', q) == Pte(n, q)
    requires p < USER ==> Mapped(m', p)
    ensures WindowKept(m, m') && EntriesKept(m, m', {p})
  {
    WindowThrough(m, n, m');
    forall q | IsPage(q) && q != p ensures SameEntry(m, m', q) {
      assert SameEntry(m, n, q);
    }
  }

  /** From m to n frames were taken and no page a process sees changed. */
  ghost predicate Prepared(m: Mem, base: int, n: Mem, changed: set<int>) {
    && Inv(m, base) && Inv(n, base)
    && Monotone(m, n) && Claimed(m, n)
    && SamePages(m, base, n)
    && EntriesKept(m, n, changed)
  }

  lemma PreparedReflexive(m: Mem, base: int)
    requires Inv(m, base)
    ensures Prepared(m, base, m, {})
  {
    GrownReflexive(m, base);
  }

  lemma PreparedIs(m: Mem, base: int, n: Mem, changed: set<int>)
    requires Prepared(m, base, n, changed)
    ensures Inv(m, base) && Inv(n, base)
  {
  }

  lemma GrownPrepares(m: Mem, base: int, n: Mem)
    requires Grown(m, base, n)
    ensures Prepared(m, base, n, {})
  {
    GrownKeepsPages(m, base, n);
    hide WindowKept, Inv, PageOf, SameEntry;
  }

  /** One entry is written, and processes see the same. */
  lemma EntryPrepares(n: Mem, base: int, p: int, m': Mem)
    requires Inv(n, base) && Inv(m', base) && SamePages(n, base, m') && IsPage(p)
    requires SameTables(n, m') && m'.cnt == n.cnt
    requires forall q :: IsPage(q) && q != p ==> Pte(m', q) == Pte(n, q)
    requires p < USER ==> Mapped(m', p)
    ensures Prepared(n, base, m', {p})
  {
    GrownReflexive(n, base);
    EntryWritten(n, n, p, m');
    hide Inv, PageOf, WindowKept, SameEntry;
  }

  lemma MonotoneThrough(m: Mem, n: Mem, m': Mem)
    requires Monotone(m, n) && Monotone(n, m')
    ensures Monotone(m, m')
  {
    forall f | 0 <= f < FRAMES && m.cnt[f] == 0 && m'.cnt[f] != 0 ensures Mapped(m', f) {
      assert n.cnt[f] != 0 ==> Mapped(n, f);
    }
  }

  lemma PreparedThrough(m: Mem, base: int, n: Mem, m': Mem, a: set<int>, b: set<int>)
    requires Prepared(m, base, n, a) && Prepared(n, base, m', b)
    ensures Prepared(m, base, m', a + b)
  {
    MonotoneThrough(m, n, m');
    EntriesThrough(m, n, m', a, b);
    hide Monotone, EntriesKept, Inv, PageOf;
    forall q | IsUser(q) ensures PageOf(m', base, q) == PageOf(m, base, q) {
      assert PageOf(n, base, q) == PageOf(m, base, q);
    }
  }

  lemma FewerEntries(m: Mem, base: int, n: Mem, a: set<int>)
    requires Prepared(m, base, n, {})
    ensures Prepared(m, base, n, a)
  {
  }

  // ---------------------------------------------------------------- do_no_page

  /** do_no_page on page p, which has no present entry. */
  ghost predicate Demanded(m: Mem, base: int, p: int, m': Mem) {
    && Prepared(m, base, m', {p}) && IsPage(p) && !Mapped(m, p) && HasTable(m', p / 1024)
    && (p < USER ==> Pte(m', p) == Entry(p))
    && (p >= USER && Mapped(m', p) ==>
          Writable(Pte(m', p)) && MapsTo(m', p) >= base && m.cnt[MapsTo(m', p)] == 0 && m'.cnt[MapsTo(m', p)] == 1)
    && (p >= USER && !Mapped(m', p) ==> Stuck(m'))
  }

  /** ... and exactly which frames it takes. */
  ghost predicate DemandedExactly(m: Mem, p: int, m': Mem)
    requires Sized(m) && Sized(m') && IsPage(p)
  {
    var page := if p >= USER && Mapped(m', p) then 1 else 0;
    && OtherTablesSame(m, p, m')
    && |Free(m')| == |Free(m)| - TableNeed(m, p) - page
    && |Usable(m')| >= |Usable(m)| - TableNeed(m, p) - page
    && (p >= USER || HasTable(m, p / 1024) ==> |Usable(m')| == |Usable(m)| - TableNeed(m, p) - page)
    && (p >= USER ==> (Mapped(m', p) <==> |Usable(m)| > TableNeed(m, p)))
  }

  /** Usable frames depend on the tables and on which frames are free. */
  lemma UsableThrough(n: Mem, m': Mem)
    requires SameTables(n, m') && forall f :: 0 <= f < FRAMES ==> (m'.cnt[f] == 0) == (n.cnt[f] == 0)
    ensures Usable(m') == Usable(n)
  {
    assert forall i :: Handy(m', i) == Handy(n, i);
  }

  lemma SameUsable(m: Mem, m': Mem)
    requires SameTables(m, m') && m'.cnt == m.cnt
    ensures Usable(m') == Usable(m) && Free(m') == Free(m)
  {
    assert forall i :: Handy(m', i) == Handy(m, i);
  }

  lemma PreparedEntry(m: Mem, base: int, n: Mem, p: int, m': Mem)
    requires Prepared(m, base, n, {}) && Prepared(n, base, m', {p})
    ensures Prepared(m, base, m', {p})
  {
    var none: set<int> := {};
    PreparedThrough(m, base, n, m', none, {p});
    assert none + {p} == {p};
  }

  lemma DemandLow(m: Mem, base: int, p: int, n: Mem, m': Mem)
    requires TableReady(m, base, p, n) && p < USER && !Mapped(m, p)
    requires m' == SetPte(n, p, Entry(p))
    ensures Demanded(m, base, p, m') && DemandedExactly(m, p, m')
  {
    hide Usable, Free, WindowKept, EntriesKept, PageOf;
    GrownPrepares(m, base, n);
    MapIdentity(n, base, p, m');
    SameUsable(n, m');
    EntryPrepares(n, base, p, m');
    PreparedEntry(m, base, n, p, m');
  }

  /** No frame for the page: only the page table may be new. */
  lemma DemandNoFrame(m: Mem, base: int, p: int, m': Mem)
    requires TableReady(m, base, p, m') && IsUser(p) && !Mapped(m, p)
    requires Stuck(m')
    ensures Demanded(m, base, p, m') && DemandedExactly(m, p, m')
  {
    GrownPrepares(m, base, m');
    FewerEntries(m, base, m', {p});
    assert SameEntry(m, m', p);
    EmptySize(Usable(m'));
    hide Prepared, Usable, Free, WindowKept;
  }

  lemma DemandCounts(m: Mem, base: int, p: int, n: Mem, n1: Mem, r: int, m': Mem)
    requires TableReady(m, base, p, n) && IsUser(p) && !Mapped(m, p)
    requires Got(n, base, n1, r) && SameTables(n1, m') && m'.cnt == n1.cnt && Mapped(m', p)
    ensures DemandedExactly(m, p, m')
  {
    hide Usable, Free, WindowKept, SameEntry, Inv;
    SameUsable(n1, m');
  }

  lemma DemandMapped(m: Mem, base: int, p: int, n: Mem, n1: Mem, r: int, m': Mem)
    requires TableReady(m, base, p, n) && IsUser(p) && !Mapped(m, p)
    requires Got(n, base, n1, r)
    requires m' == SetPte(n1, p, Entry(r))
    ensures Demanded(m, base, p, m') && DemandedExactly(m, p, m')
  {
    GrownTransitive(m, base, n, n1);
    DemandMapping(m, base, p, n1, r, m');
    DemandCounts(m, base, p, n, n1, r, m');
  }

  lemma DemandMapping(m: Mem, base: int, p: int, n1: Mem, r: int, m': Mem)
    requires Inv(m, base) && IsUser(p) && !Mapped(m, p) && Grown(m, base, n1)
    requires HasTable(n1, p / 1024) && Unused(n1, base, r) && n1.phys[r] == Zeros()
    requires m.cnt[r] == 0 && n1.cnt[r] == 1
    requires m' == SetPte(n1, p, Entry(r))
    ensures Demanded(m, base, p, m')
    ensures SameTables(n1, m') && m'.cnt == n1.cnt && Mapped(m', p)
  {
    GrownPrepares(m, base, n1);
    assert SameEntry(m, n1, p);
    ZeroPageMapped(n1, base, p, r, m');
    PreparedEntry(m, base, n1, p, m');
    hide Prepared, WindowKept, Refs;
  }

  lemma ZeroPageMapped(n: Mem, base: int, p: int, r: int, m': Mem)
    requires Inv(n, base) && IsUser(p) && !Mapped(n, p) && HasTable(n, p / 1024)
    requires Unused(n, base, r) && n.phys[r] == Zeros() && n.cnt[r] >= 1
    requires m' == SetPte(n, p, Entry(r))
    ensures Prepared(n, base, m', {p}) && SameTables(n, m') && m'.cnt == n.cnt && Pte(m', p) == Entry(r)
  {
    MapPrivate(n, base, p, r, m');
    assert PageOf(n, base, p) == Own(Zeros());
    EntryPrepares(n, base, p, m');
  }

  /** do_no_page, wherever its wait for a page table ends. */
  lemma NoPageDemands(m: Mem, base: int, p: int)
    requires Inv(m, base) && IsPage(p) && !Mapped(m, p) && Reachable(m, p)
    ensures Demanded(m, base, p, AfterNoPage(m, p)) && DemandedExactly(m, p, AfterNoPage(m, p))
  {
    hide Demanded, DemandedExactly, Created;
    var n := TableFor(m, p);
    TableMade(m, base, p);
    if p < USER {
      DemandLow(m, base, p, n, AfterNoPage(m, p));
    } else {
      AllocateGot(n, base);
      if !Allocate(n).Granted? {
        DemandNoFrame(m, base, p, n);
      } else {
        DemandMapped(m, base, p, n, Allocate(n).mem, Allocate(n).frame, AfterNoPage(m, p));
      }
    }
  }

  /** do_no_page returns: its page table can be had, and for a page above 64 MB
      there is a usable frame besides, or no free frame at all. */
  ghost predicate NoPageEnds(m: Mem, p: int)
    requires Sized(m) && IsPage(p)
  {
    var t := TableNeed(m, p);
    |Usable(m)| >= t && (p >= USER ==> |Usable(m)| > t || |Free(m)| == t)
  }

  lemma NoPageEndsExactly(m: Mem, base: int, p: int)
    requires Inv(m, base) && IsPage(p) && !Mapped(m, p)
    ensures NoPageEnds(m, p) <==> Reachable(m, p) && (p >= USER ==> !Allocate(TableFor(m, p)).Endless?)
    ensures NoPageEnds(m, p) && p >= USER && !Mapped(AfterNoPage(m, p), p) ==> Free(AfterNoPage(m, p)) == {}
  {
    EmptySize(Usable(m));
    if Reachable(m, p) {
      TableMade(m, base, p);
      var n := TableFor(m, p);
      AllocateGot(n, base);
      EmptySize(Usable(n));
      EmptySize(Free(n));
      NoPageDemands(m, base, p);
    }
    hide Usable, Free, Inv, Pte;
  }

  // ---------------------------------------------------------------- do_wp_page

  /** do_wp_page on present page p: it gives p a writable frame of its own with
      the words p showed, or it finds no frame and changes nothing. */
  ghost predicate Unprotected(m: Mem, base: int, p: int, m': Mem) {
    && Inv(m, base) && Inv(m', base) && IsUser(p) && Mapped(m, p)
    && Monotone(m, m')
    && EntriesKept(m, m', {p})
    && (MapsTo(m', p) == MapsTo(m, p) || FreshIn(m, MapsTo(m', p)))
    && (if m' == m then Writable(Pte(m, p)) || Stuck(m)
        else
          && Mapped(m', p) && Writable(Pte(m', p))
          && OnePage(m, base, m', p, Own(WordsOf(m, base, p, m'))))
    && |Usable(m')| >= |Usable(m)| - 1
  }

  /** The words behind page p: its own, or those of the kernel frame it shows. */
  ghost function WordsOf(m: Mem, base: int, p: int, m': Mem): (ws: seq<int>)
    requires Inv(m, base) && Sized(m') && IsUser(p)
    ensures |ws| == 1024
  {
    match PageOf(m, base, p)
    case Own(words) => words
    case Image(f) => m'.phys[f]
  }

  lemma UnprotectInPlace(m: Mem, base: int, p: int, m': Mem)
    requires Inv(m, base) && IsUser(p) && Mapped(m, p)
    requires m.cnt[MapsTo(m, p)] == 1
    requires HasTable(m, p / 1024) && m' == SetPte(m, p, WriteEnabled(Pte(m, p)))
    ensures Unprotected(m, base, p, m')
  {
    CountOneIsPrivate(m, base, p);
    UnprotectKeepsInv(m, base, p, m');
    SameUsable(m, m');
    GrownReflexive(m, base);
    EntryWritten(m, m, p, m');
    if m' == m {
      assert Pte(m, p) == WriteEnabled(Pte(m, p));
    }
  }

  lemma UnprotectStuck(m: Mem, base: int, p: int)
    requires Inv(m, base) && IsUser(p) && Mapped(m, p) && Stuck(m)
    ensures Unprotected(m, base, p, m)
  {
    GrownReflexive(m, base);
    assert EntriesKept(m, m, {p});
  }

  /** The frame behind p keeps its words while another is found and filled. */
  lemma SourceKept(m: Mem, base: int, p: int, n: Mem, r: int)
    requires Inv(m, base) && IsUser(p) && Mapped(m, p)
    requires m.cnt[MapsTo(m, p)] != 1 && Got(m, base, n, r)
    requires HasTable(n, p / 1024) && r != Table(n, p / 1024)
    ensures Mapped(n, p) && MapsTo(n, p) == MapsTo(m, p) && n.cnt[MapsTo(m, p)] >= 2
    ensures Unshared(n, p, r).phys[MapsTo(m, p)] == n.phys[MapsTo(m, p)]
    ensures PageOf(m, base, p).Own? ==> n.phys[MapsTo(m, p)] == m.phys[MapsTo(m, p)]
  {
    var f := MapsTo(m, p);
    assert Pte(n, p) == Pte(m, p);
    assert p in Refs(m, f);
    assert f < base ==> f != Table(n, p / 1024);
    assert f >= base ==> !IsTable(n, f);
  }

  /** After the copy page p shows the words it showed, and the other pages what
      they showed. */
  lemma CopyShows(m: Mem, base: int, p: int, n: Mem, r: int)
    requires Inv(m, base) && IsUser(p) && Mapped(m, p)
    requires m.cnt[MapsTo(m, p)] != 1 && Got(m, base, n, r)
    requires HasTable(n, p / 1024) && r != Table(n, p / 1024) && Mapped(n, p)
    requires IsFrame(MapsTo(n, p)) && Sized(Unshared(n, p, r))
    requires OnePage(n, base, Unshared(n, p, r), p, Own(n.phys[MapsTo(n, p)]))
    ensures OnePage(m, base, Unshared(n, p, r), p, Own(WordsOf(m, base, p, Unshared(n, p, r))))
  {
    var m' := Unshared(n, p, r);
    SourceKept(m, base, p, n, r);
    GrownKeepsPages(m, base, n);
    assert WordsOf(m, base, p, m') == n.phys[MapsTo(n, p)];
    hide Grown, Got, Inv, Refs, Unshared;
    forall q | IsUser(q) && q != p ensures PageOf(m', base, q) == PageOf(m, base, q) {
      assert PageOf(n, base, q) == PageOf(m, base, q);
    }
  }

  lemma UnprotectByCopy(m: Mem, base: int, p: int, n: Mem, r: int)
    requires Inv(m, base) && IsUser(p) && Mapped(m, p)
    requires m.cnt[MapsTo(m, p)] != 1 && Got(m, base, n, r)
    requires HasTable(n, p / 1024) && r != Table(n, p / 1024) && Mapped(n, p)
    ensures Unprotected(m, base, p, Unshared(n, p, r))
  {
    hide Usable, Free, Monotone, EntriesKept, PageOf, OnePage, WordsOf;
    SourceKept(m, base, p, n, r);
    UnshareKeepsInv(n, base, p, r);
    CopyShows(m, base, p, n, r);
    UnshareCounts(m, base, p, n, r);
    UnshareWindow(m, base, p, n, r);
  }

  lemma UnshareWindow(m: Mem, base: int, p: int, n: Mem, r: int)
    requires Got(m, base, n, r) && IsUser(p) && HasTable(n, p / 1024) && r != Table(n, p / 1024)
    requires IsFrame(Table(n, p / 1024)) && IsFrame(MapsTo(n, p)) && n.cnt[MapsTo(n, p)] >= 2
    requires SameTables(n, Unshared(n, p, r))
    requires forall q :: IsPage(q) ==> Pte(Unshared(n, p, r), q) == if q == p then Entry(r) else Pte(n, q)
    ensures Monotone(m, Unshared(n, p, r)) && EntriesKept(m, Unshared(n, p, r), {p})
  {
    WindowThrough(m, n, Unshared(n, p, r));
    forall q | IsPage(q) && q != p ensures SameEntry(m, Unshared(n, p, r), q) {
      assert SameEntry(m, n, q);
    }
  }

  lemma UnshareCounts(m: Mem, base: int, p: int, n: Mem, r: int)
    requires Got(m, base, n, r) && IsUser(p) && HasTable(n, p / 1024) && r != Table(n, p / 1024)
    requires IsFrame(Table(n, p / 1024)) && IsFrame(MapsTo(n, p)) && n.cnt[MapsTo(n, p)] >= 2
    requires SameTables(n, Unshared(n, p, r))
    ensures |Usable(Unshared(n, p, r))| == |Usable(m)| - 1
  {
    UsableThrough(n, Unshared(n, p, r));
  }

  /** The fresh frame is not the table that maps p. */
  lemma CopyGoesElsewhere(m: Mem, base: int, p: int, n: Mem, r: int)
    requires Inv(m, base) && IsUser(p) && Mapped(m, p) && Got(m, base, n, r)
    ensures HasTable(n, p / 1024) && IsFrame(Table(n, p / 1024)) && r != Table(n, p / 1024) && r != DIR && Mapped(n, p)
    ensures MapsTo(n, p) == MapsTo(m, p) && IsFrame(MapsTo(n, p))
  {
    assert HasTable(m, p / 1024) && IsTable(n, Table(n, p / 1024));
    assert Pte(n, p) == Pte(m, p);
  }

  /** A count of at least one, as one byte, less one. */
  lemma OneLess(c: int)
    requires 1 <= c < 256
    ensures (c + 255) % 256 == c - 1
  {
  }

  /** Copying and then writing the entry is what Unshared says. */
  lemma CopyIsUnshared(n: Mem, p: int, r: int)
    requires Sized(n) && IsPage(p) && HasTable(n, p / 1024) && IsFrame(Table(n, p / 1024)) && IsFrame(r)
    requires r != Table(n, p / 1024) && r != DIR && IsFrame(MapsTo(n, p)) && n.cnt[MapsTo(n, p)] >= 1
    ensures CopyTo(n, p, MapsTo(n, p), r) == Unshared(n, p, r)
  {
    hide Pte;
    var f := MapsTo(n, p);
    var n2 := SetFrame(SetCnt(n, f, (n.cnt[f] + 255) % 256), r, n.phys[f]);
    assert n2.phys[DIR] == n.phys[DIR];
    assert n2.phys[Table(n, p / 1024)] == n.phys[Table(n, p / 1024)];
    OneLess(n.cnt[f]);
  }

  lemma AfterCopy(m: Mem, base: int, p: int, n: Mem, r: int)
    requires Inv(m, base) && IsUser(p) && Mapped(m, p) && IsFrame(MapsTo(m, p)) && m.cnt[MapsTo(m, p)] != 1
    requires Allocate(m) == Granted(n, r) && Got(m, base, n, r)
    ensures HasTable(n, p / 1024) && IsFrame(Table(n, p / 1024)) && r != Table(n, p / 1024) && Mapped(n, p)
    ensures IsFrame(MapsTo(n, p)) && AfterWpPage(m, p) == Unshared(n, p, r)
  {
    CopyGoesElsewhere(m, base, p, n, r);
    SourceKept(m, base, p, n, r);
    CopyIsUnshared(n, p, r);
    hide CopyTo, Unshared;
  }

  lemma WpPageUnprotects(m: Mem, base: int, p: int)
    requires Inv(m, base) && IsUser(p) && Mapped(m, p)
    ensures Unprotected(m, base, p, AfterWpPage(m, p))
  {
    hide Unprotected;
    assert IsFrame(MapsTo(m, p)) && HasTable(m, p / 1024);
    if m.cnt[MapsTo(m, p)] == 1 {
      UnprotectInPlace(m, base, p, AfterWpPage(m, p));
    } else {
      AllocateGot(m, base);
      if !Allocate(m).Granted? {
        UnprotectStuck(m, base, p);
      } else {
        AfterCopy(m, base, p, Allocate(m).mem, Allocate(m).frame);
        UnprotectByCopy(m, base, p, Allocate(m).mem, Allocate(m).frame);
      }
    }
  }

  /** Which frames do_wp_page touches: none when the page's frame is used once; else
      one frame that was free takes over one use, unless none is free. */
  lemma WpPageTakes(m: Mem, base: int, p: int)
    requires Inv(m, base) && IsUser(p) && Mapped(m, p)
    ensures var f, m' := MapsTo(m, p), AfterWpPage(m, p);
            && IsFrame(f)
            && if m.cnt[f] == 1 then m'.cnt == m.cnt && Pte(m', p) == WriteEnabled(Pte(m, p))
               else if Stuck(m) then m' == m
               else
                 && IsFrame(MapsTo(m', p)) && m.cnt[MapsTo(m', p)] == 0 && Pte(m', p) == Entry(MapsTo(m', p))
                 && m'.cnt == m.cnt[f := m.cnt[f] - 1][MapsTo(m', p) := 1]
  {
    assert IsFrame(MapsTo(m, p)) && HasTable(m, p / 1024);
    if m.cnt[MapsTo(m, p)] == 1 {
      UnprotectKeepsInv(m, base, p, AfterWpPage(m, p));
    } else {
      AllocateGot(m, base);
      if Allocate(m).Granted? {
        CopyTakes(m, base, p, Allocate(m).mem, Allocate(m).frame);
      }
    }
  }

  lemma CopyTakes(m: Mem, base: int, p: int, n: Mem, r: int)
    requires Inv(m, base) && IsUser(p) && Mapped(m, p) && IsFrame(MapsTo(m, p)) && m.cnt[MapsTo(m, p)] != 1
    requires Allocate(m) == Granted(n, r) && Got(m, base, n, r)
    ensures var f, m' := MapsTo(m, p), AfterWpPage(m, p);
            Pte(m', p) == Entry(r) && m'.cnt == m.cnt[f := m.cnt[f] - 1][r := 1]
  {
    hide Usable, Free, WindowKept, SameEntry, OnePage, AfterWpPage, Placed, TablesOk, LeavesOk, SoleWriter, CountsOk;
    AfterCopy(m, base, p, n, r);
    SourceKept(m, base, p, n, r);
    UnshareKeepsInv(n, base, p, r);
  }

  /** do_wp_page returns. */
  ghost predicate WpPageEnds(m: Mem, p: int)
    requires Sized(m) && IsPage(p)
  {
    (IsFrame(MapsTo(m, p)) && m.cnt[MapsTo(m, p)] == 1) || Ends(m)
  }

  // ---------------------------------------------------------------- share_page

  /** What a process reading linear page p sees. */
  ghost function Source(m: Mem, base: int, p: int): Content
    requires Sized(m) && IsPage(p)
  {
    if p < USER then Image(p) else PageOf(m, base, p)
  }

  /** The usable frames a share takes: page tables that are missing, and a page
      for a user source that was never touched. */
  ghost function Need(m: Mem, from: int, to: int): (n: nat)
    requires Sized(m) && IsPage(from) && IsPage(to)
    ensures n <= 3
  {
    TableNeed(m, from)
    + (if from < USER || Mapped(m, from) then 0 else 1)
    + (if to / 1024 == from / 1024 then 0 else TableNeed(m, to))
  }

  /** A share from `from` can be counted: the frame's byte does not overflow. */
  ghost predicate Countable(m: Mem, base: int, from: int)
    requires Sized(m) && IsPage(from)
  {
    && (from < USER ==> from < base && m.cnt[from] < 255)
    && (Mapped(m, from) && IsFrame(MapsTo(m, from)) ==> m.cnt[MapsTo(m, from)] < 255)
  }

  /** n is m with some of the frames a share needs already taken. */
  ghost predicate Preparing(m: Mem, base: int, from: int, to: int, n: Mem) {
    && IsPage(from) && IsUser(to)
    && Prepared(m, base, n, {from}) && (Mapped(m, from) ==> Prepared(m, base, n, {}))
    && (IsUser(from) && !Mapped(m, from) && Mapped(n, from) ==> FreshIn(m, MapsTo(n, from)))
    && Countable(n, base, from)
    && |Usable(n)| - Need(n, from, to) == |Usable(m)| - Need(m, from, to)
  }

  lemma PrepareSourceCounts(m: Mem, base: int, from: int, to: int, m': Mem)
    requires IsPage(from) && IsUser(to) && Demanded(m, base, from, m') && DemandedExactly(m, from, m')
    requires Mapped(m', from) && (from < USER ==> from < base)
    ensures |Usable(m')| - Need(m', from, to) == |Usable(m)| - Need(m, from, to)
  {
    hide Usable, Free, WindowKept, EntriesKept;
  }

  lemma DemandCountable(m: Mem, base: int, from: int, m': Mem)
    requires IsPage(from) && Demanded(m, base, from, m') && Mapped(m', from) && Countable(m, base, from)
    ensures Countable(m', base, from) && (IsUser(from) ==> FreshIn(m, MapsTo(m', from)))
  {
    hide WindowKept, EntriesKept;
  }

  /** do_no_page on the source. */
  lemma PrepareSource(m: Mem, base: int, from: int, to: int, m': Mem)
    requires Inv(m, base) && CanShare(m, base, from, to) && !Mapped(m, from)
    requires Demanded(m, base, from, m') && DemandedExactly(m, from, m')
    ensures Preparing(m, base, from, to, m') && Mapped(m', from)
  {
    assert Mapped(m', from);
    PrepareSourceCounts(m, base, from, to, m');
    DemandCountable(m, base, from, m');
  }

  lemma PrepareTargetCounts(base: int, from: int, to: int, n: Mem, n1: Mem)
    requires Inv(n, base) && IsPage(from) && IsUser(to) && Mapped(n, from) && Countable(n, base, from)
    requires TableReady(n, base, to, n1)
    ensures Countable(n1, base, from) && Mapped(n1, from) && MapsTo(n1, from) == MapsTo(n, from)
    ensures |Usable(n1)| - Need(n1, from, to) == |Usable(n)| - Need(n, from, to)
  {
    MappedIsCounted(n, base, from);
    GrownKeepsUserEntries(n, base, n1);
    hide Usable, Free, WindowKept, SameEntry, Refs;
    assert Pte(n1, from) == Pte(n, from);
  }

  lemma PrepareTarget(m: Mem, base: int, from: int, to: int, n: Mem, n1: Mem)
    requires Preparing(m, base, from, to, n) && Mapped(n, from)
    requires TableReady(n, base, to, n1)
    ensures Preparing(m, base, from, to, n1) && Mapped(n1, from)
  {
    PrepareTargetCounts(base, from, to, n, n1);
    GrownPrepares(n, base, n1);
    var none: set<int> := {};
    PreparedThrough(m, base, n, n1, {from}, none);
    assert {from} + none == {from};
    if Mapped(m, from) {
      PreparedThrough(m, base, n, n1, none, none);
      assert none + none == none;
    }
    hide Prepared, Need, Usable, Pte, Grown, Countable;
  }

  /** Frames may be taken, and f is counted once more. */
  ghost predicate CountsOneMore(m: Mem, m': Mem, f: int)
    requires Sized(m) && Sized(m')
  {
    forall g :: 0 <= g < FRAMES ==>
      m'.cnt[g] <= (if m.cnt[g] == 0 then 1 else m.cnt[g]) + (if g == f then 1 else 0)
  }

  /** share_page: `to` shows what `from` showed, through a read-only entry, and
      no other page changes. */
  ghost predicate Shared(m: Mem, base: int, from: int, to: int, m': Mem) {
    && Inv(m, base) && Inv(m', base) && IsPage(from) && IsUser(to)
    && Monotone(m, m')
    && OnePage(m, base, m', to, Source(m, base, from))
    && Mapped(m', to) && Mapped(m', from) && MapsTo(m', to) == MapsTo(m', from)
    && !Writable(Pte(m', to)) && (from >= USER ==> !Writable(Pte(m', from)))
    && EntriesKept(m, m', {from, to})
    && (Mapped(m, from) ==> MapsTo(m', from) == MapsTo(m, from))
    && (IsUser(from) && !Mapped(m, from) ==> FreshIn(m, MapsTo(m', from)))
    && |Usable(m')| == |Usable(m)| - Need(m, from, to)
    && CountsOneMore(m, m', MapsTo(m', to))
  }

  lemma ShareDone(m: Mem, base: int, from: int, to: int, n: Mem)
    requires Preparing(m, base, from, to, n) && Mapped(n, from) && HasTable(n, to / 1024)
    requires IsFrame(MapsTo(n, from))
    ensures Shared(m, base, from, to, ShareWrites(n, from, to))
  {
    var m' := ShareWrites(n, from, to);
    ShareWritesShare(n, base, from, to);
    ShareKeepsInv(n, base, from, to, m');
    ShareDonePages(m, base, from, to, n);
    ShareDoneEntries(m, base, from, to, n, m');
    ShareDoneCounts(base, from, to, n, m');
    ShareDoneOneMore(m, base, from, to, n, m');
    assert Pte(m', from) == ReadOnly(Pte(n, from)) || Pte(m', from) == Pte(n, from);
  }

  lemma ShareDoneCounts(base: int, from: int, to: int, n: Mem, m': Mem)
    requires Inv(n, base) && SharedTo(n, from, to, m') && HasTable(n, to / 1024) && (from < USER ==> from < base)
    ensures |Usable(m')| == |Usable(n)| && Need(n, from, to) == 0
  {
    MappedIsCounted(n, base, from);
    UsableThrough(n, m');
  }

  lemma ShareDoneOneMore(m: Mem, base: int, from: int, to: int, n: Mem, m': Mem)
    requires Preparing(m, base, from, to, n) && SharedTo(n, from, to, m')
    ensures CountsOneMore(m, m', MapsTo(n, from))
  {
    hide Usable, Need, WindowKept, EntriesKept, Pte;
  }

  lemma ShareDoneEntries(m: Mem, base: int, from: int, to: int, n: Mem, m': Mem)
    requires Preparing(m, base, from, to, n) && SharedTo(n, from, to, m')
    ensures Monotone(m, m') && EntriesKept(m, m', {from, to})
  {
    MappedIsCounted(n, base, from);
    WindowThrough(m, n, m');
    forall q | IsPage(q) && q != from && q != to ensures SameEntry(m, m', q) {
      assert SameEntry(m, n, q);
    }
  }

  lemma ShareDonePages(m: Mem, base: int, from: int, to: int, n: Mem)
    requires Preparing(m, base, from, to, n) && Mapped(n, from) && HasTable(n, to / 1024)
    requires IsFrame(MapsTo(n, from))
    ensures OnePage(m, base, ShareWrites(n, from, to), to, Source(m, base, from))
  {
    ShareWritesShare(n, base, from, to);
    PagesAfterShare(n, base, from, to, ShareWrites(n, from, to));
    if from >= USER {
      assert PageOf(n, base, from) == PageOf(m, base, from);
    }
  }

  /** share_page can be carried out: the frames it needs are there, and the
      count of the shared frame has room. */
  ghost predicate CanShare(m: Mem, base: int, from: int, to: int)
    requires Sized(m)
  {
    IsPage(from) && IsUser(to) && |Usable(m)| >= Need(m, from, to) && Countable(m, base, from)
  }

  /** A share that still needs frames, and has them, can allocate. */
  lemma NeedPreventsStuck(m: Mem, from: int, to: int)
    requires Sized(m) && IsPage(from) && IsUser(to)
    requires |Usable(m)| >= Need(m, from, to)
    ensures Reachable(m, from) && (Mapped(m, from) ==> Reachable(m, to))
  {
    EmptySize(Usable(m));
  }

  /** The first two loops of share_page end after at most one turn. */
  lemma SourcePrepares(m: Mem, base: int, from: int, to: int)
    requires Inv(m, base) && CanShare(m, base, from, to)
    ensures Reachable(m, from)
    ensures Preparing(m, base, from, to, SourceMapped(m, from)) && Mapped(SourceMapped(m, from), from)
    ensures Reachable(SourceMapped(m, from), to) && Inv(SourceMapped(m, from), base)
  {
    hide Prepared, Demanded, DemandedExactly, Created, Need, Countable;
    var n := SourceMapped(m, from);
    NeedPreventsStuck(m, from, to);
    if Mapped(m, from) {
      PreparedReflexive(m, base);
      FewerEntries(m, base, m, {from});
    } else {
      NoPageDemands(m, base, from);
      PrepareSource(m, base, from, to, n);
    }
    PreparedIs(m, base, n, {from});
    NeedPreventsStuck(n, from, to);
  }

  /** ... and so does the third. */
  lemma SharePrepares(m: Mem, base: int, from: int, to: int)
    requires Inv(m, base) && CanShare(m, base, from, to)
    ensures Preparing(m, base, from, to, BeforeShare(m, from, to))
    ensures Mapped(BeforeShare(m, from, to), from) && HasTable(BeforeShare(m, from, to), to / 1024)
  {
    hide SourceMapped, Prepared, Demanded, DemandedExactly, Created, Need, Countable;
    var n := SourceMapped(m, from);
    SourcePrepares(m, base, from, to);
    TableMade(n, base, to);
    PrepareTarget(m, base, from, to, n, TableFor(n, to));
  }

  lemma SharePageShares(m: Mem, base: int, from: int, to: int)
    requires Inv(m, base) && CanShare(m, base, from, to)
    ensures Shared(m, base, from, to, AfterShare(m, from, to))
  {
    SharePrepares(m, base, from, to);
    MappedIsCounted(BeforeShare(m, from, to), base, from);
    ShareDone(m, base, from, to, BeforeShare(m, from, to));
  }

  /** The loops of share_page end: one do_no_page maps the source, unless it is
      mapped, and then the target's table can be had. */
  ghost predicate ShareEnds(m: Mem, from: int, to: int)
    requires Sized(m) && IsPage(from) && IsPage(to)
  {
    && (Mapped(m, from) || (NoPageEnds(m, from) && Mapped(SourceMapped(m, from), from)))
    && Reachable(SourceMapped(m, from), to)
  }

  lemma SourceIs(m: Mem, base: int, from: int, to: int)
    requires Inv(m, base) && IsPage(from) && IsPage(to) && ShareEnds(m, from, to)
    ensures Inv(SourceMapped(m, from), base) && Mapped(SourceMapped(m, from), from)
    ensures Reachable(SourceMapped(m, from), to) && (!Mapped(m, from) ==> NoPageEnds(m, from))
  {
    if !Mapped(m, from) {
      NoPageEndsExactly(m, base, from);
      NoPageDemands(m, base, from);
    }
    hide Usable, Free, Inv;
  }

  /** Before the writes of share_page the source is mapped, and the target's
      table is there. */
  lemma BeforeShareIs(m: Mem, base: int, from: int, to: int)
    requires Inv(m, base) && IsPage(from) && IsPage(to) && ShareEnds(m, from, to)
    ensures var n := BeforeShare(m, from, to);
            Inv(n, base) && Mapped(n, from) && HasTable(n, to / 1024) && IsFrame(MapsTo(n, from))
  {
    hide ShareEnds, SourceMapped, Usable, Free;
    SourceIs(m, base, from, to);
    TableMade(SourceMapped(m, from), base, to);
    GrownKeepsUserEntries(SourceMapped(m, from), base, BeforeShare(m, from, to));
  }

  lemma CanShareEnds(m: Mem, base: int, from: int, to: int)
    requires Inv(m, base) && CanShare(m, base, from, to)
    ensures ShareEnds(m, from, to)
  {
    ShareEndsExactly(m, base, from, to);
  }

  /** They end if and only if the usable frames a share needs are there. */
  lemma ShareEndsExactly(m: Mem, base: int, from: int, to: int)
    requires Inv(m, base) && IsPage(from) && IsUser(to) && (from < USER ==> from < base)
    ensures ShareEnds(m, from, to) <==> |Usable(m)| >= Need(m, from, to)
  {
    EmptySize(Usable(m));
    if !Mapped(m, from) && Reachable(m, from) {
      NoPageDemands(m, base, from);
      UnmappedSource(m, base, from, to, AfterNoPage(m, from));
    }
    hide Usable, Free, AfterNoPage, Inv, Pte;
  }

  lemma UnmappedSource(m: Mem, base: int, from: int, to: int, n: Mem)
    requires Inv(m, base) && IsPage(from) && IsUser(to) && (from < USER ==> from < base)
    requires Demanded(m, base, from, n) && DemandedExactly(m, from, n)
    ensures |Usable(m)| >= Need(m, from, to) <==>
              NoPageEnds(m, from) && Mapped(n, from) && Reachable(n, to)
  {
    EmptySize(Usable(n));
    hide Usable, Free, Prepared;
  }

  /** The turn the loops of share_page take next. */
  ghost function Turn(m: Mem, from: int, to: int): (n: Mem)
    requires Sized(m) && IsPage(from) && IsPage(to)
    ensures Sized(n)
  {
    if Mapped(m, from) then TableFor(m, to) else AfterNoPage(m, from)
  }

  /** With fewer usable frames than a share needs its loops are not done, and no
      turn they take changes that: share_page never returns. */
  lemma ShareWithoutFrames(m: Mem, base: int, from: int, to: int)
    requires Inv(m, base) && IsPage(from) && IsUser(to) && (from < USER ==> from < base)
    requires |Usable(m)| < Need(m, from, to)
    ensures !Mapped(m, from) || !HasTable(m, to / 1024)
    ensures Inv(Turn(m, from, to), base)
    ensures |Usable(Turn(m, from, to))| < Need(Turn(m, from, to), from, to)
  {
    EmptySize(Usable(m));
    if Mapped(m, from) || !Reachable(m, from) {
      AllocateGot(m, base);
    } else {
      NoPageDemands(m, base, from);
    }
    hide Usable, Free, EntriesKept, WindowKept, LeavesOk, SoleWriter, CountsOk, IdentityWindow;
  }
}
