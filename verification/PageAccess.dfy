/**
  Which accesses from user mode the paging structures allow: section 4.6 of volume
  3A of the Intel 64 and IA-32 manual.
 */
module PageAccess {
  import opened Paging
  import opened PagingSteps
  import opened FrameAlloc
  import opened Faults
  import opened MemoryRuns
  import opened BootMemory

  ghost function Dir(m: Mem, d: int): int
    requires Sized(m) && 0 <= d < 1024
  {
    m.phys[DIR][d]
  }

  /** User mode may read page p: both entries on the way are present and allow it. */
  ghost predicate UserReads(m: Mem, p: int)
    requires Sized(m) && IsPage(p)
  {
    Present(Dir(m, p / 1024)) && User(Dir(m, p / 1024)) && Mapped(m, p) && User(Pte(m, p))
  }

  /** ... and may write it: both are writable as well. */
  ghost predicate UserWrites(m: Mem, p: int)
    requires Sized(m) && IsPage(p)
  {
    UserReads(m, p) && Writable(Dir(m, p / 1024)) && Writable(Pte(m, p))
  }

  /** Every present directory entry allows all access, every present page-table
      entry allows user access, and the identity window stays writable. */
  ghost predicate Open(m: Mem)
    requires Sized(m)
  {
    && (forall d :: 0 <= d < 1024 && HasTable(m, d) ==> User(Dir(m, d)) && Writable(Dir(m, d)))
    && (forall p {:trigger Pte(m, p)} {:trigger Mapped(m, p)} :: IsPage(p) && Mapped(m, p) ==>
          User(Pte(m, p)) && (p < USER ==> Writable(Pte(m, p))))
  }

  /** Then user mode may read exactly the pages that are mapped, and write those
      among them whose entry is writable. */
  lemma OpenAllows(m: Mem, p: int)
    requires Sized(m) && Open(m) && IsPage(p)
    ensures UserReads(m, p) <==> Mapped(m, p)
    ensures UserWrites(m, p) <==> Mapped(m, p) && Writable(Pte(m, p))
  {
    assert Mapped(m, p) ==> HasTable(m, p / 1024);
  }

  // ------------------------------------------------------------ single writes

  lemma OpenSame(m: Mem, m': Mem)
    requires Sized(m) && Sized(m') && Open(m) && m'.phys[DIR] == m.phys[DIR]
    requires forall p :: IsPage(p) ==> Pte(m', p) == Pte(m, p)
    ensures Open(m')
  {
    forall p | IsPage(p) && Mapped(m', p) ensures User(Pte(m', p)) && (p < USER ==> Writable(Pte(m', p))) {
      assert Mapped(m, p);
    }
    forall d | 0 <= d < 1024 && HasTable(m', d) ensures User(Dir(m', d)) && Writable(Dir(m', d)) {
      assert HasTable(m, d);
    }
  }

  /** The entry allows what an open memory needs of the entry of page p. */
  predicate Allows(p: int, e: int) {
    Present(e) ==> User(e) && (p < USER ==> Writable(e))
  }

  lemma EntryAllows(p: int, f: int)
    ensures Allows(p, Entry(f))
  {
    EntryBits(f);
  }

  lemma PutKeepsDir(m: Mem, p: int, e: int)
    requires Sized(m) && IsPage(p) && (HasTable(m, p / 1024) ==> Table(m, p / 1024) != DIR)
    ensures Put(m, p, e).phys[DIR] == m.phys[DIR]
  {
  }

  lemma OpenPut(m: Mem, base: int, p: int, e: int)
    requires Inv(m, base) && Open(m) && IsPage(p) && HasTable(m, p / 1024) && Allows(p, e)
    ensures Open(Put(m, p, e))
  {
    var m' := Put(m, p, e);
    TableWrite(m, base, p, e, m');
    PutKeepsDir(m, p, e);
    OpenEntries(m, m', {p});
  }

  /** Open stays open when the directory stays and new entries allow access. */
  lemma OpenEntries(m: Mem, m': Mem, changed: set<int>)
    requires Sized(m) && Sized(m') && Open(m) && m'.phys[DIR] == m.phys[DIR]
    requires forall q :: IsPage(q) && q !in changed ==> Pte(m', q) == Pte(m, q)
    requires forall q :: IsPage(q) && q in changed ==> Allows(q, Pte(m', q))
    ensures Open(m')
  {
    forall q | IsPage(q) && Mapped(m', q) ensures User(Pte(m', q)) && (q < USER ==> Writable(Pte(m', q))) {
      assert q !in changed ==> Mapped(m, q);
      assert q in changed ==> Allows(q, Pte(m', q));
    }
    forall d | 0 <= d < 1024 && HasTable(m', d) ensures User(Dir(m', d)) && Writable(Dir(m', d)) {
      assert HasTable(m, d);
    }
  }

  // --------------------------------------------------------------- allocation

  lemma ReserveOpens(m: Mem, base: int, i: int)
    requires Inv(m, base) && Open(m) && IsFrame(i) && m.cnt[i] == 0 && HasTable(m, i / 1024)
    ensures Open(SetCnt(Touch(m, i), i, 1))
  {
    var t := Touch(m, i);
    if !Mapped(m, i) {
      EntryAllows(i, i);
      OpenPut(m, base, i, Entry(i));
    }
    forall p | IsPage(p) ensures Pte(SetCnt(t, i, 1), p) == Pte(t, p) {
      EntryOf(t, SetCnt(t, i, 1), p);
    }
    OpenSame(t, SetCnt(t, i, 1));
  }

  lemma HandOpens(m: Mem, base: int, i: int)
    requires Inv(m, base) && Open(m) && IsFrame(i) && m.cnt[i] == 0 && HasTable(m, i / 1024)
    ensures Open(Hand(m, i))
  {
    ReserveOpens(m, base, i);
    var n := Reserve(m, base, i);
    FillUnused(n, base, i, Zeros(), Hand(m, i));
    OpenSame(n, Hand(m, i));
  }

  lemma AllocateOpens(m: Mem, base: int)
    requires Inv(m, base) && Open(m)
    ensures Allocate(m).Granted? ==> Open(Allocate(m).mem)
  {
    hide Open, Touch, Hand;
    FirstDecides(m);
    var i := First(m.cnt, 0);
    if i < FRAMES {
      if i % 1024 == 1021 {
        TriggerHasTable(m, base);
      }
      if HasTable(m, i / 1024) {
        HandOpens(m, base, i);
      }
    }
  }

  lemma InstallOpens(n: Mem, base: int, d: int, r: int, m': Mem)
    requires Inv(n, base) && Open(n) && 0 <= d < 1024 && Unused(n, base, r)
    requires n.phys[r] == Zeros() && n.cnt[r] >= 1 && !HasTable(n, d)
    requires m' == SetWord(n, DIR, d, Entry(r))
    ensures Open(m')
  {
    InstallTable(n, base, d, r, m');
    EntryBits(r);
    forall e | 0 <= e < 1024 && HasTable(m', e) ensures User(Dir(m', e)) && Writable(Dir(m', e)) {
      assert e != d ==> HasTable(n, e) && Dir(m', e) == Dir(n, e);
    }
    forall p | IsPage(p) && Mapped(m', p) ensures User(Pte(m', p)) && (p < USER ==> Writable(Pte(m', p))) {
      assert Mapped(n, p);
    }
  }

  lemma TableForOpens(m: Mem, base: int, p: int)
    requires Inv(m, base) && Open(m) && IsPage(p) && Reachable(m, p)
    ensures Open(TableFor(m, p))
  {
    if !HasTable(m, p / 1024) {
      AllocateGot(m, base);
      AllocateOpens(m, base);
      hide Open, Usable, Free, WindowKept, SameEntry;
      InstallOpens(Allocate(m).mem, base, p / 1024, Allocate(m).frame, TableFor(m, p));
    }
  }

  // -------------------------------------------------------------------- faults

  lemma TableThenEntryOpens(n: Mem, base: int, p: int)
    requires Inv(n, base) && Open(n) && IsPage(p) && HasTable(n, p / 1024)
    ensures p < USER ==> Open(Put(n, p, Entry(p)))
    ensures Allocate(n).Granted? ==> Open(Put(Allocate(n).mem, p, Entry(Allocate(n).frame)))
  {
    hide Open, Usable, Free, WindowKept, SameEntry, Allocate;
    EntryAllows(p, p);
    OpenPut(n, base, p, Entry(p));
    if Allocate(n).Granted? {
      var n1, r := Allocate(n).mem, Allocate(n).frame;
      AllocateGot(n, base);
      AllocateOpens(n, base);
      EntryAllows(p, r);
      OpenPut(n1, base, p, Entry(r));
    }
  }

  lemma NoPageOpens(m: Mem, base: int, p: int)
    requires Inv(m, base) && Open(m) && IsPage(p) && !Mapped(m, p) && Reachable(m, p)
    ensures Open(AfterNoPage(m, p))
  {
    hide Open, TableFor, Usable, Free, WindowKept, SameEntry, Allocate;
    TableMade(m, base, p);
    TableForOpens(m, base, p);
    TableThenEntryOpens(TableFor(m, p), base, p);
  }

  lemma UnsharedOpens(n: Mem, base: int, p: int, r: int)
    requires Inv(n, base) && Open(n) && IsUser(p) && Mapped(n, p) && HasTable(n, p / 1024)
    requires Unused(n, base, r) && n.cnt[r] == 1 && n.cnt[MapsTo(n, p)] >= 2
    requires r != Table(n, p / 1024)
    ensures Open(Unshared(n, p, r))
  {
    assert Table(n, p / 1024) != DIR;
    UnshareKeepsInv(n, base, p, r);
    EntryAllows(p, r);
    OpenEntries(n, Unshared(n, p, r), {p});
  }

  lemma CopyOpens(m: Mem, base: int, p: int, n: Mem, r: int)
    requires Inv(m, base) && IsUser(p) && Mapped(m, p) && IsFrame(MapsTo(m, p)) && m.cnt[MapsTo(m, p)] != 1
    requires Allocate(m) == Granted(n, r) && Got(m, base, n, r) && Open(n)
    ensures Open(AfterWpPage(m, p))
  {
    hide Open, Usable, Free, WindowKept, SameEntry, AfterWpPage;
    AfterCopy(m, base, p, n, r);
    SourceKept(m, base, p, n, r);
    UnsharedOpens(n, base, p, r);
  }

  lemma WpPageOpens(m: Mem, base: int, p: int)
    requires Inv(m, base) && Open(m) && IsUser(p) && Mapped(m, p)
    ensures Open(AfterWpPage(m, p))
  {
    assert IsFrame(MapsTo(m, p)) && HasTable(m, p / 1024);
    if m.cnt[MapsTo(m, p)] == 1 {
      OnlyWritableChanges(Pte(m, p));
      OpenPut(m, base, p, WriteEnabled(Pte(m, p)));
    } else {
      AllocateGot(m, base);
      AllocateOpens(m, base);
      hide Open;
      if Allocate(m).Granted? {
        CopyOpens(m, base, p, Allocate(m).mem, Allocate(m).frame);
      }
    }
  }

  // --------------------------------------------------------------------- shares

  lemma ShareWritesKeepDir(m: Mem, base: int, from: int, to: int)
    requires Inv(m, base) && IsPage(from) && IsPage(to)
    ensures ShareWrites(m, from, to).phys[DIR] == m.phys[DIR]
  {
    var e, f := ReadOnly(Pte(m, from)), MapsTo(m, from);
    var n0 := if IsFrame(f) then SetCnt(m, f, (m.cnt[f] + 1) % 256) else m;
    var n1 := Put(n0, to, e);
    assert n0.phys == m.phys && forall d :: 0 <= d < 1024 && HasTable(n0, d) ==> Table(n0, d) == Table(m, d) != DIR;
    PutKeepsDir(n0, to, e);
    assert forall d :: 0 <= d < 1024 && HasTable(n1, d) ==> HasTable(n0, d) && Table(n1, d) == Table(n0, d);
    PutKeepsDir(n1, from, e);
  }

  lemma ShareWritesOpen(n: Mem, base: int, from: int, to: int)
    requires Inv(n, base) && Open(n) && IsPage(from) && IsUser(to) && Mapped(n, from)
    requires HasTable(n, to / 1024) && IsFrame(MapsTo(n, from)) && n.cnt[MapsTo(n, from)] < 255
    ensures Open(ShareWrites(n, from, to))
  {
    ShareWritesShare(n, base, from, to);
    ShareWritesKeepDir(n, base, from, to);
    OnlyWritableChanges(Pte(n, from));
    hide ShareWrites, Inv;
    var changed := if from >= USER then {from, to} else {to};
    OpenEntries(n, ShareWrites(n, from, to), changed);
  }

  lemma SourceOpens(m: Mem, base: int, from: int, to: int)
    requires Inv(m, base) && Open(m) && CanShare(m, base, from, to)
    ensures Open(SourceMapped(m, from))
  {
    hide Open, Usable, Need, AfterNoPage;
    SourcePrepares(m, base, from, to);
    if !Mapped(m, from) {
      NoPageOpens(m, base, from);
    }
  }

  lemma BeforeShareOpens(m: Mem, base: int, from: int, to: int)
    requires Inv(m, base) && Open(m) && CanShare(m, base, from, to)
    ensures Open(BeforeShare(m, from, to))
  {
    SourceOpens(m, base, from, to);
    SourcePrepares(m, base, from, to);
    hide Open, SourceMapped, TableFor, Preparing, CanShare;
    TableForOpens(SourceMapped(m, from), base, to);
  }

  lemma ShareOpens(m: Mem, base: int, from: int, to: int)
    requires Inv(m, base) && Open(m) && CanShare(m, base, from, to)
    ensures Open(AfterShare(m, from, to))
  {
    hide Open, BeforeShare, Prepared, Usable, Need, ShareWrites;
    var n := BeforeShare(m, from, to);
    BeforeShareOpens(m, base, from, to);
    SharePrepares(m, base, from, to);
    PreparedIs(m, base, n, {from});
    MappedIsCounted(n, base, from);
    ShareWritesOpen(n, base, from, to);
  }

  // ----------------------------------------------------------------------- runs

  lemma StoreOpens(m: Mem, base: int, p: int, i: int, w: int)
    requires Inv(m, base) && Open(m) && Enabled(m, base, Write(p, i, w))
    ensures Open(Stored(m, p, i, w))
  {
    DataKeepsInv(m, Stored(m, p, i, w), base);
    OpenSame(m, Stored(m, p, i, w));
  }

  /** Each operation leaves every table and page open to user mode. */
  lemma StepKeepsOpen(m: Mem, base: int, op: Op, m': Mem)
    requires Inv(m, base) && Open(m) && Step(m, base, op, m')
    ensures Open(m')
  {
    hide Open, AfterNoPage, AfterWpPage, AfterShare, Stored;
    match op
    case NoPage(p) =>
      NoPageEndsExactly(m, base, p);
      NoPageOpens(m, base, p);
    case WriteProtect(p) => WpPageOpens(m, base, p);
    case Share(from, to) => ShareOpens(m, base, from, to);
    case Write(p, i, w) => StoreOpens(m, base, p, i, w);
  }

  lemma BootOpen(m: Mem, base: int, end: int)
    requires Started(m, base, end)
    ensures Inv(m, base) && Open(m)
  {
    BootInv(m, base, end);
    BootEntries(m);
    forall d | 0 <= d < 1024 && HasTable(m, d) ensures User(Dir(m, d)) && Writable(Dir(m, d)) {
      EntryBits(8 + d);
    }
    forall p | IsPage(p) && Mapped(m, p) ensures User(Pte(m, p)) && Writable(Pte(m, p)) {
      EntryBits(p);
    }
  }

  /** In every run from boot user mode may read exactly the mapped pages, and write
      exactly those whose entry is writable; so the stores of the run are those the
      processor lets pass. */
  lemma {:induction false} RunKeepsOpen(ms: seq<Mem>, base: int, end: int, ops: seq<Op>, k: nat)
    requires Run(ms, base, ops) && Started(ms[0], base, end) && k <= |ops|
    ensures Inv(ms[k], base) && Open(ms[k])
    ensures forall p :: IsPage(p) ==> (UserReads(ms[k], p) <==> Mapped(ms[k], p))
    ensures forall p :: IsPage(p) ==> (UserWrites(ms[k], p) <==> Mapped(ms[k], p) && Writable(Pte(ms[k], p)))
  {
    if k == 0 {
      BootOpen(ms[0], base, end);
    } else {
      RunKeepsOpen(ms, base, end, ops, k - 1);
      hide Open, UserReads, UserWrites, Step, Started, Inv;
      assert StepAt(ms, base, ops, k - 1);
      StepKeepsInv(ms[k - 1], base, ops[k - 1], ms[k]);
      StepKeepsOpen(ms[k - 1], base, ops[k - 1], ms[k]);
    }
    AllAllowed(ms[k], base);
  }

  lemma AllAllowed(m: Mem, base: int)
    requires Inv(m, base) && Open(m)
    ensures forall p :: IsPage(p) ==> (UserReads(m, p) <==> Mapped(m, p))
    ensures forall p :: IsPage(p) ==> (UserWrites(m, p) <==> Mapped(m, p) && Writable(Pte(m, p)))
  {
    forall p | IsPage(p)
      ensures UserReads(m, p) <==> Mapped(m, p)
      ensures UserWrites(m, p) <==> Mapped(m, p) && Writable(Pte(m, p))
    {
      OpenAllows(m, p);
    }
  }

  // ------------------------------------------------- what a fault gives its process

  /** After a missing page the process may read and write it, if there was a frame. */
  lemma FaultedPageIsUsable(m: Mem, base: int, p: int)
    requires Inv(m, base) && Open(m) && IsUser(p) && Enabled(m, base, NoPage(p))
    ensures var m' := AfterNoPage(m, p); UserWrites(m', p) || (Free(m') == {} && !Mapped(m', p))
  {
    NoPageEndsExactly(m, base, p);
    NoPageDemands(m, base, p);
    NoPageOpens(m, base, p);
    hide AfterNoPage, Prepared, Usable;
    OpenAllows(AfterNoPage(m, p), p);
  }

  /** After a write fault the process may write the page, if there was a frame. */
  lemma UnprotectedPageIsUsable(m: Mem, base: int, p: int)
    requires Inv(m, base) && Open(m) && Enabled(m, base, WriteProtect(p))
    ensures var m' := AfterWpPage(m, p); UserWrites(m', p) || (m' == m && Free(m) == {})
  {
    WpPageUnprotects(m, base, p);
    WpPageOpens(m, base, p);
    WpPageTakes(m, base, p);
    hide AfterWpPage, OnePage, Monotone, Usable;
    OpenAllows(AfterWpPage(m, p), p);
  }

  /** After a share both processes may read the page, and neither may write it. */
  lemma SharedPageIsReadable(m: Mem, base: int, from: int, to: int)
    requires Inv(m, base) && Open(m) && CanShare(m, base, from, to)
    ensures var m' := AfterShare(m, from, to);
            && UserReads(m', to) && !UserWrites(m', to)
            && UserReads(m', from) && (from >= USER ==> !UserWrites(m', from))
  {
    SharePageShares(m, base, from, to);
    ShareOpens(m, base, from, to);
    hide AfterShare, OnePage, Monotone, Usable, EntriesKept, CountsOneMore;
    OpenAllows(AfterShare(m, from, to), to);
    OpenAllows(AfterShare(m, from, to), from);
  }
}
