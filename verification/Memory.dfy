/**
  kernel/memory.c: the page manager.  Physical memory is one array of frames,
  page tables included; mem_map counts the uses of each frame.  Linear addresses
  reach physical frames through the kernel's identity window.
 */
module Memory {
  import opened BootMemory
  import opened Paging
  import opened PagingSteps
  import opened FrameAlloc
  import opened Faults
  import opened MemoryRuns
  import PageAccess
  import opened PageRanges

  class PageManager {
    const base: int
    const memMap: array<int>
    const phys: array<seq<int>>

    ghost function Abs(): Mem
      reads memMap, phys
    {
      Mem(phys[..], memMap[..])
    }

    ghost predicate Valid()
      reads memMap, phys
    {
      Inv(Abs(), base)
    }

    /** mem_init.  main passes a start of 1, 2 or 4 MB. */
    constructor (startMem: int, endMem: int, ram: array<seq<int>>)
      requires 0x100000 <= startMem <= endMem <= 0x4000000 && startMem <= 0x2000000
      requires startMem % 4096 == 0 && endMem % 4096 == 0
      requires Booted(ram[..])
      ensures phys == ram && base == startMem / 4096 && fresh(memMap)
      ensures Valid() && Window(Abs()) && Started(Abs(), base, endMem / 4096)
      ensures forall p :: IsUser(p) ==> PageOf(Abs(), base, p) == Own(Zeros())
      ensures Covered(Abs()) <==> endMem <= 0x2000000
      ensures PageAccess.Open(Abs())
    {
      base := startMem / 4096;
      memMap := new int[FRAMES];
      phys := ram;
      new;
      var i := 0;
      while i < FRAMES
        invariant 0 <= i <= FRAMES
        invariant forall f :: 0 <= f < i ==> memMap[f] == 1
      {
        memMap[i] := 1;
        i := i + 1;
      }
      i := startMem / 4096;
      var size := (endMem - startMem) / 4096;
      while size > 0
        invariant i + size == endMem / 4096 && startMem / 4096 <= i && size >= 0
        invariant forall f :: 0 <= f < FRAMES ==>
          memMap[f] == if startMem / 4096 <= f < i then 0 else 1
      {
        size := size - 1;
        memMap[i] := 0;
        i := i + 1;
      }
      BootInv(Abs(), base, endMem / 4096);
      BootUsable(Abs(), base, endMem / 4096);
      PageAccess.BootOpen(Abs(), base, endMem / 4096);
    }

    /** get_free_page: 0, changing nothing, or the address of a zeroed frame. */
    method GetFreePage() returns (addr: int)
      requires Valid() && Ends(Abs())
      modifies memMap, phys
      ensures Valid()
      ensures addr == 0 <==> old(Free(Abs()) == {})
      ensures addr == 0 ==> Abs() == old(Abs())
      ensures addr != 0 ==> addr % 4096 == 0 && Allocate(old(Abs())) == Granted(Abs(), addr / 4096)
      ensures addr != 0 ==> Got(old(Abs()), base, Abs(), addr / 4096)
      decreases 4
    {
      hide Unused, LeavesOk, SoleWriter, IdentityWindow, TablesOk, Handy;
      ghost var m := Abs();
      AllocateGot(m, base);
      FirstDecides(m);
      assert m.cnt[0] >= 1;
      var i := FirstFree();
      if i == FRAMES {
        return 0;
      }
      if i % 1024 == 1021 {
        MakeTableFor(i);
      }
      TouchFrame(i);
      ghost var n := Abs();
      ZeroFrame(i);
      memMap[i] := 1;
      assert Abs() == SetFrame(SetCnt(n, i, 1), i, Zeros());
      Divide(i * 4096, 4096, i, 0);
      return i * 4096;
    }

    /** Before a trigger frame is handed out: create_page_table for its region,
        while the frame counts as used.  The table is always there already. */
    method MakeTableFor(i: int)
      requires Valid() && IsFrame(i) && memMap[i] == 0 && i % 1024 == 1021 && HasTable(Abs(), i / 1024)
      modifies memMap, phys
      ensures Abs() == old(Abs())
      decreases 3
    {
      ghost var m := Abs();
      CountedKeepsInv(m, base, i);
      memMap[i] := 1;
      assert Abs() == SetCnt(m, i, 1);
      assert (i + 2) * 4096 / 4096 / 1024 == i / 1024;
      var j := CreatePageTable((i + 2) * 4096);
      memMap[i] := 0;
      assert memMap[..] == m.cnt;
      if j == -1 {
        // get_free_page would return 0 here.
        assert false;
      }
    }

    /** The first store of the word loop of get_free_page: a missing page of the
        identity window faults, and the handler maps it. */
    method TouchFrame(i: int)
      requires Valid() && IsFrame(i) && HasTable(Abs(), i / 1024)
      modifies memMap, phys
      ensures Abs() == Touch(old(Abs()), i)
      decreases 3
    {
      hide Demanded, DemandedExactly, LeavesOk, SoleWriter, CountsOk, TablesOk, Placed;
      var t := TableFrame(i / 1024);
      if !Present(phys[t][i % 1024]) {
        Divide(i * 4096, 4096, i, 0);
        DoNoPage(i * 4096);
      }
    }

    /** The search loop of get_free_page. */
    method FirstFree() returns (i: int)
      requires Valid()
      ensures i == First(memMap[..], 0)
    {
      i := 0;
      while i < FRAMES && memMap[i] != 0
        invariant 0 <= i <= FRAMES && First(memMap[..], i) == First(memMap[..], 0)
      {
        i := i + 1;
      }
    }

    /** The word loop of get_free_page. */
    method ZeroFrame(f: int)
      requires 0 <= f < phys.Length && |phys[f]| == 1024
      modifies phys
      ensures phys[..] == old(phys[..])[f := Zeros()]
    {
      var j := 0;
      while j < 1024
        invariant 0 <= j <= 1024
        invariant phys[..] == old(phys[..])[f := phys[f]]
        invariant |phys[f]| == 1024 && forall k :: 0 <= k < j ==> phys[f][k] == 0
      {
        phys[f] := phys[f][j := 0];
        j := j + 1;
      }
      assert phys[f] == Zeros();
    }

    /** create_page_table: 0 if the table is there, -1 if no frame could be had. */
    method CreatePageTable(addr: int) returns (j: int)
      requires Valid() && 0 <= addr < 0x1_0000_0000
      requires HasTable(Abs(), addr / 4096 / 1024) || Ends(Abs())
      modifies memMap, phys
      ensures Valid()
      ensures j == 0 || j == 1 || j == -1
      ensures j == 0 <==> old(HasTable(Abs(), addr / 4096 / 1024))
      ensures j != 1 ==> Abs() == old(Abs())
      ensures j == -1 <==> old(!HasTable(Abs(), addr / 4096 / 1024) && Free(Abs()) == {})
      ensures j == 1 ==> Abs() == TableFor(old(Abs()), addr / 4096)
      ensures j == 1 ==> Created(old(Abs()), base, Abs(), addr / 4096 / 1024)
      decreases if HasTable(Abs(), addr / 4096 / 1024) then 0 else 5
    {
      hide Handy;
      AllocateGot(Abs(), base);
      var d := addr / 4096 / 1024;
      if Present(phys[DIR][d]) {
        return 0;
      }
      var page := GetFreePage();
      if page == 0 {
        return -1;
      }
      ghost var n := Abs();
      phys[DIR] := phys[DIR][d := page + 7];
      assert page + 7 == Entry(page / 4096);
      assert Abs() == SetWord(n, DIR, d, Entry(page / 4096));
      TableFromFrame(old(Abs()), base, n, page / 4096, d, Abs());
      return 1;
    }

    /** Where the entry of a linear page is: its table's frame. */
    method TableFrame(d: int) returns (t: int)
      requires Valid() && 0 <= d < 1024 && HasTable(Abs(), d)
      ensures t == Table(Abs(), d) && IsFrame(t)
    {
      t := FrameOf(phys[DIR][d]);
    }

    /** A page-table entry is written: the word of its table in physical memory. */
    method WriteEntry(p: int, e: int)
      requires Valid() && IsPage(p) && HasTable(Abs(), p / 1024)
      modifies phys
      ensures Abs() == Put(old(Abs()), p, e)
    {
      var t := TableFrame(p / 1024);
      phys[t] := phys[t][p % 1024 := e];
    }

    /** The loop that waits for the page table of addr: it runs at most once. */
    method EnsureTable(addr: int)
      requires Valid() && 0 <= addr < 0x1_0000_0000 && Reachable(Abs(), addr / 4096)
      modifies memMap, phys
      ensures Abs() == TableFor(old(Abs()), addr / 4096)
      ensures TableReady(old(Abs()), base, addr / 4096, Abs())
      decreases if HasTable(Abs(), addr / 4096 / 1024) then 1 else 6
    {
      hide TableReady, Created;
      var d := addr / 4096 / 1024;
      ghost var m := Abs();
      TableMade(m, base, addr / 4096);
      while !Present(phys[DIR][d])
        invariant Valid()
        invariant Abs() == if HasTable(Abs(), d) then TableFor(m, addr / 4096) else m
        decreases if Present(phys[DIR][d]) then 0 else 1
      {
        var j := CreatePageTable(addr);
      }
    }

    /** do_no_page, for a page without a present entry. */
    method DoNoPage(addr: int)
      requires Valid() && 0 <= addr < 0x1_0000_0000 && !Mapped(Abs(), addr / 4096)
      requires NoPageEnds(Abs(), addr / 4096)
      modifies memMap, phys
      ensures Abs() == AfterNoPage(old(Abs()), addr / 4096)
      ensures Demanded(old(Abs()), base, addr / 4096, Abs())
      ensures DemandedExactly(old(Abs()), addr / 4096, Abs())
      ensures IsUser(addr / 4096) && !Mapped(Abs(), addr / 4096) ==> Free(Abs()) == {}
      decreases if HasTable(Abs(), addr / 4096 / 1024) && addr < PAGING_MEMORY then 2 else 7
    {
      hide TablesOk, LeavesOk, SoleWriter, CountsOk, IdentityWindow, Placed, Demanded, DemandedExactly;
      hide Usable, Handy, OtherTablesSame, WindowKept, SameEntry;
      ghost var m := Abs();
      var p := addr / 4096;
      NoPageEndsExactly(m, base, p);
      NoPageDemands(m, base, p);
      EnsureTable(addr);
      if addr < PAGING_MEMORY {
        WriteEntry(p, p * 4096 + 7);
      } else {
        AllocateGot(Abs(), base);
        GivePage(p);
      }
    }

    /** The last part of do_no_page, from 64 MB on: a frame for the page. */
    method GivePage(p: int)
      requires Valid() && IsUser(p) && HasTable(Abs(), p / 1024) && Ends(Abs())
      modifies memMap, phys
      ensures var a := Allocate(old(Abs()));
              Abs() == if a.Granted? then Put(a.mem, p, Entry(a.frame)) else old(Abs())
      decreases 5
    {
      hide TablesOk, LeavesOk, SoleWriter, CountsOk, IdentityWindow, Placed, Usable, Handy, WindowKept, SameEntry;
      AllocateGot(Abs(), base);
      var page := GetFreePage();
      if page == 0 {
        return;
      }
      assert page + 7 == Entry(page / 4096);
      WriteEntry(p, page + 7);
    }

    /** copy_page */
    method CopyPage(from: int, to: int)
      requires 0 <= from < phys.Length && 0 <= to < phys.Length && from != to
      requires |phys[from]| == 1024 == |phys[to]|
      modifies phys
      ensures phys[..] == old(phys[..])[to := old(phys[from])]
    {
      var i := 0;
      while i < 1024
        invariant 0 <= i <= 1024
        invariant phys[..] == old(phys[..])[to := phys[to]]
        invariant |phys[to]| == 1024 && forall k :: 0 <= k < i ==> phys[to][k] == phys[from][k]
      {
        phys[to] := phys[to][i := phys[from][i]];
        i := i + 1;
      }
      assert phys[to] == old(phys[from]);
    }

    /** do_wp_page, for a present page. */
    method DoWpPage(addr: int)
      requires Valid() && 0 <= addr < 0x1_0000_0000
      requires IsUser(addr / 4096) && Mapped(Abs(), addr / 4096) && WpPageEnds(Abs(), addr / 4096)
      modifies memMap, phys
      ensures Abs() == AfterWpPage(old(Abs()), addr / 4096)
      ensures Unprotected(old(Abs()), base, addr / 4096, Abs())
    {
      hide Unprotected;
      ghost var m := Abs();
      var p := addr / 4096;
      WpPageUnprotects(m, base, p);
      var t := TableFrame(p / 1024);
      var e := phys[t][p % 1024];
      var oldPage := FrameOf(e);
      assert IsFrame(MapsTo(m, p));
      if memMap[oldPage] == 1 {
        WriteEntry(p, WriteEnabled(e));
      } else {
        AllocateGot(m, base);
        var newPage := GetFreePage();
        if newPage == 0 {
          return;
        }
        CopyGoesElsewhere(m, base, p, Abs(), newPage / 4096);
        SourceKept(m, base, p, Abs(), newPage / 4096);
        CopyOut(p, oldPage, newPage / 4096, t);
      }
    }

    /** The last steps of do_wp_page: one count less, the copy, the entry. */
    method CopyOut(p: int, oldPage: int, newPage: int, t: int)
      requires Valid() && IsPage(p) && HasTable(Abs(), p / 1024) && t == Table(Abs(), p / 1024)
      requires IsFrame(oldPage) && IsFrame(newPage) && IsFrame(t)
      requires newPage != t && newPage != oldPage && newPage != DIR
      modifies memMap, phys
      ensures Abs() == old(CopyTo(Abs(), p, oldPage, newPage))
    {
      memMap[oldPage] := (memMap[oldPage] + 255) % 256;
      PointAtCopy(oldPage, newPage, t, p % 1024);
    }

    /** The copy, and the entry written for it, of do_wp_page. */
    method PointAtCopy(oldPage: int, newPage: int, t: int, i: int)
      requires 0 <= oldPage < phys.Length && 0 <= newPage < phys.Length && oldPage != newPage
      requires 0 <= t < phys.Length && 0 <= i < 1024 && t != newPage
      requires |phys[oldPage]| == 1024 == |phys[newPage]| && |phys[t]| == 1024
      modifies phys
      ensures phys[..] == old(phys[..][newPage := phys[oldPage]][t := phys[t][i := Entry(newPage)]])
    {
      CopyPage(oldPage, newPage);
      phys[t] := phys[t][i := newPage * 4096 + 7];
    }

    /** The first loop of share_page. */
    method EnsureSourceTable(from: int, ghost to: int)
      requires Valid() && 0 <= from < 0x1_0000_0000 && IsPage(to) && ShareEnds(Abs(), from / 4096, to)
      modifies memMap, phys
      ensures Valid() && HasTable(Abs(), from / 4096 / 1024)
      ensures Abs() == old(Abs()) || Abs() == SourceMapped(old(Abs()), from / 4096)
    {
      ghost var m := Abs();
      SourceIs(m, base, from / 4096, to);
      while !Present(phys[DIR][from / 4096 / 1024])
        invariant Valid() && (Abs() == m || Abs() == SourceMapped(m, from / 4096))
        decreases if Mapped(Abs(), from / 4096) then 0 else 1
      {
        DoNoPage(from);
      }
    }

    /** The second loop of share_page. */
    method EnsureMapped(from: int, ghost to: int, ghost m: Mem)
      requires Valid() && 0 <= from < 0x1_0000_0000 && IsPage(to)
      requires Inv(m, base) && ShareEnds(m, from / 4096, to)
      requires Abs() == m || Abs() == SourceMapped(m, from / 4096)
      requires HasTable(Abs(), from / 4096 / 1024)
      modifies memMap, phys
      ensures Valid() && Abs() == SourceMapped(m, from / 4096)
    {
      var p := from / 4096;
      SourceIs(m, base, p, to);
      var t := TableFrame(p / 1024);
      while !Present(phys[t][p % 1024])
        invariant Valid() && (Abs() == m || Abs() == SourceMapped(m, p))
        invariant HasTable(Abs(), p / 1024) && t == Table(Abs(), p / 1024)
        decreases if Mapped(Abs(), p) then 0 else 1
      {
        DoNoPage(from);
      }
    }

    /** The last writes of share_page. */
    method LinkShared(from: int, to: int)
      requires Valid() && 0 <= from < 0x1_0000_0000 && 0 <= to < 0x1_0000_0000
      requires Mapped(Abs(), from / 4096) && HasTable(Abs(), to / 4096 / 1024)
      requires IsFrame(MapsTo(Abs(), from / 4096))
      modifies memMap, phys
      ensures Abs() == old(ShareWrites(Abs(), from / 4096, to / 4096))
    {
      var p := from / 4096;
      var q := to / 4096;
      var ft := TableFrame(p / 1024);
      var tt := TableFrame(q / 1024);
      var page := phys[ft][p % 1024];
      memMap[FrameOf(page)] := (memMap[FrameOf(page)] + 1) % 256;
      phys[tt] := phys[tt][q % 1024 := ReadOnly(page)];
      if from >= PAGING_MEMORY {
        phys[ft] := phys[ft][p % 1024 := ReadOnly(page)];
      }
    }

    /** share_page.  The source's loops have no bound; ShareEnds tells when they
        end. */
    method SharePage(from: int, to: int)
      requires Valid() && 0 <= from < 0x1_0000_0000 && 0 <= to < 0x1_0000_0000
      requires ShareEnds(Abs(), from / 4096, to / 4096)
      modifies memMap, phys
      ensures Abs() == AfterShare(old(Abs()), from / 4096, to / 4096)
      ensures old(CanShare(Abs(), base, from / 4096, to / 4096)) ==>
                Shared(old(Abs()), base, from / 4096, to / 4096, Abs())
      ensures old(CanShare(Abs(), base, from / 4096, to / 4096) && PageAccess.Open(Abs())) ==>
                PageAccess.Open(Abs()) && PageAccess.UserReads(Abs(), to / 4096)
    {
      hide Shared, CanShare, PageAccess.Open, PageAccess.UserReads, PageAccess.UserWrites;
      ghost var m := Abs();
      ghost var p := from / 4096;
      ghost var q := to / 4096;
      SourceIs(m, base, p, q);
      if CanShare(m, base, p, q) {
        SharePageShares(m, base, p, q);
        if PageAccess.Open(m) {
          PageAccess.ShareOpens(m, base, p, q);
          PageAccess.SharedPageIsReadable(m, base, p, q);
        }
      }
      EnsureSourceTable(from, q);
      EnsureMapped(from, q, m);
      EnsureTable(to);
      BeforeShareIs(m, base, p, q);
      LinkShared(from, to);
    }

    /** share_multi_pages: what processes see is what `amount` copies of pages, one
        after the other, show. */
    method ShareMultiPages(from: int, to: int, amount: nat) returns (r: int)
      requires Valid() && 0 <= from && from / 4096 + amount <= PAGES && 0 <= to && to / 4096 + amount <= PAGES
      requires from % 4096 == 0 && to % 4096 == 0 ==> CanShareRange(Abs(), base, from / 4096, to / 4096, amount)
      modifies memMap, phys
      ensures Valid()
      ensures r == (if from % 4096 == 0 && to % 4096 == 0 then 1 else -1)
      ensures r == -1 ==> Abs() == old(Abs())
      ensures r == 1 ==> Abs() == AfterShares(old(Abs()), from / 4096, to / 4096, amount)
      ensures r == 1 ==> forall p {:trigger PageOf(Abs(), base, p)} :: IsUser(p) ==>
                PageOf(Abs(), base, p) == CopiedAt(Pages(old(Abs()), base), from / 4096, to / 4096, amount, p)
    {
      if from % 4096 != 0 || to % 4096 != 0 {
        return -1;
      }
      ghost var m := Abs();
      SharesKeepInv(m, base, from / 4096, to / 4096, amount);
      ShareLoop(from / 4096, to / 4096, amount);
      forall p | IsUser(p)
        ensures PageOf(Abs(), base, p) == CopiedAt(Pages(m, base), from / 4096, to / 4096, amount, p)
      {
        SharesCopy(m, base, from / 4096, to / 4096, amount, p);
      }
      return 1;
    }

    /** The loop of share_multi_pages, over page numbers. */
    method ShareLoop(from: int, to: int, amount: nat)
      requires Valid() && 0 <= from && from + amount <= PAGES && 0 <= to && to + amount <= PAGES
      requires CanShareRange(Abs(), base, from, to, amount)
      modifies memMap, phys
      ensures Abs() == AfterShares(old(Abs()), from, to, amount)
    {
      hide AfterShare, CanShare, ShareEnds, Shared, Placed, TablesOk, LeavesOk, SoleWriter, CountsOk, IdentityWindow;
      ghost var m := Abs();
      var done := 0;
      while done < amount
        invariant 0 <= done <= amount
        invariant Valid() && Abs() == AfterShares(m, from, to, done)
      {
        TurnIsNext(m, base, from, to, amount, done);
        Divide((from + done) * 4096, 4096, from + done, 0);
        Divide((to + done) * 4096, 4096, to + done, 0);
        CanShareEnds(Abs(), base, from + done, to + done);
        ShareKeepsAccounts(Abs(), base, from + done, to + done);
        SharePage((from + done) * 4096, (to + done) * 4096);
        done := done + 1;
      }
    }

    /** do_intr_page: bit 0 of the error code tells a missing page from a write
        to a protected one. */
    method DoIntrPage(addr: int, errorCode: int)
      requires Valid() && 0 <= addr < 0x1_0000_0000 && errorCode >= 0
      requires errorCode % 2 == (if Mapped(Abs(), addr / 4096) then 1 else 0)
      requires errorCode % 2 == 1 ==> IsUser(addr / 4096) && WpPageEnds(Abs(), addr / 4096)
      requires errorCode % 2 == 0 ==> NoPageEnds(Abs(), addr / 4096)
      modifies memMap, phys
      ensures Valid()
      ensures var op := if errorCode % 2 == 0 then NoPage(addr / 4096) else WriteProtect(addr / 4096);
              Step(old(Abs()), base, op, Abs())
      ensures old(PageAccess.Open(Abs())) ==> PageAccess.Open(Abs())
      ensures old(PageAccess.Open(Abs())) && IsUser(addr / 4096) ==>
                PageAccess.UserWrites(Abs(), addr / 4096) || Free(Abs()) == {}
    {
      hide AfterNoPage, AfterWpPage, NoPageEnds, WpPageEnds, Demanded, DemandedExactly, Unprotected;
      ghost var m := Abs();
      if errorCode % 2 == 0 {
        DoNoPage(addr);
        StepKeepsInv(m, base, NoPage(addr / 4096), Abs());
        if PageAccess.Open(m) {
          PageAccess.StepKeepsOpen(m, base, NoPage(addr / 4096), Abs());
          if IsUser(addr / 4096) {
            PageAccess.FaultedPageIsUsable(m, base, addr / 4096);
          }
        }
      } else {
        DoWpPage(addr);
        StepKeepsInv(m, base, WriteProtect(addr / 4096), Abs());
        if PageAccess.Open(m) {
          PageAccess.StepKeepsOpen(m, base, WriteProtect(addr / 4096), Abs());
          PageAccess.UnprotectedPageIsUsable(m, base, addr / 4096);
        }
      }
    }

    /** The processor's store to a linear address whose entry allows it. */
    method WriteWord(addr: int, w: int)
      requires Valid() && 0 <= addr < 0x1_0000_0000 && IsUser(addr / 4096)
      requires Mapped(Abs(), addr / 4096) && Writable(Pte(Abs(), addr / 4096))
      modifies phys
      ensures Step(old(Abs()), base, Write(addr / 4096, addr / 4 % 1024, w), Abs())
    {
      var p := addr / 4096;
      var t := TableFrame(p / 1024);
      var f := FrameOf(phys[t][p % 1024]);
      phys[f] := phys[f][addr / 4 % 1024 := w];
    }
  }
}
