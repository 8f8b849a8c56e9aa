/**
  What get_free_page and create_page_table do to the memory state.  The frame
  found is zeroed through its own linear page: the first store may fault, and the
  fault needs the page table of the frame's region.
 */
module FrameAlloc {
  import opened Paging
  import opened PagingSteps

  /** Frame i can be handed out once the frames before it are used: it is free,
      and no free frame up to it lies in a region without a page table. */
  ghost predicate Handy(m: Mem, i: int)
    requires Sized(m)
  {
    IsFrame(i) && m.cnt[i] == 0 && forall f :: 0 <= f <= i && m.cnt[f] == 0 ==> HasTable(m, f / 1024)
  }

  ghost function Usable(m: Mem): set<int>
    requires Sized(m)
  {
    set i | 0 <= i < FRAMES && Handy(m, i)
  }

  /** No frame can be handed out. */
  ghost predicate Stuck(m: Mem)
    requires Sized(m)
  {
    Usable(m) == {}
  }

  /** Every free frame lies in a region with a page table, as the boot code
      arranges for machines up to 32 MB. */
  ghost predicate Covered(m: Mem)
    requires Sized(m)
  {
    Usable(m) == Free(m)
  }

  /** get_free_page returns. */
  ghost predicate Ends(m: Mem)
    requires Sized(m)
  {
    Free(m) == {} || !Stuck(m)
  }

  // ---------------------------------------------------------------- the search

  /** The first unused frame from i on, or 16384. */
  function First(cnt: seq<int>, i: nat): (f: nat)
    requires i <= |cnt|
    ensures i <= f <= |cnt| && (f < |cnt| ==> cnt[f] == 0)
    ensures forall k :: i <= k < f ==> cnt[k] != 0
    decreases |cnt| - i
  {
    if i == |cnt| || cnt[i] == 0 then i else First(cnt, i + 1)
  }

  /** The first store to linear page i below 64 MB: when the page is missing, the
      page fault maps it to the frame of its number. */
  ghost function Touch(m: Mem, i: int): (n: Mem)
    requires Sized(m) && 0 <= i < USER
    ensures Sized(n)
  {
    if Mapped(m, i) then m else Put(m, i, Entry(i))
  }

  /** Frame i zeroed and counted. */
  ghost function Hand(m: Mem, i: int): (n: Mem)
    requires Sized(m) && IsFrame(i)
    ensures Sized(n)
  {
    SetFrame(SetCnt(Touch(m, i), i, 1), i, Zeros())
  }

  /** No frame is free, or frame was handed out, or the call never returns. */
  datatype Allocation = Nothing | Granted(mem: Mem, frame: int) | Endless

  lemma CountAsUsed(m: Mem, i: int)
    requires Sized(m) && IsFrame(i) && m.cnt[i] == 0
    ensures Free(m) == Free(SetCnt(m, i, 1)) + {i} && i !in Free(SetCnt(m, i, 1))
    ensures |Free(m)| == |Free(SetCnt(m, i, 1))| + 1
  {
    assert Free(m) == Free(SetCnt(m, i, 1)) + {i};
  }

  /** get_free_page: the first unused frame.  In a region without a page table a
      trigger frame has the table made first, from a frame of its own; at any
      other frame the store that zeroes it faults, the fault asks for the page
      table, that asks for a frame, and finds the same one still unused. */
  ghost function Allocate(m: Mem): (a: Allocation)
    requires Sized(m)
    ensures a.Granted? ==> Sized(a.mem) && IsFrame(a.frame)
    decreases |Free(m)|
  {
    var i := First(m.cnt, 0);
    if i == FRAMES then Nothing else
    if HasTable(m, i / 1024) then Granted(Hand(m, i), i) else
    if i % 1024 != 1021 then Endless else
    CountAsUsed(m, i);
    match Allocate(SetCnt(m, i, 1))
    case Nothing => Nothing
    case Granted(n, r) => Granted(Hand(SetCnt(SetWord(n, DIR, i / 1024, Entry(r)), i, 0), i), i)
    case Endless => Endless
  }

  // -------------------------------------------------------- what allocation keeps

  /** An entry is the same, or a missing one below 64 MB became that of the
      identity window. */
  ghost predicate SameEntry(m: Mem, m': Mem, p: int)
    requires Sized(m) && Sized(m') && IsPage(p)
  {
    Pte(m', p) == Pte(m, p) || (p < USER && !Mapped(m, p) && Pte(m', p) == Entry(p))
  }

  /** What the kernel can reach through linear pages below 64 MB stays within its
      reach: mapped pages stay mapped, a frame that is taken is mapped at its own
      page, and a new page table is such a frame. */
  ghost predicate WindowKept(m: Mem, m': Mem) {
    && Sized(m) && Sized(m')
    && (forall p {:trigger Mapped(m', p)} {:trigger Pte(m', p)} :: 0 <= p < USER && Mapped(m, p) ==> Mapped(m', p))
    && (forall f {:trigger m'.cnt[f]} :: 0 <= f < FRAMES && m.cnt[f] == 0 && m'.cnt[f] != 0 ==> Mapped(m', f))
    && (forall f :: IsTable(m', f) ==> IsTable(m, f) || (IsFrame(f) && m.cnt[f] == 0))
  }

  lemma WindowThrough(m: Mem, n: Mem, m': Mem)
    requires WindowKept(m, n) && SameTables(n, m')
    requires forall f :: 0 <= f < FRAMES ==> (m'.cnt[f] == 0) == (n.cnt[f] == 0)
    requires forall p :: 0 <= p < USER && Mapped(n, p) ==> Mapped(m', p)
    ensures WindowKept(m, m')
  {
    forall f | IsTable(m', f) ensures IsTable(n, f) {
      var d :| 0 <= d < 1024 && HasTable(m', d) && Table(m', d) == f;
      assert HasTable(n, d) && Table(n, d) == f;
    }
  }

  /** Allocation only: free frames become used, tables stay, the kernel
      keeps what it can reach, no user entry changes, and no frame in use is written
      except page tables. */
  ghost predicate Grown(m: Mem, base: int, m': Mem) {
    && Inv(m, base) && Inv(m', base)
    && (forall f :: 0 <= f < FRAMES ==> m'.cnt[f] == m.cnt[f] || (m.cnt[f] == 0 && m'.cnt[f] == 1))
    && (forall d :: 0 <= d < 1024 && HasTable(m, d) ==> HasTable(m', d) && Table(m', d) == Table(m, d))
    && WindowKept(m, m')
    && (forall p {:trigger Pte(m', p)} {:trigger SameEntry(m, m', p)} :: IsPage(p) ==> SameEntry(m, m', p))
    && (forall f :: 0 <= f < FRAMES && m.cnt[f] != 0 && f != DIR && !IsTable(m, f) ==> m'.phys[f] == m.phys[f])
  }

  /** Frame r was handed out: free before, zeroed, used once, mapped by no process
      and at its own linear page; nothing else was taken. */
  ghost predicate Got(m: Mem, base: int, m': Mem, r: int) {
    && Grown(m, base, m') && SameTables(m, m')
    && Unused(m', base, r) && m.cnt[r] == 0 && m'.cnt == m.cnt[r := 1]
    && m'.phys[r] == Zeros() && Mapped(m', r)
    && |Free(m)| == |Free(m')| + 1 && |Usable(m)| == |Usable(m')| + 1
  }

  /** The table of directory entry d was created, from one frame. */
  ghost predicate Created(m: Mem, base: int, m': Mem, d: int) {
    && Grown(m, base, m') && 0 <= d < 1024
    && !HasTable(m, d) && HasTable(m', d) && IsFrame(Table(m', d))
    && (forall e :: 0 <= e < 1024 && e != d ==> HasTable(m', e) == HasTable(m, e))
    && m'.cnt == m.cnt[Table(m', d) := 1] && Mapped(m', Table(m', d))
    && |Free(m)| == |Free(m')| + 1
    && |Usable(m')| >= |Usable(m)| - 1 && (d >= 16 ==> |Usable(m')| == |Usable(m)| - 1)
  }

  // ----------------------------------------------------------------- pages seen

  lemma GrownKeepsUserEntries(m: Mem, base: int, m': Mem)
    requires Grown(m, base, m')
    ensures forall p :: IsUser(p) ==> Pte(m', p) == Pte(m, p)
    ensures forall p :: IsPage(p) && Mapped(m, p) ==> Pte(m', p) == Pte(m, p)
    ensures forall f :: Refs(m', f) == Refs(m, f)
  {
    forall p | IsPage(p) && (IsUser(p) || Mapped(m, p)) ensures Pte(m', p) == Pte(m, p) {
      assert SameEntry(m, m', p);
    }
    RefsUnchanged(m, m');
  }

  lemma GrownTables(m: Mem, base: int, m': Mem, f: int)
    requires Grown(m, base, m')
    ensures IsTable(m, f) ==> IsTable(m', f)
    ensures IsTable(m', f) ==> IsTable(m, f) || (IsFrame(f) && m.cnt[f] == 0)
  {
    if IsTable(m, f) {
      var d :| 0 <= d < 1024 && HasTable(m, d) && Table(m, d) == f;
      assert HasTable(m', d) && Table(m', d) == f;
    }
  }

  /** Allocation changes no page contents. */
  lemma GrownKeepsPages(m: Mem, base: int, m': Mem)
    requires Grown(m, base, m')
    ensures SamePages(m, base, m')
    ensures forall f :: Refs(m', f) == Refs(m, f)
    ensures Free(m') <= Free(m)
    ensures forall f :: IsTable(m', f) ==> IsTable(m, f) || (IsFrame(f) && m.cnt[f] == 0)
  {
    GrownKeepsUserEntries(m, base, m');
    forall f ensures IsTable(m', f) ==> IsTable(m, f) || (IsFrame(f) && m.cnt[f] == 0) {
      GrownTables(m, base, m', f);
    }
    forall f | base <= f < FRAMES && Refs(m, f) != {} ensures m'.phys[f] == m.phys[f] {
      var p :| p in Refs(m, f);
      assert Mapped(m, p) && !IsTable(m, f);
      assert m.cnt[f] >= |Refs(m, f)|;
    }
    PagesUnchanged(m, m', base);
  }

  lemma GrownReflexive(m: Mem, base: int)
    requires Inv(m, base)
    ensures Grown(m, base, m)
  {
    forall p | IsPage(p) ensures SameEntry(m, m, p) {
    }
  }

  lemma WindowTransitive(m: Mem, base: int, n: Mem, m': Mem)
    requires Grown(m, base, n) && Grown(n, base, m')
    ensures WindowKept(m, m')
  {
    hide Inv;
    forall f | 0 <= f < FRAMES && m.cnt[f] == 0 && m'.cnt[f] != 0 ensures Mapped(m', f) {
      assert n.cnt[f] != 0 ==> Mapped(n, f);
    }
  }

  lemma GrownTransitive(m: Mem, base: int, n: Mem, m': Mem)
    requires Grown(m, base, n) && Grown(n, base, m')
    ensures Grown(m, base, m')
  {
    forall p | IsPage(p) ensures SameEntry(m, m', p) {
      assert SameEntry(m, n, p) && SameEntry(n, m', p);
    }
    WindowTransitive(m, base, n, m');
    forall f | 0 <= f < FRAMES && m.cnt[f] != 0 && f != DIR && !IsTable(m, f)
      ensures m'.phys[f] == m.phys[f]
    {
      GrownTables(m, base, n, f);
    }
  }

  // ------------------------------------------------------------- get_free_page

  /** The page fault of the first store, and the new count. */
  lemma Reserve(m: Mem, base: int, i: int) returns (n: Mem)
    requires Inv(m, base) && IsFrame(i) && m.cnt[i] == 0 && HasTable(m, i / 1024)
    ensures n == SetCnt(Touch(m, i), i, 1)
    ensures Inv(n, base) && Unused(n, base, i) && SameTables(m, n)
    ensures Pte(n, i) == if Mapped(m, i) then Pte(m, i) else Entry(i)
    ensures forall p :: IsPage(p) && p != i ==> Pte(n, p) == Pte(m, p)
    ensures forall f :: 0 <= f < FRAMES && !IsTable(m, f) ==> n.phys[f] == m.phys[f]
  {
    var t := Touch(m, i);
    if !Mapped(m, i) {
      MapIdentity(m, base, i, t);
      TableWrite(m, base, i, Entry(i), t);
    }
    FreeFrameIsUnused(t, base, i);
    n := SetCnt(t, i, 1);
    DataKeepsInv(t, n, base);
  }

  /** While create_page_table is called for its region, a trigger frame counts. */
  lemma CountedKeepsInv(m: Mem, base: int, i: int)
    requires Inv(m, base) && IsFrame(i) && m.cnt[i] == 0 && HasTable(m, i / 1024)
    ensures Inv(SetCnt(m, i, 1), base)
  {
    DataKeepsInv(m, SetCnt(m, i, 1), base);
  }

  lemma HandGrows(m: Mem, base: int, i: int)
    requires Inv(m, base) && IsFrame(i) && m.cnt[i] == 0 && HasTable(m, i / 1024)
    ensures Grown(m, base, Hand(m, i)) && SameTables(m, Hand(m, i))
    ensures Unused(Hand(m, i), base, i) && Mapped(Hand(m, i), i)
  {
    var n := Reserve(m, base, i);
    assert n.cnt == m.cnt[i := 1];
    ZeroGrows(m, base, i, n);
  }

  /** Zeroing the frame just counted. */
  lemma ZeroGrows(m: Mem, base: int, i: int, n: Mem)
    requires Inv(m, base) && IsFrame(i) && m.cnt[i] == 0 && n.cnt == m.cnt[i := 1]
    requires Inv(n, base) && Unused(n, base, i) && SameTables(m, n)
    requires Pte(n, i) == if Mapped(m, i) then Pte(m, i) else Entry(i)
    requires forall p :: IsPage(p) && p != i ==> Pte(n, p) == Pte(m, p)
    requires forall f :: 0 <= f < FRAMES && !IsTable(m, f) ==> n.phys[f] == m.phys[f]
    ensures var m' := SetFrame(n, i, Zeros());
            Grown(m, base, m') && SameTables(m, m') && Unused(m', base, i) && Mapped(m', i)
  {
    var m' := SetFrame(n, i, Zeros());
    FillUnused(n, base, i, Zeros(), m');
    HandEntries(m, i, n, m');
    HandWindow(m, i, m');
    forall f | 0 <= f < FRAMES && m.cnt[f] != 0 && f != DIR && !IsTable(m, f) ensures m'.phys[f] == m.phys[f] {
      assert n.phys[f] == m.phys[f];
    }
  }

  lemma HandEntries(m: Mem, i: int, n: Mem, m': Mem)
    requires Sized(m) && Sized(n) && Sized(m') && IsFrame(i)
    requires forall p :: IsPage(p) ==> Pte(m', p) == Pte(n, p)
    requires Pte(n, i) == if Mapped(m, i) then Pte(m, i) else Entry(i)
    requires forall p :: IsPage(p) && p != i ==> Pte(n, p) == Pte(m, p)
    ensures Mapped(m', i)
    ensures forall p {:trigger Pte(m', p)} {:trigger SameEntry(m, m', p)} :: IsPage(p) ==> SameEntry(m, m', p)
  {
    forall p | IsPage(p) ensures SameEntry(m, m', p) {
      assert Pte(m', p) == Pte(n, p);
    }
  }

  lemma HandWindow(m: Mem, i: int, m': Mem)
    requires SameTables(m, m') && IsFrame(i) && m'.cnt == m.cnt[i := 1] && Mapped(m', i)
    requires forall p {:trigger Pte(m', p)} {:trigger SameEntry(m, m', p)} :: IsPage(p) ==> SameEntry(m, m', p)
    ensures WindowKept(m, m')
  {
    forall f | IsTable(m', f) ensures IsTable(m, f) {
      var d :| 0 <= d < 1024 && HasTable(m', d) && Table(m', d) == f;
      assert HasTable(m, d) && Table(m, d) == f;
    }
  }

  /** Handing out the first free frame takes it from the usable frames, and
      nothing else. */
  lemma HandTakes(m: Mem, i: int, m': Mem)
    requires SameTables(m, m') && IsFrame(i) && m.cnt[i] == 0 && HasTable(m, i / 1024)
    requires forall f :: 0 <= f < i ==> m.cnt[f] != 0
    requires m'.cnt == m.cnt[i := 1]
    ensures |Free(m)| == |Free(m')| + 1 && |Usable(m)| == |Usable(m')| + 1
  {
    assert Free(m) == Free(m') + {i};
    forall f ensures Handy(m, f) <==> Handy(m', f) || f == i {
      if f != i && Handy(m', f) {
        forall g | 0 <= g <= f && m.cnt[g] == 0 ensures HasTable(m, g / 1024) {
          assert g != i ==> m'.cnt[g] == 0;
        }
      }
    }
    assert Usable(m) == Usable(m') + {i};
  }

  lemma HandOut(m: Mem, base: int, i: int)
    requires Inv(m, base) && IsFrame(i) && m.cnt[i] == 0 && HasTable(m, i / 1024)
    requires forall f :: 0 <= f < i ==> m.cnt[f] != 0
    ensures Got(m, base, Hand(m, i), i)
  {
    HandGrows(m, base, i);
    HandTakes(m, i, Hand(m, i));
  }

  /** Whether a frame is usable shows at the first free one. */
  lemma FirstDecides(m: Mem)
    requires Sized(m)
    ensures var i := First(m.cnt, 0);
            && (i == FRAMES <==> Free(m) == {})
            && (Stuck(m) <==> i == FRAMES || !HasTable(m, i / 1024))
  {
    var i := First(m.cnt, 0);
    if i < FRAMES {
      assert i in Free(m);
      assert HasTable(m, i / 1024) ==> i in Usable(m);
      assert forall f :: Handy(m, f) ==> i <= f;
    }
  }

  /** The branch of get_free_page that makes a page table is dead: when the first
      free frame is a trigger frame, its region has had a table for long. */
  lemma TriggerHasTable(m: Mem, base: int)
    requires Inv(m, base) && First(m.cnt, 0) < FRAMES && First(m.cnt, 0) % 1024 == 1021
    ensures HasTable(m, First(m.cnt, 0) / 1024)
  {
    var d := First(m.cnt, 0) / 1024;
    assert Trigger(d) == First(m.cnt, 0);
    assert m.cnt[d * 1024] != 0;
  }

  /** get_free_page: it returns 0 if and only if no frame is free, and never
      returns if and only if the first free frame lies in a region without a page
      table; else it hands that frame out, zeroed, and makes no table. */
  lemma AllocateGot(m: Mem, base: int)
    requires Inv(m, base)
    ensures Allocate(m).Nothing? <==> Free(m) == {}
    ensures Allocate(m).Endless? <==> !Ends(m)
    ensures Allocate(m).Granted? <==> !Stuck(m)
    ensures Allocate(m).Granted? ==> Got(m, base, Allocate(m).mem, Allocate(m).frame)
  {
    FirstDecides(m);
    var i := First(m.cnt, 0);
    if i < FRAMES {
      if i % 1024 == 1021 {
        TriggerHasTable(m, base);
      }
      if HasTable(m, i / 1024) {
        HandOut(m, base, i);
      }
    }
  }

  // --------------------------------------------------------- create_page_table

  lemma TableFromFrame(m: Mem, base: int, n: Mem, r: int, d: int, m': Mem)
    requires Got(m, base, n, r) && 0 <= d < 1024 && !HasTable(m, d)
    requires m' == SetWord(n, DIR, d, Entry(r))
    ensures Created(m, base, m', d)
  {
    InstallTable(n, base, d, r, m');
    InstalledGrown(m, base, n, r, d, m');
    assert Free(m') == Free(n);
    InstalledUsable(n, d, m');
  }

  /** A new table makes no usable frame unusable, and above 64 MB none usable. */
  lemma InstalledUsable(n: Mem, d: int, m': Mem)
    requires Sized(n) && Sized(m') && 0 <= d < 1024 && !HasTable(n, d)
    requires m'.cnt == n.cnt && HasTable(m', d)
    requires forall e :: 0 <= e < 1024 && e != d ==> HasTable(m', e) == HasTable(n, e)
    ensures |Usable(m')| >= |Usable(n)| && (d >= 16 ==> |Usable(m')| == |Usable(n)|)
  {
    forall f ensures Handy(n, f) ==> Handy(m', f) {
    }
    SubsetSize(Usable(n), Usable(m'));
    if d >= 16 {
      assert forall f :: Handy(m', f) == Handy(n, f);
      assert Usable(m') == Usable(n);
    }
  }

  lemma InstalledGrown(m: Mem, base: int, n: Mem, r: int, d: int, m': Mem)
    requires Grown(m, base, n) && SameTables(m, n) && IsFrame(r) && m.cnt[r] == 0
    requires 0 <= d < 1024 && !HasTable(m, d)
    requires m' == SetWord(n, DIR, d, Entry(r)) && Inv(m', base)
    requires HasTable(m', d) && Table(m', d) == r
    requires forall e :: 0 <= e < 1024 && e != d ==> HasTable(m', e) == HasTable(n, e) && Table(m', e) == Table(n, e)
    requires forall p :: IsPage(p) ==> Pte(m', p) == Pte(n, p)
    ensures Grown(m, base, m')
  {
    forall p | IsPage(p) ensures SameEntry(m, m', p) {
      assert SameEntry(m, n, p);
    }
  }

  // -------------------------------------------------- machines the boot code covers

  lemma CoveredEnds(m: Mem)
    requires Sized(m) && Covered(m)
    ensures Ends(m)
  {
  }
}
