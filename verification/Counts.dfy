/**
  How exact mem_map is.  The excess of a frame is its count less its uses as user
  page and as page table; a fault or a share either keeps the excess of every
  frame or leaves a count behind that nothing will ever take back.
 */
module Counts {
  import opened Paging
  import opened PagingSteps
  import opened FrameAlloc
  import opened Faults

  /** Allocation counts the frame it hands out, which has no use yet, and
      changes no other frame's uses or count. */
  lemma AllocationExcess(m: Mem, base: int, n: Mem, r: int)
    requires Got(m, base, n, r)
    ensures forall f :: IsFrame(f) ==> Excess(n, f) == Excess(m, f) + (if f == r then 1 else 0)
  {
    GrownKeepsUserEntries(m, base, n);
    forall f | IsFrame(f) ensures Excess(n, f) == Excess(m, f) + (if f == r then 1 else 0) {
      SameTablesAreTables(m, n, f);
    }
  }

  /** create_page_table keeps every count exact. */
  lemma TableExcess(m: Mem, base: int, p: int)
    requires Inv(m, base) && IsPage(p) && Reachable(m, p)
    ensures SameExcess(m, TableFor(m, p))
  {
    TableMade(m, base, p);
    var n := TableFor(m, p);
    GrownKeepsUserEntries(m, base, n);
    if !HasTable(m, p / 1024) {
      forall f | IsFrame(f) ensures Excess(n, f) == Excess(m, f) {
        CreatedExcess(m, base, n, p / 1024, f);
      }
    }
  }

  lemma CreatedExcess(m: Mem, base: int, n: Mem, d: int, f: int)
    requires Created(m, base, n, d) && IsFrame(f) && Refs(n, f) == Refs(m, f)
    ensures Excess(n, f) == Excess(m, f)
  {
    GrownTables(m, base, n, f);
    if m.cnt[f] == 0 {
      FreeFrameIsUnused(m, base, f);
    }
    if f == Table(n, d) {
      assert IsTable(n, f);
      assert m.cnt[f] == 0;
    } else if IsTable(n, f) {
      assert n.cnt[f] >= 1;
    }
  }

  /** Mapping a page that had no frame uses up the frame's excess. */
  lemma MappingExcess(m: Mem, base: int, p: int, r: int)
    requires Inv(m, base) && IsUser(p) && HasTable(m, p / 1024) && !Mapped(m, p)
    requires Unused(m, base, r) && m.cnt[r] == 1
    ensures forall f :: IsFrame(f) ==> Excess(Put(m, p, Entry(r)), f) == Excess(m, f) - (if f == r then 1 else 0)
  {
    var m' := Put(m, p, Entry(r));
    MapPrivate(m, base, p, r, m');
    hide Placed, TablesOk, LeavesOk, SoleWriter, CountsOk, IdentityWindow;
    forall f | IsFrame(f) ensures Excess(m', f) == Excess(m, f) - (if f == r then 1 else 0) {
      if f == r {
        assert Refs(m', f) == {p};
      } else {
        assert Refs(m', f) == Refs(m, f);
      }
    }
  }

  lemma IdentityExcess(m: Mem, base: int, p: int)
    requires Inv(m, base) && 0 <= p < USER && HasTable(m, p / 1024)
    ensures SameExcess(m, Put(m, p, Entry(p)))
  {
    MapIdentity(m, base, p, Put(m, p, Entry(p)));
    RefsUnchanged(m, Put(m, p, Entry(p)));
  }

  lemma PageExcess(m: Mem, base: int, p: int, n: Mem, r: int)
    requires Inv(m, base) && IsUser(p) && HasTable(m, p / 1024) && !Mapped(m, p)
    requires Got(m, base, n, r)
    ensures SameExcess(m, Put(n, p, Entry(r)))
  {
    AllocationExcess(m, base, n, r);
    GrownKeepsUserEntries(m, base, n);
    MappingExcess(n, base, p, r);
  }

  /** do_no_page keeps every count exact. */
  lemma NoPageExcess(m: Mem, base: int, p: int)
    requires Inv(m, base) && IsPage(p) && !Mapped(m, p) && Reachable(m, p)
    ensures SameExcess(m, AfterNoPage(m, p))
  {
    TableMade(m, base, p);
    TableExcess(m, base, p);
    NoPageExcessAfter(m, base, p);
    hide Excess, Grown, Created;
  }

  lemma NoPageExcessAfter(m: Mem, base: int, p: int)
    requires Inv(m, base) && IsPage(p) && !Mapped(m, p) && TableReady(m, base, p, TableFor(m, p))
    ensures SameExcess(TableFor(m, p), AfterNoPage(m, p))
  {
    var n := TableFor(m, p);
    GrownKeepsUserEntries(m, base, n);
    if p < USER {
      IdentityExcess(n, base, p);
    } else {
      AllocateGot(n, base);
      if Allocate(n).Granted? {
        PageExcess(n, base, p, Allocate(n).mem, Allocate(n).frame);
      }
    }
  }

  /** The copy of a write fault moves one use, and its count, to the new frame. */
  lemma CopyExcess(m: Mem, base: int, p: int, r: int)
    requires Inv(m, base) && IsUser(p) && Mapped(m, p) && HasTable(m, p / 1024)
    requires Unused(m, base, r) && m.cnt[r] == 1 && m.cnt[MapsTo(m, p)] >= 2 && r != Table(m, p / 1024)
    ensures forall f :: IsFrame(f) ==> Excess(Unshared(m, p, r), f) == Excess(m, f) - (if f == r then 1 else 0)
  {
    var m' := Unshared(m, p, r);
    UnshareKeepsInv(m, base, p, r);
    forall f | IsFrame(f) ensures Excess(m', f) == Excess(m, f) - (if f == r then 1 else 0) {
      SameTablesAreTables(m, m', f);
      UnsharedRefs(m, p, r, f, m');
      SizeWithout(Refs(m, f), p);
      hide Refs, IsTable;
    }
  }

  lemma UnsharedRefs(m: Mem, p: int, r: int, f: int, m': Mem)
    requires Sized(m) && Sized(m') && IsUser(p) && Mapped(m, p) && Refs(m, r) == {}
    requires forall q :: IsPage(q) ==> Pte(m', q) == if q == p then Entry(r) else Pte(m, q)
    ensures Refs(m', f) == if f == r then {p} else Refs(m, f) - {p}
    ensures p in Refs(m, f) <==> f == MapsTo(m, p)
  {
    forall q | IsUser(q) && Mapped(m, q) ensures MapsTo(m, q) != r {
      assert q in Refs(m, MapsTo(m, q));
    }
  }

  lemma SameTablesAreTables(m: Mem, m': Mem, f: int)
    requires SameTables(m, m')
    ensures IsTable(m', f) == IsTable(m, f)
  {
  }

  /** do_wp_page keeps every count exact. */
  lemma WpPageExcess(m: Mem, base: int, p: int)
    requires Inv(m, base) && IsUser(p) && Mapped(m, p)
    ensures SameExcess(m, AfterWpPage(m, p))
  {
    assert IsFrame(MapsTo(m, p)) && HasTable(m, p / 1024);
    if m.cnt[MapsTo(m, p)] == 1 {
      InPlaceExcess(m, base, p);
    } else {
      AllocateGot(m, base);
      if Allocate(m).Granted? {
        GrantedCopyExcess(m, base, p, Allocate(m).mem, Allocate(m).frame);
      }
    }
  }

  lemma GrantedCopyExcess(m: Mem, base: int, p: int, n: Mem, r: int)
    requires Inv(m, base) && IsUser(p) && Mapped(m, p) && HasTable(m, p / 1024)
    requires m.cnt[MapsTo(m, p)] != 1 && Allocate(m) == Granted(n, r) && Got(m, base, n, r)
    ensures SameExcess(m, AfterWpPage(m, p))
  {
    AfterCopy(m, base, p, n, r);
    SourceKept(m, base, p, n, r);
    AllocationExcess(m, base, n, r);
    CopyExcess(n, base, p, r);
  }

  lemma InPlaceExcess(m: Mem, base: int, p: int)
    requires Inv(m, base) && IsUser(p) && Mapped(m, p) && HasTable(m, p / 1024) && m.cnt[MapsTo(m, p)] == 1
    ensures SameExcess(m, Put(m, p, WriteEnabled(Pte(m, p))))
  {
    var m' := Put(m, p, WriteEnabled(Pte(m, p)));
    UnprotectKeepsInv(m, base, p, m');
    forall q | IsPage(q) ensures Mapped(m', q) == Mapped(m, q) && MapsTo(m', q) == MapsTo(m, q) {
      assert q != p ==> Pte(m', q) == Pte(m, q);
    }
    forall f | IsFrame(f) ensures Excess(m', f) == Excess(m, f) {
      assert Refs(m', f) == Refs(m, f);
      SameTablesAreTables(m, m', f);
    }
  }

  lemma SourceMappedExcess(m: Mem, base: int, from: int, to: int)
    requires Inv(m, base) && CanShare(m, base, from, to)
    ensures SameExcess(m, SourceMapped(m, from))
  {
    SourcePrepares(m, base, from, to);
    if !Mapped(m, from) {
      NoPageExcess(m, base, from);
    }
  }

  lemma BeforeShareExcess(m: Mem, base: int, from: int, to: int)
    requires Inv(m, base) && CanShare(m, base, from, to)
    ensures SameExcess(m, BeforeShare(m, from, to))
  {
    SourcePrepares(m, base, from, to);
    SourceMappedExcess(m, base, from, to);
    TableExcess(SourceMapped(m, from), base, to);
    hide Excess, SourceMapped, TableFor, Inv, Preparing;
  }

  /** What is mapped at the target before the writes of share_page. */
  lemma TargetBefore(m: Mem, base: int, from: int, to: int)
    requires Inv(m, base) && CanShare(m, base, from, to)
    ensures Mapped(BeforeShare(m, from, to), to) <==> Mapped(m, to) || from == to
  {
    SharePrepares(m, base, from, to);
    assert to != from ==> SameEntry(m, BeforeShare(m, from, to), to);
    assert Mapped(m, from) ==> SameEntry(m, BeforeShare(m, from, to), from);
  }

  /** share_page keeps every count exact if and only if nothing is mapped at the
      target, and the target is not the source. */
  lemma SharePageExcess(m: Mem, base: int, from: int, to: int)
    requires Inv(m, base) && CanShare(m, base, from, to)
    ensures ExcessGrows(m, AfterShare(m, from, to))
    ensures SameExcess(m, AfterShare(m, from, to)) <==> !Mapped(m, to) && from != to
  {
    var n := BeforeShare(m, from, to);
    SharePrepares(m, base, from, to);
    PreparedIs(m, base, n, {from});
    MappedIsCounted(n, base, from);
    BeforeShareExcess(m, base, from, to);
    TargetBefore(m, base, from, to);
    ShareWritesShare(n, base, from, to);
    ShareExcess(n, base, from, to, AfterShare(m, from, to));
    hide Excess, ShareWrites, BeforeShare, Usable, Prepared, Inv;
  }
}
