/**
  share_multi_pages: shares of one page after the other, what they copy, and a
  test on the memory before them that suffices for all of them.
 */
module PageRanges {
  import opened Limits
  import opened Paging
  import opened PagingSteps
  import opened FrameAlloc
  import opened Faults
  import opened MemoryRuns

  /** n pages from `from` on are shared with those from `to` on, in order. */
  ghost function AfterShares(m: Mem, from: int, to: int, n: nat): (r: Mem)
    requires Sized(m) && 0 <= from && from + n <= PAGES && 0 <= to && to + n <= PAGES
    ensures Sized(r)
    decreases n
  {
    if n == 0 then m else AfterShare(AfterShares(m, from, to, n - 1), from + n - 1, to + n - 1)
  }

  /** Each share can be carried out when its turn comes. */
  ghost predicate CanShareRange(m: Mem, base: int, from: int, to: int, n: nat)
    requires Sized(m) && 0 <= from && from + n <= PAGES && 0 <= to && to + n <= PAGES
    decreases n
  {
    n == 0 ||
    (CanShareRange(m, base, from, to, n - 1)
        && CanShare(AfterShares(m, from, to, n - 1), base, from + n - 1, to + n - 1))
  }

  /** What page p shows after n pages were copied one after the other. */
  ghost function CopiedAt(ps: Contents, from: int, to: int, n: nat, p: int): Content
    decreases n
  {
    if n == 0 then At(ps, p) else
    if p != to + n - 1 then CopiedAt(ps, from, to, n - 1, p) else
    if from + n - 1 < USER then Image(from + n - 1) else CopiedAt(ps, from, to, n - 1, from + n - 1)
  }

  lemma {:induction false} SharesKeepInv(m: Mem, base: int, from: int, to: int, n: nat)
    requires Inv(m, base) && 0 <= from && from + n <= PAGES && 0 <= to && to + n <= PAGES
    requires CanShareRange(m, base, from, to, n)
    ensures Inv(AfterShares(m, from, to, n), base)
    decreases n
  {
    hide AfterShare, CanShare, TablesOk, LeavesOk, SoleWriter, CountsOk, IdentityWindow;
    if n > 0 {
      SharesKeepInv(m, base, from, to, n - 1);
      ShareKeepsAccounts(AfterShares(m, from, to, n - 1), base, from + n - 1, to + n - 1);
    }
  }

  /** The k-th share of a range that can be shared. */
  lemma {:induction false} TurnIsNext(m: Mem, base: int, from: int, to: int, n: nat, k: nat)
    requires Sized(m) && 0 <= from && from + n <= PAGES && 0 <= to && to + n <= PAGES
    requires CanShareRange(m, base, from, to, n) && k < n
    ensures CanShare(AfterShares(m, from, to, k), base, from + k, to + k)
    decreases n
  {
    hide CanShare, AfterShare;
    if k < n - 1 {
      TurnIsNext(m, base, from, to, n - 1, k);
    }
  }

  lemma ShareKeepsAccounts(m: Mem, base: int, from: int, to: int)
    requires Inv(m, base) && CanShare(m, base, from, to)
    ensures Inv(AfterShare(m, from, to), base)
  {
    SharePageShares(m, base, from, to);
  }

  lemma ShareShows(m: Mem, base: int, from: int, to: int, p: int)
    requires Inv(m, base) && CanShare(m, base, from, to) && IsUser(p)
    ensures PageOf(AfterShare(m, from, to), base, p) == if p == to then Source(m, base, from) else PageOf(m, base, p)
  {
    SharePageShares(m, base, from, to);
  }

  /** Sharing several pages shows what copying them one after the other shows. */
  lemma {:induction false} SharesCopy(m: Mem, base: int, from: int, to: int, n: nat, p: int)
    requires Inv(m, base) && 0 <= from && from + n <= PAGES && 0 <= to && to + n <= PAGES && IsUser(p)
    requires CanShareRange(m, base, from, to, n)
    ensures PageOf(AfterShares(m, from, to, n), base, p) == CopiedAt(Pages(m, base), from, to, n, p)
    decreases n
  {
    hide PageOf, Pages, AfterShare, CanShare, Usable;
    if n == 0 {
      assert At(Pages(m, base), p) == PageOf(m, base, p);
    } else {
      SharesKeepInv(m, base, from, to, n - 1);
      ShareShows(AfterShares(m, from, to, n - 1), base, from + n - 1, to + n - 1, p);
      SharesCopy(m, base, from, to, n - 1, p);
      if from + n - 1 >= USER {
        SharesCopy(m, base, from, to, n - 1, from + n - 1);
      }
    }
  }

  /** Page for page the target range shows the source range, and no other page
      changes; but where the source range runs into the target range, it copies
      what was copied there before. */
  lemma {:induction false} CopiedRange(ps: Contents, from: int, to: int, n: nat, p: int)
    requires from >= USER || from + n <= USER <= to
    ensures CopiedAt(ps, from, to, n, p) ==
              if !(to <= p < to + n) then At(ps, p)
              else if from < to <= p - to + from then CopiedAt(ps, from, to, n, p - to + from)
              else Copied(ps, p - to + from)
    decreases n
  {
    if n > 0 {
      CopiedRange(ps, from, to, n - 1, p);
      CopiedRange(ps, from, to, n - 1, from + n - 1);
    }
  }

  // ------------------------------------------------------ frames for all shares

  predicate Touches(d: int, from: int, n: nat) {
    n > 0 && from / 1024 <= d <= (from + n - 1) / 1024
  }

  ghost function MissingTables(m: Mem, from: int, to: int, n: nat): set<int>
    requires Sized(m)
  {
    set d | 0 <= d < 1024 && !HasTable(m, d) && (Touches(d, from, n) || Touches(d, to, n))
  }

  ghost function MissingPages(m: Mem, from: int, n: nat): set<int>
    requires Sized(m)
  {
    set p | USER <= p < PAGES && from <= p < from + n && !Mapped(m, p)
  }

  ghost function RangeNeed(m: Mem, from: int, to: int, n: nat): nat
    requires Sized(m)
  {
    |MissingTables(m, from, to, n)| + |MissingPages(m, from, n)|
  }

  /** The counts leave room for n shares of each frame behind the source range. */
  ghost predicate CountsLeaveRoom(m: Mem, from: int, n: nat)
    requires Sized(m) && 0 <= from && from + n <= PAGES
  {
    && (forall p :: from <= p < from + n && p < USER ==> m.cnt[p] < 255)
    && (forall p {:trigger Mapped(m, p)} ::
          from <= p < from + n && IsUser(p) && Mapped(m, p) && IsFrame(MapsTo(m, p)) ==>
          m.cnt[MapsTo(m, p)] + n <= 255)
    && (from + n > USER ==> n <= 254)
  }

  /** A usable frame for each page table and each page that is missing, and room
      in the counts. */
  ghost predicate Room(m: Mem, base: int, from: int, to: int, n: nat)
    requires Sized(m)
  {
    && 0 <= from && from + n <= PAGES && USER <= to && to + n <= PAGES
    && (from + n <= base <= FRAMES || from >= USER)
    && |Usable(m)| >= RangeNeed(m, from, to, n)
    && CountsLeaveRoom(m, from, n)
  }

  lemma DisjointSizes(a: set<int>, b: set<int>, c: set<int>)
    requires a <= c && b <= c && a !! b
    ensures |a| + |b| <= |c|
  {
    SubsetSize(a + b, c);
  }

  ghost function TablesHere(m: Mem, from: int, to: int): set<int>
    requires Sized(m) && IsPage(from) && IsPage(to)
  {
    set d | 0 <= d < 1024 && !HasTable(m, d) && (d == from / 1024 || d == to / 1024)
  }

  lemma TablesHereSize(m: Mem, from: int, to: int)
    requires Sized(m) && IsPage(from) && IsPage(to)
    ensures |TablesHere(m, from, to)| >= TableNeed(m, from) + (if to / 1024 == from / 1024 then 0 else TableNeed(m, to))
  {
    var d, e := from / 1024, to / 1024;
    if HasTable(m, d) || HasTable(m, e) || d == e {
      SubsetSize(if HasTable(m, d) then {} else {d}, TablesHere(m, from, to));
      SubsetSize(if HasTable(m, e) then {} else {e}, TablesHere(m, from, to));
    } else {
      assert TablesHere(m, from, to) == {d, e};
    }
  }

  lemma TablesShrink(m: Mem, from: int, to: int, n: nat, m': Mem)
    requires Sized(m) && Sized(m') && 0 < n && 0 <= from && from + n <= PAGES && 0 <= to && to + n <= PAGES
    requires HasTable(m', from / 1024) && HasTable(m', to / 1024)
    requires forall d :: 0 <= d < 1024 && HasTable(m, d) ==> HasTable(m', d)
    ensures |TablesHere(m, from, to)| + |MissingTables(m', from + 1, to + 1, n - 1)| <= |MissingTables(m, from, to, n)|
  {
    DisjointSizes(TablesHere(m, from, to), MissingTables(m', from + 1, to + 1, n - 1), MissingTables(m, from, to, n));
  }

  lemma PagesShrink(m: Mem, from: int, n: nat, m': Mem)
    requires Sized(m) && Sized(m') && 0 < n && 0 <= from && from + n <= PAGES
    requires Mapped(m', from)
    requires forall p {:trigger Mapped(m', p)} :: IsUser(p) && Mapped(m, p) ==> Mapped(m', p)
    ensures |MissingPages(m', from + 1, n - 1)| + (if from < USER || Mapped(m, from) then 0 else 1)
         <= |MissingPages(m, from, n)|
  {
    var here := if from < USER || Mapped(m, from) then {} else {from};
    DisjointSizes(here, MissingPages(m', from + 1, n - 1), MissingPages(m, from, n));
  }

  /** What the count of a page's frame is after a share: it counts as some page of
      the range did before, and at most one more. */
  lemma CountOfPage(m: Mem, base: int, from: int, to: int, n: nat, m': Mem, p: int)
    requires Inv(m, base) && Shared(m, base, from, to, m') && 0 < n && Room(m, base, from, to, n)
    requires from < p < from + n && IsUser(p) && Mapped(m', p) && IsFrame(MapsTo(m', p))
    ensures m'.cnt[MapsTo(m', p)] + (n - 1) <= 255
  {
    hide Usable, Need, OnePage, Monotone, Placed, TablesOk, LeavesOk, SoleWriter, CountsOk, IdentityWindow;
    var q := if p == to then from else p;
    assert MapsTo(m', p) == MapsTo(m', q);
    if q != from {
      assert SameEntry(m, m', q);
    }
    hide EntriesKept, SameEntry, Pte;
    assert Mapped(m, q) && IsUser(q) ==> MapsTo(m', q) == MapsTo(m, q) && m.cnt[MapsTo(m, q)] + n <= 255;
  }

  lemma ImageCounts(m: Mem, base: int, from: int, to: int, n: nat, m': Mem, p: int)
    requires Inv(m, base) && Shared(m, base, from, to, m') && 0 < n && Room(m, base, from, to, n)
    requires from < p < from + n && p < USER
    ensures m'.cnt[p] < 255
  {
    assert MapsTo(m', from) == from;
    assert m.cnt[p] >= 1;
  }

  lemma CountsStillLeaveRoom(m: Mem, base: int, from: int, to: int, n: nat, m': Mem)
    requires Inv(m, base) && Shared(m, base, from, to, m') && 0 < n && Room(m, base, from, to, n)
    ensures CountsLeaveRoom(m', from + 1, n - 1)
  {
    assert Sized(m');
    hide Shared, Usable, RangeNeed, Inv;
    forall p | from + 1 <= p < from + n && p < USER ensures m'.cnt[p] < 255 {
      ImageCounts(m, base, from, to, n, m', p);
    }
    forall p | from + 1 <= p < from + n && IsUser(p) && Mapped(m', p) && IsFrame(MapsTo(m', p))
      ensures m'.cnt[MapsTo(m', p)] + (n - 1) <= 255
    {
      CountOfPage(m, base, from, to, n, m', p);
    }
  }

  lemma RoomForOne(m: Mem, base: int, from: int, to: int, n: nat)
    requires Inv(m, base) && 0 < n && Room(m, base, from, to, n)
    ensures CanShare(m, base, from, to)
  {
    TablesHereSize(m, from, to);
    SubsetSize(TablesHere(m, from, to), MissingTables(m, from, to, n));
    SubsetSize(if from < USER || Mapped(m, from) then {} else {from}, MissingPages(m, from, n));
  }

  lemma SharedStaysMapped(m: Mem, base: int, from: int, to: int, m': Mem)
    requires Shared(m, base, from, to, m')
    ensures forall p {:trigger Mapped(m', p)} :: IsUser(p) && Mapped(m, p) ==> Mapped(m', p)
    ensures HasTable(m', from / 1024) && HasTable(m', to / 1024)
  {
    hide Usable, CountsOneMore, Need, OnePage, TablesOk, LeavesOk, SoleWriter, CountsOk, IdentityWindow;
    forall p | IsUser(p) && Mapped(m, p) ensures Mapped(m', p) {
      assert p != from && p != to ==> SameEntry(m, m', p);
    }
  }

  /** One share takes no more than it removes from what its range is missing. */
  lemma ShareTakes(m: Mem, base: int, from: int, to: int, n: nat)
    requires Inv(m, base) && 0 < n && 0 <= from && from + n <= PAGES && 0 <= to && to + n <= PAGES
    requires CanShare(m, base, from, to)
    ensures Shared(m, base, from, to, AfterShare(m, from, to))
    ensures var m' := AfterShare(m, from, to);
            |Usable(m)| - RangeNeed(m, from, to, n) <= |Usable(m')| - RangeNeed(m', from + 1, to + 1, n - 1)
  {
    hide AfterShare, MissingTables, MissingPages, TablesHere, Usable;
    var m' := AfterShare(m, from, to);
    SharePageShares(m, base, from, to);
    SharedStaysMapped(m, base, from, to, m');
    TablesHereSize(m, from, to);
    TablesShrink(m, from, to, n, m');
    PagesShrink(m, from, n, m');
  }

  lemma RoomForRest(m: Mem, base: int, from: int, to: int, n: nat)
    requires Inv(m, base) && 0 < n && Room(m, base, from, to, n)
    ensures CanShare(m, base, from, to)
    ensures Inv(AfterShare(m, from, to), base) && Room(AfterShare(m, from, to), base, from + 1, to + 1, n - 1)
  {
    hide AfterShare, RangeNeed, CountsLeaveRoom, Usable;
    RoomForOne(m, base, from, to, n);
    ShareTakes(m, base, from, to, n);
    CountsStillLeaveRoom(m, base, from, to, n, AfterShare(m, from, to));
  }

  lemma {:induction false} RoomLasts(m: Mem, base: int, from: int, to: int, n: nat, k: nat)
    requires Inv(m, base) && Room(m, base, from, to, n) && k <= n
    ensures Inv(AfterShares(m, from, to, k), base)
    ensures Room(AfterShares(m, from, to, k), base, from + k, to + k, n - k)
    decreases k
  {
    hide AfterShare, CountsLeaveRoom, Usable, RangeNeed;
    if k > 0 {
      RoomLasts(m, base, from, to, n, k - 1);
      RoomForRest(AfterShares(m, from, to, k - 1), base, from + k - 1, to + k - 1, n - k + 1);
    }
  }

  /** As many usable frames as page tables and pages are missing, and room in the
      counts, are enough for all the shares. */
  lemma {:induction false} RoomIsEnough(m: Mem, base: int, from: int, to: int, n: nat, k: nat)
    requires Inv(m, base) && Room(m, base, from, to, n) && k <= n
    ensures CanShareRange(m, base, from, to, k)
    decreases k
  {
    hide AfterShare, CanShare, TablesOk, LeavesOk, SoleWriter, CountsOk, IdentityWindow;
    hide CountsLeaveRoom, Usable, RangeNeed;
    if k > 0 {
      RoomIsEnough(m, base, from, to, n, k - 1);
      RoomLasts(m, base, from, to, n, k - 1);
      RoomForOne(AfterShares(m, from, to, k - 1), base, from + k - 1, to + k - 1, n - k + 1);
    }
  }

  lemma {:induction false} SharesTakeUpTo(m: Mem, base: int, from: int, to: int, n: nat, k: nat)
    requires Inv(m, base) && 0 <= from && from + n <= PAGES && 0 <= to && to + n <= PAGES && k <= n
    requires CanShareRange(m, base, from, to, n)
    ensures Inv(AfterShares(m, from, to, k), base)
    ensures |Usable(m)| - RangeNeed(m, from, to, n) <=
              |Usable(AfterShares(m, from, to, k))| - RangeNeed(AfterShares(m, from, to, k), from + k, to + k, n - k)
    decreases k
  {
    hide AfterShare, CanShare, Usable, RangeNeed, TablesOk, LeavesOk, SoleWriter, CountsOk, IdentityWindow;
    if k > 0 {
      SharesTakeUpTo(m, base, from, to, n, k - 1);
      TurnIsNext(m, base, from, to, n, k - 1);
      ShareTakesInv(AfterShares(m, from, to, k - 1), base, from + k - 1, to + k - 1, n - k + 1);
    }
  }

  lemma ShareTakesInv(m: Mem, base: int, from: int, to: int, n: nat)
    requires Inv(m, base) && 0 < n && 0 <= from && from + n <= PAGES && 0 <= to && to + n <= PAGES
    requires CanShare(m, base, from, to)
    ensures var m' := AfterShare(m, from, to);
            && Inv(m', base)
            && |Usable(m)| - RangeNeed(m, from, to, n) <= |Usable(m')| - RangeNeed(m', from + 1, to + 1, n - 1)
  {
    hide AfterShare, CanShare, Usable, RangeNeed;
    ShareTakes(m, base, from, to, n);
  }

  /** Sharing a range takes at most one usable frame for each page table and each
      source page that is missing. */
  lemma SharesTake(m: Mem, base: int, from: int, to: int, n: nat)
    requires Inv(m, base) && 0 <= from && from + n <= PAGES && 0 <= to && to + n <= PAGES
    requires CanShareRange(m, base, from, to, n)
    ensures |Usable(AfterShares(m, from, to, n))| >= |Usable(m)| - RangeNeed(m, from, to, n)
  {
    hide Usable, AfterShares;
    SharesTakeUpTo(m, base, from, to, n, n);
  }

  /** The share of every process: the first 640 KB, which the boot code has mapped,
      at the start of the process's segment.  One usable frame is enough. */
  lemma ImageFits(m: Mem, base: int, i: int)
    requires Inv(m, base) && 1 <= i < NR_PROCS
    requires !Stuck(m) && forall f :: 0 <= f < 160 ==> m.cnt[f] < 255
    ensures CanShareRange(m, base, 0, i * USER, 160)
  {
    assert MissingPages(m, 0, 160) == {};
    assert forall d :: d in MissingTables(m, 0, i * USER, 160) ==> d == 16 * i by {
      assert i * USER / 1024 == 16 * i && (i * USER + 159) / 1024 == 16 * i;
    }
    SubsetSize(MissingTables(m, 0, i * USER, 160), {16 * i});
    assert |Usable(m)| > 0;
    RoomIsEnough(m, base, 0, i * USER, 160, 160);
  }
}
