/**
  The machine state the page manager works on, as a value: physical memory
  (frames of 1024 words, page tables included) and the usage count of each
  frame.  Two-level 32-bit paging as in section 4.3 of volume 3A of the Intel
  64 and IA-32 Architectures Software Developer's Manual; words are non-negative
  integers, and the bit operations of the source are written as arithmetic.
 */
module Paging {

  const FRAMES := 16384      // 64 MB of physical memory
  const PAGES := 1048576     // linear pages of a 4 GB space
  const USER := 16384        // first linear page at or above 64 MB
  const PAGING_MEMORY := 0x4000000
  const BOOT_PAGES := 8192   // pages the boot code maps: the first 32 MB
  const BOOT_TABLES := 8     // page tables it makes for them
  const DIR := 7             // the page directory occupies physical frame 7

  // ---------------------------------------------------------------- entries

  predicate Present(e: int) {
    e % 2 == 1
  }

  predicate Writable(e: int) {
    (e / 2) % 2 == 1
  }

  /** User mode may use the entry. */
  predicate User(e: int) {
    (e / 4) % 2 == 1
  }

  function FrameOf(e: int): int {
    e / 4096
  }

  lemma MulFromOne(k: int, t: int)
    requires k > 0
    ensures t >= 1 ==> k * t >= k
    ensures t <= -1 ==> k * t <= -k
  {
  }

  lemma Divide(e: int, k: int, q: int, r: int)
    requires 0 <= r < k && e == k * q + r
    ensures e / k == q && e % k == r
  {
    var t := e / k - q;
    assert k * t == k * (e / k) - k * q;
    MulFromOne(k, t);
    assert t == 0;
  }

  /** `frame | 7`: present, writable, user. */
  function Entry(f: int): (e: int)
    ensures Present(e) && Writable(e) && FrameOf(e) == f
  {
    Divide(f * 4096 + 7, 4096, f, 7);
    Divide(f * 4096 + 7, 2, f * 2048 + 3, 1);
    Divide(f * 2048 + 3, 2, f * 1024 + 1, 1);
    f * 4096 + 7
  }

  /** Of the twelve low bits an entry sets these three alone. */
  lemma EntryBits(f: int)
    ensures Present(Entry(f)) && Writable(Entry(f)) && User(Entry(f)) && Entry(f) % 4096 / 8 == 0
  {
    Divide(f * 4096 + 7, 4096, f, 7);
    Divide(f * 4096 + 7, 4, f * 1024 + 1, 3);
    Divide(f * 1024 + 1, 2, f * 512, 1);
  }

  /** Words 4n, 4n + 1, 4n + 2 and 4n + 3 differ only in their two low bits. */
  lemma LowBits(e: int)
    ensures Writable(e) ==> !Writable(e - 2) && Present(e - 2) == Present(e) && FrameOf(e - 2) == FrameOf(e)
    ensures !Writable(e) ==> Writable(e + 2) && Present(e + 2) == Present(e) && FrameOf(e + 2) == FrameOf(e)
  {
    var q := e / 4;
    var r := e % 4;
    Divide(e, 2, 2 * q + r / 2, r % 2);
    Divide(e / 2, 2, q, r / 2);
    Divide(e, 4096, q / 1024, 4 * (q % 1024) + r);
    if r >= 2 {
      Divide(e - 2, 2, 2 * q, r - 2);
      Divide(2 * q, 2, q, 0);
      Divide(e - 2, 4096, q / 1024, 4 * (q % 1024) + r - 2);
    } else {
      Divide(e + 2, 2, 2 * q + 1, r);
      Divide(2 * q + 1, 2, q, 1);
      Divide(e + 2, 4096, q / 1024, 4 * (q % 1024) + r + 2);
    }
  }

  /** `e & ~2` */
  function ReadOnly(e: int): (r: int)
    ensures !Writable(r) && Present(r) == Present(e) && FrameOf(r) == FrameOf(e)
  {
    LowBits(e);
    if Writable(e) then e - 2 else e
  }

  /** `e | 2` */
  function WriteEnabled(e: int): (r: int)
    ensures Writable(r) && Present(r) == Present(e) && FrameOf(r) == FrameOf(e)
  {
    LowBits(e);
    if Writable(e) then e else e + 2
  }

  /** Both change the writable bit alone. */
  lemma OnlyWritableChanges(e: int)
    ensures ReadOnly(e) / 4 == e / 4 && ReadOnly(e) % 2 == e % 2
    ensures WriteEnabled(e) / 4 == e / 4 && WriteEnabled(e) % 2 == e % 2
    ensures User(ReadOnly(e)) == User(e) && User(WriteEnabled(e)) == User(e)
  {
    Divide(e, 4, e / 4, e % 4);
    if e % 4 >= 2 {
      Divide(e, 2, 2 * (e / 4) + 1, e % 4 - 2);
      Divide(2 * (e / 4) + 1, 2, e / 4, 1);
      Divide(e - 2, 4, e / 4, e % 4 - 2);
    } else {
      Divide(e, 2, 2 * (e / 4), e % 4);
      Divide(2 * (e / 4), 2, e / 4, 0);
      Divide(e + 2, 4, e / 4, e % 4 + 2);
    }
  }

  // ------------------------------------------------------------------ state

  datatype Mem = Mem(phys: seq<seq<int>>, cnt: seq<int>)

  predicate IsPage(p: int) {
    0 <= p < PAGES
  }

  predicate IsUser(p: int) {
    USER <= p < PAGES
  }

  predicate IsFrame(f: int) {
    0 <= f < FRAMES
  }

  ghost predicate Sized(m: Mem) {
    && |m.phys| == FRAMES
    && |m.cnt| == FRAMES
    && (forall f :: 0 <= f < FRAMES ==> |m.phys[f]| == 1024)
    && (forall f :: 0 <= f < FRAMES ==> 0 <= m.cnt[f] < 256)
  }

  ghost predicate HasTable(m: Mem, d: int)
    requires Sized(m) && 0 <= d < 1024
  {
    Present(m.phys[DIR][d])
  }

  ghost function Table(m: Mem, d: int): int
    requires Sized(m) && 0 <= d < 1024
  {
    FrameOf(m.phys[DIR][d])
  }

  ghost predicate IsTable(m: Mem, f: int)
    requires Sized(m)
  {
    exists d :: 0 <= d < 1024 && HasTable(m, d) && Table(m, d) == f
  }

  /** The page-table entry of linear page p; 0 (not present) without a table. */
  ghost function Pte(m: Mem, p: int): int
    requires Sized(m) && IsPage(p)
  {
    if HasTable(m, p / 1024) && IsFrame(Table(m, p / 1024))
    then m.phys[Table(m, p / 1024)][p % 1024]
    else 0
  }

  ghost predicate Mapped(m: Mem, p: int)
    requires Sized(m) && IsPage(p)
  {
    Present(Pte(m, p))
  }

  ghost function MapsTo(m: Mem, p: int): int
    requires Sized(m) && IsPage(p)
  {
    FrameOf(Pte(m, p))
  }

  /** The user pages mapped to frame f. */
  ghost function Refs(m: Mem, f: int): set<int>
    requires Sized(m)
  {
    set p | USER <= p < PAGES && Mapped(m, p) && MapsTo(m, p) == f
  }

  function Zeros(): (z: seq<int>)
    ensures |z| == 1024 && forall i :: 0 <= i < 1024 ==> z[i] == 0
  {
    seq(1024, i => 0)
  }

  // -------------------------------------------------------------- invariant

  /** Page tables: in range, in use, distinct, never the directory itself. */
  ghost predicate TablesOk(m: Mem, base: int)
    requires Sized(m)
  {
    && (forall d :: 0 <= d < 1024 && HasTable(m, d) ==>
          IsFrame(Table(m, d)) && Table(m, d) != DIR && m.cnt[Table(m, d)] >= 1 &&
          (d >= 16 ==> Table(m, d) >= base))
    && (forall d, d' :: 0 <= d < 1024 && 0 <= d' < 1024 && d != d' && HasTable(m, d) && HasTable(m, d') ==>
          Table(m, d) != Table(m, d'))
  }

  /** Every present user entry names a frame; below main memory it is
      read-only, in main memory it is not a page table. */
  ghost predicate LeavesOk(m: Mem, base: int)
    requires Sized(m)
  {
    forall p {:trigger Pte(m, p)} {:trigger Mapped(m, p)} :: IsUser(p) && Mapped(m, p) ==>
      && IsFrame(MapsTo(m, p))
      && (MapsTo(m, p) < base ==> !Writable(Pte(m, p)))
      && (MapsTo(m, p) >= base ==> !IsTable(m, MapsTo(m, p)))
  }

  /** A writable user entry is the only user entry of its frame. */
  ghost predicate SoleWriter(m: Mem)
    requires Sized(m)
  {
    forall p {:trigger Pte(m, p)} {:trigger Mapped(m, p)} :: IsUser(p) && Mapped(m, p) && Writable(Pte(m, p)) ==>
      Refs(m, MapsTo(m, p)) == {p}
  }

  /** mem_map bounds the number of user entries of each frame, with one more
      for a frame below main memory. */
  ghost predicate CountsOk(m: Mem, base: int)
    requires Sized(m)
  {
    forall f :: 0 <= f < FRAMES ==> m.cnt[f] >= |Refs(m, f)| + (if f < base then 1 else 0)
  }

  /** Present entries below 64 MB map each page to the frame of the same number. */
  ghost predicate IdentityWindow(m: Mem)
    requires Sized(m)
  {
    forall p {:trigger Pte(m, p)} {:trigger Mapped(m, p)} :: 0 <= p < USER && Mapped(m, p) ==> MapsTo(m, p) == p
  }

  /** The one frame of each 4 MB region, `(i & 0x3FF) == 0x3FD`, before whose
      allocation get_free_page creates the page table of its region. */
  function Trigger(d: int): (i: int)
    ensures i % 1024 == 1021 && i / 1024 == d
  {
    d * 1024 + 1021
  }

  /** The page tables of the boot code stay.  No frame of a region without a page
      table is ever handed out: its first frame is free when its trigger frame is. */
  ghost predicate Placed(m: Mem)
    requires Sized(m)
  {
    && (forall d :: 0 <= d < BOOT_TABLES ==> HasTable(m, d))
    && (forall d {:trigger HasTable(m, d)} ::
          BOOT_TABLES <= d < 16 && !HasTable(m, d) && m.cnt[Trigger(d)] == 0 ==> m.cnt[d * 1024] == 0)
  }

  /** Main memory begins inside the memory that the boot code maps. */
  ghost predicate Inv(m: Mem, base: int) {
    && 256 <= base <= BOOT_PAGES
    && Sized(m)
    && Placed(m)
    && TablesOk(m, base)
    && LeavesOk(m, base)
    && SoleWriter(m)
    && CountsOk(m, base)
    && IdentityWindow(m)
  }

  // --------------------------------------------------- what a process sees

  /** The contents of a user page: words of its own (zero while unmapped), or
      a read-only window onto a frame of the kernel image. */
  datatype Content = Own(words: seq<int>) | Image(frame: int)

  ghost function PageOf(m: Mem, base: int, p: int): Content
    requires Sized(m) && IsPage(p)
  {
    if !Mapped(m, p) then Own(Zeros())
    else if base <= MapsTo(m, p) && IsFrame(MapsTo(m, p)) then Own(m.phys[MapsTo(m, p)])
    else Image(MapsTo(m, p))
  }

  /** Every user page shows the same in m' as in m. */
  ghost predicate SamePages(m: Mem, base: int, m': Mem)
    requires Sized(m) && Sized(m')
  {
    forall q {:trigger PageOf(m', base, q)} :: IsUser(q) ==> PageOf(m', base, q) == PageOf(m, base, q)
  }

  /** Page p shows c in m'; every other user page shows the same as in m. */
  ghost predicate OnePage(m: Mem, base: int, m': Mem, p: int, c: Content)
    requires Sized(m) && Sized(m')
  {
    forall q {:trigger PageOf(m', base, q)} :: IsUser(q) ==>
        PageOf(m', base, q) == if q == p then c else PageOf(m, base, q)
  }

  ghost function Free(m: Mem): set<int>
    requires Sized(m)
  {
    set f | 0 <= f < FRAMES && m.cnt[f] == 0
  }

  // ------------------------------------------------------ consequences of Inv

  lemma SubsetSize<T>(a: set<T>, b: set<T>)
    requires a <= b
    ensures |a| <= |b|
  {
    assert b == a + (b - a);
  }

  /** A frame nobody counts is mapped by no user page and is no page table. */
  lemma FreeFrameIsUnused(m: Mem, base: int, f: int)
    requires Inv(m, base) && IsFrame(f) && m.cnt[f] == 0
    ensures f >= base && !IsTable(m, f) && Refs(m, f) == {}
  {
    assert m.cnt[f] >= |Refs(m, f)| + (if f < base then 1 else 0);
  }

  /** A frame counted once in main memory has at most one user entry. */
  lemma CountOneIsPrivate(m: Mem, base: int, p: int)
    requires Inv(m, base) && IsUser(p) && Mapped(m, p) && m.cnt[MapsTo(m, p)] == 1
    ensures MapsTo(m, p) >= base && Refs(m, MapsTo(m, p)) == {p}
  {
    var f := MapsTo(m, p);
    assert p in Refs(m, f);
    assert m.cnt[f] >= |Refs(m, f)| + (if f < base then 1 else 0);
    assert |{p}| == 1;
    assert Refs(m, f) == {p} by {
      assert |Refs(m, f) - {p}| == |Refs(m, f)| - 1;
    }
  }
}
