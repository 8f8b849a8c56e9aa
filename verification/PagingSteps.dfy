/**
  What single writes to a page table, the directory, a data frame or mem_map do
  to the invariant of Paging and to the contents processes see.
 */
module PagingSteps {
  import opened Paging

  function SetWord(m: Mem, f: int, i: int, w: int): Mem
    requires 0 <= f < |m.phys| && 0 <= i < |m.phys[f]|
  {
    m.(phys := m.phys[f := m.phys[f][i := w]])
  }

  function SetFrame(m: Mem, f: int, ws: seq<int>): Mem
    requires 0 <= f < |m.phys|
  {
    m.(phys := m.phys[f := ws])
  }

  function SetCnt(m: Mem, f: int, c: int): Mem
    requires 0 <= f < |m.cnt|
  {
    m.(cnt := m.cnt[f := c])
  }

  ghost function SetPte(m: Mem, p: int, e: int): Mem
    requires Sized(m) && IsPage(p) && HasTable(m, p / 1024) && IsFrame(Table(m, p / 1024))
  {
    SetWord(m, Table(m, p / 1024), p % 1024, e)
  }

  /** Writing the entry of page p, where its page table is. */
  ghost function Put(m: Mem, p: int, e: int): (n: Mem)
    requires Sized(m) && IsPage(p)
    ensures Sized(n)
  {
    if HasTable(m, p / 1024) && IsFrame(Table(m, p / 1024)) then SetPte(m, p, e) else m
  }

  ghost predicate SameTables(m: Mem, m': Mem) {
    && Sized(m) && Sized(m')
    && (forall d :: 0 <= d < 1024 ==> HasTable(m', d) == HasTable(m, d) && Table(m', d) == Table(m, d))
  }

  /** The user entries other than p's are those of m (an absent entry may
      differ in its ignored bits). */
  ghost predicate SameUserEntries(m: Mem, m': Mem, changed: set<int>) {
    && Sized(m) && Sized(m')
    && (forall p {:trigger Pte(m', p)} {:trigger Pte(m, p)} :: IsUser(p) && p !in changed ==>
          Pte(m', p) == Pte(m, p) || (!Mapped(m', p) && !Mapped(m, p)))
  }

  /** A frame in main memory that nothing maps and that is no page table. */
  ghost predicate Unused(m: Mem, base: int, f: int) {
    Sized(m) && base <= f < FRAMES && Refs(m, f) == {} && !IsTable(m, f)
  }

  lemma RefsUnchanged(m: Mem, m': Mem)
    requires SameUserEntries(m, m', {})
    ensures forall f :: Refs(m', f) == Refs(m, f)
  {
    forall f ensures Refs(m', f) == Refs(m, f) {
      forall p | IsUser(p) ensures p in Refs(m', f) <==> p in Refs(m, f) {
        assert Pte(m', p) == Pte(m, p) || (!Mapped(m', p) && !Mapped(m, p));
      }
    }
  }

  // ------------------------------------------------------------- data frames

  lemma EntriesUnchanged(m: Mem, m': Mem, base: int)
    requires Inv(m, base) && Sized(m')
    requires m'.phys[DIR] == m.phys[DIR]
    requires forall f :: 0 <= f < FRAMES && IsTable(m, f) ==> m'.phys[f] == m.phys[f]
    ensures SameTables(m, m')
    ensures forall p :: IsPage(p) ==> Pte(m', p) == Pte(m, p)
    ensures forall f :: Refs(m', f) == Refs(m, f)
    ensures forall f :: IsTable(m', f) == IsTable(m, f)
  {
    forall p | IsPage(p) ensures Pte(m', p) == Pte(m, p) {
      var d := p / 1024;
      if HasTable(m, d) {
        assert IsTable(m, Table(m, d));
      }
    }
    RefsUnchanged(m, m');
  }

  /** Writing data frames and counts keeps the invariant as long as no count
      drops below what is mapped. */
  lemma DataKeepsInv(m: Mem, m': Mem, base: int)
    requires Inv(m, base) && Sized(m')
    requires m'.phys[DIR] == m.phys[DIR]
    requires forall f :: 0 <= f < FRAMES && IsTable(m, f) ==> m'.phys[f] == m.phys[f]
    requires forall f :: 0 <= f < FRAMES ==> m'.cnt[f] >= m.cnt[f] || Unused(m, base, f)
    requires forall f :: 0 <= f < FRAMES ==> (m'.cnt[f] == 0) == (m.cnt[f] == 0) || HasTable(m, f / 1024)
    ensures Inv(m', base) && SameTables(m, m')
    ensures forall p :: IsPage(p) ==> Pte(m', p) == Pte(m, p)
    ensures forall f :: Refs(m', f) == Refs(m, f)
    ensures forall f :: IsTable(m', f) == IsTable(m, f)
  {
    EntriesUnchanged(m, m', base);
    forall d | 0 <= d < 1024 && HasTable(m, d) ensures m'.cnt[Table(m, d)] >= 1 {
      assert IsTable(m, Table(m, d));
    }
  }

  // -------------------------------------------------------- directory entries

  lemma InstallTable(m: Mem, base: int, d: int, t: int, m': Mem)
    requires Inv(m, base) && 0 <= d < 1024 && Unused(m, base, t)
    requires m.phys[t] == Zeros() && m.cnt[t] >= 1
    requires !HasTable(m, d)
    requires m' == SetWord(m, DIR, d, Entry(t))
    ensures Inv(m', base)
    ensures HasTable(m', d) && Table(m', d) == t
    ensures forall e :: 0 <= e < 1024 && e != d ==> HasTable(m', e) == HasTable(m, e) && Table(m', e) == Table(m, e)
    ensures forall p :: IsPage(p) ==> Pte(m', p) == Pte(m, p)
    ensures forall f :: Refs(m', f) == Refs(m, f)
    ensures forall f :: IsTable(m', f) <==> IsTable(m, f) || f == t
  {
    InstallTableDirectory(m, base, d, t, m');
    InstallTableEntries(m, base, d, t, m');
    RefsUnchanged(m, m');
    forall p | IsUser(p) && Mapped(m', p)
      ensures MapsTo(m', p) != t && Pte(m', p) == Pte(m, p)
    {
      assert p in Refs(m', MapsTo(m', p));
    }
  }

  lemma InstallTableDirectory(m: Mem, base: int, d: int, t: int, m': Mem)
    requires Inv(m, base) && 0 <= d < 1024 && Unused(m, base, t) && m.cnt[t] >= 1
    requires !HasTable(m, d)
    requires m' == SetWord(m, DIR, d, Entry(t))
    ensures Sized(m') && TablesOk(m', base)
    ensures HasTable(m', d) && Table(m', d) == t
    ensures forall e :: 0 <= e < 1024 && e != d ==> HasTable(m', e) == HasTable(m, e) && Table(m', e) == Table(m, e)
    ensures forall f :: IsTable(m', f) <==> IsTable(m, f) || f == t
  {
    hide LeavesOk, SoleWriter, CountsOk, IdentityWindow, Refs, Pte;
    forall e | 0 <= e < 1024 && e != d
      ensures HasTable(m', e) == HasTable(m, e) && Table(m', e) == Table(m, e)
    {
      assert m'.phys[DIR][e] == m.phys[DIR][e];
    }
    forall e | 0 <= e < 1024 && HasTable(m, e) ensures Table(m, e) != t {
      assert IsTable(m, Table(m, e));
    }
    forall f | IsTable(m', f) ensures IsTable(m, f) || f == t {
      var e :| 0 <= e < 1024 && HasTable(m', e) && Table(m', e) == f;
      assert e != d ==> HasTable(m, e) && Table(m, e) == f;
    }
    forall f | IsTable(m, f) ensures IsTable(m', f) {
      var e :| 0 <= e < 1024 && HasTable(m, e) && Table(m, e) == f;
      assert HasTable(m', e) && Table(m', e) == f;
    }
    assert HasTable(m', d) && Table(m', d) == t;
  }

  lemma InstallTableEntries(m: Mem, base: int, d: int, t: int, m': Mem)
    requires Inv(m, base) && 0 <= d < 1024 && base <= t < FRAMES && m.phys[t] == Zeros() && !HasTable(m, d)
    requires m' == SetWord(m, DIR, d, Entry(t))
    ensures forall p :: IsPage(p) ==> Pte(m', p) == Pte(m, p)
  {
    forall p | IsPage(p) ensures Pte(m', p) == Pte(m, p) {
      var e := p / 1024;
      if e == d {
        assert m'.phys[t] == Zeros();
      } else {
        assert m'.phys[DIR][e] == m.phys[DIR][e];
      }
    }
  }

  // --------------------------------------------------------- page-table entries

  /** Writing one word of a page table changes that entry and no other. */
  lemma TableWrite(m: Mem, base: int, p: int, e: int, m': Mem)
    requires Sized(m) && TablesOk(m, base) && IsPage(p) && HasTable(m, p / 1024)
    requires m' == SetPte(m, p, e)
    ensures SameTables(m, m') && m'.cnt == m.cnt && TablesOk(m', base)
    ensures forall q :: IsPage(q) ==> Pte(m', q) == if q == p then e else Pte(m, q)
    ensures forall f :: IsTable(m', f) == IsTable(m, f)
    ensures forall f :: 0 <= f < FRAMES && !IsTable(m, f) ==> m'.phys[f] == m.phys[f]
  {
    var t := Table(m, p / 1024);
    assert IsTable(m, t);
    assert m'.phys[DIR] == m.phys[DIR];
    forall q | IsPage(q) ensures Pte(m', q) == if q == p then e else Pte(m, q) {
      var d := q / 1024;
      if d != p / 1024 && HasTable(m, d) {
        assert Table(m, d) != t;
      }
      if d == p / 1024 && q != p {
        assert q % 1024 != p % 1024;
      }
    }
  }

  /** The invariant after one user entry changes, from what the new entry is. */
  lemma RemapKeepsInv(m: Mem, base: int, p: int, m': Mem)
    requires Inv(m, base) && IsUser(p) && Sized(m') && SameTables(m, m')
    requires forall q :: IsPage(q) && q != p ==> Pte(m', q) == Pte(m, q)
    requires Mapped(m', p)
    requires Unused(m, base, MapsTo(m', p)) && m.cnt[MapsTo(m', p)] >= 1
    requires m'.cnt == m.cnt
    ensures Inv(m', base)
    ensures forall f :: f != MapsTo(m', p) ==> Refs(m', f) == Refs(m, f) - {p}
    ensures Refs(m', MapsTo(m', p)) == {p}
  {
    RemapRefs(m, base, p, m');
    RemapLeaves(m, base, p, m');
    forall f | 0 <= f < FRAMES ensures m'.cnt[f] >= |Refs(m', f)| + (if f < base then 1 else 0) {
      if f != MapsTo(m', p) {
        SubsetSize(Refs(m', f), Refs(m, f));
      }
    }
  }

  lemma RemapLeaves(m: Mem, base: int, p: int, m': Mem)
    requires Inv(m, base) && IsUser(p) && Sized(m') && SameTables(m, m')
    requires forall q :: IsPage(q) && q != p ==> Pte(m', q) == Pte(m, q)
    requires Mapped(m', p) && Unused(m, base, MapsTo(m', p))
    requires forall f :: f != MapsTo(m', p) ==> Refs(m', f) == Refs(m, f) - {p}
    requires Refs(m', MapsTo(m', p)) == {p}
    ensures LeavesOk(m', base) && SoleWriter(m') && IdentityWindow(m')
  {
    assert forall f :: IsTable(m', f) == IsTable(m, f);
    forall q | IsUser(q) && q != p && Mapped(m', q)
      ensures Pte(m', q) == Pte(m, q) && MapsTo(m', q) != MapsTo(m', p)
    {
      assert q in Refs(m', MapsTo(m', q));
    }
  }

  lemma RemapRefs(m: Mem, base: int, p: int, m': Mem)
    requires Sized(m) && IsUser(p) && Sized(m')
    requires forall q :: IsPage(q) && q != p ==> Pte(m', q) == Pte(m, q)
    requires Mapped(m', p) && Unused(m, base, MapsTo(m', p))
    ensures forall f :: f != MapsTo(m', p) ==> Refs(m', f) == Refs(m, f) - {p}
    ensures Refs(m', MapsTo(m', p)) == {p}
  {
    var r := MapsTo(m', p);
    forall q | IsUser(q) && q != p && Mapped(m, q) ensures MapsTo(m, q) != r {
      assert q in Refs(m, MapsTo(m, q));
    }
    forall f ensures f != r ==> Refs(m', f) == Refs(m, f) - {p} {
    }
  }

  lemma PagesAfterRemap(m: Mem, base: int, p: int, m': Mem)
    requires Inv(m, base) && IsUser(p) && Sized(m')
    requires forall q :: IsPage(q) && q != p ==> Pte(m', q) == Pte(m, q)
    requires forall f :: base <= f < FRAMES && !IsTable(m, f) ==> m'.phys[f] == m.phys[f]
    ensures OnePage(m, base, m', p, PageOf(m', base, p))
  {
    forall q | IsUser(q) && q != p ensures PageOf(m', base, q) == PageOf(m, base, q) {
      assert Pte(m', q) == Pte(m, q);
    }
  }

  /** Point user page p at an unused frame, writable.  This is a demand-zero
      mapping when p had no page, and a private copy when it had one. */
  lemma MapPrivate(m: Mem, base: int, p: int, r: int, m': Mem)
    requires Inv(m, base) && IsUser(p) && HasTable(m, p / 1024)
    requires Unused(m, base, r) && m.cnt[r] >= 1
    requires m' == SetPte(m, p, Entry(r))
    ensures Inv(m', base)
    ensures forall q :: IsPage(q) ==> Pte(m', q) == if q == p then Entry(r) else Pte(m, q)
    ensures forall f :: f != r ==> Refs(m', f) == Refs(m, f) - {p}
    ensures OnePage(m, base, m', p, Own(m.phys[r]))
    ensures SameTables(m, m') && forall f :: IsTable(m', f) == IsTable(m, f)
  {
    TableWrite(m, base, p, Entry(r), m');
    RemapKeepsInv(m, base, p, m');
    PagesAfterRemap(m, base, p, m');
  }

  // ------------------------------------------------------------------ sharing

  /** What share_page leaves behind: one more count on the frame, both entries
      read-only (an entry below 64 MB is left as it is). */
  ghost predicate SharedTo(m: Mem, from: int, to: int, m': Mem) {
    && Sized(m) && IsPage(from) && IsUser(to) && Mapped(m, from) && IsFrame(MapsTo(m, from))
    && SameTables(m, m')
    && m'.cnt == m.cnt[MapsTo(m, from) := m.cnt[MapsTo(m, from)] + 1]
    && Pte(m', to) == ReadOnly(Pte(m, from))
    && (from >= USER ==> Pte(m', from) == ReadOnly(Pte(m, from)))
    && (forall q {:trigger Pte(m', q)} {:trigger Pte(m, q)} :: IsPage(q) && q != to && (q != from || q < USER) ==>
        Pte(m', q) == Pte(m, q))
  }

  lemma ShareRefs(m: Mem, from: int, to: int, m': Mem)
    requires SharedTo(m, from, to, m')
    ensures forall g :: g != MapsTo(m, from) ==> Refs(m', g) == Refs(m, g) - {to}
    ensures Refs(m', MapsTo(m, from)) == Refs(m, MapsTo(m, from)) + {to}
  {
    var f := MapsTo(m, from);
    forall q | IsUser(q) && q != to
      ensures Mapped(m', q) == Mapped(m, q) && MapsTo(m', q) == MapsTo(m, q)
    {
      assert q != from ==> Pte(m', q) == Pte(m, q);
    }
    forall g ensures g != f ==> Refs(m', g) == Refs(m, g) - {to} {
    }
  }

  /** After the writes no entry allows writing to the shared frame. */
  lemma ShareWriters(m: Mem, base: int, from: int, to: int, m': Mem, q: int)
    requires Inv(m, base) && SharedTo(m, from, to, m')
    requires from < USER ==> from < base
    requires IsUser(q) && Mapped(m', q) && Writable(Pte(m', q))
    ensures q != to && q != from && Pte(m', q) == Pte(m, q) && MapsTo(m', q) != MapsTo(m, from)
  {
    var f := MapsTo(m, from);
    assert f < base || from in Refs(m, f);
    assert q != to && q != from && Pte(m', q) == Pte(m, q);
    assert Refs(m, MapsTo(m, q)) == {q} && MapsTo(m, q) >= base;
  }

  lemma ShareSoleWriter(m: Mem, base: int, from: int, to: int, m': Mem)
    requires Inv(m, base) && SharedTo(m, from, to, m')
    requires from < USER ==> from < base
    requires forall g :: g != MapsTo(m, from) ==> Refs(m', g) == Refs(m, g) - {to}
    ensures SoleWriter(m')
  {
    hide LeavesOk, CountsOk, IdentityWindow, TablesOk;
    forall q | IsUser(q) && Mapped(m', q) && Writable(Pte(m', q)) ensures Refs(m', MapsTo(m', q)) == {q} {
      ShareWriters(m, base, from, to, m', q);
      assert Refs(m, MapsTo(m, q)) == {q};
    }
  }

  lemma ShareLeaves(m: Mem, base: int, from: int, to: int, m': Mem)
    requires Inv(m, base) && SharedTo(m, from, to, m')
    requires from < USER ==> from < base
    requires forall g :: g != MapsTo(m, from) ==> Refs(m', g) == Refs(m, g) - {to}
    ensures LeavesOk(m', base) && SoleWriter(m') && IdentityWindow(m')
  {
    hide CountsOk, Refs;
    var f := MapsTo(m, from);
    ShareSoleWriter(m, base, from, to, m');
    assert forall g :: IsTable(m', g) == IsTable(m, g);
    assert f >= base ==> !IsTable(m, f);
    forall q | IsUser(q) && Mapped(m', q)
      ensures IsFrame(MapsTo(m', q))
      ensures MapsTo(m', q) < base ==> !Writable(Pte(m', q))
      ensures MapsTo(m', q) >= base ==> !IsTable(m', MapsTo(m', q))
    {
      assert q == to || q == from || Pte(m', q) == Pte(m, q);
    }
  }

  lemma MappedIsCounted(m: Mem, base: int, p: int)
    requires Inv(m, base) && IsPage(p) && Mapped(m, p) && (p < USER ==> p < base)
    ensures IsFrame(MapsTo(m, p)) && m.cnt[MapsTo(m, p)] >= 1
  {
    if p >= USER {
      assert p in Refs(m, MapsTo(m, p));
    }
  }

  lemma ShareKeepsInv(m: Mem, base: int, from: int, to: int, m': Mem)
    requires Inv(m, base) && SharedTo(m, from, to, m')
    requires from < USER ==> from < base
    ensures Inv(m', base)
  {
    var f := MapsTo(m, from);
    ShareRefs(m, from, to, m');
    ShareLeaves(m, base, from, to, m');
    MappedIsCounted(m, base, from);
    forall g | 0 <= g < FRAMES ensures m'.cnt[g] >= |Refs(m', g)| + (if g < base then 1 else 0) {
      if g != f {
        SubsetSize(Refs(m', g), Refs(m, g));
      } else {
        SubsetSize(Refs(m', f) - {to}, Refs(m, f));
      }
    }
  }

  lemma PagesAfterShare(m: Mem, base: int, from: int, to: int, m': Mem)
    requires Inv(m, base) && SharedTo(m, from, to, m')
    requires from < USER ==> from < base
    requires forall f :: base <= f < FRAMES && !IsTable(m, f) ==> m'.phys[f] == m.phys[f]
    ensures OnePage(m, base, m', to, PageOf(m, base, from))
  {
    assert from < USER ==> MapsTo(m, from) == from;
    forall q | IsUser(q)
      ensures PageOf(m', base, q) == PageOf(m, base, if q == to then from else q)
    {
      assert q != from && q != to ==> Pte(m', q) == Pte(m, q);
    }
  }

  // ------------------------------------------------------------- write faults

  /** Making the only entry of a frame writable again. */
  lemma UnprotectKeepsInv(m: Mem, base: int, p: int, m': Mem)
    requires Inv(m, base) && IsUser(p) && HasTable(m, p / 1024) && Mapped(m, p)
    requires m.cnt[MapsTo(m, p)] == 1
    requires m' == SetPte(m, p, WriteEnabled(Pte(m, p)))
    ensures Inv(m', base) && SamePages(m, base, m')
    ensures SameTables(m, m') && forall q :: IsPage(q) && q != p ==> Pte(m', q) == Pte(m, q)
    ensures Pte(m', p) == WriteEnabled(Pte(m, p))
  {
    CountOneIsPrivate(m, base, p);
    TableWrite(m, base, p, WriteEnabled(Pte(m, p)), m');
    forall q | IsPage(q) ensures Mapped(m', q) == Mapped(m, q) && MapsTo(m', q) == MapsTo(m, q) {
      assert q != p ==> Pte(m', q) == Pte(m, q);
    }
    assert forall f :: Refs(m', f) == Refs(m, f);
    forall q | IsUser(q) ensures PageOf(m', base, q) == PageOf(m, base, q) {
      assert Mapped(m', q) == Mapped(m, q);
    }
  }

  // -------------------------------------------------------------- data writes

  /** Overwriting an unused frame changes nothing a process sees. */
  lemma FillUnused(m: Mem, base: int, f: int, ws: seq<int>, m': Mem)
    requires Inv(m, base) && Unused(m, base, f) && |ws| == 1024
    requires m' == SetFrame(m, f, ws)
    ensures Inv(m', base) && SamePages(m, base, m')
    ensures SameTables(m, m') && Unused(m', base, f)
    ensures forall p :: IsPage(p) ==> Pte(m', p) == Pte(m, p)
    ensures forall g :: IsTable(m', g) == IsTable(m, g) && Refs(m', g) == Refs(m, g)
  {
    DataKeepsInv(m, m', base);
    forall q | IsUser(q) ensures PageOf(m', base, q) == PageOf(m, base, q) {
      assert Pte(m', q) == Pte(m, q);
      if Mapped(m, q) {
        assert q in Refs(m, MapsTo(m, q));
      }
    }
  }

  /** A store through a writable entry changes that page and no other. */
  lemma StoreThroughWritable(m: Mem, base: int, p: int, ws: seq<int>, m': Mem)
    requires Inv(m, base) && IsUser(p) && Mapped(m, p) && Writable(Pte(m, p)) && |ws| == 1024
    requires IsFrame(MapsTo(m, p)) && m' == SetFrame(m, MapsTo(m, p), ws)
    ensures Inv(m', base)
    ensures OnePage(m, base, m', p, Own(ws))
  {
    var f := MapsTo(m, p);
    DataKeepsInv(m, m', base);
    assert Refs(m, f) == {p};
    forall q | IsUser(q) && q != p ensures PageOf(m', base, q) == PageOf(m, base, q) {
      assert Pte(m', q) == Pte(m, q);
      if Mapped(m, q) {
        assert q in Refs(m, MapsTo(m, q));
      }
    }
  }

  // --------------------------------------------------------- identity window

  /** Processes see the same as long as entries and mapped frames stay. */
  lemma PagesUnchanged(m: Mem, m': Mem, base: int)
    requires Sized(m) && Sized(m') && 0 <= base
    requires forall p {:trigger Pte(m', p)} {:trigger Pte(m, p)} :: IsUser(p) ==> Pte(m', p) == Pte(m, p)
    requires forall f :: base <= f < FRAMES && Refs(m, f) != {} ==> m'.phys[f] == m.phys[f]
    ensures SamePages(m, base, m')
  {
    forall q | IsUser(q) ensures PageOf(m', base, q) == PageOf(m, base, q) {
      assert Pte(m', q) == Pte(m, q);
      if Mapped(m, q) {
        assert q in Refs(m, MapsTo(m, q));
      }
    }
  }

  lemma MapIdentity(m: Mem, base: int, p: int, m': Mem)
    requires Inv(m, base) && 0 <= p < USER && HasTable(m, p / 1024)
    requires m' == SetPte(m, p, Entry(p))
    ensures Inv(m', base) && SamePages(m, base, m')
    ensures SameTables(m, m') && m'.cnt == m.cnt && Pte(m', p) == Entry(p)
    ensures forall q :: IsPage(q) && q != p ==> Pte(m', q) == Pte(m, q)
  {
    TableWrite(m, base, p, Entry(p), m');
    RefsUnchanged(m, m');
    assert forall f :: IsTable(m', f) == IsTable(m, f);
    PagesUnchanged(m, m', base);
  }

  // ----------------------------------------------------------- copy on write

  lemma DropCount(m: Mem, base: int, f: int, m': Mem)
    requires Inv(m, base) && IsFrame(f) && m.cnt[f] >= 2
    requires m.cnt[f] >= |Refs(m, f)| + 1 + (if f < base then 1 else 0)
    requires m' == SetCnt(m, f, m.cnt[f] - 1)
    ensures Inv(m', base) && SameTables(m, m') && SamePages(m, base, m')
    ensures forall p :: IsPage(p) ==> Pte(m', p) == Pte(m, p)
  {
    EntriesUnchanged(m, m', base);
    PagesUnchanged(m, m', base);
  }

  /** The state do_wp_page leaves after copying the page of p to frame r. */
  ghost function Unshared(m: Mem, p: int, r: int): Mem
    requires Sized(m) && IsPage(p) && HasTable(m, p / 1024) && IsFrame(Table(m, p / 1024))
    requires IsFrame(MapsTo(m, p)) && IsFrame(r) && r != Table(m, p / 1024)
  {
    var f := MapsTo(m, p);
    var t := Table(m, p / 1024);
    Mem(m.phys[r := m.phys[f]][t := m.phys[t][p % 1024 := Entry(r)]], m.cnt[f := m.cnt[f] - 1])
  }

  lemma UnshareKeepsInv(m: Mem, base: int, p: int, r: int)
    requires Inv(m, base) && IsUser(p) && Mapped(m, p) && HasTable(m, p / 1024)
    requires Unused(m, base, r) && m.cnt[r] == 1 && m.cnt[MapsTo(m, p)] >= 2
    requires r != Table(m, p / 1024)
    ensures Inv(Unshared(m, p, r), base)
    ensures OnePage(m, base, Unshared(m, p, r), p, Own(m.phys[MapsTo(m, p)]))
    ensures SameTables(m, Unshared(m, p, r))
    ensures forall q :: IsPage(q) ==> Pte(Unshared(m, p, r), q) == if q == p then Entry(r) else Pte(m, q)
  {
    assert p in Refs(m, MapsTo(m, p)) && IsFrame(MapsTo(m, p)) && IsFrame(Table(m, p / 1024));
    hide Placed, TablesOk, LeavesOk, SoleWriter, CountsOk, IdentityWindow, Refs;
    var n := UnshareMaps(m, base, p, r);
    DropCount(n, base, MapsTo(m, p), Unshared(m, p, r));
  }

  /** The copy and the new mapping, before the old frame's count drops. */
  lemma UnshareMaps(m: Mem, base: int, p: int, r: int) returns (n: Mem)
    requires Inv(m, base) && IsUser(p) && Mapped(m, p) && HasTable(m, p / 1024)
    requires Unused(m, base, r) && m.cnt[r] == 1 && m.cnt[MapsTo(m, p)] >= 2
    requires r != Table(m, p / 1024)
    ensures n == Mem(Unshared(m, p, r).phys, m.cnt)
    ensures Inv(n, base) && SameTables(m, n)
    ensures OnePage(m, base, n, p, Own(m.phys[MapsTo(m, p)]))
    ensures forall q :: IsPage(q) ==> Pte(n, q) == if q == p then Entry(r) else Pte(m, q)
    ensures m.cnt[MapsTo(m, p)] >= |Refs(n, MapsTo(m, p))| + 1 + (if MapsTo(m, p) < base then 1 else 0)
  {
    var f := MapsTo(m, p);
    assert p in Refs(m, f);
    SizeWithout(Refs(m, f), p);
    var n1 := SetFrame(m, r, m.phys[f]);
    FillUnused(m, base, r, m.phys[f], n1);
    assert Table(n1, p / 1024) == Table(m, p / 1024);
    n := SetPte(n1, p, Entry(r));
    MapPrivate(n1, base, p, r, n);
  }

  // ------------------------------------------------------------ share_page

  /** The three writes at the end of share_page; a count is one byte. */
  ghost function ShareWrites(m: Mem, from: int, to: int): (n: Mem)
    requires Sized(m) && IsPage(from) && IsPage(to)
    ensures Sized(n)
  {
    var e := ReadOnly(Pte(m, from));
    var f := MapsTo(m, from);
    var n := Put(if IsFrame(f) then SetCnt(m, f, (m.cnt[f] + 1) % 256) else m, to, e);
    if from >= USER then Put(n, from, e) else n
  }

  lemma ShareWritesShare(m: Mem, base: int, from: int, to: int)
    requires Inv(m, base) && IsPage(from) && IsUser(to) && Mapped(m, from)
    requires HasTable(m, to / 1024) && IsFrame(MapsTo(m, from)) && m.cnt[MapsTo(m, from)] < 255
    ensures SharedTo(m, from, to, ShareWrites(m, from, to))
    ensures forall f :: base <= f < FRAMES && !IsTable(m, f) ==> ShareWrites(m, from, to).phys[f] == m.phys[f]
  {
    hide LeavesOk, SoleWriter, CountsOk, IdentityWindow;
    var e := ReadOnly(Pte(m, from));
    assert (m.cnt[MapsTo(m, from)] + 1) % 256 == m.cnt[MapsTo(m, from)] + 1;
    var n1 := ShareToEntry(m, base, from, to, e);
    if from >= USER {
      TableWrite(n1, base, from, e, Put(n1, from, e));
    }
  }

  lemma ShareToEntry(m: Mem, base: int, from: int, to: int, e: int) returns (n: Mem)
    requires Inv(m, base) && IsPage(from) && IsPage(to) && HasTable(m, to / 1024)
    requires IsFrame(MapsTo(m, from)) && m.cnt[MapsTo(m, from)] < 255
    ensures n == Put(SetCnt(m, MapsTo(m, from), m.cnt[MapsTo(m, from)] + 1), to, e)
    ensures SameTables(m, n) && TablesOk(n, base)
    ensures forall q :: IsPage(q) ==> Pte(n, q) == if q == to then e else Pte(m, q)
    ensures forall f :: IsTable(n, f) == IsTable(m, f)
    ensures forall f :: 0 <= f < FRAMES && !IsTable(m, f) ==> n.phys[f] == m.phys[f]
  {
    var n0 := SetCnt(m, MapsTo(m, from), m.cnt[MapsTo(m, from)] + 1);
    EntriesUnchanged(m, n0, base);
    n := SetPte(n0, to, e);
    TableWrite(n0, base, to, e, n);
  }

  /** Entries depend on physical memory alone. */
  lemma EntryOf(m: Mem, n: Mem, p: int)
    requires Sized(m) && Sized(n) && m.phys == n.phys && IsPage(p)
    ensures Pte(n, p) == Pte(m, p)
  {
  }

  /** What the three writes put into the target's entry, whatever the count. */
  lemma TargetEntry(m: Mem, base: int, from: int, to: int)
    requires Inv(m, base) && IsPage(from) && IsUser(to) && Mapped(m, from)
    requires HasTable(m, to / 1024) && IsFrame(MapsTo(m, from))
    ensures Pte(ShareWrites(m, from, to), to) == ReadOnly(Pte(m, from))
  {
    hide LeavesOk, SoleWriter, CountsOk, IdentityWindow;
    var e := ReadOnly(Pte(m, from));
    var n1 := Put(m, to, e);
    TableWrite(m, base, to, e, n1);
    var n2 := if from >= USER then Put(n1, from, e) else n1;
    if from >= USER {
      TableWrite(n1, base, from, e, n2);
    }
    EntryOf(n2, ShareWrites(m, from, to), to);
  }

  /** A count is one byte: sharing keeps the accounting exactly while the count
      of the shared frame is below 255. */
  lemma ShareFitsExactly(m: Mem, base: int, from: int, to: int)
    requires Inv(m, base) && IsPage(from) && IsUser(to) && Mapped(m, from) && (from < USER ==> from < base)
    requires HasTable(m, to / 1024) && IsFrame(MapsTo(m, from))
    ensures Inv(ShareWrites(m, from, to), base) <==> m.cnt[MapsTo(m, from)] < 255
  {
    var m' := ShareWrites(m, from, to);
    var f := MapsTo(m, from);
    if m.cnt[f] < 255 {
      ShareWritesShare(m, base, from, to);
      ShareKeepsInv(m, base, from, to, m');
    } else {
      TargetEntry(m, base, from, to);
      assert m'.cnt[f] == 0;
      assert to in Refs(m', f);
      assert |Refs(m', f)| > 0;
    }
  }

  // -------------------------------------------------- counts that stand for no use

  /** How much the count of frame f exceeds its uses, as user page and as page
      table. */
  ghost function Excess(m: Mem, f: int): int
    requires Sized(m) && IsFrame(f)
  {
    m.cnt[f] - |Refs(m, f)| - (if IsTable(m, f) then 1 else 0)
  }

  ghost predicate SameExcess(m: Mem, m': Mem)
    requires Sized(m) && Sized(m')
  {
    forall f :: IsFrame(f) ==> Excess(m', f) == Excess(m, f)
  }

  ghost predicate ExcessGrows(m: Mem, m': Mem)
    requires Sized(m) && Sized(m')
  {
    forall f :: IsFrame(f) ==> Excess(m', f) >= Excess(m, f)
  }

  lemma SizeWithout(a: set<int>, x: int)
    ensures |a - {x}| == |a| - (if x in a then 1 else 0)
    ensures |a + {x}| == |a - {x}| + 1
  {
    assert a + {x} == (a - {x}) + {x};
    assert x !in a ==> a - {x} == a;
  }

  lemma ShareExcessAt(m: Mem, from: int, to: int, m': Mem, g: int)
    requires SharedTo(m, from, to, m') && IsFrame(g)
    ensures Excess(m', g) == Excess(m, g) + (if Mapped(m, to) && MapsTo(m, to) == g then 1 else 0)
  {
    ShareRefs(m, from, to, m');
    SizeWithout(Refs(m, g), to);
    assert to in Refs(m, g) <==> Mapped(m, to) && MapsTo(m, to) == g;
    assert IsTable(m', g) == IsTable(m, g) by {
      hide Refs, Pte;
    }
  }

  /** The writes of share_page keep every count exact if and only if nothing was
      mapped at the target: what was there is not released. */
  lemma ShareExcess(m: Mem, base: int, from: int, to: int, m': Mem)
    requires Inv(m, base) && SharedTo(m, from, to, m')
    ensures ExcessGrows(m, m') && (SameExcess(m, m') <==> !Mapped(m, to))
  {
    assert Mapped(m, to) ==> IsFrame(MapsTo(m, to));
    hide Excess, Refs, Inv;
    forall g | IsFrame(g)
      ensures Excess(m', g) == Excess(m, g) + (if Mapped(m, to) && MapsTo(m, to) == g then 1 else 0)
    {
      ShareExcessAt(m, from, to, m', g);
    }
  }
}
