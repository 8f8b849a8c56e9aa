/**
  The disk loads of boot/bootsect.asm: a track number, a head and a sector kept
  up to date step by step, against plain sector addressing.
 */
module Boot {

  // ------------------------------------------------------------------ the disk

  const SECTORS := 18  // per track and head, of a 1.44 MB floppy disk

  /** What read_track hands to the BIOS: ch, cl, dh, the count in al, es and bx. */
  datatype Read = Read(ch: int, cl: int, dh: int, count: int, es: int, bx: int)

  /** A disk sector and the address its 512 bytes go to. */
  datatype Place = Place(sector: int, addr: int)

  function Cylinder(r: Read): int {
    r.ch + r.cl / 64 * 256
  }

  function FirstSector(r: Read): int {
    r.cl % 64
  }

  function Lba(r: Read): int {
    (Cylinder(r) * 2 + r.dh) * SECTORS + FirstSector(r) - 1
  }

  /** A BIOS read stays on its track and in its 64 KB segment. */
  predicate InTrack(r: Read) {
    && 1 <= FirstSector(r) && r.count >= 1 && FirstSector(r) + r.count <= SECTORS + 1 && 0 <= r.dh < 2
    && 0 <= r.bx && r.bx + 512 * r.count <= 0x10000
  }

  /** n sectors from s on, one behind the other from address a on. */
  function Span(s: int, n: nat, a: int): (r: seq<Place>)
    ensures |r| == n && forall i :: 0 <= i < n ==> r[i] == Place(s + i, a + 512 * i)
  {
    seq(n, i => Place(s + i, a + 512 * i))
  }

  lemma SpanNothing(s: int, a: int)
    ensures forall p: seq<Place> :: p + Span(s, 0, a) == p
  {
  }

  /** Reading on behind a span. */
  lemma SpanJoins(p: seq<Place>, s: int, n: nat, k: nat, a: int)
    ensures p + Span(s, n, a) + Span(s + n, k, a + 512 * n) == p + Span(s, n + k, a)
  {
    assert Span(s, n, a) + Span(s + n, k, a + 512 * n) == Span(s, n + k, a);
  }

  /** What a series of reads puts where. */
  function Places(log: seq<Read>): seq<Place> {
    if log == [] then [] else
      var r := log[|log| - 1];
      Places(log[..|log| - 1]) + Span(Lba(r), if r.count >= 0 then r.count else 0, r.es * 16 + r.bx)
  }

  lemma PlacesOf(log: seq<Read>, r: Read)
    requires r.count >= 0
    ensures Places(log + [r]) == Places(log) + Span(Lba(r), r.count, r.es * 16 + r.bx)
  {
    assert (log + [r])[..|log|] == log;
  }

  // ------------------------------------------------------------ registers, bytes

  type Byte = x: int | 0 <= x < 256
  type Word = x: int | 0 <= x < 0x10000

  /** div with an 8-bit divisor: the quotient must fit al. */
  function Div(ax: Word, cl: Byte): (qr: (Byte, Byte))
    requires cl > 0 && ax / cl < 256
  {
    (ax / cl, ax % cl)
  }

  /** Adding to the low byte of a word. */
  function AddToLow(w: Word, b: Byte): (r: Word)
    ensures w % 256 + b < 256 ==> r == w + b
  {
    w / 256 * 256 + (w % 256 + b) % 256
  }

  /** read_track packs the track number into ch and the two high bits of cl. */
  lemma PackedTrack(track: int, sector: int)
    requires 0 <= track < 1024 && 0 <= sector < 64
    ensures var cl := track / 256 % 4 * 64 + sector;
            0 <= cl < 256 && cl % 64 == sector && track % 256 + cl / 64 * 256 == track
  {
    var q := track / 256;
    assert 0 <= q < 4 && q % 4 == q;
    assert (q * 64 + sector) / 64 == q;
  }

  /** The three numbers a logical sector has on the disk, and back. */
  lemma Addressing(l: int)
    requires l >= 0
    ensures (l / 36 * 2 + l / 18 % 2) * SECTORS + (l % 18 + 1) - 1 == l
  {
    assert l / 36 == l / 18 / 2;
  }

  lemma AddressingBack(c: int, h: int, s: int)
    requires c >= 0 && 0 <= h < 2 && 1 <= s <= SECTORS
    ensures var l := (c * 2 + h) * SECTORS + s - 1; l / 36 == c && l / 18 % 2 == h && l % 18 + 1 == s
  {
    var l := (c * 2 + h) * SECTORS + s - 1;
    assert l == 36 * c + (18 * h + s - 1);
    assert l == 18 * (2 * c + h) + (s - 1);
  }

  /** What the boot sector loads: sectors 1 to 1122, each once and in order, to
      addresses that never overlap and leave the running boot sector alone. */
  lemma LoadsApart(i: int, j: int)
    requires 0 <= i < j < 1122
    ensures var p := Span(1, 10, 0x800) + Span(11, 88, 0x5000) + Span(99, 1024, 0x10000);
            && |p| == 1122 && p[i].sector == i + 1
            && p[i].addr + 512 <= p[j].addr && 0x800 <= p[i].addr && p[j].addr + 512 <= 0x90000
  {
    var a, b, c := Span(1, 10, 0x800), Span(11, 88, 0x5000), Span(99, 1024, 0x10000);
    var p := a + b + c;
    assert forall k :: 0 <= k < 1122 ==> p[k] == if k < 10 then a[k] else if k < 98 then b[k - 10] else c[k - 98];
  }

  lemma HalfStep(h: int)
    requires h >= 0
    ensures (h + 1) / 2 == (if h % 2 == 1 then h / 2 + 1 else h / 2) && (h + 1) % 2 == 1 - h % 2
  {
  }

  /** Reading on within a track: only at its end do head and track move. */
  lemma TrackStep(l: int, c: int)
    requires l >= 0 && c >= 1 && l % 18 + c <= 18
    ensures var h := l / 18;
            if (l + c) % 18 != 0 then (l + c) / 36 == l / 36 && (l + c) / 18 % 2 == h % 2
            else (l + c) / 36 == l / 36 + h % 2 && (l + c) / 18 % 2 == 1 - h % 2
  {
    var h := l / 18;
    HalfStep(h);
    assert l / 36 == h / 2 && (l + c) / 36 == (l + c) / 18 / 2;
    assert (l + c) / 18 == if (l + c) % 18 != 0 then h else h + 1;
  }

  // --------------------------------------------------------------- the loader

  class Loader {
    var readPerTime: Byte
    var sector: Byte
    var track: Word
    var head: Byte
    var readed: Word
    var total: Word
    var logicSector: Word
    var bx: Word
    var es: Word
    ghost var log: seq<Read>

    constructor ()
      ensures readPerTime == 0 && sector == 2 && track == 0 && head == 0
      ensures readed == 0 && total == 10 && logicSector == 1 && log == []
    {
      readPerTime, sector, track, head, readed, total, logicSector := 0, 2, 0, 0, 0, 10, 1;
      bx, es := 0, 0;
      log := [];
    }

    /** The bookkeeping agrees with the logical sector. */
    ghost predicate OnTrack()
      reads `track, `head, `logicSector
    {
      track == logicSector / 36 && head == logicSector / 18 % 2
    }

    /** read_track, when the BIOS succeeds. */
    method ReadTrack()
      requires track < 1024 && sector < 64
      modifies `log
      ensures exists r :: && log == old(log) + [r] && Cylinder(r) == track && FirstSector(r) == sector && r.dh == head
                          && r.count == readPerTime && r.es == es && r.bx == bx
    {
      var ch := track % 256;
      var cl := track / 256 % 4 * 64 + sector;
      PackedTrack(track, sector);
      log := log + [Read(ch, cl, head, readPerTime, es, bx)];
    }

    /** update_orthl: the offset, the counts, and the track. */
    method UpdateOrthl()
      requires OnTrack() && 1 <= readPerTime && logicSector % 18 + readPerTime <= 18 && logicSector + readPerTime < 4608
      modifies `bx, `readed, `logicSector, `track, `head
      ensures bx == (old(bx) + 512 * readPerTime) % 0x10000
      ensures old(readed) % 256 + readPerTime < 256 ==> readed == old(readed) + readPerTime
      ensures logicSector == old(logicSector) + readPerTime && OnTrack()
    {
      bx := (bx + readPerTime * 512 % 0x10000) % 0x10000;
      readed := AddToLow(readed, readPerTime);
      ghost var l := logicSector;
      logicSector := (logicSector + readPerTime) % 0x10000;
      NextTrack(l, readPerTime);
    }

    /** A track ends at every 18th sector. */
    method NextTrack(ghost l: int, ghost c: int)
      requires 0 <= l && 1 <= c && l % 18 + c <= 18 && logicSector == l + c < 4608
      requires track == l / 36 && head == l / 18 % 2
      modifies `track, `head
      ensures OnTrack()
    {
      TrackStep(l, c);
      var qr := Div(logicSector, 18);
      if qr.1 == 0 {
        if head == 1 {
          track := (track + 1) % 0x10000;
        }
        head := if head % 2 == 0 then head + 1 else head - 1;
      }
    }

    /** Every read so far stayed on one track. */
    ghost predicate Tracked()
      reads `log
    {
      forall r :: r in log ==> InTrack(r)
    }

    /** One read and its bookkeeping: readPerTime sectors from the logical one. */
    method ReadAndUpdate()
      requires OnTrack() && Tracked() && sector == logicSector % 18 + 1
      requires 1 <= readPerTime && sector + readPerTime <= 19 && logicSector + readPerTime < 4608
      requires bx + 512 * readPerTime <= 0x10000 && readed % 256 + readPerTime < 256
      modifies `bx, `readed, `logicSector, `track, `head, `log
      ensures OnTrack() && Tracked() && |log| == old(|log|) + 1
      ensures Places(log) == Places(old(log)) + Span(old(logicSector), readPerTime, es * 16 + old(bx))
      ensures bx == (old(bx) + 512 * readPerTime) % 0x10000 && readed == old(readed) + readPerTime
      ensures logicSector == old(logicSector) + readPerTime
    {
      ghost var l := logicSector;
      assert 0 <= l % 18 < 18;
      ReadTrack();
      ghost var r := log[|log| - 1];
      Addressing(l);
      assert Lba(r) == l && InTrack(r);
      PlacesOf(old(log), r);
      UpdateOrthl();
    }

    /** How many sectors load_setup32 reads next: what the track has left, but no
        more than are wanted. */
    method AimSetup(left: Word)
      requires 1 <= left < 256 && logicSector < 4608
      modifies `sector, `readPerTime
      ensures sector == logicSector % 18 + 1 && 1 <= sector <= 18
      ensures readPerTime == if 19 - sector <= left then 19 - sector else left
    {
      var qr := Div(logicSector, 18);
      var cl := 18 - qr.1;
      sector := qr.1 + 1;
      if cl <= left {
        readPerTime := cl;
      } else {
        readPerTime := left;
      }
    }

    /** The same in load_kernel, with the test the other way round. */
    method AimKernel(left: Word)
      requires 1 <= left < 256 && logicSector < 4608
      modifies `sector, `readPerTime
      ensures sector == logicSector % 18 + 1 && 1 <= sector <= 18
      ensures readPerTime == if 19 - sector <= left then 19 - sector else left
    {
      var qr := Div(logicSector, 18);
      var cl := 18 - qr.1;
      sector := qr.1 + 1;
      if left < cl {
        readPerTime := left;
      } else {
        readPerTime := cl;
      }
    }

    /** load_setup: ten sectors from logical sector 1. */
    method LoadSetup()
      requires logicSector == 1 && readed == 0 && OnTrack() && Tracked()
      modifies this
      ensures OnTrack() && Tracked() && logicSector == 11
      ensures Places(log) == Places(old(log)) + Span(1, 10, 0x800)
    {
      es, bx := 0x0080, 0;
      readPerTime := 10;
      track := 0;
      head := 0;
      readed := readed / 256 * 256;  // head is stored as a word
      sector := 2;
      ReadAndUpdate();
    }

    /** load_setup32: 88 sectors. */
    method LoadSetup32()
      requires OnTrack() && Tracked() && logicSector < 4000
      modifies this
      ensures OnTrack() && Tracked() && logicSector == old(logicSector) + 88
      ensures Places(log) == Places(old(log)) + Span(old(logicSector), 88, 0x5000)
    {
      es, bx := 0x0500, 0;
      total, readed := 88, 0;
      ReadSetup32();
    }

    /** Its loop: as many sectors at a time as the track has left.  The exit for
        total < readed is never taken. */
    method ReadSetup32()
      requires OnTrack() && Tracked() && logicSector < 4000 && bx == 0 && total == 88 && readed == 0
      modifies `readPerTime, `sector, `bx, `readed, `logicSector, `track, `head, `log
      ensures OnTrack() && Tracked() && logicSector == old(logicSector) + 88
      ensures Places(log) == Places(old(log)) + Span(old(logicSector), 88, es * 16)
    {
      hide Span, Places, InTrack;
      ghost var was, l := log, logicSector;
      SpanNothing(l, es * 16);
      while total != readed
        invariant readed <= 88 && bx == 512 * readed
        invariant OnTrack() && Tracked() && logicSector == l + readed
        invariant Places(log) == Places(was) + Span(l, readed, es * 16)
        decreases 88 - readed
      {
        AimSetup(total - readed);
        SpanJoins(Places(was), l, readed, readPerTime, es * 16);
        ReadAndUpdate();
      }
    }

    /** The inner loop of load_kernel: the 128 sectors of one segment. */
    method LoadSegment()
      requires OnTrack() && Tracked() && logicSector < 4000 && bx == 0 && total == 128 && readed == 0
      modifies `readPerTime, `sector, `bx, `readed, `logicSector, `track, `head, `log
      ensures OnTrack() && Tracked() && logicSector == old(logicSector) + 128
      ensures Places(log) == Places(old(log)) + Span(old(logicSector), 128, es * 16)
    {
      hide Span, Places, InTrack;
      ghost var was, l := log, logicSector;
      SpanNothing(l, es * 16);
      while total != readed
        invariant readed <= 128 && (readed < 128 ==> bx == 512 * readed)
        invariant OnTrack() && Tracked() && logicSector == l + readed
        invariant Places(log) == Places(was) + Span(l, readed, es * 16)
        decreases 128 - readed
      {
        AimKernel(total - readed);
        SpanJoins(Places(was), l, readed, readPerTime, es * 16);
        ReadAndUpdate();
      }
    }

    /** load_kernel: eight segments of 64 KB. */
    method LoadKernel()
      requires OnTrack() && Tracked() && logicSector < 3000
      modifies this
      ensures OnTrack() && Tracked() && logicSector == old(logicSector) + 1024
      ensures Places(log) == Places(old(log)) + Span(old(logicSector), 1024, 0x10000)
    {
      hide Span, Places, InTrack;
      ghost var was, l := log, logicSector;
      ghost var k: int := 0;
      SpanNothing(l, 0x10000);
      es := 0;
      while es + 0x1000 < 0x9000
        invariant es == k * 0x1000 && 0 <= k <= 8
        invariant OnTrack() && Tracked() && logicSector == l + 128 * k
        invariant Places(log) == Places(was) + Span(l, 128 * k, 0x10000)
        decreases 8 - k
      {
        es := es + 0x1000;
        bx := 0;
        total, readed := 128, 0;
        SpanJoins(Places(was), l, 128 * k, 128, 0x10000);
        LoadSegment();
        k := k + 1;
      }
    }

    /** The whole boot sector: each of setup, setup32 and the kernel comes from
        where the image has it (Makefile:39-43) to where it runs. */
    method LoadAll()
      requires logicSector == 1 && readed == 0 && track == 0 && head == 0 && log == []
      modifies this
      ensures Tracked() && logicSector == 1123
      ensures Places(log) == Span(1, 10, 0x800) + Span(11, 88, 0x5000) + Span(99, 1024, 0x10000)
    {
      LoadSetup();
      LoadSetup32();
      LoadKernel();
    }
  }
}
