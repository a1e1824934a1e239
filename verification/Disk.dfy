/** The sector layer as it runs: copies into the RAM disk array, writes through
    to the device, the scan for a store partition, and the boot-time restore.
 */
module Disk {
  import opened Options
  import opened Word32
  import opened Store

  class Disk {
    const rd: array<Sector>
    const dev: array<Sector>
    var ready: bool
    var first: nat
    var last: nat
    var fs: Word

    function View(): State
      reads this, rd, dev
    {
      State(rd[..], dev[..], ready, first, last, fs)
    }

    ghost predicate Valid()
      reads this, rd, dev
    {
      rd != dev && 0 < rd.Length < MAX_RD && dev.Length < TWO64 && Adopted(View())
    }

    constructor (rd: array<Sector>, dev: array<Sector>)
      requires rd != dev && 0 < rd.Length < MAX_RD && dev.Length < TWO64
      ensures Valid() && View() == State(rd[..], dev[..], false, 0, 0, 0) && this.rd == rd && this.dev == dev
    {
      this.rd, this.dev := rd, dev;
      ready, first, last, fs := false, 0, 0, 0;
    }

    /** `nvme_write`, as the driver's block transfer behaves. */
    method NvmeWrite(at: nat, buf: seq<Sector>)
      requires rd != dev
      modifies dev
      ensures dev[..] == DevPut(old(dev[..]), at, buf)
    {
      ghost var d0 := dev[..];
      if at + |buf| <= dev.Length {
        assert dev[..] == d0[..at] + buf[..0] + d0[at + 0..];
        for i := 0 to |buf|
          invariant dev[..] == d0[..at] + buf[..i] + d0[at + i..]
        {
          PutOne(d0, at, buf, i);
          dev[at + i] := buf[i];
        }
        assert buf[..|buf|] == buf;
      }
    }

    /** `disk_write_sectors`. */
    method Write(lba: Word, buf: seq<Sector>)
      requires Valid() && Sane(lba, |buf|)
      modifies rd, dev
      ensures Valid() && View() == DiskWrite(old(View()), lba, buf)
    {
      ghost var s0 := View();
      WriteStaysInside(s0, lba, buf);
      if !(lba >= FS_DIR_LBA && Wrap(lba - FS_DIR_LBA + |buf|) <= rd.Length) { return; }
      ThroughExactly(s0, lba, |buf|);
      hide Put, DevPut, ThroughTarget, Adopted, SameOutside;
      CopyToRam(lba - FS_DIR_LBA, buf);
      WriteThrough(lba, buf);
    }

    method CopyToRam(off: nat, buf: seq<Sector>)
      requires rd != dev && off + |buf| <= rd.Length
      modifies rd
      ensures rd[..] == Put(old(rd[..]), off, buf)
    {
      ghost var d0 := rd[..];
      assert rd[..] == d0[..off] + buf[..0] + d0[off + 0..];
      for i := 0 to |buf|
        invariant rd[..] == d0[..off] + buf[..i] + d0[off + i..]
      {
        PutOne(d0, off, buf, i);
        rd[off + i] := buf[i];
      }
      assert buf[..|buf|] == buf;
    }

    /** `store_write_through`. */
    method WriteThrough(lba: Word, buf: seq<Sector>)
      requires rd != dev && |buf| < TWO32
      modifies dev
      ensures View() == Store.WriteThrough(old(View()), lba, buf)
    {
      hide Put, Wrap, Wrap64, DevPut;
      if ready && lba >= FS_DIR_LBA && Wrap(lba - FS_DIR_LBA + |buf|) <= fs {
        var target := Wrap64(first + 1 + (lba - FS_DIR_LBA));
        var ok := LbaOk(target, |buf|);
        if ok { NvmeWrite(target, buf); }
      }
    }

    method LbaOk(lba: nat, count: Word) returns (ok: bool)
      ensures ok == StoreLbaOk(View(), lba, count)
    {
      if !ready || count == 0 { return false; }
      if lba <= first { return false; }
      if Wrap64(lba + count - 1) > last { return false; }
      ok := true;
    }

    /** `disk_read_sectors`. */
    method Read(lba: Word, count: nat) returns (buf: seq<Sector>)
      requires Valid() && Sane(lba, count)
      ensures buf == DiskRead(View(), lba, count)
    {
      if !(lba >= FS_DIR_LBA && Wrap(lba - FS_DIR_LBA + count) <= rd.Length) {
        return seq(count, _ => Zero());
      }
      assert Wrap(lba - FS_DIR_LBA + count) == lba - FS_DIR_LBA + count;
      buf := rd[lba - FS_DIR_LBA..lba - FS_DIR_LBA + count];
    }

    /** `store_scan`; Undefined where the source reads past its sector buffer. */
    method ScanDevice() returns (f: Found)
      ensures f == Scan(dev[..])
    {
      hide ScanFrom, Field64, ReadWord;
      if dev.Length < 2 || dev[1][..8] != SIGNATURE { return NoStore; }
      var h := dev[1];
      var table, entries, size := Field64(h, 72), ReadWord(h, 80), ReadWord(h, 84);
      if size == 0 || size > 512 || entries > 512 { return NoStore; }
      f := ScanTable(table, entries, size);
    }

    method ScanTable(table: nat, entries: nat, size: nat) returns (f: Found)
      requires 0 < size <= 512
      ensures f == ScanFrom(dev[..], table, entries, size, 0)
    {
      hide Judge, EntryBlock, EntryOff;
      ghost var d := dev[..];
      for i := 0 to entries
        invariant ScanFrom(d, table, entries, size, i) == ScanFrom(d, table, entries, size, 0)
      {
        var at := EntryBlock(table, size, i);
        if at >= dev.Length { return NoStore; }
        var j := JudgeEntry(dev[at], EntryOff(size, i));
        assert d[at] == dev[at];
        if j.Some? { return j.value; }
      }
      f := NoStore;
    }

    method JudgeEntry(t: Sector, o: nat) returns (r: Option<Found>)
      ensures r == Judge(dev[..], t, o)
    {
      hide Wrap64, Field64, ReadWord;
      if o + 48 > 512 { return Some(Undefined); }
      var b, used := 0, false;
      while b < 16 && !used
        invariant 0 <= b <= 16 && used == exists k :: o <= k < o + b && t[k] != 0
      {
        used := t[o + b] != 0;
        b := b + 1;
      }
      assert used == UsedEntry(t, o);
      if !used { return None; }
      var first, last := Field64(t, o + 32), Field64(t, o + 40);
      if last <= first || first >= dev.Length { return None; }
      var h := dev[first];
      if ReadWord(h, 0) != MAGIC0 || ReadWord(h, 4) != MAGIC1 || ReadWord(h, 8) != 1 { return None; }
      if 1 + ReadWord(h, 12) > Wrap64(last - first + 1) { return Some(NoStore); }
      r := Some(Found(first, last, ReadWord(h, 12)));
    }

    /** `store_init`: only after the whole image has been read are writes let
        through. */
    method Boot() returns (f: Found)
      requires Valid() && !ready
      modifies this, rd
      ensures Valid() && dev[..] == old(dev[..]) && f == Scan(dev[..])
      ensures ready == (f.Found? && Restore(dev[..], f, old(rd[..])).Some?)
      ensures ready ==> first == f.first && last == f.last && fs == f.fs && rd[..] == Restore(dev[..], f, old(rd[..])).value
      ensures ready && fs >= rd.Length && last < dev.Length ==> Mirror(View())
      ensures !ready ==> rd[..] == old(rd[..])
    {
      hide Scan, Wrap64, Mirror;
      ghost var d, r0 := dev[..], rd[..];
      f := ScanDevice();
      if !f.Found? { return; }
      FoundFits(d);
      first, last, fs := f.first, f.last, f.fs;
      var n := if fs > rd.Length then rd.Length else fs;
      if n == 0 || first + 1 + n > dev.Length { return; }
      CopyFromDevice(n);
      ready := true;
      if fs >= rd.Length && last < dev.Length { RestoredMirrors(d, f, r0, rd[..]); }
    }

    method CopyFromDevice(n: nat)
      requires rd != dev && n <= rd.Length && first + 1 + n <= dev.Length
      modifies rd
      ensures rd[..] == dev[first + 1..first + 1 + n] + old(rd[..])[n..]
    {
      ghost var r0, src := rd[..], dev[..];
      for i := 0 to n
        invariant dev[..] == src && forall k :: 0 <= k < rd.Length ==> rd[k] == if k < i then src[first + 1 + k] else r0[k]
      {
        rd[i] := dev[first + 1 + i];
      }
      Filled(rd[..], r0, src, first + 1, n);
    }

    /** `SYS_SYNC`: rewriting the image makes the store a mirror again. */
    method Sync() returns (ok: bool)
      requires Valid()
      modifies dev
      ensures Valid() && rd[..] == old(rd[..])
      ensures ok && fs >= rd.Length && last < dev.Length ==> Mirror(View())
    {
      if !ready { return false; }
      var n := if fs < rd.Length then fs else rd.Length;
      ok := LbaOk(Wrap64(first + 1), n);
      if !ok { return; }
      assert Wrap64(first + 1) == first + 1;
      ok := first + 1 + n <= dev.Length;
      NvmeWrite(first + 1, rd[..n]);
      if ok && fs >= rd.Length { assert rd[..n] == rd[..] && dev[first + 1..first + 1 + rd.Length] == rd[..]; }
    }
  }

  lemma Filled(r: seq<Sector>, d: seq<Sector>, src: seq<Sector>, at: nat, n: nat)
    requires |r| == |d| && n <= |d| && at + n <= |src|
    requires forall k :: 0 <= k < |r| ==> r[k] == if k < n then src[at + k] else d[k]
    ensures r == src[at..at + n] + d[n..]
  {
  }

  lemma PutOne(d: seq<Sector>, at: nat, buf: seq<Sector>, i: nat)
    requires at + |buf| <= |d| && i < |buf|
    ensures (d[..at] + buf[..i] + d[at + i..])[at + i := buf[i]] == d[..at] + buf[..i + 1] + d[at + (i + 1)..]
  {
  }

  lemma RestoredMirrors(dev: seq<Sector>, f: Found, r0: seq<Sector>, rd: seq<Sector>)
    requires f.Found? && Restore(dev, f, r0) == Some(rd) && f.fs >= |r0| && f.last < |dev|
    requires Adopted(State(rd, dev, true, f.first, f.last, f.fs))
    ensures Mirror(State(rd, dev, true, f.first, f.last, f.fs))
  {
    assert r0[|r0|..] == [];
  }

  lemma {:induction false} FoundFrom(dev: seq<Sector>, table: nat, entries: nat, size: nat, i: nat)
    requires 0 < size <= 512
    ensures var f := ScanFrom(dev, table, entries, size, i);
            f.Found? ==> f.first < f.last < TWO64 && 1 + f.fs <= Wrap64(f.last - f.first + 1)
    decreases entries - i
  {
    if i < entries {
      FoundFrom(dev, table, entries, size, i + 1);
      hide ReadWord, UsedEntry;
    }
  }

  /** What the scan adopts fits its partition. */
  lemma FoundFits(dev: seq<Sector>)
    ensures var f := Scan(dev); f.Found? ==> f.first < f.last < TWO64 && 1 + f.fs <= Wrap64(f.last - f.first + 1)
  {
    if |dev| >= 2 && dev[1][..8] == SIGNATURE && 0 < ReadWord(dev[1], 84) <= 512 {
      FoundFrom(dev, Field64(dev[1], 72), ReadWord(dev[1], 80), ReadWord(dev[1], 84), 0);
      hide ScanFrom;
    }
  }
}
