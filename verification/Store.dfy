/** The RAM disk and its mirror: every sector written goes to memory and, when a
    store partition was adopted at boot, to the NVMe drive as well.
 */
module Store {
  import opened Options
  import opened Word32

  const FS_DIR_LBA := 137
  const DIR_SECTORS := 32
  const FS_DATA_LBA := 169
  const TWO64: int := 0x1_0000_0000_0000_0000
  const MAX_RD: int := 0x80_0000

  type Sector = s: seq<Byte> | |s| == 512 witness seq(512, _ => 0)

  function Zero(): Sector { seq(512, _ => 0) }

  function Wrap64(x: int): nat { x % TWO64 }

  /** RAM disk, device blocks, and what the boot scan adopted. */
  datatype State = State(rd: seq<Sector>, dev: seq<Sector>, ready: bool, first: nat, last: nat, fs: Word)

  // ----- bounds -----

  /** `rd_range_ok`, in 32-bit arithmetic. */
  predicate RdRangeOk(s: State, lba: Word, count: Word) {
    lba >= FS_DIR_LBA && Wrap(lba - FS_DIR_LBA + count) <= |s.rd|
  }

  /** `store_lba_ok`, in 64-bit arithmetic. */
  predicate StoreLbaOk(s: State, lba: nat, count: Word) {
    s.ready && count > 0 && lba > s.first && Wrap64(lba + count - 1) <= s.last
  }

  /** Where `store_write_through` puts sector `lba`, if it writes at all. */
  function ThroughTarget(s: State, lba: Word, count: Word): Option<nat> {
    if !s.ready || lba < FS_DIR_LBA || Wrap(lba - FS_DIR_LBA + count) > s.fs then None
    else
      var target := Wrap64(s.first + 1 + (lba - FS_DIR_LBA));
      if StoreLbaOk(s, target, count) then Some(target) else None
  }

  /** What the boot scan checked before adopting a partition. */
  predicate Adopted(s: State) {
    s.ready ==> s.first < s.last < TWO64 && 1 + s.fs <= Wrap64(s.last - s.first + 1)
  }

  /** Any request at all, wrapping or not: what is written through starts strictly
      after the header, and it ends at or before the partition's last block exactly
      when the block numbers do not wrap around 2^64. */
  lemma ThroughExact(s: State, lba: Word, count: Word)
    requires Adopted(s) && ThroughTarget(s, lba, count).Some?
    ensures var target := ThroughTarget(s, lba, count).value;
            && target == s.first + 1 + (lba - FS_DIR_LBA) && s.first < target
            && (target + count - 1 <= s.last <==> s.first + (lba - FS_DIR_LBA) + count < TWO64)
  {
  }

  /** So a partition that does not reach the last 2^33 blocks a drive can have is
      never left, and neither is any partition by a request that does not wrap
      around 2^32; such a request is written whenever the image covers it. */
  lemma ThroughInside(s: State, lba: Word, count: Word)
    requires Adopted(s) && (s.last < TWO64 - 2 * TWO32 || lba - FS_DIR_LBA + count < TWO32)
    ensures ThroughTarget(s, lba, count).Some? ==>
              s.first < ThroughTarget(s, lba, count).value && ThroughTarget(s, lba, count).value + count - 1 <= s.last
    ensures s.ready && lba >= FS_DIR_LBA && count > 0 && lba - FS_DIR_LBA + count <= s.fs ==>
              ThroughTarget(s, lba, count) == Some(s.first + 1 + (lba - FS_DIR_LBA))
  {
    if ThroughTarget(s, lba, count).Some? { ThroughExact(s, lba, count); }
    if s.ready && lba >= FS_DIR_LBA && lba - FS_DIR_LBA + count <= s.fs {
      var off := lba - FS_DIR_LBA;
      assert Wrap(off + count) == off + count;
      assert s.last - s.first + 1 < TWO64 || (s.first == 0 && s.last == TWO64 - 1);
      assert s.first + off + count <= s.last;
      if count > 0 { assert Wrap64(s.first + 1 + off) == s.first + 1 + off; }
    }
  }

  /** On a partition at the very top of the drive a request that wraps passes both
      checks, the RAM disk's and the store's, and runs past the last block. */
  lemma WrappedRequestEscapes(rd: seq<Sector>, dev: seq<Sector>)
    requires 0 < |rd|
    ensures var s := State(rd, dev, true, TWO64 - TWO32, TWO64 - 1, 1000);
            var lba: Word, count: Word := TWO32 - 1, 139;
            && Adopted(s) && RdRangeOk(s, lba, count)
            && ThroughTarget(s, lba, count).Some? && ThroughTarget(s, lba, count).value + count - 1 > s.last
  {
  }

  /** Only requests of more than 137 sectors can wrap: the directory's 32 and the
      single-sector forms cannot.  The one longer request, the contents of a file,
      starts inside the RAM disk and is at most 2^17 sectors long
      (Fs.SavesDoNotWrap), so no caller in the kernel makes a wrapping one. */
  lemma OnlyLongRequestsWrap(lba: Word, count: Word)
    requires lba >= FS_DIR_LBA && lba - FS_DIR_LBA + count >= TWO32
    ensures count > FS_DIR_LBA
  {
  }

  // ----- reads and writes -----

  /** `d` with `buf` stored from `at` on. */
  function Put(d: seq<Sector>, at: nat, buf: seq<Sector>): (r: seq<Sector>)
    requires at + |buf| <= |d|
    ensures |r| == |d|
  {
    d[..at] + buf + d[at + |buf|..]
  }

  /** The device takes a write only if every block exists. */
  function DevPut(d: seq<Sector>, at: nat, buf: seq<Sector>): (r: seq<Sector>)
    ensures |r| == |d|
  {
    if at + |buf| <= |d| then Put(d, at, buf) else d
  }

  function WriteThrough(s: State, lba: Word, buf: seq<Sector>): State
    requires |buf| < TWO32
  {
    match ThroughTarget(s, lba, |buf|)
    case Some(t) => s.(dev := DevPut(s.dev, t, buf))
    case None => s
  }

  /** The request fits the address arithmetic. */
  predicate Sane(lba: Word, count: nat) { count < MAX_RD * 2 && lba + count < TWO32 }

  /** `disk_write_sectors`: out of range is silently nothing. */
  function DiskWrite(s: State, lba: Word, buf: seq<Sector>): State
    requires Sane(lba, |buf|) && |s.rd| < MAX_RD
  {
    if !RdRangeOk(s, lba, |buf|) then s
    else WriteThrough(s.(rd := Put(s.rd, lba - FS_DIR_LBA, buf)), lba, buf)
  }

  /** `disk_read_sectors`: out of range reads zeros. */
  function DiskRead(s: State, lba: Word, count: nat): (r: seq<Sector>)
    requires Sane(lba, count) && |s.rd| < MAX_RD
    ensures |r| == count
  {
    if !RdRangeOk(s, lba, count) then seq(count, _ => Zero())
    else s.rd[lba - FS_DIR_LBA..lba - FS_DIR_LBA + count]
  }

  /** The store holds a copy of the whole RAM disk. */
  predicate Mirror(s: State) {
    && s.ready && Adopted(s) && s.fs >= |s.rd| && s.last < |s.dev| && s.first + 1 + |s.rd| <= |s.dev|
    && s.dev[s.first + 1..s.first + 1 + |s.rd|] == s.rd
  }

  /** Blocks outside the adopted partition's body are untouched. */
  ghost predicate SameOutside(s: State, t: State) {
    && |t.dev| == |s.dev| && |t.rd| == |s.rd| && t.ready == s.ready && t.first == s.first && t.last == s.last && t.fs == s.fs
    && forall i :: 0 <= i < |s.dev| && !(s.ready && s.first < i <= s.first + s.fs) ==> t.dev[i] == s.dev[i]
  }

  lemma PutSlice(d: seq<Sector>, at: nat, buf: seq<Sector>, lo: nat, hi: nat)
    requires lo <= at && at + |buf| <= hi <= |d|
    ensures Put(d, at, buf)[lo..hi] == Put(d[lo..hi], at - lo, buf)
  {
  }

  /** A request inside the RAM disk reaches the store if the image covers it. */
  lemma ThroughExactly(s: State, lba: Word, count: nat)
    requires Sane(lba, count) && |s.rd| < MAX_RD && Adopted(s) && RdRangeOk(s, lba, count)
    ensures ThroughTarget(s, lba, count)
         == if s.ready && count > 0 && lba - FS_DIR_LBA + count <= s.fs then Some(s.first + 1 + (lba - FS_DIR_LBA)) else None
    ensures s.ready && count > 0 && lba - FS_DIR_LBA + count <= s.fs ==> s.first + (lba - FS_DIR_LBA) + count <= s.last
    ensures lba >= FS_DIR_LBA && lba - FS_DIR_LBA + count <= |s.rd|
  {
    ThroughInside(s, lba, count);
    assert Wrap(lba - FS_DIR_LBA + count) == lba - FS_DIR_LBA + count;
  }

  /** A write changes no block outside the body. */
  lemma WriteStaysInside(s: State, lba: Word, buf: seq<Sector>)
    requires Sane(lba, |buf|) && |s.rd| < MAX_RD && Adopted(s)
    ensures SameOutside(s, DiskWrite(s, lba, buf)) && Adopted(DiskWrite(s, lba, buf))
  {
    if RdRangeOk(s, lba, |buf|) {
      ThroughExactly(s.(rd := Put(s.rd, lba - FS_DIR_LBA, buf)), lba, |buf|);
      hide ThroughTarget, Wrap, Wrap64;
    }
  }

  /** A write keeps the mirror. */
  lemma WriteMirrors(s: State, lba: Word, buf: seq<Sector>)
    requires Sane(lba, |buf|) && |s.rd| < MAX_RD && Mirror(s)
    ensures Mirror(DiskWrite(s, lba, buf))
  {
    if RdRangeOk(s, lba, |buf|) {
      var off := lba - FS_DIR_LBA;
      WriteBoth(s, lba, buf);
      hide DiskWrite, Wrap, Wrap64, Put, RdRangeOk, Sane;
      if |buf| == 0 {
        PutNothing(s.rd, off, buf);
      } else {
        PutSlice(s.dev, s.first + 1 + off, buf, s.first + 1, s.first + 1 + |s.rd|);
      }
    }
  }

  /** Where the mirror stands a write in range goes to both copies. */
  lemma WriteBoth(s: State, lba: Word, buf: seq<Sector>)
    requires Sane(lba, |buf|) && |s.rd| < MAX_RD && Mirror(s) && RdRangeOk(s, lba, |buf|)
    ensures var off := lba - FS_DIR_LBA;
            && off >= 0 && off + |buf| <= |s.rd|
            && DiskWrite(s, lba, buf)
            == s.(rd := Put(s.rd, off, buf), dev := if buf == [] then s.dev else Put(s.dev, s.first + 1 + off, buf))
  {
    ThroughExactly(s.(rd := Put(s.rd, lba - FS_DIR_LBA, buf)), lba, |buf|);
    hide ThroughTarget, Wrap, Wrap64, Put;
  }

  lemma PutNothing(d: seq<Sector>, at: nat, buf: seq<Sector>)
    requires at <= |d| && buf == []
    ensures Put(d, at, buf) == d
  {
  }

  // ----- runs -----

  datatype Write = Write(lba: Word, buf: seq<Sector>)

  predicate SaneAll(ws: seq<Write>) { forall i :: 0 <= i < |ws| ==> Sane(ws[i].lba, |ws[i].buf|) }

  function WriteAll(s: State, ws: seq<Write>): State
    requires SaneAll(ws) && |s.rd| < MAX_RD
    decreases |ws|
  {
    if ws == [] then s
    else
      assert forall i :: 0 <= i < |ws[1..]| ==> ws[1..][i] == ws[i + 1];
      var t := DiskWrite(s, ws[0].lba, ws[0].buf);
      assert |t.rd| == |s.rd|;
      WriteAll(t, ws[1..])
  }

  /** After any run of disk writes the store still mirrors the RAM disk. */
  lemma {:induction false} RunMirrors(s: State, ws: seq<Write>)
    requires SaneAll(ws) && |s.rd| < MAX_RD && Adopted(s)
    ensures SameOutside(s, WriteAll(s, ws))
    ensures Mirror(s) ==> Mirror(WriteAll(s, ws))
    decreases |ws|
  {
    if ws != [] {
      hide DiskWrite;
      WriteStaysInside(s, ws[0].lba, ws[0].buf);
      if Mirror(s) { WriteMirrors(s, ws[0].lba, ws[0].buf); }
      assert forall i :: 0 <= i < |ws[1..]| ==> ws[1..][i] == ws[i + 1];
      RunMirrors(DiskWrite(s, ws[0].lba, ws[0].buf), ws[1..]);
    }
  }

  // ----- the boot scan -----

  const MAGIC0: int := 0x494E494D
  const MAGIC1: int := 0x3233534F

  /** Undefined: the table entry is so short that its fields run past the sector. */
  datatype Found = Found(first: nat, last: nat, fs: Word) | NoStore | Undefined

  function Field64(s: Sector, off: nat): nat
    requires off + 8 <= 512
  {
    ReadWord(s, off) + TWO32 * ReadWord(s, off + 4)
  }

  /** The type GUID of an unused entry is all zero. */
  predicate UsedEntry(t: Sector, o: nat)
    requires o + 16 <= 512
  {
    exists b :: o <= b < o + 16 && t[b] != 0
  }

  /** An entry as the scan judges it; None means look further. */
  function Judge(dev: seq<Sector>, t: Sector, o: nat): Option<Found> {
    if o + 48 > 512 then Some(Undefined)
    else if !UsedEntry(t, o) then None
    else
      var first, last := Field64(t, o + 32), Field64(t, o + 40);
      if last <= first || first >= |dev| then None
      else
        var h := dev[first];
        if ReadWord(h, 0) != MAGIC0 || ReadWord(h, 4) != MAGIC1 || ReadWord(h, 8) != 1 then None
        else if 1 + ReadWord(h, 12) > Wrap64(last - first + 1) then Some(NoStore)
        else Some(Found(first, last, ReadWord(h, 12)))
  }

  /** Block and offset of entry `i` of the partition table. */
  function EntryBlock(table: nat, size: nat, i: nat): nat
    requires 0 < size <= 512
  {
    Wrap64(table + i / (512 / size))
  }

  function EntryOff(size: nat, i: nat): nat
    requires 0 < size <= 512
  {
    i % (512 / size) * size
  }

  function ScanFrom(dev: seq<Sector>, table: nat, entries: nat, size: nat, i: nat): Found
    requires 0 < size <= 512
    decreases entries - i
  {
    if i >= entries then NoStore
    else
      var at := EntryBlock(table, size, i);
      if at >= |dev| then NoStore
      else
        match Judge(dev, dev[at], EntryOff(size, i))
        case Some(f) => f
        case None => ScanFrom(dev, table, entries, size, i + 1)
  }

  const SIGNATURE: seq<Byte> := [0x45, 0x46, 0x49, 0x20, 0x50, 0x41, 0x52, 0x54]

  function Scan(dev: seq<Sector>): Found {
    if |dev| < 2 || dev[1][..8] != SIGNATURE then NoStore
    else
      var h := dev[1];
      if ReadWord(h, 84) == 0 || ReadWord(h, 84) > 512 || ReadWord(h, 80) > 512 then NoStore
      else ScanFrom(dev, Field64(h, 72), ReadWord(h, 80), ReadWord(h, 84), 0)
  }

  /** The partition an entry names does not start in [lo, hi). */
  predicate EntryClear(t: Sector, o: nat, lo: nat, hi: nat) {
    o + 48 <= 512 ==> !(lo <= Field64(t, o + 32) < hi)
  }

  /** No block the scan looks at before it stops lies in [lo, hi). */
  ghost predicate ClearFrom(dev: seq<Sector>, table: nat, entries: nat, size: nat, i: nat, lo: nat, hi: nat)
    requires 0 < size <= 512
    decreases entries - i
  {
    if i >= entries then true
    else
      var at := EntryBlock(table, size, i);
      if at >= |dev| then true
      else
        && !(lo <= at < hi) && EntryClear(dev[at], EntryOff(size, i), lo, hi)
        && (Judge(dev, dev[at], EntryOff(size, i)).Some? || ClearFrom(dev, table, entries, size, i + 1, lo, hi))
  }

  ghost predicate Clear(dev: seq<Sector>, lo: nat, hi: nat) {
    && lo > 1
    && (|dev| < 2 || dev[1][..8] != SIGNATURE || ReadWord(dev[1], 84) == 0 || ReadWord(dev[1], 84) > 512
        || ClearFrom(dev, Field64(dev[1], 72), ReadWord(dev[1], 80), ReadWord(dev[1], 84), 0, lo, hi))
  }

  lemma {:induction false} ScanFromSame(d: seq<Sector>, e: seq<Sector>, table: nat, entries: nat, size: nat, i: nat, lo: nat, hi: nat)
    requires 0 < size <= 512 && |d| == |e| && ClearFrom(d, table, entries, size, i, lo, hi)
    requires forall k :: 0 <= k < |d| && !(lo <= k < hi) ==> d[k] == e[k]
    ensures ScanFrom(e, table, entries, size, i) == ScanFrom(d, table, entries, size, i)
    decreases entries - i
  {
    hide Field64, ReadWord, UsedEntry, EntryBlock, EntryOff;
    if i < entries {
      var at := EntryBlock(table, size, i);
      if at < |d| {
        assert d[at] == e[at];
        assert Judge(e, d[at], EntryOff(size, i)) == Judge(d, d[at], EntryOff(size, i));
        if Judge(d, d[at], EntryOff(size, i)).None? { ScanFromSame(d, e, table, entries, size, i + 1, lo, hi); }
      }
    }
  }

  /** RAM disk contents after a boot that adopted the store. */
  function Restore(dev: seq<Sector>, f: Found, rd: seq<Sector>): Option<seq<Sector>>
    requires f.Found?
  {
    var n := if f.fs > |rd| then |rd| else f.fs;
    if n == 0 || f.first + 1 + n > |dev| then None
    else Some(dev[f.first + 1..f.first + 1 + n] + rd[n..])
  }

  /** A reboot from a mirrored state: the scan adopts the same partition and the
      copy it makes is the RAM disk, whatever the loader had put in memory. */
  lemma RestoresFrom(s: State, t: State, loaded: seq<Sector>)
    requires 0 < |s.rd| && |loaded| == |s.rd| && Mirror(t) && SameOutside(s, t)
    requires s.ready && Scan(s.dev) == Found(s.first, s.last, s.fs) && Clear(s.dev, s.first + 1, s.first + 1 + s.fs)
    ensures Scan(t.dev) == Found(s.first, s.last, s.fs) && Restore(t.dev, Scan(t.dev), loaded) == Some(t.rd)
  {
    hide ScanFrom, ClearFrom, ReadWord, Field64, Wrap64;
    assert t.dev[1] == s.dev[1];
    var h := s.dev[1];
    ScanFromSame(s.dev, t.dev, Field64(h, 72), ReadWord(h, 80), ReadWord(h, 84), 0, s.first + 1, s.first + 1 + s.fs);
    assert |t.rd| == |loaded| && t.dev[t.first + 1..t.first + 1 + |t.rd|] == t.rd;
    assert loaded[|loaded|..] == [] && t.rd + [] == t.rd;
  }

  /** A reboot after any run of disk writes brings the RAM disk back. */
  lemma RebootRestores(s: State, ws: seq<Write>, loaded: seq<Sector>)
    requires SaneAll(ws) && 0 < |s.rd| < MAX_RD && |loaded| == |s.rd|
    requires Mirror(s) && Scan(s.dev) == Found(s.first, s.last, s.fs) && Clear(s.dev, s.first + 1, s.first + 1 + s.fs)
    ensures var t := WriteAll(s, ws);
            && Scan(t.dev) == Found(s.first, s.last, s.fs)
            && Restore(t.dev, Scan(t.dev), loaded) == Some(t.rd)
  {
    hide Scan, Clear, WriteAll, Restore;
    RunMirrors(s, ws);
    RestoresFrom(s, WriteAll(s, ws), loaded);
  }
}
