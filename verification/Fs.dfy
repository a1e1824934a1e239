/** The flat filesystem: a directory of 256 entries cached in memory and written
    through to disk, files as extents of sectors, keys that ignore case and
    everything after the sixteenth character.
 */
module Fs {
  import opened Options
  import opened Word32
  import opened Store

  const ENTRIES := 256
  const NAME := 48

  type Bytes = seq<Byte>

  /** A directory entry with its raw, zero-padded name; a zero first byte marks a
      free slot. */
  datatype Entry = Entry(name: Bytes, start: Word, size: Word, flags: Word, reserved: Word)
  type Dirent = d: Entry | |d.name| == NAME witness Entry(seq(NAME, _ => 0), 0, 0, 0, 0)

  datatype Volume = Volume(dir: seq<Dirent>, disk: State)

  // ----- names -----

  function Upper(c: Byte): Byte { if 97 <= c <= 122 then c - 32 else c }

  function KeyUpto(s: Bytes, n: nat): (k: Bytes)
    ensures |k| <= n
    decreases n
  {
    if n == 0 || s == [] || s[0] == 0 then [] else [Upper(s[0])] + KeyUpto(s[1..], n - 1)
  }

  /** What identifies a file. */
  function Key(s: Bytes): Bytes { KeyUpto(s, 16) }

  /** `normalize_name` on a C string. */
  function Normal(s: Bytes): (r: Bytes)
    ensures |r| <= 47 && |r| <= |s|
  {
    NormalUpto(s, 47)
  }

  function NormalUpto(s: Bytes, n: nat): (r: Bytes)
    ensures |r| <= n && |r| <= |s|
    decreases n
  {
    if n == 0 || s == [] || s[0] == 0 then [] else [Upper(s[0])] + NormalUpto(s[1..], n - 1)
  }

  lemma {:induction false} NormalKeyUpto(s: Bytes, n: nat, m: nat)
    requires n <= m
    ensures KeyUpto(NormalUpto(s, m), n) == KeyUpto(s, n)
    decreases n
  {
    if n != 0 && s != [] && s[0] != 0 { NormalKeyUpto(s[1..], n - 1, m - 1); }
  }

  /** Normalising does not change which file a name means. */
  lemma NormalKey(s: Bytes)
    ensures Key(Normal(s)) == Key(s)
  {
    NormalKeyUpto(s, 16, 47);
  }

  /** A name as it is stored: cut to 47 characters and padded with zeros. */
  function Stored(s: Bytes): (r: Bytes)
    requires |s| <= 47
    ensures |r| == NAME
  {
    s + seq(NAME - |s|, _ => 0)
  }

  lemma {:induction false} KeyPadded(s: Bytes, z: nat, n: nat)
    ensures KeyUpto(s + seq(z, _ => 0), n) == KeyUpto(s, n)
    decreases |s|
  {
    var p: Bytes := s + seq(z, _ => 0);
    if s != [] {
      assert p[1..] == s[1..] + seq(z, _ => 0);
      if n > 0 { KeyPadded(s[1..], z, n - 1); }
    }
  }

  // ----- the directory on disk -----

  function EntryBytes(d: Dirent): (b: Bytes)
    ensures |b| == 64
  {
    d.name + Bytes4(d.start) + Bytes4(d.size) + Bytes4(d.flags) + Bytes4(d.reserved)
  }

  function ParseEntry(b: Bytes): Dirent
    requires |b| == 64
  {
    Entry(b[..48], ReadWord(b, 48), ReadWord(b, 52), ReadWord(b, 56), ReadWord(b, 60))
  }

  lemma ReadInside(b: Bytes, at: nat, v: Word)
    requires at + 4 <= |b| && b[at..at + 4] == Bytes4(v)
    ensures ReadWord(b, at) == v
  {
    ReadBytes4(v);
    var c := b[at..at + 4];
    assert ReadWord(b, at) == ReadWord(c, 0);
  }

  lemma EntryRound(d: Dirent)
    ensures ParseEntry(EntryBytes(d)) == d
  {
    hide Bytes4, ReadWord;
    var b := EntryBytes(d);
    assert b[..48] == d.name;
    assert b[48..52] == Bytes4(d.start) && b[52..56] == Bytes4(d.size);
    assert b[56..60] == Bytes4(d.flags) && b[60..64] == Bytes4(d.reserved);
    ReadInside(b, 48, d.start);
    ReadInside(b, 52, d.size);
    ReadInside(b, 56, d.flags);
    ReadInside(b, 60, d.reserved);
  }

  /** Sector `j` holds entries 8j to 8j+7. */
  function DirSector(dir: seq<Dirent>, j: nat): Sector
    requires 8 * j + 8 <= |dir|
  {
    EntryBytes(dir[8 * j]) + EntryBytes(dir[8 * j + 1]) + EntryBytes(dir[8 * j + 2]) + EntryBytes(dir[8 * j + 3])
    + EntryBytes(dir[8 * j + 4]) + EntryBytes(dir[8 * j + 5]) + EntryBytes(dir[8 * j + 6]) + EntryBytes(dir[8 * j + 7])
  }

  function DirSectors(dir: seq<Dirent>): (r: seq<Sector>)
    requires |dir| == ENTRIES
    ensures |r| == DIR_SECTORS
  {
    seq(DIR_SECTORS, j requires 0 <= j < DIR_SECTORS => DirSector(dir, j))
  }

  function ParseDir(ss: seq<Sector>): (r: seq<Dirent>)
    requires |ss| == DIR_SECTORS
    ensures |r| == ENTRIES
  {
    seq(ENTRIES, i requires 0 <= i < ENTRIES => ParseEntry(ss[i / 8][i % 8 * 64..i % 8 * 64 + 64]))
  }

  lemma SectorEntry(dir: seq<Dirent>, j: nat, k: nat)
    requires 8 * j + 8 <= |dir| && k < 8
    ensures DirSector(dir, j)[k * 64..k * 64 + 64] == EntryBytes(dir[8 * j + k])
  {
    hide EntryBytes;
    var s := DirSector(dir, j);
    if k == 0 { assert s[0..64] == EntryBytes(dir[8 * j]); }
    else if k == 1 { assert s[64..128] == EntryBytes(dir[8 * j + 1]); }
    else if k == 2 { assert s[128..192] == EntryBytes(dir[8 * j + 2]); }
    else if k == 3 { assert s[192..256] == EntryBytes(dir[8 * j + 3]); }
    else if k == 4 { assert s[256..320] == EntryBytes(dir[8 * j + 4]); }
    else if k == 5 { assert s[320..384] == EntryBytes(dir[8 * j + 5]); }
    else if k == 6 { assert s[384..448] == EntryBytes(dir[8 * j + 6]); }
    else { assert s[448..512] == EntryBytes(dir[8 * j + 7]); }
  }

  /** Reading back the directory sectors gives the cached directory. */
  lemma DirRound(dir: seq<Dirent>)
    requires |dir| == ENTRIES
    ensures ParseDir(DirSectors(dir)) == dir
  {
    hide EntryBytes, ParseEntry, DirSector;
    var ss := DirSectors(dir);
    forall i | 0 <= i < ENTRIES ensures ParseDir(ss)[i] == dir[i] {
      assert i == 8 * (i / 8) + i % 8;
      SectorEntry(dir, i / 8, i % 8);
      EntryRound(dir[i]);
    }
  }

  // ----- lookup and allocation -----

  predicate Live(d: Dirent) { d.name[0] != 0 }

  /** First live entry from `i` on with the key. */
  function FindFrom(dir: seq<Dirent>, key: Bytes, i: nat): (r: Option<nat>)
    ensures r.Some? ==> i <= r.value < |dir| && Live(dir[r.value]) && Key(dir[r.value].name) == key
    ensures r.None? ==> forall k :: i <= k < |dir| && Live(dir[k]) ==> Key(dir[k].name) != key
    decreases |dir| - i
  {
    if i >= |dir| then None
    else if Live(dir[i]) && Key(dir[i].name) == key then Some(i)
    else FindFrom(dir, key, i + 1)
  }

  function Find(dir: seq<Dirent>, key: Bytes): (r: Option<nat>) { FindFrom(dir, key, 0) }

  function FreeFrom(dir: seq<Dirent>, i: nat): (r: Option<nat>)
    ensures r.Some? ==> i <= r.value < |dir| && !Live(dir[r.value])
    decreases |dir| - i
  {
    if i >= |dir| then None else if !Live(dir[i]) then Some(i) else FreeFrom(dir, i + 1)
  }

  function Sectors(size: nat): nat { (size + 511) / 512 }

  function End(d: Dirent): nat { d.start + Sectors(d.size) }

  /** First sector after every live file other than `excl`. */
  function NextFreeUpto(dir: seq<Dirent>, excl: Option<nat>, n: nat): (m: nat)
    requires n <= |dir|
    ensures m >= FS_DATA_LBA
    ensures forall k :: 0 <= k < n && Live(dir[k]) && Some(k) != excl ==> End(dir[k]) <= m
    ensures m == FS_DATA_LBA || exists k :: 0 <= k < n && Live(dir[k]) && End(dir[k]) == m
  {
    if n == 0 then FS_DATA_LBA
    else
      var m := NextFreeUpto(dir, excl, n - 1);
      if Live(dir[n - 1]) && Some(n - 1) != excl && End(dir[n - 1]) > m then End(dir[n - 1]) else m
  }

  lemma NextFreeNone(dir: seq<Dirent>, excl: Option<nat>)
    ensures NextFreeUpto(dir, excl, 0) == FS_DATA_LBA
  {
  }

  lemma NextFreeOne(dir: seq<Dirent>, excl: Option<nat>, k: nat)
    requires k < |dir|
    ensures var m := NextFreeUpto(dir, excl, k);
            NextFreeUpto(dir, excl, k + 1) == if Live(dir[k]) && Some(k) != excl && End(dir[k]) > m then End(dir[k]) else m
  {
  }

  // ----- file contents -----

  function Flat(ss: seq<Sector>): (b: Bytes)
    ensures |b| == 512 * |ss|
  {
    if ss == [] then [] else ss[0] + Flat(ss[1..])
  }

  function Chop(b: Bytes): (ss: seq<Sector>)
    requires |b| % 512 == 0
    ensures 512 * |ss| == |b|
    decreases |b|
  {
    if b == [] then [] else [b[..512]] + Chop(b[512..])
  }

  lemma {:induction false} FlatChop(b: Bytes)
    requires |b| % 512 == 0
    ensures Flat(Chop(b)) == b
    decreases |b|
  {
    if b != [] {
      FlatChop(b[512..]);
      assert Chop(b)[1..] == Chop(b[512..]);
      assert b[..512] + b[512..] == b;
    }
  }

  lemma {:induction false} FlatCat(a: seq<Sector>, b: seq<Sector>)
    ensures Flat(a + b) == Flat(a) + Flat(b)
    decreases |a|
  {
    if a == [] {
      assert a + b == b;
    } else {
      assert (a + b)[1..] == a[1..] + b;
      FlatCat(a[1..], b);
    }
  }

  predicate Inside(disk: State, d: Dirent) { FS_DATA_LBA <= d.start && End(d) <= FS_DIR_LBA + |disk.rd| }

  /** Contents as `fs_read` assembles them: whole sectors, then the front of the
      last one. */
  function Content(disk: State, d: Dirent): (b: Bytes)
    requires |disk.rd| < MAX_RD && End(d) < TWO32
    ensures |b| == d.size
  {
    var full, rem := d.size / 512, d.size % 512;
    Flat(DiskRead(disk, d.start, full)) + (if rem > 0 then DiskRead(disk, d.start + full, 1)[0][..rem] else [])
  }

  lemma ReadInRange(disk: State, lba: Word, count: nat)
    requires |disk.rd| < MAX_RD && lba >= FS_DIR_LBA && lba - FS_DIR_LBA + count <= |disk.rd|
    ensures Sane(lba, count) && DiskRead(disk, lba, count) == disk.rd[lba - FS_DIR_LBA..lba - FS_DIR_LBA + count]
  {
    assert Wrap(lba - FS_DIR_LBA + count) == lba - FS_DIR_LBA + count;
  }

  lemma FlatFront(ss: seq<Sector>, full: nat, rem: nat)
    requires 0 < rem < 512 && full < |ss|
    ensures Flat(ss[..full]) + ss[full][..rem] == Flat(ss[..full + 1])[..512 * full + rem]
  {
    assert ss[..full + 1] == ss[..full] + [ss[full]];
    FlatCat(ss[..full], [ss[full]]);
    FlatOne([ss[full]]);
  }

  lemma SectorsIs(size: nat)
    ensures Sectors(size) == size / 512 + (if size % 512 > 0 then 1 else 0) && size == 512 * (size / 512) + size % 512
  {
  }

  /** The sectors of a file inside the RAM disk. */
  lemma ContentIs(disk: State, d: Dirent)
    requires |disk.rd| < MAX_RD && Inside(disk, d)
    ensures var off := d.start - FS_DIR_LBA;
            Content(disk, d) == Flat(disk.rd[off..off + Sectors(d.size)])[..d.size]
  {
    hide DiskRead, Flat, Sectors;
    SectorsIs(d.size);
    var full, rem := d.size / 512, d.size % 512;
    var off := d.start - FS_DIR_LBA;
    var n := Sectors(d.size);
    var ss := disk.rd[off..off + n];
    ReadInRange(disk, d.start, full);
    assert ss[..full] == disk.rd[off..off + full];
    if rem > 0 {
      ReadInRange(disk, d.start + full, 1);
      assert ss[..full + 1] == ss && ss[full] == disk.rd[off + full];
      FlatFront(ss, full, rem);
    }
  }

  lemma FlatOne(ss: seq<Sector>)
    requires |ss| == 1
    ensures Flat(ss) == ss[0]
  {
    assert ss[1..] == [];
    assert Flat(ss) == ss[0] + Flat([]);
  }

  // ----- the invariant -----

  /** Live files have different keys. */
  ghost predicate KeysUnique(dir: seq<Dirent>) {
    forall i, j :: 0 <= i < j < |dir| && Live(dir[i]) && Live(dir[j]) ==> Key(dir[i].name) != Key(dir[j].name)
  }

  predicate Apart(a: Dirent, b: Dirent) { End(a) <= b.start || End(b) <= a.start }

  /** Live extents lie in the data area of the disk and do not overlap. */
  ghost predicate ExtentsApart(dir: seq<Dirent>, disk: State) {
    && (forall i :: 0 <= i < |dir| && Live(dir[i]) ==> Inside(disk, dir[i]))
    && (forall i, j :: 0 <= i < |dir| && 0 <= j < |dir| && i != j && Live(dir[i]) && Live(dir[j]) ==> Apart(dir[i], dir[j]))
  }

  /** The directory on disk is the cached one. */
  predicate Synced(v: Volume)
    requires |v.dir| == ENTRIES
  {
    |v.disk.rd| >= DIR_SECTORS && v.disk.rd[..DIR_SECTORS] == DirSectors(v.dir)
  }

  ghost predicate Inv(v: Volume) {
    && |v.dir| == ENTRIES && |v.disk.rd| < MAX_RD && Adopted(v.disk)
    && KeysUnique(v.dir) && ExtentsApart(v.dir, v.disk) && Synced(v)
  }

  /** The map a volume stands for. */
  ghost function FileOf(v: Volume, key: Bytes): Option<Bytes>
    requires Inv(v)
  {
    match Find(v.dir, key)
    case Some(i) => Some(Content(v.disk, v.dir[i]))
    case None => None
  }

  /** With unique keys any live entry with the key is the one found. */
  lemma FindIs(dir: seq<Dirent>, i: nat)
    requires KeysUnique(dir) && i < |dir| && Live(dir[i])
    ensures Find(dir, Key(dir[i].name)) == Some(i)
  {
  }

  /** The name of a live entry is not empty, so the empty key finds nothing. */
  lemma EmptyKey(dir: seq<Dirent>)
    ensures Find(dir, []) == None
  {
  }

  // ----- operations -----

  datatype Outcome = Outcome(vol: Volume, code: int)

  function Sync(v: Volume): Volume
    requires |v.dir| == ENTRIES && |v.disk.rd| < MAX_RD
  {
    v.(disk := DiskWrite(v.disk, FS_DIR_LBA, DirSectors(v.dir)))
  }

  /** Sectors where `fs_write` puts `size` bytes for entry `idx`. */
  function Place(dir: seq<Dirent>, idx: nat, size: nat): nat
    requires idx < |dir|
  {
    if Live(dir[idx]) then
      if Sectors(size) <= Sectors(dir[idx].size) then dir[idx].start else NextFreeUpto(dir, Some(idx), |dir|)
    else NextFreeUpto(dir, None, |dir|)
  }

  function Slot(dir: seq<Dirent>, key: Bytes): Option<nat> {
    match Find(dir, key) case Some(i) => Some(i) case None => FreeFrom(dir, 0)
  }

  /** Bytes up to the end of the last sector are written from whatever follows
      the caller's buffer. */
  predicate Fills(data: Bytes, slack: Bytes) { |data| <= 0x400_0000 && |data| + |slack| == 512 * Sectors(|data|) }

  /** The sectors written for a file. */
  function Padded(data: Bytes, slack: Bytes): (buf: seq<Sector>)
    requires Fills(data, slack)
    ensures |buf| == Sectors(|data|) <= 0x2_0000 && Flat(buf) == data + slack
  {
    FlatChop(data + slack);
    Chop(data + slack)
  }

  function NewEntry(d: Dirent, name: Bytes, start: Word, size: Word): Dirent
    requires |name| <= 47
  {
    Entry(Stored(name), start, size, 0, d.reserved)
  }

  /** `fs_write`. */
  function Save(v: Volume, name: Bytes, data: Bytes, slack: Bytes): Outcome
    requires |name| <= 47 && Fills(data, slack) && |v.dir| == ENTRIES && |v.disk.rd| < MAX_RD
    requires Slot(v.dir, Key(name)).Some? ==> Place(v.dir, Slot(v.dir, Key(name)).value, |data|) < MAX_RD * 2
  {
    match Slot(v.dir, Key(name))
    case None => Outcome(v, -1)
    case Some(i) =>
      var start := Place(v.dir, i, |data|);
      var disk := DiskWrite(v.disk, start, Padded(data, slack));
      Outcome(Sync(Volume(v.dir[i := NewEntry(v.dir[i], name, start, |data|)], disk)), 0)
  }

  /** `SYS_DELETE`. */
  function Delete(v: Volume, name: Bytes): Outcome
    requires |v.dir| == ENTRIES && |v.disk.rd| < MAX_RD
  {
    match Find(v.dir, Key(name))
    case None => Outcome(v, -1)
    case Some(i) => Outcome(Sync(v.(dir := v.dir[i := Entry(seq(NAME, _ => 0), 0, 0, 0, 0)])), 0)
  }

  /** `SYS_RENAME`. */
  function Rename(v: Volume, old_: Bytes, new_: Bytes): Outcome
    requires |new_| <= 47 && |v.dir| == ENTRIES && |v.disk.rd| < MAX_RD
  {
    match Find(v.dir, Key(old_))
    case None => Outcome(v, -1)
    case Some(i) =>
      if Find(v.dir, Key(new_)).Some? then Outcome(v, -1)
      else Outcome(Sync(v.(dir := v.dir[i := v.dir[i].(name := Stored(new_))])), 0)
  }

  // ----- effect on the disk -----

  /** Writing in range replaces exactly those sectors. */
  lemma WriteInRange(disk: State, lba: Word, buf: seq<Sector>)
    requires |disk.rd| < MAX_RD && Adopted(disk) && lba >= FS_DIR_LBA && lba - FS_DIR_LBA + |buf| <= |disk.rd|
    ensures Sane(lba, |buf|) && DiskWrite(disk, lba, buf).rd == Put(disk.rd, lba - FS_DIR_LBA, buf)
    ensures Adopted(DiskWrite(disk, lba, buf))
  {
    assert Wrap(lba - FS_DIR_LBA + |buf|) == lba - FS_DIR_LBA + |buf|;
    hide ThroughTarget;
  }

  lemma PutElsewhere(d: seq<Sector>, at: nat, buf: seq<Sector>, lo: nat, hi: nat)
    requires at + |buf| <= |d| && lo <= hi <= |d| && (hi <= at || at + |buf| <= lo)
    ensures Put(d, at, buf)[lo..hi] == d[lo..hi]
  {
  }

  lemma PutHere(d: seq<Sector>, at: nat, buf: seq<Sector>)
    requires at + |buf| <= |d|
    ensures Put(d, at, buf)[at..at + |buf|] == buf
  {
  }

  /** A write that misses a file's sectors leaves its contents alone. */
  lemma ContentKept(disk: State, t: State, d: Dirent, at: nat, buf: seq<Sector>)
    requires |disk.rd| < MAX_RD && Inside(disk, d) && at + |buf| <= |disk.rd| && t.rd == Put(disk.rd, at, buf)
    requires End(d) - FS_DIR_LBA <= at || at + |buf| <= d.start - FS_DIR_LBA
    ensures Inside(t, d) && Content(t, d) == Content(disk, d)
  {
    hide Content, Flat;
    ContentIs(disk, d);
    ContentIs(t, d);
    PutElsewhere(disk.rd, at, buf, d.start - FS_DIR_LBA, End(d) - FS_DIR_LBA);
  }

  /** Writing the directory back: files keep their contents and the disk agrees. */
  lemma SyncKeeps(v: Volume)
    requires |v.dir| == ENTRIES && DIR_SECTORS <= |v.disk.rd| < MAX_RD && Adopted(v.disk)
    ensures var w := Sync(v);
            && Synced(w) && w.dir == v.dir && |w.disk.rd| == |v.disk.rd| && Adopted(w.disk)
            && forall d: Dirent :: Inside(v.disk, d) ==> Inside(w.disk, d) && Content(w.disk, d) == Content(v.disk, d)
  {
    var buf := DirSectors(v.dir);
    WriteInRange(v.disk, FS_DIR_LBA, buf);
    PutHere(v.disk.rd, 0, buf);
    var w := Sync(v);
    hide Content, DirSectors, Put, DiskWrite;
    forall d: Dirent | Inside(v.disk, d) ensures Inside(w.disk, d) && Content(w.disk, d) == Content(v.disk, d) {
      ContentKept(v.disk, w.disk, d, 0, buf);
    }
  }

  // ----- delete and rename -----

  lemma ReplaceFound(dir: seq<Dirent>, i: nat, d: Dirent, key: Bytes)
    requires KeysUnique(dir) && i < |dir| && KeysUnique(dir[i := d])
    ensures Find(dir[i := d], key) ==
            if Live(d) && Key(d.name) == key then Some(i)
            else if Find(dir, key) == Some(i) then None
            else Find(dir, key)
  {
    var e := dir[i := d];
    if Live(d) && Key(d.name) == key {
      FindIs(e, i);
    } else if Find(dir, key).Some? && Find(dir, key) != Some(i) {
      var j := Find(dir, key).value;
      assert e[j] == dir[j];
      FindIs(e, j);
    }
  }

  /** Deleting removes exactly that file. */
  lemma DeleteKeeps(v: Volume, name: Bytes)
    requires Inv(v)
    ensures var o := Delete(v, name);
            && Inv(o.vol) && (o.code == 0 <==> FileOf(v, Key(name)).Some?) && (o.code != 0 ==> o.vol == v)
            && forall k :: FileOf(o.vol, k) == if k == Key(name) then None else FileOf(v, k)
  {
    hide Content, DirSectors, Sync, Key;
    match Find(v.dir, Key(name))
    case None =>
    case Some(i) =>
      var d := Entry(seq(NAME, _ => 0), 0, 0, 0, 0);
      var u := v.(dir := v.dir[i := d]);
      SyncKeeps(u);
      var w := Sync(u);
      assert KeysUnique(w.dir) && ExtentsApart(w.dir, w.disk);
      FindIs(v.dir, i);
      forall k | true ensures FileOf(w, k) == if k == Key(name) then None else FileOf(v, k) {
        ReplaceFound(v.dir, i, d, k);
      }
  }

  lemma StoredKey(name: Bytes)
    requires |name| <= 47
    ensures Key(Stored(name)) == Key(name) && (Stored(name)[0] != 0 <==> Key(name) != [])
  {
    KeyPadded(name, NAME - |name|, 16);
  }

  /** The extent chosen for a file misses every other live file. */
  lemma PlaceApart(v: Volume, i: nat, size: nat, j: nat)
    requires Inv(v) && i < ENTRIES && j < ENTRIES && j != i && Live(v.dir[j])
    ensures var start := Place(v.dir, i, size); End(v.dir[j]) <= start || start + Sectors(size) <= v.dir[j].start
  {
    hide Sectors, DirSectors;
    assert Live(v.dir[i]) ==> Apart(v.dir[i], v.dir[j]);
  }

  lemma PlaceBound(v: Volume, i: nat, size: nat)
    requires Inv(v) && i < ENTRIES
    ensures FS_DATA_LBA <= Place(v.dir, i, size) <= FS_DIR_LBA + |v.disk.rd|
  {
    hide Sectors, DirSectors;
  }

  /** What `fs_write` asks of the disk does not wrap around 2^32, whether or not
      the disk has room for it. */
  lemma SavesDoNotWrap(v: Volume, i: nat, data: Bytes, slack: Bytes)
    requires Inv(v) && i < ENTRIES && Fills(data, slack)
    ensures Sane(Place(v.dir, i, |data|), |Padded(data, slack)|)
  {
    PlaceBound(v, i, |data|);
  }

  /** There is room for the data where the allocator puts it. */
  ghost predicate Fits(v: Volume, name: Bytes, size: nat)
    requires Inv(v)
  {
    match Slot(v.dir, Key(name))
    case None => true
    case Some(i) => Place(v.dir, i, size) + Sectors(size) <= FS_DIR_LBA + |v.disk.rd|
  }

  lemma SlotPlace(v: Volume, name: Bytes, size: nat)
    requires Inv(v)
    ensures Slot(v.dir, Key(name)).Some? ==> Slot(v.dir, Key(name)).value < ENTRIES && Place(v.dir, Slot(v.dir, Key(name)).value, size) < MAX_RD * 2
  {
    if Slot(v.dir, Key(name)).Some? { PlaceBound(v, Slot(v.dir, Key(name)).value, size); }
  }

  /** The new contents, read back. */
  lemma ContentNew(disk: State, t: State, d: Dirent, data: Bytes, slack: Bytes)
    requires |disk.rd| < MAX_RD && Fills(data, slack) && d.size == |data| && Inside(disk, d)
    requires t.rd == Put(disk.rd, d.start - FS_DIR_LBA, Padded(data, slack))
    ensures Inside(t, d) && Content(t, d) == data
  {
    hide Content, Flat, Padded, Sectors;
    var buf := Padded(data, slack);
    ContentIs(t, d);
    PutHere(disk.rd, d.start - FS_DIR_LBA, buf);
  }

  /** The directory after a save still has unique keys and separate extents. */
  lemma SaveDir(v: Volume, name: Bytes, size: Word, start: Word, d: Dirent, disk: State, i: nat)
    requires Inv(v) && |name| <= 47 && Slot(v.dir, Key(name)) == Some(i) && i < ENTRIES && |disk.rd| == |v.disk.rd|
    requires start == Place(v.dir, i, size) && start + Sectors(size) <= FS_DIR_LBA + |v.disk.rd|
    requires d == NewEntry(v.dir[i], name, start, size)
    ensures (Live(d) <==> Key(name) != []) && Key(d.name) == Key(name) && Inside(disk, d)
    ensures KeysUnique(v.dir[i := d]) && ExtentsApart(v.dir[i := d], disk)
  {
    hide Key, Stored, DirSectors, KeysUnique, ExtentsApart, Synced, Slot, Place, Sectors;
    PlaceBound(v, i, size);
    StoredKey(name);
    KeysStay(v, name, i, d);
    ExtentsStay(v, size, d, disk, i);
  }

  lemma ExtentsStay(v: Volume, size: Word, d: Dirent, disk: State, i: nat)
    requires Inv(v) && i < ENTRIES && |disk.rd| == |v.disk.rd|
    requires d.start == Place(v.dir, i, size) && d.size == size && Inside(disk, d)
    ensures ExtentsApart(v.dir[i := d], disk)
  {
    var dir := v.dir[i := d];
    hide Sectors, DirSectors, Place, KeysUnique, Synced;
    forall h, j | 0 <= h < |dir| && 0 <= j < |dir| && h != j && Live(dir[h]) && Live(dir[j]) ensures Apart(dir[h], dir[j]) {
      if h == i { PlaceApart(v, i, size, j); } else if j == i { PlaceApart(v, i, size, h); }
    }
  }

  lemma KeysStay(v: Volume, name: Bytes, i: nat, d: Dirent)
    requires Inv(v) && Slot(v.dir, Key(name)) == Some(i) && i < ENTRIES && Key(d.name) == Key(name)
    ensures KeysUnique(v.dir[i := d])
  {
    var dir := v.dir[i := d];
    hide Key, DirSectors, Slot, ExtentsApart, Synced;
    forall h, j | 0 <= h < j < |dir| && Live(dir[h]) && Live(dir[j]) ensures Key(dir[h].name) != Key(dir[j].name) {
      assert h != i ==> dir[h] == v.dir[h];
      assert j != i ==> dir[j] == v.dir[j];
      if h == i || j == i {
        SlotOthers(v, name, i, if h == i then j else h);
      }
    }
  }

  lemma SlotOthers(v: Volume, name: Bytes, i: nat, o: nat)
    requires Inv(v) && Slot(v.dir, Key(name)) == Some(i) && o < ENTRIES && o != i && Live(v.dir[o])
    ensures Key(v.dir[o].name) != Key(name)
  {
    if Key(v.dir[o].name) == Key(name) { FindIs(v.dir, o); }
  }

  /** Saving replaces or adds exactly that file, with exactly the bytes given,
      as long as the disk has room; saving under the empty name changes no file,
      and a full directory changes nothing. */
  lemma SaveKeeps(v: Volume, name: Bytes, data: Bytes, slack: Bytes)
    requires Inv(v) && |name| <= 47 && Fills(data, slack) && Fits(v, name, |data|)
    ensures Slot(v.dir, Key(name)).Some? ==> Place(v.dir, Slot(v.dir, Key(name)).value, |data|) < MAX_RD * 2
    ensures var o := Save(v, name, data, slack);
            && Inv(o.vol) && (o.code == 0 <==> Slot(v.dir, Key(name)).Some?) && (o.code != 0 ==> o.vol == v)
            && forall k :: FileOf(o.vol, k) == if o.code == 0 && k == Key(name) && k != [] then Some(data) else FileOf(v, k)
  {
    hide Content, DirSectors, Sync, Key, Padded, Place, DiskWrite, Put, Stored;
    SlotPlace(v, name, |data|);
    match Slot(v.dir, Key(name))
    case None =>
    case Some(i) =>
      var start := Place(v.dir, i, |data|);
      PlaceBound(v, i, |data|);
      var buf := Padded(data, slack);
      WriteInRange(v.disk, start, buf);
      var disk := DiskWrite(v.disk, start, buf);
      assert |disk.rd| == |v.disk.rd| by { PutLength(v.disk.rd, start - FS_DIR_LBA, buf); }
      var d := NewEntry(v.dir[i], name, start, |data|);
      SaveDir(v, name, |data|, start, d, disk, i);
      ContentNew(v.disk, disk, d, data, slack);
      SyncKeeps(Volume(v.dir[i := d], disk));
      var o := Save(v, name, data, slack);
      assert ExtentsApart(o.vol.dir, o.vol.disk);
      forall k | true ensures FileOf(o.vol, k) == if k == Key(name) && k != [] then Some(data) else FileOf(v, k) {
        SaveLooks(v, name, data, slack, i, start, disk, o.vol, k);
      }
  }

  lemma PutLength(d: seq<Sector>, at: nat, buf: seq<Sector>)
    requires at + |buf| <= |d|
    ensures |Put(d, at, buf)| == |d|
  {
  }

  /** One key after a save. */
  lemma SaveLooks(v: Volume, name: Bytes, data: Bytes, slack: Bytes, i: nat, start: Word, disk: State, w: Volume, k: Bytes)
    requires Inv(v) && |name| <= 47 && Fills(data, slack) && Slot(v.dir, Key(name)) == Some(i) && i < ENTRIES
    requires start == Place(v.dir, i, |data|) && FS_DATA_LBA <= start && start + Sectors(|data|) <= FS_DIR_LBA + |v.disk.rd|
    requires disk.rd == Put(v.disk.rd, start - FS_DIR_LBA, Padded(data, slack)) && |disk.rd| == |v.disk.rd|
    requires Inv(w) && w.dir == v.dir[i := NewEntry(v.dir[i], name, start, |data|)]
    requires forall d: Dirent :: Inside(disk, d) ==> Inside(w.disk, d) && Content(w.disk, d) == Content(disk, d)
    ensures FileOf(w, k) == if k == Key(name) && k != [] then Some(data) else FileOf(v, k)
  {
    hide Content, DirSectors, Key, Padded, Place, Put, Stored, Sectors;
    var d := NewEntry(v.dir[i], name, start, |data|);
    SaveDir(v, name, |data|, start, d, disk, i);
    ContentNew(v.disk, disk, d, data, slack);
    ReplaceFound(v.dir, i, d, k);
    EmptyKey(v.dir);
    var f := Find(v.dir, k);
    if k == Key(name) {
      if f.Some? { FindSlot(v, name, i); }
    } else if f.Some? {
      var j := f.value;
      if j == i { SlotLive(v, name, i); }
      PlaceApart(v, i, |data|, j);
      ContentKept(v.disk, disk, v.dir[j], start - FS_DIR_LBA, Padded(data, slack));
    }
  }

  lemma FindSlot(v: Volume, name: Bytes, i: nat)
    requires Slot(v.dir, Key(name)) == Some(i) && Find(v.dir, Key(name)).Some?
    ensures Find(v.dir, Key(name)) == Some(i)
  {
  }

  lemma SlotLive(v: Volume, name: Bytes, i: nat)
    requires Slot(v.dir, Key(name)) == Some(i) && i < |v.dir| && Live(v.dir[i])
    ensures Key(v.dir[i].name) == Key(name)
  {
  }

  /** Renaming moves the bytes to the new key; renaming to the empty name
      deletes the file. */
  lemma RenameKeeps(v: Volume, old_: Bytes, new_: Bytes)
    requires Inv(v) && |new_| <= 47
    ensures var o := Rename(v, old_, new_);
            && Inv(o.vol) && (o.code == 0 <==> FileOf(v, Key(old_)).Some? && FileOf(v, Key(new_)).None?) && (o.code != 0 ==> o.vol == v)
            && forall k :: FileOf(o.vol, k) ==
                 if o.code != 0 then FileOf(v, k)
                 else if k == Key(new_) && k != [] then FileOf(v, Key(old_))
                 else if k == Key(old_) then None
                 else FileOf(v, k)
  {
    hide Content, DirSectors, Sync, Key, Stored;
    match Find(v.dir, Key(old_))
    case None =>
    case Some(i) =>
      if Find(v.dir, Key(new_)).None? {
        var d := v.dir[i].(name := Stored(new_));
        StoredKey(new_);
        var u := v.(dir := v.dir[i := d]);
        RenameDir(v, new_, i);
        SyncKeeps(u);
        var w := Sync(u);
        FindIs(v.dir, i);
        assert Inside(v.disk, d) && Content(v.disk, d) == Content(v.disk, v.dir[i]) by { SameExtent(v.disk, v.dir[i], d); }
        forall k | true
          ensures FileOf(w, k) == if k == Key(new_) && k != [] then FileOf(v, Key(old_)) else if k == Key(old_) then None else FileOf(v, k)
        {
          ReplaceFound(v.dir, i, d, k);
          EmptyKey(v.dir);
        }
      }
  }

  lemma SameExtent(disk: State, d: Dirent, e: Dirent)
    requires |disk.rd| < MAX_RD && Inside(disk, d) && e.start == d.start && e.size == d.size
    ensures Inside(disk, e) && Content(disk, e) == Content(disk, d)
  {
  }

  lemma RenameDir(v: Volume, new_: Bytes, i: nat)
    requires Inv(v) && |new_| <= 47 && i < ENTRIES && Live(v.dir[i]) && Find(v.dir, Key(new_)).None?
    ensures var dir := v.dir[i := v.dir[i].(name := Stored(new_))]; KeysUnique(dir) && ExtentsApart(dir, v.disk)
  {
    hide Key, DirSectors, Stored;
    StoredKey(new_);
    var dir := v.dir[i := v.dir[i].(name := Stored(new_))];
    forall h, j | 0 <= h < j < |dir| && Live(dir[h]) && Live(dir[j]) ensures Key(dir[h].name) != Key(dir[j].name) {
      assert h != i ==> dir[h] == v.dir[h];
      assert j != i ==> dir[j] == v.dir[j];
    }
    forall h, j | 0 <= h < |dir| && 0 <= j < |dir| && h != j && Live(dir[h]) && Live(dir[j]) ensures Apart(dir[h], dir[j]) {
      assert Apart(v.dir[h], v.dir[j]);
    }
  }

  // ----- when the disk is full -----

  /** Without room the bytes never reach the disk: what is stored does not depend
      on them. */
  lemma SaveLoses(v: Volume, name: Bytes, data: Bytes, slack: Bytes, data': Bytes, slack': Bytes)
    requires Inv(v) && |name| <= 47 && Fills(data, slack) && Fills(data', slack') && |data| == |data'| && !Fits(v, name, |data|)
    ensures Place(v.dir, Slot(v.dir, Key(name)).value, |data|) < MAX_RD * 2
    ensures Save(v, name, data, slack) == Save(v, name, data', slack')
  {
    hide Content, DirSectors, Sync, Key, Place, Stored;
    SlotPlace(v, name, |data|);
    var i := Slot(v.dir, Key(name)).value;
    PlaceBound(v, i, |data|);
    WriteDropped(v.disk, Place(v.dir, i, |data|), Padded(data, slack));
    WriteDropped(v.disk, Place(v.dir, i, |data|), Padded(data', slack'));
  }

  lemma WriteDropped(disk: State, lba: Word, buf: seq<Sector>)
    requires |disk.rd| < MAX_RD && FS_DIR_LBA <= lba && Sane(lba, |buf|) && lba + |buf| > FS_DIR_LBA + |disk.rd|
    ensures DiskWrite(disk, lba, buf) == disk
  {
    assert Wrap(lba - FS_DIR_LBA + |buf|) == lba - FS_DIR_LBA + |buf|;
  }

  /** What a reader of the saved file gets. */
  function SavedBytes(v: Volume, name: Bytes, data: Bytes, slack: Bytes): Bytes
    requires |name| <= 47 && Fills(data, slack) && |v.dir| == ENTRIES && |v.disk.rd| < MAX_RD
    requires Slot(v.dir, Key(name)).Some? && Place(v.dir, Slot(v.dir, Key(name)).value, |data|) < MAX_RD * 2
  {
    var i := Slot(v.dir, Key(name)).value;
    var w := Save(v, name, data, slack).vol;
    Content(w.disk, w.dir[i])
  }

  ghost predicate ReadsBack(v: Volume, name: Bytes, n: nat)
    requires Inv(v) && |name| <= 47 && Slot(v.dir, Key(name)).Some?
  {
    SlotPlace(v, name, n);
    forall data: Bytes, slack: Bytes :: |data| == n && Fills(data, slack) ==> SavedBytes(v, name, data, slack) == data
  }

  /** Every file of a given size reads back as saved exactly when the disk has
      room for it where the allocator puts it. */
  lemma SaveExact(v: Volume, name: Bytes, n: nat)
    requires Inv(v) && |name| <= 47 && Slot(v.dir, Key(name)).Some? && Key(name) != [] && n <= 0x400_0000
    ensures ReadsBack(v, name, n) <==> Fits(v, name, n)
  {
    SlotPlace(v, name, n);
    var i := Slot(v.dir, Key(name)).value;
    if Fits(v, name, n) {
      forall data: Bytes, slack: Bytes | |data| == n && Fills(data, slack) ensures SavedBytes(v, name, data, slack) == data {
        hide Content, DirSectors, Sync, Key, Padded, Place, DiskWrite, Put, Stored;
        SaveKeeps(v, name, data, slack);
        var w := Save(v, name, data, slack).vol;
        SavedLive(v, name, data, slack);
        FindIs(w.dir, i);
        assert FileOf(w, Key(name)) == Some(data);
      }
    } else {
      PlaceBound(v, i, n);
      hide Content, DirSectors, Sync, Key, Padded, Place, DiskWrite, Put, Stored;
      var slack: Bytes := seq(512 * Sectors(n) - n, _ => 0);
      var d0: Bytes, d1: Bytes := seq(n, _ => 0), seq(n, _ => 1);
      assert Fills(d0, slack) && Fills(d1, slack);
      SaveLoses(v, name, d0, slack, d1, slack);
      assert n > 0 && d0[0] != d1[0];
    }
  }

  lemma SavedLive(v: Volume, name: Bytes, data: Bytes, slack: Bytes)
    requires Inv(v) && |name| <= 47 && Fills(data, slack) && Fits(v, name, |data|)
    requires Slot(v.dir, Key(name)).Some? && Key(name) != [] && Place(v.dir, Slot(v.dir, Key(name)).value, |data|) < MAX_RD * 2
    ensures var i, w := Slot(v.dir, Key(name)).value, Save(v, name, data, slack).vol;
            |w.dir| == ENTRIES && Live(w.dir[i]) && Key(w.dir[i].name) == Key(name)
  {
    hide Key, Place, DirSectors, Padded, DiskWrite, Stored;
    StoredKey(name);
  }

  // ----- runs -----

  datatype Op = OpSave(name: Bytes, data: Bytes, slack: Bytes) | OpRename(old_: Bytes, new_: Bytes) | OpDelete(name: Bytes)

  predicate WellFormed(op: Op) {
    match op
    case OpSave(n, d, s) => Fills(d, s)
    case _ => true
  }

  /** The system calls normalise every name first. */
  function Apply(v: Volume, op: Op): Outcome
    requires Inv(v) && WellFormed(op)
  {
    match op
    case OpSave(n, d, s) => SlotPlace(v, Normal(n), |d|); Save(v, Normal(n), d, s)
    case OpRename(a, b) => Rename(v, Normal(a), Normal(b))
    case OpDelete(n) => Delete(v, Normal(n))
  }

  type Files = map<Bytes, Bytes>

  /** Does the call succeed on a map from keys to contents?  A save does when its
      key is there or one of the 256 entries is free. */
  predicate Allows(m: Files, op: Op) {
    match op
    case OpSave(n, _, _) => Key(n) in m || |m| < ENTRIES
    case OpRename(a, b) => Key(a) in m && Key(b) !in m
    case OpDelete(n) => Key(n) in m
  }

  /** The call on the map. */
  function MapApply(m: Files, op: Op): Files {
    if !Allows(m, op) then m
    else
      match op
      case OpSave(n, d, _) => if Key(n) == [] then m else m[Key(n) := d]
      case OpRename(a, b) =>
        var rest := m - {Key(a)};
        if Key(b) == [] then rest else rest[Key(b) := m[Key(a)]]
      case OpDelete(n) => m - {Key(n)}
  }

  ghost predicate Refines(v: Volume, m: Files) {
    Inv(v) && forall k :: FileOf(v, k) == if k in m then Some(m[k]) else None
  }

  ghost predicate Room(v: Volume, op: Op)
    requires Inv(v)
  {
    op.OpSave? ==> Fits(v, Normal(op.name), |op.data|)
  }

  // ----- how many files there are -----

  function KeysUpto(dir: seq<Dirent>, n: nat): set<Bytes>
    requires n <= |dir|
  {
    if n == 0 then {}
    else KeysUpto(dir, n - 1) + if Live(dir[n - 1]) then {Key(dir[n - 1].name)} else {}
  }

  lemma {:induction false} KeysFound(dir: seq<Dirent>, n: nat, k: Bytes)
    requires n <= |dir|
    ensures k in KeysUpto(dir, n) <==> exists i :: 0 <= i < n && Live(dir[i]) && Key(dir[i].name) == k
  {
    hide Key, Live;
    if n > 0 { KeysFound(dir, n - 1, k); }
  }

  lemma {:induction false} KeysCount(dir: seq<Dirent>, n: nat)
    requires KeysUnique(dir) && n <= |dir|
    ensures |KeysUpto(dir, n)| <= n && (|KeysUpto(dir, n)| == n <==> forall i :: 0 <= i < n ==> Live(dir[i]))
  {
    hide Key, Live;
    if n > 0 {
      KeysCount(dir, n - 1);
      KeysFound(dir, n - 1, Key(dir[n - 1].name));
    }
  }

  /** An entry can be had for a key exactly when the map says so. */
  lemma SlotAllowed(v: Volume, m: Files, key: Bytes)
    requires Refines(v, m)
    ensures Slot(v.dir, key).Some? <==> key in m || |m| < ENTRIES
  {
    hide Key, Content, Synced, ExtentsApart, Live;
    forall k | true ensures k in m <==> k in KeysUpto(v.dir, ENTRIES) {
      assert FileOf(v, k).Some? <==> k in m;
      KeysFound(v.dir, ENTRIES, k);
    }
    assert m.Keys == KeysUpto(v.dir, ENTRIES);
    assert FileOf(v, key).Some? <==> key in m;
    KeysCount(v.dir, ENTRIES);
    FreeSome(v.dir, 0);
  }

  lemma FreeSome(dir: seq<Dirent>, i: nat)
    ensures FreeFrom(dir, i).None? <==> forall k :: i <= k < |dir| ==> Live(dir[k])
    decreases |dir| - i
  {
  }

  // ----- every step refines -----

  /** One call on the volume is the same call on the map, and its result code is 0
      exactly when the map allows it. */
  lemma StepRefines(v: Volume, m: Files, op: Op)
    requires Refines(v, m) && WellFormed(op) && Room(v, op)
    ensures var o := Apply(v, op);
            Refines(o.vol, MapApply(m, op)) && (o.code == 0 <==> Allows(m, op))
  {
    hide Inv, Key, Fits, Save, Delete, Rename, Normal, FileOf, Slot, Place, Fills;
    match op
    case OpSave(n, d, s) => SaveRefines(v, m, n, d, s);
    case OpRename(a, b) => RenameRefines(v, m, a, b);
    case OpDelete(n) => DeleteRefines(v, m, n);
  }

  lemma SaveRefines(v: Volume, m: Files, n: Bytes, d: Bytes, s: Bytes)
    requires Refines(v, m) && Fills(d, s) && Fits(v, Normal(n), |d|)
    ensures var op := OpSave(n, d, s);
            var o := Apply(v, op);
            Refines(o.vol, MapApply(m, op)) && (o.code == 0 <==> Allows(m, op))
  {
    hide Inv, Key, Fits, Save, Normal, FileOf, Slot, Place, Fills;
    NormalKey(n);
    SlotAllowed(v, m, Key(n));
    SaveKeeps(v, Normal(n), d, s);
  }

  lemma DeleteRefines(v: Volume, m: Files, n: Bytes)
    requires Refines(v, m)
    ensures var op := OpDelete(n);
            var o := Apply(v, op);
            Refines(o.vol, MapApply(m, op)) && (o.code == 0 <==> Allows(m, op))
  {
    hide Inv, Key, Delete, Normal, FileOf;
    NormalKey(n);
    DeleteKeeps(v, Normal(n));
  }

  lemma RenameRefines(v: Volume, m: Files, a: Bytes, b: Bytes)
    requires Refines(v, m)
    ensures var op := OpRename(a, b);
            var o := Apply(v, op);
            Refines(o.vol, MapApply(m, op)) && (o.code == 0 <==> Allows(m, op))
  {
    hide Inv, Key, Rename, Normal, FileOf;
    NormalKey(a);
    NormalKey(b);
    RenameKeeps(v, Normal(a), Normal(b));
  }

  /** A run with its result codes, as long as every save had room. */
  ghost predicate Runs(v: Volume, ops: seq<Op>, w: Volume, codes: seq<int>)
    decreases |ops|
  {
    if ops == [] then w == v && codes == []
    else
      && Inv(v) && WellFormed(ops[0]) && Room(v, ops[0]) && codes != [] && codes[0] == Apply(v, ops[0]).code
      && Runs(Apply(v, ops[0]).vol, ops[1..], w, codes[1..])
  }

  function MapRun(m: Files, ops: seq<Op>): Files
    decreases |ops|
  {
    if ops == [] then m else MapRun(MapApply(m, ops[0]), ops[1..])
  }

  /** Which calls of a run succeed on the map. */
  function Verdicts(m: Files, ops: seq<Op>): (r: seq<bool>)
    ensures |r| == |ops|
    decreases |ops|
  {
    if ops == [] then [] else [Allows(m, ops[0])] + Verdicts(MapApply(m, ops[0]), ops[1..])
  }

  /** Over any run of saves, renames and deletes the volume is the map the calls
      describe, the result codes are the map's, and reloading the directory from
      disk gives the same volume. */
  lemma {:induction false} RunRefines(v: Volume, m: Files, ops: seq<Op>, w: Volume, codes: seq<int>)
    requires Refines(v, m) && Runs(v, ops, w, codes)
    ensures Refines(w, MapRun(m, ops))
    ensures |codes| == |ops| && forall i :: 0 <= i < |ops| ==> (codes[i] == 0 <==> Verdicts(m, ops)[i])
    ensures |w.disk.rd| >= DIR_SECTORS && ParseDir(w.disk.rd[..DIR_SECTORS]) == w.dir
    decreases |ops|
  {
    hide Apply, MapApply, Allows;
    if ops == [] {
      DirRound(v.dir);
    } else {
      hide Inv;
      StepRefines(v, m, ops[0]);
      RunRefines(Apply(v, ops[0]).vol, MapApply(m, ops[0]), ops[1..], w, codes[1..]);
    }
  }

  // ----- files and reboots -----

  lemma OutsideTwice(s: State, t: State, u: State)
    requires SameOutside(s, t) && SameOutside(t, u)
    ensures SameOutside(s, u)
  {
  }

  lemma WriteKeeps(s: State, lba: Word, buf: seq<Sector>)
    requires Sane(lba, |buf|) && |s.rd| < MAX_RD && Mirror(s)
    ensures Mirror(DiskWrite(s, lba, buf)) && SameOutside(s, DiskWrite(s, lba, buf))
  {
    WriteMirrors(s, lba, buf);
    WriteStaysInside(s, lba, buf);
  }

  lemma SyncMirrors(v: Volume)
    requires |v.dir| == ENTRIES && |v.disk.rd| < MAX_RD && Mirror(v.disk)
    ensures Mirror(Sync(v).disk) && SameOutside(v.disk, Sync(v).disk)
  {
    hide DiskWrite, Mirror, DirSectors;
    WriteKeeps(v.disk, FS_DIR_LBA, DirSectors(v.dir));
  }

  lemma SameDisk(s: State)
    ensures SameOutside(s, s)
  {
  }

  lemma SaveMirrors(v: Volume, name: Bytes, data: Bytes, slack: Bytes)
    requires Inv(v) && |name| <= 47 && Fills(data, slack) && Mirror(v.disk)
    ensures Slot(v.dir, Key(name)).Some? ==> Place(v.dir, Slot(v.dir, Key(name)).value, |data|) < MAX_RD * 2
    ensures Mirror(Save(v, name, data, slack).vol.disk) && SameOutside(v.disk, Save(v, name, data, slack).vol.disk)
  {
    hide DiskWrite, Mirror, DirSectors, Sync, Place, Key, Stored, SameOutside, Padded, KeysUnique, ExtentsApart, Synced;
    SlotPlace(v, name, |data|);
    SameDisk(v.disk);
    match Slot(v.dir, Key(name))
    case None =>
    case Some(i) =>
      var start := Place(v.dir, i, |data|);
      PlaceBound(v, i, |data|);
      WriteKeeps(v.disk, start, Padded(data, slack));
      var disk := DiskWrite(v.disk, start, Padded(data, slack));
      var u := Volume(v.dir[i := NewEntry(v.dir[i], name, start, |data|)], disk);
      SyncMirrors(u);
      OutsideTwice(v.disk, disk, Sync(u).disk);
  }

  lemma ApplyMirrors(v: Volume, op: Op)
    requires Inv(v) && WellFormed(op) && Mirror(v.disk)
    ensures Mirror(Apply(v, op).vol.disk) && SameOutside(v.disk, Apply(v, op).vol.disk)
  {
    SameDisk(v.disk);
    hide DiskWrite, Mirror, DirSectors, Sync, Key, Stored, Normal, Save, SameOutside;
    match op
    case OpSave(n, d, s) => SaveMirrors(v, Normal(n), d, s);
    case OpRename(a, b) =>
      match Find(v.dir, Key(Normal(a))) {
        case None =>
        case Some(i) => SyncMirrors(v.(dir := v.dir[i := v.dir[i].(name := Stored(Normal(b)))]));
      }
    case OpDelete(n) =>
      match Find(v.dir, Key(Normal(n))) {
        case None =>
        case Some(i) => SyncMirrors(v.(dir := v.dir[i := Entry(seq(NAME, _ => 0), 0, 0, 0, 0)]));
      }
  }

  lemma {:induction false} RunFsMirrors(v: Volume, ops: seq<Op>, w: Volume, codes: seq<int>)
    requires Runs(v, ops, w, codes) && Mirror(v.disk)
    ensures Mirror(w.disk) && SameOutside(v.disk, w.disk)
    decreases |ops|
  {
    SameDisk(v.disk);
    hide Apply, Mirror, SameOutside, Inv;
    if ops != [] {
      ApplyMirrors(v, ops[0]);
      var u := Apply(v, ops[0]).vol;
      RunFsMirrors(u, ops[1..], w, codes[1..]);
      OutsideTwice(v.disk, u.disk, w.disk);
    }
  }

  /** Power off after any run of calls: the next boot finds the store again, and
      the directory it loads from the restored disk has every file. */
  lemma FilesSurvive(v: Volume, m: Files, ops: seq<Op>, w: Volume, codes: seq<int>, loaded: seq<Sector>)
    requires Refines(v, m) && Runs(v, ops, w, codes) && |loaded| == |v.disk.rd|
    requires Mirror(v.disk) && Scan(v.disk.dev) == Found(v.disk.first, v.disk.last, v.disk.fs)
    requires Clear(v.disk.dev, v.disk.first + 1, v.disk.first + 1 + v.disk.fs)
    ensures |codes| == |ops|
    ensures var f := Scan(w.disk.dev);
            && f.Found? && Restore(w.disk.dev, f, loaded) == Some(w.disk.rd) && |w.disk.rd| >= DIR_SECTORS
            && Refines(Volume(ParseDir(w.disk.rd[..DIR_SECTORS]), w.disk), MapRun(m, ops))
  {
    hide Scan, Clear, Restore, Runs, MapRun, ParseDir, SameOutside, FileOf;
    RunFsMirrors(v, ops, w, codes);
    RunRefines(v, m, ops, w, codes);
    assert |v.disk.rd| > 0;
    RestoresFrom(v.disk, w.disk, loaded);
  }
}
