/** Open files: reads and writes of any length through a one-sector cache.
 */
module Stream {
  import opened Options
  import opened Word32
  import opened Store
  import opened Fs
  import opened FsOps

  // ----- replacing one directory entry -----

  /** Replacing an entry, when its extent and key clash with no other file. */
  lemma ReplaceEntry(v: Volume, i: nat, d: Dirent, data: Bytes)
    requires Inv(v) && i < ENTRIES && Inside(v.disk, d) && Content(v.disk, d) == data
    requires forall j :: 0 <= j < ENTRIES && j != i && Live(v.dir[j]) ==> Apart(d, v.dir[j]) && Key(v.dir[j].name) != Key(d.name)
    ensures var w := Sync(v.(dir := v.dir[i := d]));
            && Inv(w) && w.dir == v.dir[i := d]
            && forall k :: FileOf(w, k) ==
                 if Live(d) && k == Key(d.name) then Some(data)
                 else if Find(v.dir, k) == Some(i) then None
                 else FileOf(v, k)
  {
    hide Content, DirSectors, Sync, Key, Sectors;
    var u := v.(dir := v.dir[i := d]);
    assert KeysUnique(u.dir) by {
      forall h, j | 0 <= h < j < |u.dir| && Live(u.dir[h]) && Live(u.dir[j]) ensures Key(u.dir[h].name) != Key(u.dir[j].name) {
        assert h != i ==> u.dir[h] == v.dir[h];
        assert j != i ==> u.dir[j] == v.dir[j];
      }
    }
    SyncKeeps(u);
    var w := Sync(u);
    forall h, j | 0 <= h < |w.dir| && 0 <= j < |w.dir| && h != j && Live(w.dir[h]) && Live(w.dir[j]) ensures Apart(w.dir[h], w.dir[j]) {
      assert h != i ==> u.dir[h] == v.dir[h];
      assert j != i ==> u.dir[j] == v.dir[j];
    }
    forall k | true
      ensures FileOf(w, k) == if Live(d) && k == Key(d.name) then Some(data) else if Find(v.dir, k) == Some(i) then None else FileOf(v, k)
    {
      ReplaceFound(v.dir, i, d, k);
    }
  }

  /** Every live file other than entry `i` ends at or before sector `lba`. */
  ghost predicate EndsBefore(dir: seq<Dirent>, i: nat, lba: nat) {
    forall j :: 0 <= j < |dir| && j != i && Live(dir[j]) ==> End(dir[j]) <= lba
  }

  /** A sector written past every file changes no file. */
  lemma WriteFree(v: Volume, i: nat, lba: Word, s: Sector)
    requires Inv(v) && i < ENTRIES && EndsBefore(v.dir, i, lba) && (Live(v.dir[i]) ==> End(v.dir[i]) <= lba)
    requires FS_DATA_LBA <= lba < FS_DIR_LBA + |v.disk.rd|
    ensures Sane(lba, 1)
    ensures var w := v.(disk := DiskWrite(v.disk, lba, [s]));
            Inv(w) && w.disk.rd == v.disk.rd[lba - FS_DIR_LBA := s] && forall k :: FileOf(w, k) == FileOf(v, k)
  {
    WriteInRange(v.disk, lba, [s]);
    var w := v.(disk := DiskWrite(v.disk, lba, [s]));
    var at := lba - FS_DIR_LBA;
    assert Put(v.disk.rd, at, [s]) == v.disk.rd[at := s];
    PutElsewhere(v.disk.rd, at, [s], 0, DIR_SECTORS);
    hide Content, DirSectors, Key, Sectors, DiskWrite;
    forall j | 0 <= j < ENTRIES && Live(v.dir[j]) ensures Inside(w.disk, v.dir[j]) && Content(w.disk, v.dir[j]) == Content(v.disk, v.dir[j]) {
      ContentKept(v.disk, w.disk, v.dir[j], at, [s]);
    }
  }

  // ----- what a writer has put on disk -----

  /** Sector `s` of the data, as long as it is complete. */
  ghost predicate OnDisk(rd: seq<Sector>, off: nat, data: Bytes, n: nat) {
    && off + n <= |rd| && 512 * n <= |data|
    && forall s :: 0 <= s < n ==> 512 * s + 512 <= |data| && rd[off + s] == data[512 * s..512 * s + 512]
  }

  lemma {:induction false} FlatPrefix(rd: seq<Sector>, off: nat, data: Bytes, n: nat)
    requires OnDisk(rd, off, data, n)
    ensures Flat(rd[off..off + n]) == data[..512 * n]
    decreases n
  {
    if n > 0 {
      FlatPrefix(rd, off, data, n - 1);
      assert rd[off..off + n] == rd[off..off + (n - 1)] + [rd[off + (n - 1)]];
      FlatCat(rd[off..off + (n - 1)], [rd[off + (n - 1)]]);
      FlatOne([rd[off + (n - 1)]]);
      assert data[..512 * n] == data[..512 * (n - 1)] + data[512 * (n - 1)..512 * (n - 1) + 512];
    }
  }

  /** Complete sectors and the front of the last one make up the data. */
  lemma FlatData(rd: seq<Sector>, off: nat, data: Bytes)
    requires OnDisk(rd, off, data, |data| / 512)
    requires |data| % 512 > 0 ==> off + |data| / 512 < |rd| && rd[off + |data| / 512][..|data| % 512] == data[512 * (|data| / 512)..]
    ensures off + Sectors(|data|) <= |rd| && Flat(rd[off..off + Sectors(|data|)])[..|data|] == data
  {
    hide Sectors, OnDisk;
    SectorsIs(|data|);
    var n, r := |data| / 512, |data| % 512;
    OnDiskFits(rd, off, data, n);
    FlatPrefix(rd, off, data, n);
    if r > 0 {
      var last := rd[off + n];
      assert rd[off..off + (n + 1)] == rd[off..off + n] + [last];
      FlatCat(rd[off..off + n], [last]);
      FlatOne([last]);
      assert (data[..512 * n] + last)[..|data|] == data[..512 * n] + last[..r];
      assert data == data[..512 * n] + data[512 * n..];
    } else {
      assert data[..512 * n] == data;
    }
  }

  lemma OnDiskFits(rd: seq<Sector>, off: nat, data: Bytes, n: nat)
    requires OnDisk(rd, off, data, n)
    ensures off + n <= |rd|
  {
  }

  lemma OnDiskMore(rd: seq<Sector>, off: nat, data: Bytes, n: nat, more: Bytes)
    requires OnDisk(rd, off, data, n)
    ensures OnDisk(rd, off, data + more, n)
  {
    forall s | 0 <= s < n ensures rd[off + s] == (data + more)[512 * s..512 * s + 512] {
      assert (data + more)[512 * s..512 * s + 512] == data[512 * s..512 * s + 512];
    }
  }

  lemma OnDiskNext(rd: seq<Sector>, off: nat, data: Bytes, n: nat, s: Sector)
    requires OnDisk(rd, off, data, n) && off + n < |rd| && 512 * n + 512 == |data| && s == data[512 * n..]
    ensures OnDisk(rd[off + n := s], off, data, n + 1)
  {
    assert data[512 * n..512 * n + 512] == data[512 * n..];
  }

  // ----- open files -----

  class OpenFile {
    const fs: FileSystem
    const sector: array<Byte>
    const mode: nat
    const index: nat
    const start: Word
    var size: Word
    var pos: Word
    var lba: Word
    var valid: bool
    var dirty: bool
    /** Everything written so far. */
    ghost var data: Bytes

    constructor (fs: FileSystem, mode: nat, index: nat, start: Word, size: Word)
      ensures this.fs == fs && this.mode == mode && this.index == index && this.start == start && this.size == size
      ensures pos == 0 && !valid && !dirty && data == [] && fresh(sector) && sector.Length == 512
    {
      this.fs, this.mode, this.index, this.start, this.size := fs, mode, index, start, size;
      pos, lba, valid, dirty, data := 0, 0, false, false, [];
      sector := new Byte[512](_ => 0);
    }

    ghost function Vol(): Volume
      reads fs, fs.dir, fs.disk, fs.disk.rd, fs.disk.dev
    {
      fs.View()
    }

    /** The file's first sector inside the RAM disk. */
    ghost function Off(): int { start - FS_DIR_LBA }

    // ----- writing -----

    /** The cached sector is the unfinished end of the data. */
    ghost predicate Cached()
      reads this, sector
    {
      sector.Length == 512 &&
      if |data| % 512 == 0 then !valid
      else valid && dirty && lba == start + |data| / 512 && sector[..|data| % 512] == data[512 * (|data| / 512)..]
    }

    ghost predicate Writer()
      reads this, sector, fs, fs.dir, fs.disk, fs.disk.rd, fs.disk.dev
    {
      && fs.Valid() && mode == 1 && size == pos == |data|
      && index < ENTRIES && Live(Vol().dir[index]) && Vol().dir[index].size == 0 && Vol().dir[index].start == start
      && EndsBefore(Vol().dir, index, start) && FS_DATA_LBA <= start
      && Cached() && OnDisk(Vol().disk.rd, Off(), data, |data| / 512) && Room(|data|)
    }

    /** The disk has room for `n` bytes of this file. */
    ghost predicate Room(n: nat)
      reads this, fs, fs.disk, fs.disk.rd, fs.disk.dev
    {
      start + Sectors(n) <= FS_DIR_LBA + |fs.disk.View().rd|
    }

    /** `ofile_flush`. */
    method Flush()
      requires fs.disk.Valid() && sector.Length == 512
      requires valid && dirty ==> Sane(lba, 1)
      modifies this`dirty, fs.disk.rd, fs.disk.dev
      ensures fs.disk.Valid()
      ensures fs.disk.View() == if old(valid && dirty) then DiskWrite(old(fs.disk.View()), lba, [sector[..]]) else old(fs.disk.View())
      ensures dirty == (old(dirty) && !valid)
    {
      hide DiskWrite;
      if !valid || !dirty { return; }
      fs.disk.Write(lba, [sector[..]]);
      dirty := false;
    }

    /** `ofile_load_sector`; a sector past the end of a file being written starts
        as zeros, the end compared as the source compares it. */
    method LoadSector(at: Word)
      requires fs.disk.Valid() && sector.Length == 512 && Sane(at, 1)
      requires valid && dirty ==> Sane(lba, 1)
      modifies this`lba, this`valid, this`dirty, sector, fs.disk.rd, fs.disk.dev
      ensures fs.disk.Valid() && valid && lba == at
      ensures old(valid && lba == at) ==> sector[..] == old(sector[..]) && dirty == old(dirty) && fs.disk.View() == old(fs.disk.View())
      ensures !old(valid && lba == at) ==>
                && !dirty
                && fs.disk.View() == (if old(valid && dirty) then DiskWrite(old(fs.disk.View()), old(lba), [old(sector[..])]) else old(fs.disk.View()))
                && sector[..] == (if mode == 1 && at >= Sectors(size) then Zero() else DiskRead(fs.disk.View(), at, 1)[0])
    {
      hide DiskWrite, DiskRead;
      if valid && lba == at { return; }
      Flush();
      lba, valid, dirty := at, true, false;
      if mode == 1 {
        var fileSectors := size / 512 + if size % 512 > 0 then 1 else 0;
        SectorsIs(size);
        if at >= fileSectors {
          Fill(Zero());
        } else {
          var b := fs.disk.Read(at, 1);
          Fill(b[0]);
        }
      } else {
        var b := fs.disk.Read(at, 1);
        Fill(b[0]);
      }
    }

    method Fill(s: Sector)
      requires sector.Length == 512
      modifies sector
      ensures sector[..] == s
    {
      for i := 0 to 512
        invariant sector[..i] == s[..i]
      {
        sector[i] := s[i];
        assert sector[..i + 1] == sector[..i] + [s[i]];
      }
      assert s[..512] == s && sector[..512] == sector[..];
    }

    /** Copy bytes into the cached sector. */
    method Poke(at: nat, c: Bytes)
      requires sector.Length == 512 && at + |c| <= 512
      modifies sector
      ensures sector[..] == old(sector[..])[..at] + c + old(sector[..])[at + |c|..]
    {
      ghost var s0 := sector[..];
      assert sector[..] == s0[..at] + c[..0] + s0[at + 0..];
      for i := 0 to |c|
        invariant sector[..] == s0[..at] + c[..i] + s0[at + i..]
      {
        PokeOne(s0, at, c, i);
        sector[at + i] := c[i];
      }
      assert c[..|c|] == c;
    }

    /** The sector the next byte goes to, loaded or begun. */
    method StartSector(at: Word)
      requires Writer() && at == start + |data| / 512 && at < FS_DIR_LBA + |fs.disk.View().rd|
      modifies this`lba, this`valid, this`dirty, sector, fs.disk.rd, fs.disk.dev
      ensures fs.Valid() && Vol() == old(Vol()) && valid && lba == at
      ensures sector[..|data| % 512] == data[512 * (|data| / 512)..]
    {
      hide Inv, FileOf, DiskWrite, DiskRead, OnDisk, EndsBefore, Sectors;
      InvSizes(Vol());
      SectorsIs(|data|);
      LoadSector(at);
    }

    /** One pass of the loop of `fwrite`: bytes of one sector. */
    method WriteChunk(c: Bytes)
      requires Writer() && 0 < |c| <= 512 - |data| % 512 && Room(|data| + |c|)
      modifies this, sector, fs.disk.rd, fs.disk.dev
      ensures Writer() && data == old(data) + c && fs.dir[..] == old(fs.dir[..])
      ensures |Vol().disk.rd| == old(|Vol().disk.rd|)
      ensures forall k :: FileOf(Vol(), k) == old(FileOf(Vol(), k))
    {
      hide Inv, FileOf, DiskWrite, OnDisk, EndsBefore, Sectors;
      ghost var v, n, d0 := Vol(), |data| / 512, data;
      ChunkSplit(|data|, |c|);
      InvSizes(v);
      var off := pos % 512;
      StartSector(start + pos / 512);
      Append(c, n);
      OnDiskMore(v.disk.rd, Off(), d0, n, c);
      if off + |c| == 512 { EndSector(d0, n); }
    }

    /** The copy into the cached sector and the new position. */
    method Append(c: Bytes, ghost n: nat)
      requires sector.Length == 512 && pos == size == |data| && n == |data| / 512 && |data| % 512 + |c| <= 512 && |data| + |c| < TWO32
      requires sector[..|data| % 512] == data[512 * n..]
      modifies this`dirty, this`pos, this`size, this`data, sector
      ensures dirty && pos == size == |data| && data == old(data) + c
      ensures sector[..old(|data| % 512) + |c|] == data[512 * n..]
    {
      ghost var r := |data| % 512;
      Poke(pos % 512, c);
      dirty := true;
      pos := pos + |c|;
      if pos > size { size := pos; }
      data := data + c;
    }

    /** A sector just filled goes to disk and leaves the cache. */
    method EndSector(ghost d0: Bytes, ghost n: nat)
      requires fs.Valid() && index < ENTRIES && Vol().dir[index].start == start && Vol().dir[index].size == 0
      requires EndsBefore(Vol().dir, index, start) && FS_DATA_LBA <= start && start + n < FS_DIR_LBA + |Vol().disk.rd|
      requires sector.Length == 512 && valid && dirty && lba == start + n && |data| == 512 * n + 512 && sector[..512] == data[512 * n..]
      requires OnDisk(Vol().disk.rd, Off(), data, n)
      modifies this`valid, this`dirty, fs.disk.rd, fs.disk.dev
      ensures fs.Valid() && !valid && OnDisk(Vol().disk.rd, Off(), data, n + 1)
      ensures |Vol().disk.rd| == old(|Vol().disk.rd|) && forall k :: FileOf(Vol(), k) == old(FileOf(Vol(), k))
    {
      hide Inv, FileOf, DiskWrite, OnDisk, EndsBefore;
      ghost var v := Vol();
      InvSizes(v);
      assert sector[..512] == sector[..];
      WriterPast(v, index, start, n);
      WriteFree(v, index, lba, sector[..]);
      OnDiskNext(v.disk.rd, Off(), data, n, sector[..]);
      Flush();
      valid := false;
    }
  
    /** `SYS_FWRITE`. */
    method Fwrite(buf: Bytes) returns (n: nat)
      requires Writer() && Room(|data| + |buf|)
      modifies this, sector, fs.disk.rd, fs.disk.dev
      ensures Writer() && n == |buf| && data == old(data) + buf && fs.dir[..] == old(fs.dir[..])
      ensures |Vol().disk.rd| == old(|Vol().disk.rd|)
      ensures forall k :: FileOf(Vol(), k) == old(FileOf(Vol(), k))
    {
      hide Inv, FileOf, Cached, OnDisk, EndsBefore;
      n := 0;
      assert data + buf[..0] == data;
      while n < |buf|
        invariant Writer() && n <= |buf| && data == old(data) + buf[..n] && fs.dir[..] == old(fs.dir[..])
        invariant |Vol().disk.rd| == old(|Vol().disk.rd|) && Room(old(|data|) + |buf|)
        invariant forall k :: FileOf(Vol(), k) == old(FileOf(Vol(), k))
      {
        var chunk := 512 - pos % 512;
        if chunk > |buf| - n { chunk := |buf| - n; }
        WriteChunk(buf[n..n + chunk]);
        assert buf[..n + chunk] == buf[..n] + buf[n..n + chunk];
        n := n + chunk;
      }
      assert buf[..n] == buf;
    }

    /** The last sector goes to disk. */
    method FlushLast()
      requires Writer()
      modifies this`dirty, fs.disk.rd, fs.disk.dev
      ensures fs.Valid() && fs.dir[..] == old(fs.dir[..]) && |Vol().disk.rd| == old(|Vol().disk.rd|)
      ensures forall k :: FileOf(Vol(), k) == old(FileOf(Vol(), k))
      ensures Off() >= 0 && Off() + Sectors(|data|) <= |Vol().disk.rd|
      ensures Flat(Vol().disk.rd[Off()..Off() + Sectors(|data|)])[..|data|] == data
    {
      hide Inv, FileOf, DiskWrite, Sectors, Cached, EndsBefore, OnDisk, Flat;
      ghost var v, n := Vol(), |data| / 512;
      InvSizes(v);
      SectorsIs(|data|);
      LastSector();
      ghost var u := v;
      if |data| % 512 > 0 {
        WriterPast(v, index, start, n);
        WriteFree(v, index, lba, sector[..]);
        OnDiskAbove(v.disk.rd, Off(), data, n, sector[..]);
        u := v.(disk := DiskWrite(v.disk, lba, [sector[..]]));
      }
      Flush();
      assert Vol() == u;
      FlatData(u.disk.rd, Off(), data);
    }

    /** `SYS_CLOSE` of a file being written: the file now holds everything
        written, and no other file has changed. */
    method CloseWrite()
      requires Writer()
      modifies this, fs.dir, fs.disk.rd, fs.disk.dev
      ensures fs.Valid()
      ensures forall k :: FileOf(Vol(), k) == if k == old(Key(Vol().dir[index].name)) then Some(old(data)) else old(FileOf(Vol(), k))
    {
      hide Inv, FileOf, DiskWrite, Content, Sectors, Key, EndsBefore, OnDisk, Flat;
      FlushLast();
      ghost var u := Vol();
      InvSizes(u);
      ghost var d := u.dir[index].(start := start, size := size, flags := 0);
      CloseEntry(u, index, d, data);
      fs.dir[index] := fs.dir[index].(start := start, size := size, flags := 0);
      assert fs.View() == u.(dir := u.dir[index := d]);
      fs.SyncDir();
    }

    /** What the cache holds when a writer closes. */
    lemma LastSector()
      requires Writer()
      ensures sector.Length == 512
      ensures if |data| % 512 == 0 then !valid
              else valid && dirty && lba == start + |data| / 512 && sector[..][..|data| % 512] == data[512 * (|data| / 512)..]
    {
      if |data| % 512 > 0 { assert sector[..][..|data| % 512] == sector[..|data| % 512]; }
    }

    // ----- reading -----

    /** The cached sector is the disk's. */
    ghost predicate Reader()
      reads this, sector, fs, fs.dir, fs.disk, fs.disk.rd, fs.disk.dev
    {
      && fs.Valid() && mode == 0 && !dirty && sector.Length == 512
      && index < ENTRIES && Live(Vol().dir[index]) && Vol().dir[index].size == size && Vol().dir[index].start == start
      && pos <= size
      && (valid ==> FS_DIR_LBA <= lba < FS_DIR_LBA + |Vol().disk.rd| && sector[..] == Vol().disk.rd[lba - FS_DIR_LBA])
    }

    /** The bytes of the file. */
    ghost function Text(): Bytes
      requires Reader()
      reads this, sector, fs, fs.dir, fs.disk, fs.disk.rd, fs.disk.dev
    {
      InvSizes(Vol());
      Content(Vol().disk, Vol().dir[index])
    }

    /** `SYS_FREAD`: the bytes at the position, as many as there are. */
    method Fread(len: nat) returns (buf: Bytes)
      requires Reader()
      modifies this`pos, this`lba, this`valid, this`dirty, sector
      ensures Reader() && Text() == old(Text()) && |Text()| == size && size == old(size)
      ensures var n := if len < size - old(pos) then len else size - old(pos);
              buf == Text()[old(pos)..old(pos) + n] && pos == old(pos) + n
    {
      hide Inv, DiskWrite, DiskRead, Content, Sectors;
      buf := [];
      var left: nat := if len < size - pos then len else size - pos;
      ghost var p0, total := pos, left;
      ghost var text := Text();
      while |buf| < left
        invariant Reader() && Text() == text && |text| == size && left == total && p0 + left <= size
        invariant |buf| <= left && pos == p0 + |buf| && buf == text[p0..pos]
      {
        var chunk := ReadChunk(left - |buf|);
        Slices(text, p0, p0 + |buf|, pos);
        buf := buf + chunk;
      }
    }

    /** One pass of the loop of `fread`. */
    method ReadChunk(left: nat) returns (chunk: Bytes)
      requires Reader() && 0 < left <= size - pos
      modifies this`pos, this`lba, this`valid, this`dirty, sector
      ensures Reader() && Text() == old(Text()) && |Text()| == size
      ensures 0 < |chunk| <= left && pos == old(pos) + |chunk| && chunk == Text()[old(pos)..pos]
    {
      hide Inv, DiskWrite, DiskRead, Content;
      ghost var v := Vol();
      InvSizes(v);
      InsideLive(v, index);
      var at := start + pos / 512;
      var off := pos % 512;
      var n := 512 - off;
      if n > left { n := left; }
      TextAt(v.disk, v.dir[index], pos, n);
      Load(at);
      chunk := sector[off..off + n];
      assert chunk == sector[..][off..off + n];
      pos := pos + n;
    }

    /** `ofile_load_sector` for a file being read: nothing is written back. */
    method Load(at: Word)
      requires Reader() && FS_DIR_LBA <= at < FS_DIR_LBA + |Vol().disk.rd|
      modifies this`lba, this`valid, this`dirty, sector
      ensures Reader() && sector[..] == Vol().disk.rd[at - FS_DIR_LBA]
    {
      hide Inv, DiskWrite, DiskRead;
      InvSizes(Vol());
      if valid && lba == at { return; }
      lba, valid := at, true;
      ReadInRange(Vol().disk, at, 1);
      var b := fs.disk.Read(at, 1);
      Fill(b[0]);
    }

    /** `SYS_SEEK` on a file being read: the position is clamped to the file. */
    method Seek(p: int) returns (r: nat)
      requires Reader()
      modifies this`pos, this`valid, this`dirty
      ensures Reader() && Text() == old(Text()) && r == pos == if p < 0 then 0 else if p > size then size else p
    {
      pos := if p < 0 then 0 else if p > size then size else p;
      valid, dirty := false, false;
      r := pos;
    }
  }

  lemma InsideLive(v: Volume, i: nat)
    requires Inv(v) && i < ENTRIES && Live(v.dir[i])
    ensures Inside(v.disk, v.dir[i])
  {
  }

  lemma {:induction false} FlatAt(ss: seq<Sector>, k: nat, off: nat, n: nat)
    requires k < |ss| && off + n <= 512
    ensures 512 * k + off + n <= |Flat(ss)| && Flat(ss)[512 * k + off..512 * k + off + n] == ss[k][off..off + n]
  {
    var front, back := ss[..k], ss[k..];
    assert ss == front + back && back == [ss[k]] + ss[k + 1..];
    FlatCat(front, back);
    FlatCat([ss[k]], ss[k + 1..]);
    FlatOne([ss[k]]);
    var a, b, c := Flat(front), ss[k], Flat(ss[k + 1..]);
    assert Flat(ss) == a + (b + c);
    assert (a + (b + c))[|a| + off..|a| + off + n] == b[off..off + n];
  }

  /** Bytes of a file inside one sector. */
  lemma TextAt(disk: State, d: Dirent, pos: nat, n: nat)
    requires |disk.rd| < MAX_RD && Inside(disk, d) && pos < d.size && n <= 512 - pos % 512 && pos + n <= d.size
    ensures var at := d.start + pos / 512;
            && at < FS_DIR_LBA + |disk.rd|
            && Content(disk, d)[pos..pos + n] == disk.rd[at - FS_DIR_LBA][pos % 512..pos % 512 + n]
  {
    hide Content, Flat;
    ContentIs(disk, d);
    var k := pos / 512;
    var ss := disk.rd[d.start - FS_DIR_LBA..d.start - FS_DIR_LBA + Sectors(d.size)];
    assert k < Sectors(d.size) by { SectorsIs(d.size); }
    FlatAt(ss, k, pos % 512, n);
    var all := Flat(ss);
    assert all[..d.size][pos..pos + n] == all[512 * k + pos % 512..512 * k + pos % 512 + n];
  }

  /** The closed file's entry against the rest of the directory. */
  lemma CloseEntry(u: Volume, i: nat, d: Dirent, data: Bytes)
    requires Inv(u) && i < ENTRIES && Live(u.dir[i]) && u.dir[i].start == d.start && d.name == u.dir[i].name && d.size == |data|
    requires FS_DATA_LBA <= d.start && EndsBefore(u.dir, i, d.start) && d.start - FS_DIR_LBA + Sectors(|data|) <= |u.disk.rd|
    requires Flat(u.disk.rd[d.start - FS_DIR_LBA..d.start - FS_DIR_LBA + Sectors(|data|)])[..|data|] == data
    ensures var w := Sync(u.(dir := u.dir[i := d]));
            Inv(w) && forall k :: FileOf(w, k) == if k == Key(u.dir[i].name) then Some(data) else FileOf(u, k)
  {
    InvSizes(u);
    ContentIs(u.disk, d);
    hide Inv, FileOf, Content, Sectors, Key, EndsBefore, Flat, Sync;
    OthersApart(u, i, d, d.start);
    LiveFound(u, i);
    ReplaceEntry(u, i, d, data);
  }

  lemma OnDiskAbove(rd: seq<Sector>, off: nat, data: Bytes, n: nat, s: Sector)
    requires OnDisk(rd, off, data, n) && off + n < |rd|
    ensures OnDisk(rd[off + n := s], off, data, n)
  {
  }

  lemma OthersApart(v: Volume, i: nat, d: Dirent, start: Word)
    requires Inv(v) && i < ENTRIES && EndsBefore(v.dir, i, start) && d.start == start && d.name == v.dir[i].name && Live(v.dir[i])
    ensures forall j :: 0 <= j < ENTRIES && j != i && Live(v.dir[j]) ==> Apart(d, v.dir[j]) && Key(v.dir[j].name) != Key(d.name)
  {
    hide Key, Sectors;
    forall j | 0 <= j < ENTRIES && j != i && Live(v.dir[j]) ensures Key(v.dir[j].name) != Key(d.name) {
      if i < j { assert Key(v.dir[i].name) != Key(v.dir[j].name); } else { assert Key(v.dir[j].name) != Key(v.dir[i].name); }
    }
  }

  lemma LiveFound(v: Volume, i: nat)
    requires Inv(v) && i < ENTRIES && Live(v.dir[i])
    ensures forall k :: Find(v.dir, k) == Some(i) <==> k == Key(v.dir[i].name)
  {
    FindIs(v.dir, i);
  }

  lemma PokeOne(s0: Bytes, at: nat, c: Bytes, i: nat)
    requires at + |c| <= |s0| && i < |c|
    ensures (s0[..at] + c[..i] + s0[at + i..])[at + i := c[i]] == s0[..at] + c[..i + 1] + s0[at + (i + 1)..]
  {
  }

  lemma ChunkSplit(n: nat, c: nat)
    requires 0 < c <= 512 - n % 512
    ensures n % 512 + c < 512 ==> (n + c) / 512 == n / 512 && (n + c) % 512 == n % 512 + c
    ensures n % 512 + c == 512 ==> (n + c) / 512 == n / 512 + 1 && (n + c) % 512 == 0
    ensures Sectors(n + c) == n / 512 + 1 && Sectors(n) == if n % 512 > 0 then n / 512 + 1 else n / 512
  {
  }

  lemma WriterPast(v: Volume, i: nat, start: Word, n: nat)
    requires |v.dir| == ENTRIES && i < ENTRIES && EndsBefore(v.dir, i, start) && v.dir[i].start == start && v.dir[i].size == 0
    ensures EndsBefore(v.dir, i, start + n) && End(v.dir[i]) <= start + n
  {
  }

  // ----- opening -----

  /** The name kept when a file is opened for writing. */
  function Cut(name: Bytes): Bytes { if |name| > 15 then name[..15] else name }

  /** First sector given to a file opened for writing as entry `i`. */
  function OpenPlace(dir: seq<Dirent>, i: nat): nat
    requires i < |dir|
  {
    NextFreeUpto(dir, if Live(dir[i]) then Some(i) else None, |dir|)
  }

  function OpenVolume(v: Volume, name: Bytes, i: nat): Volume
    requires |name| <= 47 && |v.dir| == ENTRIES && i < ENTRIES && |v.disk.rd| < MAX_RD && OpenPlace(v.dir, i) < TWO32
  {
    Sync(v.(dir := v.dir[i := NewEntry(v.dir[i], Cut(name), OpenPlace(v.dir, i), 0)]))
  }

  /** The cut name belongs to no other file. */
  ghost predicate CutFree(v: Volume, name: Bytes, i: nat) {
    Find(v.dir, Key(Cut(name))) == None || Find(v.dir, Key(Cut(name))) == Some(i)
  }

  lemma OpenBounds(v: Volume, i: nat)
    requires Inv(v) && i < ENTRIES
    ensures FS_DATA_LBA <= OpenPlace(v.dir, i) <= FS_DIR_LBA + |v.disk.rd| < TWO32
    ensures EndsBefore(v.dir, i, OpenPlace(v.dir, i))
  {
    hide Sectors, DirSectors;
  }

  /** Opening for writing empties the file; the volume stays well formed exactly
      when the name, cut to 15 characters, is no other file's. */
  lemma OpenExact(v: Volume, name: Bytes, i: nat)
    requires Inv(v) && |name| <= 47 && Slot(v.dir, Key(name)) == Some(i) && i < ENTRIES
    ensures OpenPlace(v.dir, i) < TWO32
    ensures Inv(OpenVolume(v, name, i)) <==> CutFree(v, name, i)
    ensures CutFree(v, name, i) ==>
              forall k :: FileOf(OpenVolume(v, name, i), k) ==
                if k == Key(Cut(name)) && k != [] then Some([]) else if Find(v.dir, k) == Some(i) then None else FileOf(v, k)
  {
    OpenBounds(v, i);
    hide Content, DirSectors, Sync, Key, Stored, OpenPlace, Sectors;
    var start := OpenPlace(v.dir, i);
    var d := NewEntry(v.dir[i], Cut(name), start, 0);
    StoredKey(Cut(name));
    NoSectors();
    if CutFree(v, name, i) {
      forall j | 0 <= j < ENTRIES && j != i && Live(v.dir[j]) ensures Apart(d, v.dir[j]) && Key(v.dir[j].name) != Key(d.name) {
        FindIs(v.dir, j);
      }
      ReplaceEntry(v, i, d, []);
    } else {
      var j := Find(v.dir, Key(Cut(name))).value;
      EmptyKey(v.dir);
      InvSizes(v);
      SyncDirs(v.(dir := v.dir[i := d]));
      var w := OpenVolume(v, name, i);
      assert w.dir[i] == d && w.dir[j] == v.dir[j] && Live(w.dir[j]) && Live(w.dir[i]);
      if KeysUnique(w.dir) { TwoKeys(w.dir, i, j); }
    }
  }

  lemma TwoKeys(dir: seq<Dirent>, i: nat, j: nat)
    requires KeysUnique(dir) && i < |dir| && j < |dir| && i != j && Live(dir[i]) && Live(dir[j])
    ensures Key(dir[i].name) != Key(dir[j].name)
  {
    if i < j { assert Key(dir[i].name) != Key(dir[j].name); } else { assert Key(dir[j].name) != Key(dir[i].name); }
  }

  lemma SyncDirs(v: Volume)
    requires |v.dir| == ENTRIES && |v.disk.rd| < MAX_RD
    ensures Sync(v).dir == v.dir
  {
  }

  lemma NoSectors()
    ensures Sectors(0) == 0
  {
  }

  /** `w` is `v` with the file opened for writing as entry `i`. */
  ghost predicate Opened(v: Volume, name: Bytes, i: nat, w: Volume) {
    && |name| <= 47 && |v.dir| == ENTRIES && i < ENTRIES && |v.disk.rd| < MAX_RD && OpenPlace(v.dir, i) < TWO32
    && Slot(v.dir, Key(name)) == Some(i) && w == OpenVolume(v, name, i)
  }

  /** No entry has the name and none is free. */
  ghost predicate DirectoryFull(v: Volume, name: Bytes) { Slot(v.dir, Key(name)) == None }

  /** The name means a file, and cut to 15 characters it is no other file's. */
  ghost predicate Clean(v: Volume, name: Bytes, i: nat) { CutFree(v, name, i) && Key(name) != [] }

  // ----- a name of 16 characters -----

  function Letters(n: nat): (s: Bytes)
    ensures |s| == n
  {
    seq(n, _ => 65)
  }

  function ShortEntry(i: int): Dirent { Entry(Stored(if i == 0 then Letters(15) else []), FS_DATA_LBA, 0, 0, 0) }

  /** One empty file called by 15 letters on an otherwise empty disk. */
  function ShortOnly(): (v: Volume)
    ensures |v.dir| == ENTRIES && forall i :: 0 <= i < ENTRIES ==> v.dir[i] == ShortEntry(i)
  {
    var dir := seq(ENTRIES, i => ShortEntry(i));
    Volume(dir, State(DirSectors(dir), [], false, 0, 0, 0))
  }

  lemma {:induction false} LettersKey(n: nat, k: nat)
    ensures KeyUpto(Letters(n), k) == Letters(if k < n then k else n)
    decreases k
  {
    if n > 0 && k > 0 {
      assert Letters(n)[1..] == Letters(n - 1);
      LettersKey(n - 1, k - 1);
      var t := if k < n then k else n;
      assert [65] + Letters(t - 1) == Letters(t);
    } else {
      assert Letters(0) == [];
    }
  }

  lemma ShortLive(i: nat)
    ensures Live(ShortEntry(i)) <==> i == 0
    ensures i == 0 ==> Key(ShortEntry(i).name) == Letters(15)
  {
    StoredKey(Letters(15));
    StoredKey([]);
    LettersKey(15, 16);
    LettersKey(0, 16);
  }

  lemma ShortInv()
    ensures var v := ShortOnly();
            && Inv(v) && Live(v.dir[0]) && Key(v.dir[0].name) == Letters(15)
            && forall i :: 1 <= i < ENTRIES ==> !Live(v.dir[i])
  {
    var v := ShortOnly();
    assert v.disk.rd == DirSectors(v.dir) && !v.disk.ready;
    assert v.disk.rd[..DIR_SECTORS] == v.disk.rd;
    hide DirSectors, Key, Stored, ShortOnly, Live;
    forall i: nat | i < ENTRIES ensures Live(v.dir[i]) <==> i == 0 { ShortLive(i); }
    ShortLive(0);
    assert v.dir[0].start == FS_DATA_LBA && v.dir[0].size == 0;
    assert Inside(v.disk, v.dir[0]);
  }

  /** Opening the 16-letter name for writing takes a second entry, whose stored name
      is the first file's. */
  lemma SixteenthCut()
    ensures var v, name := ShortOnly(), Letters(16);
            && Inv(v) && Slot(v.dir, Key(name)) == Some(1) && OpenPlace(v.dir, 1) < TWO32
            && !Inv(OpenVolume(v, name, 1))
  {
    var v, name := ShortOnly(), Letters(16);
    hide KeyUpto, ShortOnly, DirSectors, OpenPlace, OpenVolume, Stored, Letters, Live, Inv, FindFrom, FreeFrom, Find, Slot;
    ShortInv();
    LettersKey(16, 16);
    LettersKey(15, 16);
    CutLetters();
    SlotIsSecond(v.dir, Key(name));
    OpenExact(v, name, 1);
  }

  /** On that disk, which ends with the directory, one byte saved as "B" does not read
      back. */
  lemma FullDisk()
    ensures var v := ShortOnly();
            && Inv(v) && Slot(v.dir, Key([66])) == Some(1) && Key([66]) != []
            && !ReadsBack(v, [66], 1)
  {
    var v := ShortOnly();
    assert |v.disk.rd| == DIR_SECTORS;
    assert Key([66]) == [66];
    hide KeyUpto, ShortOnly, DirSectors, Stored, Letters, Live, Inv, NextFreeUpto, ReadsBack;
    ShortInv();
    SlotIsSecond(v.dir, Key([66]));
    SaveExact(v, [66], 1);
  }

  lemma CutLetters()
    ensures Cut(Letters(16)) == Letters(15)
  {
  }

  lemma SlotIsSecond(dir: seq<Dirent>, key: Bytes)
    requires |dir| == ENTRIES && Live(dir[0]) && Key(dir[0].name) != key && forall i :: 1 <= i < ENTRIES ==> !Live(dir[i])
    ensures Slot(dir, key) == Some(1) && Find(dir, Key(dir[0].name)) == Some(0)
  {
    hide Key, Live;
    assert FreeFrom(dir, 1) == Some(1);
  }

  /** `SYS_OPEN` for writing; no result when the directory is full. */
  method OpenWrite(fs: FileSystem, uname: Bytes) returns (f: OpenFile?)
    requires fs.Valid()
    modifies fs.dir, fs.disk.rd, fs.disk.dev
    ensures f == null <==> old(DirectoryFull(fs.View(), Normal(uname)))
    ensures f == null ==> fs.View() == old(fs.View())
    ensures f != null ==> fresh(f) && fresh(f.sector) && f.fs == fs && f.data == [] && Opened(old(fs.View()), Normal(uname), f.index, fs.View())
    ensures f != null && Clean(old(fs.View()), Normal(uname), f.index) ==> f.Writer()
  {
    hide Inv, Key, Stored, DirSectors, DiskWrite, OpenPlace, FileOf, CutFree, Sectors, OpenVolume, EndsBefore, NextFreeUpto, Find, FreeFrom;
    ghost var v := fs.View();
    InvSizes(v);
    var name := Normal(uname);
    NormalKey(uname);
    var existing := fs.FindEntry(name);
    var i := existing;
    if i < 0 { i := fs.FirstFree(); }
    if i < 0 { return null; }
    OpenBounds(v, i);
    OpenExact(v, name, i);
    var start := fs.NextFree(existing);
    SlotOpen(v, name, i, existing);
    OpenedWriter(v, name, i);
    PutOpen(fs, name, i, start);
    f := new OpenFile(fs, 1, i, start, 0);
    NoSectors();
    CutKey(name);
    if Clean(v, name, i) { OpenReady(f, v, name, i); }
  }

  /** The entry is rewritten and the directory saved. */
  method PutOpen(fs: FileSystem, name: Bytes, i: nat, start: Word)
    requires fs.Valid() && |name| <= 47 && i < ENTRIES && start == OpenPlace(fs.View().dir, i) && Slot(fs.View().dir, Key(name)) == Some(i)
    modifies fs.dir, fs.disk.rd, fs.disk.dev
    ensures fs.disk.Valid() && Opened(old(fs.View()), name, i, fs.View())
  {
    hide Inv, Stored, DirSectors, DiskWrite, OpenPlace, Key;
    InvSizes(fs.View());
    fs.dir[i] := NewEntry(fs.dir[i], Cut(name), start, 0);
    fs.SyncDir();
  }

  lemma OpenReady(f: OpenFile, v: Volume, name: Bytes, i: nat)
    requires f.mode == 1 && f.index == i && f.size == f.pos == 0 && f.data == [] && !f.valid && f.sector.Length == 512
    requires Inv(v) && Opened(v, name, i, f.fs.View()) && f.start == OpenPlace(v.dir, i)
    requires f.fs.disk.Valid() && Inv(f.fs.View()) && Key(name) != []
    ensures f.Writer()
  {
    hide Inv, Stored, DirSectors, Key, OpenPlace, OpenVolume, FileOf;
    OpenedWriter(v, name, i);
    OpenBounds(v, i);
    NoSectors();
    InvSizes(v);
  }

  lemma SlotOpen(v: Volume, name: Bytes, i: nat, existing: int)
    requires Inv(v) && i < ENTRIES && Slot(v.dir, Key(name)) == Some(i)
    requires Find(v.dir, Key(name)) == if existing < 0 then None else Some(existing)
    ensures NextFreeUpto(v.dir, if existing < 0 then None else Some(existing), ENTRIES) == OpenPlace(v.dir, i)
  {
  }

  lemma CutKey(name: Bytes)
    ensures Key(Cut(name)) == [] <==> Key(name) == []
  {
  }

  lemma OpenedWriter(v: Volume, name: Bytes, i: nat)
    requires Inv(v) && |name| <= 47 && i < ENTRIES && OpenPlace(v.dir, i) < TWO32
    ensures var start := OpenPlace(v.dir, i);
            var w := OpenVolume(v, name, i);
            && w.dir == v.dir[i := NewEntry(v.dir[i], Cut(name), start, 0)] && |w.disk.rd| == |v.disk.rd|
            && EndsBefore(w.dir, i, start) && (Key(name) != [] ==> Live(w.dir[i]))
  {
    OpenBounds(v, i);
    StoredKey(Cut(name));
    CutKey(name);
    hide Key, Stored, Sectors, OpenPlace, DirSectors;
    InvSizes(v);
    SyncKeeps(v.(dir := v.dir[i := NewEntry(v.dir[i], Cut(name), OpenPlace(v.dir, i), 0)]));
  }

  /** `SYS_OPEN` for reading. */
  method OpenRead(fs: FileSystem, uname: Bytes) returns (f: OpenFile?)
    requires fs.Valid()
    ensures f == null <==> FileOf(fs.View(), Key(uname)) == None
    ensures f != null ==> f.fs == fs && f.Reader() && f.pos == 0 && FileOf(fs.View(), Key(uname)) == Some(f.Text())
  {
    hide Inv, Key, Content;
    NormalKey(uname);
    InvSizes(fs.View());
    var i := fs.FindEntry(Normal(uname));
    if i < 0 { return null; }
    f := new OpenFile(fs, 0, i, fs.dir[i].start, fs.dir[i].size);
  }

  // ----- a whole file, in pieces -----

  function Concat(parts: seq<Bytes>): Bytes { if parts == [] then [] else Concat(parts[..|parts| - 1]) + parts[|parts| - 1] }

  lemma CutSelf(v: Volume, name: Bytes, i: nat)
    requires |name| <= 15 && Slot(v.dir, Key(name)) == Some(i)
    ensures Cut(name) == name && CutFree(v, name, i)
    ensures Find(v.dir, Key(name)) == None || Find(v.dir, Key(name)) == Some(i)
  {
  }

  lemma {:induction false} ConcatBound(parts: seq<Bytes>, i: nat)
    requires i <= |parts|
    ensures |Concat(parts[..i])| <= |Concat(parts)|
    decreases |parts|
  {
    if i < |parts| {
      ConcatBound(parts[..|parts| - 1], i);
      assert parts[..|parts| - 1][..i] == parts[..i];
    } else {
      assert parts[..i] == parts;
    }
  }

  lemma SectorsMono(a: nat, b: nat)
    requires a <= b
    ensures Sectors(a) <= Sectors(b)
  {
  }

  /** However the data is split into writes, the closed file is their
      concatenation and every other file is as before. */
  method WriteParts(fs: FileSystem, uname: Bytes, parts: seq<Bytes>) returns (ok: bool)
    requires fs.Valid() && |Normal(uname)| <= 15 && Key(uname) != []
    requires var v := fs.View();
             Slot(v.dir, Key(uname)).Some? ==>
               OpenPlace(v.dir, Slot(v.dir, Key(uname)).value) + Sectors(|Concat(parts)|) <= FS_DIR_LBA + |v.disk.rd|
    modifies fs.dir, fs.disk.rd, fs.disk.dev
    ensures ok == old(Slot(fs.View().dir, Key(uname)).Some?)
    ensures ok ==> fs.Valid() && forall k :: FileOf(fs.View(), k) == if k == Key(uname) then Some(Concat(parts)) else old(FileOf(fs.View(), k))
  {
    hide Inv, Key, OpenPlace, FileOf, Find, DirSectors, DiskWrite, Sectors, Stored, OpenVolume, CutFree;
    ghost var v := fs.View();
    NormalKey(uname);
    var f := OpenWrite(fs, uname);
    if f == null { return false; }
    ghost var name, u := Normal(uname), fs.View();
    CutSelf(v, name, f.index);
    OpenExact(v, name, f.index);
    OpenedWriter(v, name, f.index);
    StoredKey(name);
    for i := 0 to |parts|
      invariant fresh(f) && fresh(f.sector) && f.fs == fs && f.Writer() && f.data == Concat(parts[..i])
      invariant fs.dir[..] == u.dir && |fs.View().disk.rd| == |u.disk.rd| && forall k :: FileOf(fs.View(), k) == FileOf(u, k)
    {
      assert parts[..i + 1][..i] == parts[..i];
      ConcatBound(parts, i + 1);
      SectorsMono(|Concat(parts[..i + 1])|, |Concat(parts)|);
      var n := f.Fwrite(parts[i]);
    }
    assert parts[..|parts|] == parts;
    f.CloseWrite();
    forall k | k != Key(uname) ensures FileOf(u, k) == FileOf(v, k) { OpenOthers(v, name, f.index, k); }
    ok := true;
  }

  lemma OpenOthers(v: Volume, name: Bytes, i: nat, k: Bytes)
    requires Inv(v) && |name| <= 15 && Slot(v.dir, Key(name)) == Some(i) && i < ENTRIES && OpenPlace(v.dir, i) < TWO32
    requires Inv(OpenVolume(v, name, i)) && k != Key(name)
    ensures FileOf(OpenVolume(v, name, i), k) == FileOf(v, k)
  {
    CutSelf(v, name, i);
    OpenExact(v, name, i);
    hide OpenVolume, FileOf, Key;
    if Find(v.dir, k) == Some(i) { SlotLive(v, name, i); }
  }

  lemma Slices(s: Bytes, a: nat, b: nat, c: nat)
    requires a <= b <= c <= |s|
    ensures s[a..b] + s[b..c] == s[a..c]
  {
  }
}
