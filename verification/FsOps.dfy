/** The file system calls as the kernel makes them: loops over the cached
    directory array, in-place updates of its entries, and sector writes.
 */
module FsOps {
  import opened Options
  import opened Word32
  import opened Store
  import opened Fs
  import D = Disk

  /** Character `i` of a C string. */
  function CharAt(s: Bytes, i: nat): Byte { if i < |s| then s[i] else 0 }

  lemma KeyStep(s: Bytes, i: nat, n: nat)
    requires n > 0 && i <= |s|
    ensures KeyUpto(s[i..], n) == if CharAt(s, i) == 0 then [] else [Upper(CharAt(s, i))] + KeyUpto(s[i + 1..], n - 1)
    ensures CharAt(s, i) != 0 ==> i < |s|
  {
    if i < |s| { assert s[i..][0] == s[i] && s[i..][1..] == s[i + 1..]; }
  }

  lemma ConsEqual(x: Byte, s: Bytes, y: Byte, t: Bytes)
    ensures [x] + s == [y] + t <==> x == y && s == t
    ensures [x] + s != []
  {
    if [x] + s == [y] + t {
      assert ([x] + s)[0] == x && ([y] + t)[0] == y && ([x] + s)[1..] == s && ([y] + t)[1..] == t;
    }
  }

  /** The keys agree from character `i` on. */
  ghost predicate AgreeFrom(a: Bytes, b: Bytes, i: nat) {
    i <= |a| && i <= |b| && i <= 16 && KeyUpto(a[i..], 16 - i) == KeyUpto(b[i..], 16 - i)
  }

  lemma AgreeStep(a: Bytes, b: Bytes, i: nat)
    requires i < 16 && i <= |a| && i <= |b|
    ensures var ca, cb := CharAt(a, i), CharAt(b, i);
            && (ca != 0 ==> i < |a|) && (cb != 0 ==> i < |b|)
            && (AgreeFrom(a, b, i) <==>
                  (ca == 0 && cb == 0) || (ca != 0 && cb != 0 && Upper(ca) == Upper(cb) && AgreeFrom(a, b, i + 1)))
  {
    hide KeyUpto, Upper;
    KeyStep(a, i, 16 - i);
    KeyStep(b, i, 16 - i);
    var ca, cb := CharAt(a, i), CharAt(b, i);
    if ca != 0 && cb != 0 {
      ConsEqual(Upper(ca), KeyUpto(a[i + 1..], 15 - i), Upper(cb), KeyUpto(b[i + 1..], 15 - i));
    } else if ca != 0 {
      ConsEqual(Upper(ca), KeyUpto(a[i + 1..], 15 - i), 0, []);
    } else if cb != 0 {
      ConsEqual(Upper(cb), KeyUpto(b[i + 1..], 15 - i), 0, []);
    }
  }

  lemma AgreeStart(a: Bytes, b: Bytes)
    ensures AgreeFrom(a, b, 0) <==> Key(a) == Key(b)
  {
    assert a[0..] == a && b[0..] == b;
  }

  /** `name_eq_ci`: equal exactly when the keys are. */
  method NameEqCi(a: Bytes, b: Bytes) returns (eq: bool)
    ensures eq <==> Key(a) == Key(b)
  {
    AgreeStart(a, b);
    for i := 0 to 16
      invariant i <= |a| && i <= |b|
      invariant Key(a) == Key(b) <==> AgreeFrom(a, b, i)
    {
      hide AgreeFrom, Key, Upper;
      AgreeStep(a, b, i);
      var ca, cb := CharAt(a, i), CharAt(b, i);
      if ca == 0 && cb == 0 { return true; }
      if ca == 0 || cb == 0 { return false; }
      if Upper(ca) != Upper(cb) { return false; }
    }
    eq := true;
  }

  class FileSystem {
    const dir: array<Dirent>
    const disk: D.Disk

    /** At boot the cached directory is loaded from a well-formed disk. */
    constructor (disk: D.Disk)
      requires disk.Valid() && |disk.View().rd| >= DIR_SECTORS
      requires Inv(Volume(ParseDir(disk.View().rd[..DIR_SECTORS]), disk.View()))
      ensures Valid() && fresh(dir) && this.disk == disk
      ensures View() == Volume(ParseDir(disk.View().rd[..DIR_SECTORS]), disk.View())
    {
      var ss := disk.Read(FS_DIR_LBA, DIR_SECTORS);
      var d := ParseDir(ss);
      dir := new Dirent[ENTRIES](i requires 0 <= i < ENTRIES => d[i]);
      this.disk := disk;
      new;
      ReadInRange(disk.View(), FS_DIR_LBA, DIR_SECTORS);
      assert dir[..] == d;
    }

    function View(): Volume
      reads this, dir, disk, disk.rd, disk.dev
    {
      Volume(dir[..], disk.View())
    }

    ghost predicate Valid()
      reads this, dir, disk, disk.rd, disk.dev
    {
      disk.Valid() && Inv(View())
    }

    /** `fs_find`. */
    method FindEntry(name: Bytes) returns (i: int)
      requires Valid()
      ensures i < ENTRIES && Find(dir[..], Key(name)) == if i < 0 then None else Some(i)
    {
      hide Inv, Key;
      ghost var d := dir[..];
      assert dir.Length == ENTRIES by { InvSizes(View()); }
      for k := 0 to dir.Length
        invariant Find(d, Key(name)) == FindFrom(d, Key(name), k)
      {
        assert d[k] == dir[k];
        if dir[k].name[0] != 0 {
          var eq := NameEqCi(dir[k].name, name);
          if eq { return k; }
        }
      }
      i := -1;
    }

    /** `fs_next_free`, and `fs_next_free_excl` when an entry is left out. */
    method NextFree(excl: int) returns (m: nat)
      requires Valid()
      ensures m == NextFreeUpto(dir[..], if excl < 0 then None else Some(excl), ENTRIES)
    {
      hide Inv;
      ghost var d := dir[..];
      assert dir.Length == ENTRIES by { InvSizes(View()); }
      ghost var x: Option<nat> := if excl < 0 then None else Some(excl);
      NextFreeNone(d, x);
      hide NextFreeUpto;
      m := FS_DATA_LBA;
      for k := 0 to dir.Length
        invariant m == NextFreeUpto(d, x, k)
      {
        assert d[k] == dir[k];
        NextFreeOne(d, x, k);
        assert Some(k) != x <==> k != excl;
        if dir[k].name[0] != 0 && k != excl {
          var end := dir[k].start + (dir[k].size + 511) / 512;
          if end > m { m := end; }
        }
      }
    }

    method FirstFree() returns (i: int)
      requires Valid()
      ensures i < ENTRIES && FreeFrom(dir[..], 0) == if i < 0 then None else Some(i)
    {
      hide Inv;
      assert dir.Length == ENTRIES by { InvSizes(View()); }
      ghost var d := dir[..];
      for k := 0 to dir.Length
        invariant FreeFrom(d, 0) == FreeFrom(d, k)
      {
        assert d[k] == dir[k];
        if dir[k].name[0] == 0 { return k; }
      }
      i := -1;
    }

    /** `fs_sync_dir`. */
    method SyncDir()
      requires disk.Valid() && dir.Length == ENTRIES
      modifies disk.rd, disk.dev
      ensures disk.Valid() && View() == Sync(old(View()))
    {
      hide DirSectors, DiskWrite;
      assert |DirSectors(dir[..])| == DIR_SECTORS;
      disk.Write(FS_DIR_LBA, DirSectors(dir[..]));
    }

    /** `fs_load_dir`: after any completed call it would read what is cached. */
    method LoadDir() returns (d: seq<Dirent>)
      requires Valid()
      ensures d == dir[..]
    {
      var ss := disk.Read(FS_DIR_LBA, DIR_SECTORS);
      d := ParseDir(ss);
      ReadInRange(disk.View(), FS_DIR_LBA, DIR_SECTORS);
      DirRound(dir[..]);
    }

    /** `SYS_LOAD`. */
    method Load(uname: Bytes, max: nat) returns (r: Option<Bytes>)
      requires Valid()
      ensures match FileOf(View(), Key(uname))
              case Some(b) => r == if |b| > max then None else Some(b)
              case None => r == None
    {
      hide Inv, Key, Content;
      NormalKey(uname);
      InvSizes(View());
      var i := FindEntry(Normal(uname));
      if i < 0 || dir[i].size > max { return None; }
      var b := ReadEntry(i);
      r := Some(b);
    }

    /** The body of `fs_read`. */
    method ReadEntry(i: nat) returns (b: Bytes)
      requires disk.Valid() && i < dir.Length && End(dir[i]) < TWO32
      ensures b == Content(disk.View(), dir[i])
    {
      hide Flat, DiskRead;
      var full, rem := dir[i].size / 512, dir[i].size % 512;
      SectorsIs(dir[i].size);
      var ss := disk.Read(dir[i].start, full);
      b := Flat(ss);
      if rem > 0 {
        var last := disk.Read(dir[i].start + full, 1);
        b := b + last[0][..rem];
      }
    }

    /** `SYS_SAVE`: the map gains the file if the disk has room. */
    method Save(uname: Bytes, data: Bytes, slack: Bytes) returns (code: int)
      requires Valid() && Fills(data, slack)
      modifies dir, disk.rd, disk.dev
      ensures Apply(old(View()), OpSave(uname, data, slack)) == Outcome(View(), code)
      ensures old(Fits(View(), Normal(uname), |data|)) ==> Valid()
    {
      hide Inv, Key, Padded, DiskWrite, Stored, Fits, DirSectors;
      ghost var v := View();
      InvSizes(v);
      var name := Normal(uname);
      SlotPlace(v, name, |data|);
      if Fits(v, name, |data|) { SaveKeeps(v, name, data, slack); }
      var i := FindEntry(name);
      var overwrite := i >= 0;
      if i < 0 {
        i := FirstFree();
        if i < 0 { return -1; }
      }
      var start := PlaceFor(i, overwrite, |data|);
      PlaceBound(v, i, |data|);
      disk.Write(start, Padded(data, slack));
      dir[i] := NewEntry(dir[i], name, start, |data|);
      SyncDir();
      code := 0;
    }

    method PlaceFor(i: nat, overwrite: bool, size: nat) returns (start: nat)
      requires Valid() && i < dir.Length && overwrite == Live(dir[i])
      ensures start == Place(dir[..], i, size)
    {
      hide Inv;
      InvSizes(View());
      if overwrite {
        if (size + 511) / 512 <= (dir[i].size + 511) / 512 {
          start := dir[i].start;
        } else {
          start := NextFree(i);
        }
      } else {
        start := NextFree(-1);
      }
    }

    /** `SYS_DELETE`. */
    method Delete(uname: Bytes) returns (code: int)
      requires Valid()
      modifies dir, disk.rd, disk.dev
      ensures Valid() && Apply(old(View()), OpDelete(uname)) == Outcome(View(), code)
    {
      hide Inv, Key, DirSectors, DiskWrite;
      ghost var v := View();
      InvSizes(v);
      DeleteKeeps(v, Normal(uname));
      var i := FindEntry(Normal(uname));
      if i < 0 { return -1; }
      dir[i] := Entry(seq(NAME, _ => 0), 0, 0, 0, 0);
      SyncDir();
      code := 0;
    }

    /** `SYS_RENAME`. */
    method Rename(uold: Bytes, unew: Bytes) returns (code: int)
      requires Valid()
      modifies dir, disk.rd, disk.dev
      ensures Valid() && Apply(old(View()), OpRename(uold, unew)) == Outcome(View(), code)
    {
      hide Inv, Key, DirSectors, DiskWrite, Stored, Normal, Apply, Sync;
      ghost var v := View();
      InvSizes(v);
      ApplyRename(v, uold, unew);
      RenameKeeps(v, Normal(uold), Normal(unew));
      var i := FindEntry(Normal(uold));
      if i < 0 { return -1; }
      var j := FindEntry(Normal(unew));
      if j >= 0 { return -1; }
      dir[i] := dir[i].(name := Stored(Normal(unew)));
      SyncDir();
      code := 0;
    }
  }

  lemma ApplyRename(v: Volume, uold: Bytes, unew: Bytes)
    requires Inv(v)
    ensures Apply(v, OpRename(uold, unew)) == Rename(v, Normal(uold), Normal(unew))
  {
    hide Rename;
  }

  lemma InvSizes(v: Volume)
    requires Inv(v)
    ensures |v.dir| == ENTRIES && DIR_SECTORS <= |v.disk.rd| < MAX_RD && Adopted(v.disk)
    ensures forall i :: 0 <= i < ENTRIES && Live(v.dir[i]) ==> End(v.dir[i]) < TWO32
  {
  }
}
