/** The two address spaces: PAE page directories and page tables in memory
    (section 4.4 of Intel SDM Vol. 3A), shared between the kernel and the running
    program except where the program's window is.
 */
module Paging {
  import opened Options
  import opened Word32

  const PAGE := 4096
  const PAGES := 0x10_0000
  const REGIONS := 2048
  /** The layout in pages: 128 MB of identity map; the program's 96 MB window at
      4 MB, of which the first 24 MB are memory with a guard page below the 1 MB
      stack and the next 48 MB are windows onto devices; the kernel's own windows
      from 256 MB on. */
  const IDENTITY := 32768
  const USER := 1024
  const USER_END := 25600
  const FIRST_REGION := 2
  const LAST_REGION := 50
  const ARENA := 6144
  const GUARD := 5887
  const WINDOWS_END := 19456
  const KERNEL_WINDOWS := 65536
  const PTE_W := 2
  const PTE_WU := 6

  /** A 64-bit entry: not present, or a page address and its flags. */
  datatype Entry = Absent | Present(addr: nat, flags: nat)

  type Table = t: seq<Entry> | |t| == 512 witness seq(512, _ => Absent)

  function Zeroed(): Table { seq(512, _ => Absent) }

  /** Table pages by physical address, the next free page, and the four page
      directories of each space; none for the program before it has its own. */
  datatype Mem = Mem(pages: map<nat, Table>, free: nat, kernel: seq<nat>, proc: seq<nat>)

  function Dirs(m: Mem, user: bool): seq<nat> { if user then m.proc else m.kernel }

  // ----- walking -----

  /** Directory entry of a 2 MB region. */
  function Pde(m: Mem, user: bool, r: nat): Entry
    requires r < REGIONS
  {
    if |Dirs(m, user)| != 4 then Absent
    else
      var d := Dirs(m, user)[r / 512];
      if d in m.pages then m.pages[d][r % 512] else Absent
  }

  /** Where page `v` is mapped. */
  function Walk(m: Mem, user: bool, v: nat): Entry
    requires v < PAGES
  {
    match Pde(m, user, v / 512)
    case Absent => Absent
    case Present(t, _) => if t in m.pages then m.pages[t][v % 512] else Absent
  }

  /** Physical address of a byte. */
  function Translate(m: Mem, user: bool, a: nat): Option<nat>
    requires a < PAGES * PAGE
  {
    match Walk(m, user, a / PAGE)
    case Absent => None
    case Present(p, _) => Some(p + a % PAGE)
  }

  // ----- the invariant -----

  predicate IsDir(m: Mem, p: nat) { p in m.kernel || p in m.proc }

  /** Directories are different pages. */
  ghost predicate DirsApart(m: Mem) {
    && |m.kernel| == 4 && (|m.proc| == 4 || m.proc == [])
    && (forall i :: 0 <= i < 4 ==> m.kernel[i] in m.pages)
    && (forall i :: 0 <= i < |m.proc| ==> m.proc[i] in m.pages)
    && (forall i, j :: 0 <= i < j < 4 ==> m.kernel[i] != m.kernel[j])
    && (forall i, j :: 0 <= i < j < |m.proc| ==> m.proc[i] != m.proc[j])
    && (forall i, j :: 0 <= i < 4 && 0 <= j < |m.proc| ==> m.kernel[i] != m.proc[j])
  }

  predicate SameTable(m: Mem, u: bool, r: nat, w: bool, q: nat)
    requires r < REGIONS && q < REGIONS
  {
    Pde(m, u, r).Present? && Pde(m, w, q).Present? && Pde(m, u, r).addr == Pde(m, w, q).addr
  }

  /** Every directory entry leads to a table; a table serves one region. */
  ghost predicate TablesApart(m: Mem) {
    && (forall u, r :: 0 <= r < REGIONS && Pde(m, u, r).Present? ==> Pde(m, u, r).addr in m.pages && !IsDir(m, Pde(m, u, r).addr))
    && (forall u, r, w, q :: 0 <= r < REGIONS && 0 <= q < REGIONS && SameTable(m, u, r, w, q) ==> r == q)
  }

  ghost predicate Inv(m: Mem) { DirsApart(m) && TablesApart(m) && forall p :: p in m.pages ==> p < m.free }

  /** Both spaces use one table for the region. */
  predicate Shared(m: Mem, r: nat)
    requires r < REGIONS
  {
    SameTable(m, true, r, false, r)
  }

  // ----- mapping one page -----

  function SetEntry(m: Mem, p: nat, i: nat, e: Entry): Mem
    requires p in m.pages && i < 512
  {
    m.(pages := m.pages[p := m.pages[p][i := e]])
  }

  /** A directory entry is always writable, and open to programs if the page is. */
  function PdeFlags(flags: nat): nat { if flags / 4 % 2 == 1 then PTE_WU else PTE_W }

  /** `map_page`. */
  function MapPage(m: Mem, user: bool, v: nat, phys: nat, flags: nat): Mem
    requires Inv(m) && v < PAGES && |Dirs(m, user)| == 4
  {
    var r := v / 512;
    match Pde(m, user, r)
    case Present(t, _) => SetEntry(m, t, v % 512, Present(phys, flags))
    case Absent =>
      var t := m.free;
      var m1 := m.(pages := m.pages[t := Zeroed()], free := m.free + PAGE);
      SetEntry(SetEntry(m1, Dirs(m, user)[r / 512], r % 512, Present(t, PdeFlags(flags))), t, v % 512, Present(phys, flags))
  }

  lemma SplitApart(n: nat, a: nat, b: nat)
    requires n > 0
    ensures a / n == b / n && a % n == b % n <==> a == b
  {
    assert a == n * (a / n) + a % n && b == n * (b / n) + b % n;
  }

  /** Writing a table entry moves no directory entry. */
  lemma TableWrite(m: Mem, p: nat, i: nat, e: Entry)
    requires DirsApart(m) && p in m.pages && i < 512 && !IsDir(m, p)
    ensures var g := SetEntry(m, p, i, e);
            DirsApart(g) && forall u, r :: 0 <= r < REGIONS ==> Pde(g, u, r) == Pde(m, u, r)
  {
    var g := SetEntry(m, p, i, e);
    forall u, r | 0 <= r < REGIONS ensures Pde(g, u, r) == Pde(m, u, r) {
      assert |Dirs(m, u)| == 4 ==> IsDir(m, Dirs(m, u)[r / 512]);
    }
  }

  lemma SamePdes(m: Mem, g: Mem)
    requires Inv(m) && DirsApart(g) && g.kernel == m.kernel && g.proc == m.proc && m.pages.Keys <= g.pages.Keys
    requires forall u, r :: 0 <= r < REGIONS ==> Pde(g, u, r) == Pde(m, u, r)
    ensures TablesApart(g)
  {
    hide Pde;
    forall u, r, w, q | 0 <= r < REGIONS && 0 <= q < REGIONS && SameTable(g, u, r, w, q) ensures r == q {
      assert SameTable(m, u, r, w, q);
    }
  }

  /** A new table for a region that had none. */
  function WithTable(m: Mem, user: bool, r: nat, flags: nat): Mem
    requires Inv(m) && r < REGIONS && |Dirs(m, user)| == 4
  {
    var t := m.free;
    SetEntry(m.(pages := m.pages[t := Zeroed()], free := m.free + PAGE), Dirs(m, user)[r / 512], r % 512, Present(t, flags))
  }

  lemma NewTable(m: Mem, user: bool, r: nat, flags: nat)
    requires Inv(m) && r < REGIONS && |Dirs(m, user)| == 4 && Pde(m, user, r).Absent?
    ensures var g := WithTable(m, user, r, flags);
            && DirsApart(g) && g.kernel == m.kernel && g.proc == m.proc && m.free in g.pages && g.pages[m.free] == Zeroed() && !IsDir(g, m.free)
            && Pde(g, user, r) == Present(m.free, flags)
            && (forall u, q :: 0 <= q < REGIONS && !(u == user && q == r) ==> Pde(g, u, q) == Pde(m, u, q))
            && (forall p :: p in m.pages && !IsDir(m, p) ==> p in g.pages && g.pages[p] == m.pages[p])
            && (forall p :: p in g.pages ==> p < g.free)
  {
    var g := WithTable(m, user, r, flags);
    var d := Dirs(m, user)[r / 512];
    assert d in m.pages && IsDir(m, d);
    forall u, q | 0 <= q < REGIONS && !(u == user && q == r) ensures Pde(g, u, q) == Pde(m, u, q) {
      SplitApart(512, q, r);
      assert |Dirs(m, u)| == 4 ==> Dirs(m, u)[q / 512] in m.pages;
    }
  }

  lemma NewTableInv(m: Mem, user: bool, r: nat, flags: nat)
    requires Inv(m) && r < REGIONS && |Dirs(m, user)| == 4 && Pde(m, user, r).Absent?
    ensures Inv(WithTable(m, user, r, flags))
  {
    NewTable(m, user, r, flags);
    var g := WithTable(m, user, r, flags);
    hide Pde, WithTable;
    forall u, q | 0 <= q < REGIONS && Pde(g, u, q).Present? ensures Pde(g, u, q).addr in g.pages && !IsDir(g, Pde(g, u, q).addr) {
    }
    forall u, a, w, b | 0 <= a < REGIONS && 0 <= b < REGIONS && SameTable(g, u, a, w, b) ensures a == b {
      assert SameTable(m, u, a, w, b) || (u == user && a == r) || (w == user && b == r);
    }
  }

  lemma NewTableWalk(m: Mem, user: bool, r: nat, flags: nat)
    requires Inv(m) && r < REGIONS && |Dirs(m, user)| == 4 && Pde(m, user, r).Absent?
    ensures var g := WithTable(m, user, r, flags);
            && g.kernel == m.kernel && g.proc == m.proc
            && forall u, x :: 0 <= x < PAGES ==> Walk(g, u, x) == Walk(m, u, x)
  {
    NewTable(m, user, r, flags);
    var g := WithTable(m, user, r, flags);
    hide Pde, WithTable;
    forall u, x | 0 <= x < PAGES ensures Walk(g, u, x) == Walk(m, u, x) {
    }
  }

  /** Writing the entry of page `v` in its table. */
  lemma EntryWrite(m: Mem, user: bool, v: nat, e: Entry)
    requires Inv(m) && v < PAGES && Pde(m, user, v / 512).Present?
    ensures var t := Pde(m, user, v / 512).addr;
            && t in m.pages
            && var g := SetEntry(m, t, v % 512, e);
               && Inv(g)
               && (forall u, r :: 0 <= r < REGIONS ==> Pde(g, u, r) == Pde(m, u, r))
               && forall u, x :: 0 <= x < PAGES ==>
                    Walk(g, u, x) == if x == v && (u == user || Shared(m, v / 512)) then e else Walk(m, u, x)
  {
    var t := Pde(m, user, v / 512).addr;
    TableWrite(m, t, v % 512, e);
    var g := SetEntry(m, t, v % 512, e);
    SamePdes(m, g);
    hide Pde;
    forall u, x | 0 <= x < PAGES
      ensures Walk(g, u, x) == if x == v && (u == user || Shared(m, v / 512)) then e else Walk(m, u, x)
    {
      SplitApart(512, x, v);
      if Pde(m, u, x / 512).Present? && Pde(m, u, x / 512).addr == t { assert SameTable(m, u, x / 512, user, v / 512); }
    }
  }

  /** `map_page` maps its page and changes no other page of either space, except
      that a page in a shared table is mapped in both. */
  lemma MapPageEffect(m: Mem, user: bool, v: nat, phys: nat, flags: nat)
    requires Inv(m) && v < PAGES && |Dirs(m, user)| == 4
    ensures var g := MapPage(m, user, v, phys, flags);
            && Inv(g) && m.free <= g.free && g.kernel == m.kernel && g.proc == m.proc
            && (forall u, x :: 0 <= x < PAGES ==>
                  Walk(g, u, x) == if x == v && (u == user || Shared(m, v / 512)) then Present(phys, flags) else Walk(m, u, x))
            && (forall r :: 0 <= r < REGIONS ==> Shared(g, r) == Shared(m, r))
            && (forall u, r :: 0 <= r < REGIONS && Pde(m, u, r).Present? ==> Pde(g, u, r) == Pde(m, u, r))
  {
    var r := v / 512;
    if Pde(m, user, r).Present? {
      EntryWrite(m, user, v, Present(phys, flags));
    } else {
      NewTableInv(m, user, r, PdeFlags(flags));
      NewTable(m, user, r, PdeFlags(flags));
      NewTableWalk(m, user, r, PdeFlags(flags));
      var m1 := WithTable(m, user, r, PdeFlags(flags));
      EntryWrite(m1, user, v, Present(phys, flags));
      assert !Shared(m1, r);
      hide Walk, WithTable;
    }
  }

  // ----- mapping ranges -----

  /** `n` pages in a row. */
  function MapRange(m: Mem, user: bool, v: nat, phys: nat, n: nat, flags: nat): Mem
    requires Inv(m) && v + n <= PAGES && |Dirs(m, user)| == 4
    decreases n
  {
    if n == 0 then m
    else
      MapPageInv(m, user, v, phys, flags);
      MapRange(MapPage(m, user, v, phys, flags), user, v + 1, phys + PAGE, n - 1, flags)
  }

  lemma FourDirs(m: Mem)
    requires Inv(m)
    ensures |m.kernel| == 4
  {
  }

  lemma MapPageInv(m: Mem, user: bool, v: nat, phys: nat, flags: nat)
    requires Inv(m) && v < PAGES && |Dirs(m, user)| == 4
    ensures var g := MapPage(m, user, v, phys, flags); Inv(g) && g.kernel == m.kernel && g.proc == m.proc
  {
    hide Inv, Walk, Pde, SameTable, MapPage;
    MapPageEffect(m, user, v, phys, flags);
  }

  predicate InRange(x: nat, v: nat, n: nat) { v <= x < v + n }

  /** Exactly the pages of the range change, in the one space or, where the table
      is shared, in both. */
  lemma {:induction false} MapRangeEffect(m: Mem, user: bool, v: nat, phys: nat, n: nat, flags: nat)
    requires Inv(m) && v + n <= PAGES && |Dirs(m, user)| == 4
    ensures var g := MapRange(m, user, v, phys, n, flags);
            && Inv(g) && m.free <= g.free && g.kernel == m.kernel && g.proc == m.proc
            && (forall u, x :: 0 <= x < PAGES ==>
                  Walk(g, u, x) == if InRange(x, v, n) && (u == user || Shared(m, x / 512)) then Present(phys + (x - v) * PAGE, flags) else Walk(m, u, x))
            && (forall r :: 0 <= r < REGIONS ==> Shared(g, r) == Shared(m, r))
            && (forall u, r :: 0 <= r < REGIONS && Pde(m, u, r).Present? ==> Pde(g, u, r) == Pde(m, u, r))
    decreases n
  {
    hide Walk, Pde, SameTable, MapPage, Inv;
    if n > 0 {
      MapPageEffect(m, user, v, phys, flags);
      MapRangeEffect(MapPage(m, user, v, phys, flags), user, v + 1, phys + PAGE, n - 1, flags);
    }
  }

  lemma MapRangeInv(m: Mem, user: bool, v: nat, phys: nat, n: nat, flags: nat)
    requires Inv(m) && v + n <= PAGES && |Dirs(m, user)| == 4
    ensures var g := MapRange(m, user, v, phys, n, flags); Inv(g) && g.kernel == m.kernel && g.proc == m.proc
  {
    hide Inv, Walk, Pde, SameTable;
    MapRangeEffect(m, user, v, phys, n, flags);
  }

  /** Pages `map_phys_at` maps for `size` bytes at `phys`; the total is computed in
      32 bits. */
  function PageCount(phys: nat, size: nat): nat { (Wrap(phys % PAGE + size) + PAGE - 1) / PAGE }

  /** `map_phys_at`, with `virt` a page number. */
  function MapPhys(m: Mem, user: bool, v: nat, phys: nat, size: nat, flags: nat): Mem
    requires Inv(m) && v + PageCount(phys, size) <= PAGES && |Dirs(m, user)| == 4
  {
    MapRange(m, user, v, phys - phys % PAGE, PageCount(phys, size), flags)
  }

  /** Byte `k` of the device is found `k` bytes into the mapping, which keeps the
      offset within the page; no page outside the mapping changes. */
  lemma MapPhysEffect(m: Mem, user: bool, v: nat, phys: nat, size: nat, flags: nat, k: nat)
    requires Inv(m) && v + PageCount(phys, size) <= PAGES && |Dirs(m, user)| == 4 && k < size && phys % PAGE + size < TWO32
    ensures v * PAGE + phys % PAGE + k < PAGES * PAGE
    ensures Translate(MapPhys(m, user, v, phys, size, flags), user, v * PAGE + phys % PAGE + k) == Some(phys + k)
    ensures forall u, x :: 0 <= x < PAGES && !InRange(x, v, PageCount(phys, size)) ==>
              Walk(MapPhys(m, user, v, phys, size, flags), u, x) == Walk(m, u, x)
  {
    hide Walk, MapRange, SameTable, Inv;
    var off := phys % PAGE + k;
    ByteInPage(v, off);
    PageOfByte(phys, size, k);
    MapRangeEffect(m, user, v, phys - phys % PAGE, PageCount(phys, size), flags);
    hide PageCount;
    assert InRange(v + off / PAGE, v, PageCount(phys, size));
  }

  /** Byte `k` lies on a page that is mapped. */
  predicate Reached(phys: nat, size: Word, k: nat) { (phys % PAGE + k) / PAGE < PageCount(phys, size) }

  /** The mapping reaches every byte exactly when the total does not wrap. */
  lemma CoversExact(phys: nat, size: Word)
    ensures (forall k: nat :: k < size ==> Reached(phys, size, k)) <==> phys % PAGE + size < TWO32
  {
    if phys % PAGE + size >= TWO32 {
      assert PageCount(phys, size) <= 1;
      assert !Reached(phys, size, size - 1);
    }
  }

  /** 2^32 - 1 bytes from the last byte of a page: the total is 4094, so one page is
      mapped. */
  lemma OnePageOnly()
    ensures PageCount(0xFFF, 0xFFFF_FFFF) == 1 && !Reached(0xFFF, 0xFFFF_FFFF, 1)
  {
  }

  lemma PageOfByte(phys: nat, size: nat, k: nat)
    requires k < size && phys % PAGE + size < TWO32
    ensures var off := phys % PAGE + k; off / PAGE < PageCount(phys, size) && off / PAGE * PAGE + off % PAGE == off
  {
  }

  lemma ByteInPage(v: nat, off: nat)
    ensures (v * PAGE + off) / PAGE == v + off / PAGE && (v * PAGE + off) % PAGE == off % PAGE
  {
  }

  // ----- start-up -----

  /** The program's directories start as copies of the kernel's. */
  function AddProc(m: Mem): Mem
    requires Inv(m)
  {
    var f := m.free + PAGE;
    var pages := m.pages[f := m.pages[m.kernel[0]]][f + PAGE := m.pages[m.kernel[1]]][f + 2 * PAGE := m.pages[m.kernel[2]]][f + 3 * PAGE := m.pages[m.kernel[3]]];
    m.(pages := pages, free := m.free + 5 * PAGE, proc := [f, f + PAGE, f + 2 * PAGE, f + 3 * PAGE])
  }

  lemma AddProcPdes(m: Mem)
    requires Inv(m) && m.proc == []
    ensures var g := AddProc(m);
            && DirsApart(g) && (forall p :: p in g.pages ==> p < g.free)
            && (forall p :: p in m.pages ==> p in g.pages && g.pages[p] == m.pages[p])
            && forall u, r :: 0 <= r < REGIONS ==> Pde(g, u, r) == Pde(m, false, r)
  {
    var g := AddProc(m);
    forall u, r | 0 <= r < REGIONS ensures Pde(g, u, r) == Pde(m, false, r) {
      if u {
        assert r / 512 == 0 || r / 512 == 1 || r / 512 == 2 || r / 512 == 3;
      }
    }
  }

  lemma AddProcEffect(m: Mem)
    requires Inv(m) && m.proc == []
    ensures var g := AddProc(m);
            && Inv(g) && |g.proc| == 4 && forall u, x :: 0 <= x < PAGES ==> Walk(g, u, x) == Walk(m, false, x)
  {
    AddProcPdes(m);
    var g := AddProc(m);
    forall p | p in m.pages && !IsDir(m, p) ensures !IsDir(g, p) {
    }
    hide Pde, AddProc;
    forall u, r, w, q | 0 <= r < REGIONS && 0 <= q < REGIONS && SameTable(g, u, r, w, q) ensures r == q {
      assert SameTable(m, false, r, false, q);
    }
  }

  /** `map_user_space` first drops the program's directory entries of its window. */
  function ClearRegions(m: Mem, k: nat): (g: Mem)
    requires Inv(m) && |m.proc| == 4 && FIRST_REGION + k <= LAST_REGION
    ensures Inv(g) && g.kernel == m.kernel && g.proc == m.proc && g.free == m.free
    decreases k
  {
    hide Inv, Drop;
    if k == 0 then m
    else
      var g := ClearRegions(m, k - 1);
      DropEntry(g, FIRST_REGION + k - 1);
      Drop(g, FIRST_REGION + k - 1)
  }

  /** The program's page directory entry for a region removed. */
  function Drop(m: Mem, r: nat): Mem
    requires Inv(m) && |m.proc| == 4 && r < REGIONS
  {
    SetEntry(m, m.proc[r / 512], r % 512, Absent)
  }

  lemma DropEntry(m: Mem, r: nat)
    requires Inv(m) && |m.proc| == 4 && r < REGIONS
    ensures var g := Drop(m, r);
            && Inv(g) && g.kernel == m.kernel && g.proc == m.proc && g.free == m.free && Pde(g, true, r) == Absent
            && (forall u, q :: 0 <= q < REGIONS && !(u && q == r) ==> Pde(g, u, q) == Pde(m, u, q))
            && (forall p :: p in m.pages && !IsDir(m, p) ==> p in g.pages && g.pages[p] == m.pages[p])
  {
    var g := SetEntry(m, m.proc[r / 512], r % 512, Absent);
    forall u, q | 0 <= q < REGIONS && !(u && q == r) ensures Pde(g, u, q) == Pde(m, u, q) {
      SplitApart(512, q, r);
      assert Dirs(m, u)[q / 512] in m.pages;
    }
    hide Pde;
    forall u, a, w, b | 0 <= a < REGIONS && 0 <= b < REGIONS && SameTable(g, u, a, w, b) ensures a == b {
      assert SameTable(m, u, a, w, b);
    }
  }

  predicate InWindow(r: nat, k: nat) { FIRST_REGION <= r < FIRST_REGION + k }

  lemma {:induction false} ClearEffect(m: Mem, k: nat, g: Mem)
    requires Inv(m) && |m.proc| == 4 && FIRST_REGION + k <= LAST_REGION && g == ClearRegions(m, k)
    ensures forall u, r :: 0 <= r < REGIONS ==> Pde(g, u, r) == if u && InWindow(r, k) then Absent else Pde(m, u, r)
    ensures forall p :: p in m.pages && !IsDir(m, p) ==> p in g.pages && g.pages[p] == m.pages[p]
    decreases k
  {
    hide Pde, Drop, Inv;
    if k > 0 {
      var prev := ClearRegions(m, k - 1);
      ClearEffect(m, k - 1, prev);
      DropEntry(prev, FIRST_REGION + k - 1);
    }
  }

  lemma ClearWalk(m: Mem, k: nat, g: Mem)
    requires Inv(m) && |m.proc| == 4 && FIRST_REGION + k <= LAST_REGION && g == ClearRegions(m, k)
    ensures forall u, x :: 0 <= x < PAGES ==> Walk(g, u, x) == if u && InWindow(x / 512, k) then Absent else Walk(m, u, x)
    ensures forall r :: 0 <= r < REGIONS ==> Shared(g, r) == (Shared(m, r) && !InWindow(r, k))
  {
    ClearEffect(m, k, g);
    hide Pde, ClearRegions;
  }

  /** `map_user_space`: memory for the program, with a hole for the guard page. */
  function MapUserSpace(m: Mem, phys: nat): Mem
    requires Inv(m) && |m.proc| == 4
  {
    var c := ClearRegions(m, LAST_REGION - FIRST_REGION);
    MapRangeInv(c, true, USER, phys, GUARD, PTE_WU);
    MapRange(MapRange(c, true, USER, phys, GUARD, PTE_WU), true, USER + GUARD + 1, phys + (GUARD + 1) * PAGE, ARENA - GUARD - 1, PTE_WU)
  }

  /** What every run keeps: the kernel's identity map, a guard page that is not
      there, and separate tables throughout the program's window. */
  ghost predicate Safe(m: Mem) {
    && Inv(m) && |m.proc| == 4
    && (forall x :: 0 <= x < IDENTITY ==> Walk(m, false, x) == Present(x * PAGE, PTE_W))
    && Walk(m, true, USER + GUARD) == Absent
    && (forall r :: FIRST_REGION <= r < LAST_REGION ==> !Shared(m, r))
  }

  /** The kernel's identity map before the program exists. */
  ghost predicate Identity(m: Mem) {
    && Inv(m) && forall x :: 0 <= x < IDENTITY ==> Walk(m, false, x) == Present(x * PAGE, PTE_W)
  }

  /** Fresh, empty kernel directories. */
  function KernelDirs(base: nat): Mem {
    var f := base + PAGE;
    Mem(map[f := Zeroed(), f + PAGE := Zeroed(), f + 2 * PAGE := Zeroed(), f + 3 * PAGE := Zeroed()], f + 4 * PAGE,
        [f, f + PAGE, f + 2 * PAGE, f + 3 * PAGE], [])
  }

  lemma KernelDirsInv(base: nat)
    ensures Inv(KernelDirs(base)) && forall u, r :: 0 <= r < REGIONS ==> Pde(KernelDirs(base), u, r) == Absent
  {
    var m := KernelDirs(base);
    forall u, r | 0 <= r < REGIONS ensures Pde(m, u, r) == Absent {
      assert r / 512 == 0 || r / 512 == 1 || r / 512 == 2 || r / 512 == 3;
    }
    assert DirsApart(m);
  }

  /** `paging_init` up to the program's directories. */
  lemma IdentityMapped(base: nat)
    ensures Inv(KernelDirs(base)) && Identity(MapRange(KernelDirs(base), false, 0, 0, IDENTITY, PTE_W))
  {
    hide Walk, Pde, MapRange, SameTable, KernelDirs;
    KernelDirsInv(base);
    assert |KernelDirs(base).kernel| == 4;
    hide Inv;
    MapRangeEffect(KernelDirs(base), false, 0, 0, IDENTITY, PTE_W);
  }

  /** Everything from the copied directories to the program's memory is safe,
      whatever was mapped above the identity map in between. */
  lemma UserSpaceSafe(m: Mem, phys: nat)
    requires Identity(m) && |m.proc| == 4
    ensures Safe(MapUserSpace(m, phys))
  {
    hide Walk, Pde, MapRange, SameTable, ClearRegions, TablesApart, DirsApart;
    var n := LAST_REGION - FIRST_REGION;
    var c := ClearRegions(m, n);
    ClearWalk(m, n, c);
    var g := MapRange(c, true, USER, phys, GUARD, PTE_WU);
    MapRangeEffect(c, true, USER, phys, GUARD, PTE_WU);
    MapRangeEffect(g, true, USER + GUARD + 1, phys + (GUARD + 1) * PAGE, ARENA - GUARD - 1, PTE_WU);
    var h := MapUserSpace(m, phys);
    forall r | FIRST_REGION <= r < LAST_REGION ensures !Shared(h, r) && !Shared(g, r) && !Shared(c, r) {
      assert InWindow(r, n);
    }
    forall x | 0 <= x < IDENTITY ensures Walk(h, false, x) == Present(x * PAGE, PTE_W) {
      if InRange(x, USER, ARENA) { assert !Shared(c, x / 512) && !Shared(g, x / 512); }
    }
    assert InWindow((USER + GUARD) / 512, n);
    assert Walk(c, true, USER + GUARD) == Absent;
  }

  const DMA := 4096

  /** The program's memory and, if it ends below the identity limit, the DMA arena
      are set aside; page tables come from above the program's window after that. */
  function Reserve(m: Mem): Mem {
    var arena := m.free + ARENA * PAGE;
    var dma := if arena + DMA * PAGE <= IDENTITY * PAGE then arena + DMA * PAGE else arena;
    m.(free := if dma < USER_END * PAGE then USER_END * PAGE else dma)
  }

  /** `paging_init` up to the program's memory: the identity map, the program's
      directories, the framebuffer in both spaces if there is one. */
  function Early(base: nat, fb: Option<Op>): (g: Mem)
    requires fb.Some? ==> fb.value.Kernel? && Fitting(fb.value)
    ensures Inv(g) && |g.proc| == 4
  {
    hide Walk, Pde, SameTable, MapRange, TablesApart, DirsApart, AddProc, Do, Identity;
    IdentityMapped(base);
    var m := MapRange(KernelDirs(base), false, 0, 0, IDENTITY, PTE_W);
    NoProc(base);
    IdentityInv(m);
    AddProcEffect(m);
    var g := AddProc(m);
    match fb
    case None => g
    case Some(op) => DoInv(g, op); Do(g, op)
  }

  /** All of `paging_init`. */
  function Boot(base: nat, fb: Option<Op>): Mem
    requires fb.Some? ==> fb.value.Kernel? && Fitting(fb.value)
  {
    var g := Early(base, fb);
    ReserveSame(g);
    MapUserSpace(Reserve(g), g.free)
  }

  lemma IdentityInv(m: Mem)
    requires Identity(m)
    ensures Inv(m)
  {
  }

  lemma ReserveSame(m: Mem)
    requires Inv(m)
    ensures var g := Reserve(m);
            && Inv(g) && g.proc == m.proc && g.free >= m.free && USER_END * PAGE <= g.free
            && (forall u, r :: 0 <= r < REGIONS ==> Pde(g, u, r) == Pde(m, u, r))
            && forall u, x :: 0 <= x < PAGES ==> Walk(g, u, x) == Walk(m, u, x)
  {
    var g := Reserve(m);
    assert g.pages == m.pages && g.kernel == m.kernel && g.proc == m.proc;
    hide Reserve;
    forall u, r | 0 <= r < REGIONS ensures Pde(g, u, r) == Pde(m, u, r) { }
    assert DirsApart(g);
    SamePdes(m, g);
  }

  lemma NoProc(base: nat)
    requires Inv(KernelDirs(base))
    ensures MapRange(KernelDirs(base), false, 0, 0, IDENTITY, PTE_W).proc == []
  {
    hide Walk, Pde, SameTable, MapRange;
    MapRangeInv(KernelDirs(base), false, 0, 0, IDENTITY, PTE_W);
  }

  lemma DoInv(m: Mem, op: Op)
    requires Inv(m) && |m.proc| == 4 && Fitting(op) && op.Kernel?
    ensures Inv(Do(m, op)) && Do(m, op).proc == m.proc
    ensures forall x :: 0 <= x < IDENTITY ==> Walk(Do(m, op), false, x) == Walk(m, false, x)
  {
    FourDirs(m);
    hide Walk, Pde, SameTable, MapRange, TablesApart, DirsApart;
    MapRangeEffect(m, false, op.v, op.phys, op.n, op.flags);
    MapRangeEffect(MapRange(m, false, op.v, op.phys, op.n, op.flags), true, op.v, op.phys, op.n, op.flags);
  }

  lemma EarlyIdentity(base: nat, fb: Option<Op>)
    requires fb.Some? ==> fb.value.Kernel? && Fitting(fb.value)
    ensures Identity(Early(base, fb))
  {
    hide Walk, Pde, SameTable, MapRange, TablesApart, DirsApart, AddProc, Do;
    IdentityMapped(base);
    var m := MapRange(KernelDirs(base), false, 0, 0, IDENTITY, PTE_W);
    NoProc(base);
    AddProcEffect(m);
    if fb.Some? { DoInv(AddProc(m), fb.value); }
  }

  /** Start-up leaves the spaces safe. */
  lemma BootSafe(base: nat, fb: Option<Op>)
    requires fb.Some? ==> fb.value.Kernel? && Fitting(fb.value)
    ensures Safe(Boot(base, fb))
  {
    hide Reserve, Walk, Pde, SameTable, MapRange, TablesApart, DirsApart, MapUserSpace, Early;
    EarlyIdentity(base, fb);
    var g := Early(base, fb);
    ReserveSame(g);
    UserSpaceSafe(Reserve(g), g.free);
  }

  // ----- afterwards -----

  /** Mappings made while programs run: device or memory pages in the program's
      windows, and kernel windows in both spaces. */
  datatype Op = Window(v: nat, phys: nat, n: nat, flags: nat) | Kernel(v: nat, phys: nat, n: nat, flags: nat)

  predicate Fitting(op: Op) {
    match op
    case Window(v, _, n, _) => USER + ARENA <= v && v + n <= WINDOWS_END
    case Kernel(v, _, n, _) => KERNEL_WINDOWS <= v && v + n <= PAGES
  }

  function Do(m: Mem, op: Op): Mem
    requires Inv(m) && |m.proc| == 4 && Fitting(op)
  {
    match op
    case Window(v, p, n, f) => MapRange(m, true, v, p, n, f)
    case Kernel(v, p, n, f) => MapRangeInv(m, false, v, p, n, f); MapRange(MapRange(m, false, v, p, n, f), true, v, p, n, f)
  }

  lemma DoSafe(m: Mem, op: Op)
    requires Safe(m) && Fitting(op)
    ensures Safe(Do(m, op))
    ensures op.Window? ==> forall x :: 0 <= x < PAGES ==> Walk(Do(m, op), false, x) == Walk(m, false, x)
  {
    hide Walk, Pde, MapRange, SameTable;
    match op
    case Window(v, p, n, f) =>
      MapRangeEffect(m, true, v, p, n, f);
      forall x | 0 <= x < PAGES ensures Walk(Do(m, op), false, x) == Walk(m, false, x) {
        if InRange(x, v, n) { assert !Shared(m, x / 512); }
      }
    case Kernel(v, p, n, f) =>
      MapRangeEffect(m, false, v, p, n, f);
      MapRangeEffect(MapRange(m, false, v, p, n, f), true, v, p, n, f);
  }

  function DoAll(m: Mem, ops: seq<Op>): Mem
    requires Safe(m) && forall i :: 0 <= i < |ops| ==> Fitting(ops[i])
    decreases |ops|
  {
    if ops == [] then m else DoSafe(m, ops[0]); DoAll(Do(m, ops[0]), ops[1..])
  }

  /** Over every run the kernel's identity map stands, the guard page stays
      unmapped, and the program's window shares no table with the kernel. */
  lemma {:induction false} RunSafe(m: Mem, ops: seq<Op>)
    requires Safe(m) && forall i :: 0 <= i < |ops| ==> Fitting(ops[i])
    ensures Safe(DoAll(m, ops))
    decreases |ops|
  {
    hide Do, Walk, SameTable, Inv;
    if ops != [] {
      DoSafe(m, ops[0]);
      RunSafe(Do(m, ops[0]), ops[1..]);
    }
  }
}
