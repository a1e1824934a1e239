/** The calls that map device and memory pages while programs run, with the checks
    they make, and where page tables may lie so that both spaces can reach them.
 */
module PagingCalls {
  import opened Options
  import opened Word32
  import opened Paging

  /** The three bands of 16 MB, in pages: framebuffer, device registers, DMA; the
      kernel's windows: 64 MB of framebuffer, 1 MB of device registers, one page of
      interrupt controller. */
  const BAND := 4096
  const USER_FB := USER + ARENA
  const USER_MMIO := USER_FB + BAND
  const USER_DMA := USER_MMIO + BAND
  const FB_WINDOW := 65536
  const FB_PAGES := 16384
  const MMIO_WINDOW := 81920
  const MMIO_PAGES := 256
  const LAPIC_WINDOW := 126976
  const PTE_WUC := 0x1A
  const PTE_WUUC := 0x1E

  /** The two spaces, and the bytes handed out of the device band, the DMA arena and
      the kernel's device window. */
  datatype Sys = Sys(m: Mem, arena: nat, mmio: nat, dma: nat, kern: nat)

  /** SYS_MAP_PHYS, SYS_DMA_ALLOC, `kern_map_uc`, `gfx_map_lfb`, the program's view
      of the framebuffer, the interrupt controller's page, and the start of another
      program, which gives the bands back. */
  datatype Call =
    | MapDevice(phys: nat, size: Word)
    | AllocDma(size: Word)
    | MapKernel(phys: nat, size: Word)
    | MapScreen(phys: nat, bytes: Word)
    | MapUserScreen(phys: nat, bytes: Word, flags: nat)
    | MapLapic(base: nat)
    | NewProgram

  /** Up to whole pages, in 32-bit arithmetic. */
  function Span(phys: nat, size: Word): Word { Wrap(phys % PAGE + size + PAGE - 1) / PAGE * PAGE }

  /** What the call asks of the page tables, and the state with its counters moved;
      None where it refuses. */
  function Request(s: Sys, c: Call): Option<(Op, Sys)> {
    match c
    case MapDevice(phys, size) =>
      if size == 0 || size > BAND * PAGE || Span(phys, size) > BAND * PAGE - s.mmio then None
      else Some((Window(USER_MMIO + s.mmio / PAGE, phys - phys % PAGE, PageCount(phys, size), PTE_WUUC), s.(mmio := s.mmio + Span(phys, size))))
    case AllocDma(size) =>
      var n := Span(0, size);
      if n == 0 || n > BAND * PAGE || n > BAND * PAGE - s.dma then None
      else Some((Window(USER_DMA + s.dma / PAGE, s.arena + s.dma, n / PAGE, PTE_WU), s.(dma := s.dma + n)))
    case MapKernel(phys, size) =>
      if size == 0 || Span(phys, size) > MMIO_PAGES * PAGE || s.kern > MMIO_PAGES * PAGE - Span(phys, size) then None
      else Some((Kernel(MMIO_WINDOW + s.kern / PAGE, phys - phys % PAGE, PageCount(phys, size), PTE_WUC), s.(kern := s.kern + Span(phys, size))))
    case MapScreen(phys, bytes) =>
      if bytes == 0 || bytes > FB_PAGES * PAGE then None
      else Some((Kernel(FB_WINDOW, phys - phys % PAGE, PageCount(phys, bytes), PTE_W), s))
    case MapUserScreen(phys, bytes, flags) =>
      if bytes == 0 || bytes > BAND * PAGE then None
      else Some((Window(USER_FB, phys - phys % PAGE, PageCount(0, bytes), flags), s))
    case MapLapic(base) => Some((Kernel(LAPIC_WINDOW, base, 1, PTE_W), s))
    case NewProgram => Some((Window(USER_FB, 0, 0, 0), s.(mmio := 0, dma := 0)))
  }

  ghost predicate Counted(s: Sys) {
    && s.mmio % PAGE == 0 && s.mmio <= BAND * PAGE && s.dma % PAGE == 0 && s.dma <= BAND * PAGE
    && s.kern % PAGE == 0 && s.kern <= MMIO_PAGES * PAGE
  }

  /** Rounding a size up wraps between the two totals. */
  predicate RoundingWraps(phys: nat, size: Word) { phys % PAGE + size < TWO32 <= phys % PAGE + size + PAGE - 1 }

  lemma SpanExact(phys: nat, size: Word)
    ensures Span(phys, size) % PAGE == 0
    ensures !RoundingWraps(phys, size) ==> Span(phys, size) == PageCount(phys, size) * PAGE
    ensures RoundingWraps(phys, size) ==> Span(phys, size) == 0 && PageCount(phys, size) == PAGES
    ensures Span(phys, size) == 0 ==> RoundingWraps(phys, size) || phys % PAGE + size == 0 || phys % PAGE + size == TWO32
  {
  }

  /** An accepted device mapping keeps to its window exactly when rounding its size
      up does not wrap around 2^32 (if the total itself wraps, so does the number of
      pages mapped); SYS_MAP_PHYS and SYS_DMA_ALLOC refuse such sizes, `kern_map_uc`
      does not. */
  lemma KernelWindowExact(s: Sys, phys: nat, size: Word)
    requires Counted(s) && Request(s, MapKernel(phys, size)).Some?
    ensures var op := Request(s, MapKernel(phys, size)).value.0;
            MMIO_WINDOW <= op.v && (op.v + op.n <= MMIO_WINDOW + MMIO_PAGES <==> !RoundingWraps(phys, size))
  {
    hide Span, PageCount, RoundingWraps;
    SpanExact(phys, size);
  }

  /** A size of 2^32 - 4095 at a page boundary is accepted and leaves the window (the
      source's loop counter wraps as well then, so its loop does not end). */
  lemma KernelWindowLeft(m: Mem)
    ensures var r := Request(Sys(m, 0, 0, 0, 0), MapKernel(0, 0xFFFF_F001));
            r.Some? && r.value.0.v == MMIO_WINDOW && r.value.0.n == PAGES
  {
  }

  /** A full-size framebuffer that does not start on a page boundary spills one page
      into the device window. */
  lemma ScreenWindowExact(s: Sys, phys: nat, bytes: Word)
    requires Request(s, MapScreen(phys, bytes)).Some?
    ensures var op := Request(s, MapScreen(phys, bytes)).value.0;
            op.v + op.n <= FB_WINDOW + FB_PAGES + 1 && (op.v + op.n <= MMIO_WINDOW <==> phys % PAGE + bytes <= FB_PAGES * PAGE)
  {
  }

  /** Every call but the one kind KernelWindowExact is about. */
  predicate Sensible(c: Call) { c.MapKernel? ==> !RoundingWraps(c.phys, c.size) }

  /** 64 MB one byte into a page reach one page into the device window. */
  lemma ScreenSpills(m: Mem)
    ensures var r := Request(Sys(m, 0, 0, 0, 0), MapScreen(1, 0x400_0000));
            r.Some? && r.value.0.v + r.value.0.n == MMIO_WINDOW + 1
  {
  }

  /** The checks suffice: every accepted call fits, and takes pages of its band that
      no accepted call since the program's start has taken. */
  lemma RequestFits(s: Sys, c: Call)
    requires Counted(s) && Sensible(c) && Request(s, c).Some?
    ensures var (op, t) := Request(s, c).value;
            && Fitting(op) && Counted(t) && t.m == s.m
            && (c.MapDevice? ==> op.v == USER_MMIO + s.mmio / PAGE && op.v + op.n == USER_MMIO + t.mmio / PAGE <= USER_DMA && s.mmio < t.mmio)
            && (c.AllocDma? ==> op.v == USER_DMA + s.dma / PAGE && op.v + op.n == USER_DMA + t.dma / PAGE <= WINDOWS_END && s.dma < t.dma)
            && (c.MapKernel? ==> op.v == MMIO_WINDOW + s.kern / PAGE && op.v + op.n == MMIO_WINDOW + t.kern / PAGE && s.kern <= t.kern)
  {
    match c
    case MapDevice(phys, size) => BandStep(s.mmio, phys, size);
    case AllocDma(size) => DmaStep(s.dma, size);
    case MapKernel(phys, size) => BandStep(s.kern, phys, size);
    case MapScreen(phys, bytes) => ScreenWindowExact(s, phys, bytes);
    case MapUserScreen(_, bytes, _) =>
    case MapLapic(_) =>
    case NewProgram =>
  }

  lemma BandStep(used: nat, phys: nat, size: Word)
    requires used % PAGE == 0 && size > 0 && !RoundingWraps(phys, size)
    ensures (used + Span(phys, size)) % PAGE == 0 && (used + Span(phys, size)) / PAGE == used / PAGE + PageCount(phys, size)
    ensures phys % PAGE + size < TWO32 ==> Span(phys, size) > 0
  {
    SpanExact(phys, size);
    hide Span, PageCount;
  }

  lemma DmaStep(used: nat, size: Word)
    requires used % PAGE == 0 && Span(0, size) > 0
    ensures (used + Span(0, size)) % PAGE == 0 && (used + Span(0, size)) / PAGE == used / PAGE + Span(0, size) / PAGE
  {
    SpanExact(0, size);
    hide Span;
  }

  // ----- where page tables lie -----

  /** Regions without a table, below region `n`. */
  function Without(m: Mem, user: bool, n: nat): (k: nat)
    requires n <= REGIONS
    ensures k <= n
  {
    if n == 0 then 0 else Without(m, user, n - 1) + if Pde(m, user, n - 1).Absent? then 1 else 0
  }

  function Missing(m: Mem): nat { Without(m, false, REGIONS) + Without(m, true, REGIONS) }

  lemma {:induction false} WithoutSame(m: Mem, g: Mem, u: bool, n: nat)
    requires n <= REGIONS && forall q :: 0 <= q < n ==> Pde(g, u, q).Absent? == Pde(m, u, q).Absent?
    ensures Without(g, u, n) == Without(m, u, n)
  {
    hide Pde;
    if n > 0 { WithoutSame(m, g, u, n - 1); }
  }

  lemma {:induction false} WithoutOne(m: Mem, g: Mem, u: bool, n: nat, r: nat)
    requires n <= REGIONS && r < n && Pde(m, u, r).Absent? && Pde(g, u, r).Present?
    requires forall q :: 0 <= q < n && q != r ==> Pde(g, u, q).Absent? == Pde(m, u, q).Absent?
    ensures Without(g, u, n) == Without(m, u, n) - 1
  {
    hide Pde;
    if r == n - 1 { WithoutSame(m, g, u, n - 1); } else { WithoutOne(m, g, u, n - 1, r); }
  }

  /** Tables made since `m0` lie in kernel memory above the program's window, and
      there is room there for every table that can still be missing. */
  ghost predicate Tables(m0: Mem, m: Mem) {
    && m0.pages.Keys <= m.pages.Keys
    && m.free % PAGE == 0 && USER_END * PAGE <= m.free && m.free + Missing(m) * PAGE <= IDENTITY * PAGE
    && forall p :: p in m.pages && p !in m0.pages ==> p % PAGE == 0 && USER_END * PAGE <= p < IDENTITY * PAGE
  }

  lemma MapPageTables(m0: Mem, m: Mem, user: bool, v: nat, phys: nat, flags: nat)
    requires Inv(m) && v < PAGES && |Dirs(m, user)| == 4 && Tables(m0, m)
    ensures Tables(m0, MapPage(m, user, v, phys, flags))
  {
    hide Walk, Tables, TablesApart;
    var r := v / 512;
    if Pde(m, user, r).Present? {
      EntryWrite(m, user, v, Present(phys, flags));
      TablesSame(m0, m, SetEntry(m, Pde(m, user, r).addr, v % 512, Present(phys, flags)));
    } else {
      var pf := PdeFlags(flags);
      NewTableInv(m, user, r, pf);
      NewTable(m, user, r, pf);
      var m1 := WithTable(m, user, r, pf);
      EntryWrite(m1, user, v, Present(phys, flags));
      var g := SetEntry(m1, m.free, v % 512, Present(phys, flags));
      assert g == MapPage(m, user, v, phys, flags);
      hide MapPage, Inv;
      TableCounted(m0, m, m1, g, user, r);
    }
  }

  lemma TablesSame(m0: Mem, m: Mem, g: Mem)
    requires Tables(m0, m) && g.free == m.free && g.pages.Keys == m.pages.Keys
    requires forall u, q :: 0 <= q < REGIONS ==> Pde(g, u, q) == Pde(m, u, q)
    ensures Tables(m0, g)
  {
    hide Pde;
    WithoutSame(m, g, false, REGIONS);
    WithoutSame(m, g, true, REGIONS);
  }

  /** One table more, one region fewer without. */
  lemma TableCounted(m0: Mem, m: Mem, m1: Mem, g: Mem, user: bool, r: nat)
    requires Tables(m0, m) && r < REGIONS && Pde(m, user, r).Absent? && Pde(m1, user, r).Present?
    requires forall u, q :: 0 <= q < REGIONS && !(u == user && q == r) ==> Pde(m1, u, q) == Pde(m, u, q)
    requires forall u, q :: 0 <= q < REGIONS ==> Pde(g, u, q) == Pde(m1, u, q)
    requires g.free == m.free + PAGE && g.pages.Keys == m.pages.Keys + {m.free}
    ensures Tables(m0, g)
  {
    hide Pde;
    WithoutOne(m, g, user, REGIONS, r);
    WithoutSame(m, g, !user, REGIONS);
  }

  lemma {:induction false} MapRangeTables(m0: Mem, m: Mem, user: bool, v: nat, phys: nat, n: nat, flags: nat)
    requires Inv(m) && v + n <= PAGES && |Dirs(m, user)| == 4 && Tables(m0, m)
    ensures Tables(m0, MapRange(m, user, v, phys, n, flags))
    decreases n
  {
    hide Walk, Pde, MapPage, Inv, Tables;
    if n > 0 {
      MapPageInv(m, user, v, phys, flags);
      MapPageTables(m0, m, user, v, phys, flags);
      MapRangeTables(m0, MapPage(m, user, v, phys, flags), user, v + 1, phys + PAGE, n - 1, flags);
    }
  }

  /** Kernel memory outside the program's window is where it seems to be even while
      a program's tables are in force. */
  ghost predicate Direct(m: Mem) {
    forall x :: 0 <= x < USER || USER_END <= x < IDENTITY ==> Walk(m, true, x) == Present(x * PAGE, PTE_W)
  }

  /** All that a run keeps. */
  ghost predicate Kept(m0: Mem, s: Sys) { Safe(s.m) && Direct(s.m) && Tables(m0, s.m) && Counted(s) }

  /** A table made after start-up is written through the program's translation at
      its own address. */
  lemma TablesReachable(m0: Mem, s: Sys, p: nat)
    requires Kept(m0, s) && p in s.m.pages && p !in m0.pages
    ensures Walk(s.m, true, p / PAGE) == Present(p, PTE_W) && Walk(s.m, false, p / PAGE) == Present(p, PTE_W)
  {
    hide Walk, Missing;
  }

  /** The call carried out. */
  function Perform(s: Sys, c: Call): Sys
    requires Safe(s.m) && Counted(s) && Sensible(c)
  {
    match Request(s, c)
    case None => s
    case Some(r) => RequestFits(s, c); r.1.(m := Do(s.m, r.0))
  }

  lemma DoTables(m0: Mem, m: Mem, op: Op)
    requires Safe(m) && Tables(m0, m) && Fitting(op)
    ensures Tables(m0, Do(m, op))
  {
    SafeDirs(m);
    hide Walk, Tables, Inv, Safe, MapRange;
    match op
    case Window(v, p, n, f) => MapRangeTables(m0, m, true, v, p, n, f);
    case Kernel(v, p, n, f) =>
      MapRangeTables(m0, m, false, v, p, n, f);
      MapRangeInv(m, false, v, p, n, f);
      MapRangeTables(m0, MapRange(m, false, v, p, n, f), true, v, p, n, f);
  }

  lemma SafeDirs(m: Mem)
    requires Safe(m)
    ensures Inv(m) && |m.kernel| == 4 && |m.proc| == 4
  {
  }

  lemma DoDirect(m: Mem, op: Op)
    requires Safe(m) && Direct(m) && Fitting(op)
    ensures Direct(Do(m, op))
  {
    SafeDirs(m);
    hide Walk, SameTable, MapRange, Inv, Safe;
    match op
    case Window(v, p, n, f) => MapRangeEffect(m, true, v, p, n, f);
    case Kernel(v, p, n, f) =>
      MapRangeEffect(m, false, v, p, n, f);
      MapRangeEffect(MapRange(m, false, v, p, n, f), true, v, p, n, f);
  }

  lemma PerformKeeps(m0: Mem, s: Sys, c: Call)
    requires Kept(m0, s) && Sensible(c)
    ensures Kept(m0, Perform(s, c))
  {
    hide Safe, Direct, Tables, Do, Request;
    if Request(s, c).Some? {
      RequestFits(s, c);
      var op := Request(s, c).value.0;
      DoSafe(s.m, op);
      DoTables(m0, s.m, op);
      DoDirect(s.m, op);
    }
  }

  function PerformAll(m0: Mem, s: Sys, cs: seq<Call>): Sys
    requires Kept(m0, s) && forall i :: 0 <= i < |cs| ==> Sensible(cs[i])
    decreases |cs|
  {
    if cs == [] then s else PerformKeeps(m0, s, cs[0]); PerformAll(m0, Perform(s, cs[0]), cs[1..])
  }

  /** Over every run of calls, whatever their arguments: the kernel's identity map
      stands, the guard page stays unmapped, the program's window shares no table
      with the kernel, and every table is where both spaces can reach it. */
  lemma {:induction false} CallsSafe(m0: Mem, s: Sys, cs: seq<Call>)
    requires Kept(m0, s) && forall i :: 0 <= i < |cs| ==> Sensible(cs[i])
    ensures Kept(m0, PerformAll(m0, s, cs))
    decreases |cs|
  {
    hide Safe, Direct, Tables, Perform, Counted;
    if cs != [] {
      PerformKeeps(m0, s, cs[0]);
      CallsSafe(m0, Perform(s, cs[0]), cs[1..]);
    }
  }

  /** Start-up establishes all of it, if what it needs ends below 112 MB. */
  lemma BootKept(base: nat, fb: Option<Op>, arena: nat)
    requires fb.Some? ==> fb.value.Kernel? && Fitting(fb.value)
    requires Early(base, fb).free % PAGE == 0 && Reserve(Early(base, fb)).free <= (IDENTITY - 2 * REGIONS) * PAGE
    ensures Kept(Early(base, fb), Sys(Boot(base, fb), arena, 0, 0, 0))
  {
    BootSafe(base, fb);
    EarlyIdentity(base, fb);
    hide Reserve, Walk, Pde, SameTable, MapRange, TablesApart, DirsApart, MapUserSpace, Early, Safe;
    var e := Early(base, fb);
    ReserveSame(e);
    ReserveAligned(e);
    EarlyDirect(base, fb);
    UserSpaceTables(e, Reserve(e), e.free);
  }

  lemma ReserveAligned(m: Mem)
    requires m.free % PAGE == 0
    ensures Reserve(m).free % PAGE == 0 && Reserve(m).pages == m.pages && Reserve(m).kernel == m.kernel
  {
  }

  /** Before the program's memory is mapped, both spaces have the identity map. */
  lemma EarlyDirect(base: nat, fb: Option<Op>)
    requires fb.Some? ==> fb.value.Kernel? && Fitting(fb.value)
    ensures forall x :: 0 <= x < IDENTITY ==> Walk(Early(base, fb), true, x) == Present(x * PAGE, PTE_W)
  {
    hide Walk, Pde, SameTable, MapRange, TablesApart, DirsApart, AddProc;
    IdentityMapped(base);
    var m := MapRange(KernelDirs(base), false, 0, 0, IDENTITY, PTE_W);
    NoProc(base);
    AddProcEffect(m);
    var g := AddProc(m);
    if fb.Some? {
      var op := fb.value;
      FourDirs(g);
      MapRangeEffect(g, false, op.v, op.phys, op.n, op.flags);
      MapRangeEffect(MapRange(g, false, op.v, op.phys, op.n, op.flags), true, op.v, op.phys, op.n, op.flags);
    }
  }

  lemma UserSpaceTables(m0: Mem, m: Mem, phys: nat)
    requires Inv(m) && |m.proc| == 4 && m0.pages == m.pages
    requires m.free % PAGE == 0 && USER_END * PAGE <= m.free <= (IDENTITY - 2 * REGIONS) * PAGE
    requires forall x :: 0 <= x < IDENTITY ==> Walk(m, true, x) == Present(x * PAGE, PTE_W)
    ensures Tables(m0, MapUserSpace(m, phys)) && Direct(MapUserSpace(m, phys))
  {
    hide Walk, Pde, SameTable, MapRange, ClearRegions;
    var k := LAST_REGION - FIRST_REGION;
    var c := ClearRegions(m, k);
    ClearWalk(m, k, c);
    ClearPages(m, k);
    hide Inv;
    var g := MapRange(c, true, USER, phys, GUARD, PTE_WU);
    MapRangeEffect(c, true, USER, phys, GUARD, PTE_WU);
    MapRangeEffect(g, true, USER + GUARD + 1, phys + (GUARD + 1) * PAGE, ARENA - GUARD - 1, PTE_WU);
    MapRangeTables(m0, c, true, USER, phys, GUARD, PTE_WU);
    MapRangeTables(m0, g, true, USER + GUARD + 1, phys + (GUARD + 1) * PAGE, ARENA - GUARD - 1, PTE_WU);
  }

  lemma {:induction false} ClearPages(m: Mem, k: nat)
    requires Inv(m) && |m.proc| == 4 && FIRST_REGION + k <= LAST_REGION
    ensures ClearRegions(m, k).pages.Keys == m.pages.Keys
    decreases k
  {
    hide Pde;
    if k > 0 { ClearPages(m, k - 1); }
  }
}
