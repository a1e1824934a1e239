/** The page-table code as it runs: tables in memory, updated entry by entry.
 */
module PagingOps {
  import opened Options
  import opened Word32
  import opened Paging

  class Spaces {
    var pages: map<nat, Table>
    var free: nat
    var kernel: seq<nat>
    var proc: seq<nat>

    ghost function View(): Mem
      reads this
    {
      Mem(pages, free, kernel, proc)
    }

    ghost predicate Valid()
      reads this
    {
      Inv(View()) && |proc| == 4
    }

    constructor (base: nat)
      ensures View() == KernelDirs(base)
    {
      var f := base + PAGE;
      kernel, proc, free := [f, f + PAGE, f + 2 * PAGE, f + 3 * PAGE], [], f + 4 * PAGE;
      pages := map[f := Zeroed(), f + PAGE := Zeroed(), f + 2 * PAGE := Zeroed(), f + 3 * PAGE := Zeroed()];
    }

    /** `alloc_page_phys`. */
    method AllocPage() returns (p: nat)
      modifies this`pages, this`free
      ensures p == old(free) && free == p + PAGE && pages == old(pages)[p := Zeroed()]
    {
      p := free;
      free := free + PAGE;
      pages := pages[p := Zeroed()];
    }

    method MapPage(user: bool, v: nat, phys: nat, flags: nat)
      requires Inv(View()) && v < PAGES && (user ==> |proc| == 4)
      modifies this`pages, this`free
      ensures Inv(View()) && View() == Paging.MapPage(old(View()), user, v, phys, flags)
    {
      hide Walk, TablesApart;
      MapPageInv(View(), user, v, phys, flags);
      TableOf(View(), user, v / 512);
      var pd := (if user then proc else kernel)[v / 512 / 512];
      var i := v / 512 % 512;
      var pt;
      match pages[pd][i] {
        case Present(t, _) => pt := t;
        case Absent =>
          pt := AllocPage();
          pages := pages[pd := pages[pd][i := Present(pt, PdeFlags(flags))]];
      }
      pages := pages[pt := pages[pt][v % 512 := Present(phys, flags)]];
    }

    /** The page loop of `map_identity`, `map_phys_at` and the framebuffer. */
    method MapPages(user: bool, v: nat, phys: nat, n: nat, flags: nat)
      requires Inv(View()) && v + n <= PAGES && (user ==> |proc| == 4)
      modifies this`pages, this`free
      ensures Inv(View()) && View() == MapRange(old(View()), user, v, phys, n, flags)
    {
      hide Inv, Walk, MapRange, Paging.MapPage;
      FourDirs(View());
      for k := 0 to n
        invariant Inv(View())
        invariant MapRange(View(), user, v + k, phys + k * PAGE, n - k, flags) == MapRange(old(View()), user, v, phys, n, flags)
      {
        RangeNext(View(), user, v + k, phys + k * PAGE, n - k, flags);
        MapPage(user, v + k, phys + k * PAGE, flags);
      }
      RangeEnds(View(), user, v + n, phys + n * PAGE, flags);
    }

    /** `map_phys_at`: maps until every byte of the device is covered. */
    method MapPhysAt(user: bool, v: nat, phys: nat, size: nat, flags: nat)
      requires Inv(View()) && v + PageCount(phys, size) <= PAGES && (user ==> |proc| == 4)
      modifies this`pages, this`free
      ensures Inv(View()) && View() == MapPhys(old(View()), user, v, phys, size, flags)
    {
      hide Inv, Walk, PageCount, MapRange, Paging.MapPage;
      FourDirs(View());
      CountStep(phys, size, 0);
      var off := phys % PAGE;
      var total := Wrap(off + size);
      var done, k := 0, 0;
      while done < total
        invariant done == k * PAGE && k <= PageCount(phys, size) && Inv(View())
        invariant done < total <==> k < PageCount(phys, size)
        invariant MapRange(View(), user, v + k, phys - off + k * PAGE, PageCount(phys, size) - k, flags)
               == MapRange(old(View()), user, v, phys - off, PageCount(phys, size), flags)
        decreases PageCount(phys, size) - k
      {
        RangeNext(View(), user, v + k, phys - off + k * PAGE, PageCount(phys, size) - k, flags);
        MapPage(user, v + k, phys - off + done, flags);
        done := done + PAGE;
        k := k + 1;
        CountStep(phys, size, k);
      }
      RangeEnds(View(), user, v + k, phys - off + k * PAGE, flags);
    }

    /** `map_user_space`: clear the window's directory entries, then map memory
        page by page, leaving the guard page out. */
    method MapUserSpace(phys: nat)
      requires Valid()
      modifies this`pages, this`free
      ensures View() == Paging.MapUserSpace(old(View()), phys) && Inv(View())
    {
      hide Inv, Walk, MapRange;
      var n := LAST_REGION - FIRST_REGION;
      ghost var m := View();
      for i := 0 to n
        invariant Inv(View()) && View() == ClearRegions(m, i)
      {
        ClearStep(m, i);
        var r := FIRST_REGION + i;
        pages := pages[proc[r / 512] := pages[proc[r / 512]][r % 512 := Absent]];
      }
      ghost var c := View();
      MapRangeInv(c, true, USER, phys, GUARD, PTE_WU);
      ghost var g := MapRange(c, true, USER, phys, GUARD, PTE_WU);
      ghost var whole := Paging.MapUserSpace(m, phys);
      ghost var at := phys + (GUARD + 1) * PAGE;
      var p := phys;
      for k := 0 to ARENA
        invariant Inv(View()) && View().proc == m.proc && p == phys + k * PAGE
        invariant k <= GUARD ==> MapRange(View(), true, USER + k, phys + k * PAGE, GUARD - k, PTE_WU) == g
        invariant k > GUARD ==> MapRange(View(), true, USER + k, phys + k * PAGE, ARENA - k, PTE_WU) == whole
      {
        if k == GUARD {
          RangeEnds(View(), true, USER + k, phys + k * PAGE, PTE_WU);
        } else {
          RangeNext(View(), true, USER + k, phys + k * PAGE, if k < GUARD then GUARD - k else ARENA - k, PTE_WU);
          MapPage(true, USER + k, p, PTE_WU);
        }
        p := p + PAGE;
      }
      RangeEnds(View(), true, USER + ARENA, phys + ARENA * PAGE, PTE_WU);
    }
  }

  lemma TableOf(m: Mem, user: bool, r: nat)
    requires Inv(m) && r < REGIONS && |Dirs(m, user)| == 4
    ensures Dirs(m, user)[r / 512] in m.pages && Pde(m, user, r) == m.pages[Dirs(m, user)[r / 512]][r % 512]
    ensures Pde(m, user, r).Present? ==> Pde(m, user, r).addr in m.pages
    ensures Dirs(m, user)[r / 512] < m.free
  {
  }

  lemma CountStep(phys: nat, size: nat, k: nat)
    ensures k * PAGE < Wrap(phys % PAGE + size) <==> k < PageCount(phys, size)
  {
  }

  lemma ClearStep(m: Mem, i: nat)
    requires Inv(m) && |m.proc| == 4 && FIRST_REGION + i < LAST_REGION
    ensures var g := ClearRegions(m, i);
            && g.proc[(FIRST_REGION + i) / 512] in g.pages
            && ClearRegions(m, i + 1) == SetEntry(g, g.proc[(FIRST_REGION + i) / 512], (FIRST_REGION + i) % 512, Absent)
            && Inv(ClearRegions(m, i + 1))
  {
    TableOf(ClearRegions(m, i), true, FIRST_REGION + i);
  }

  lemma RangeEnds(m: Mem, user: bool, v: nat, phys: nat, flags: nat)
    requires Inv(m) && v <= PAGES && |Dirs(m, user)| == 4
    ensures MapRange(m, user, v, phys, 0, flags) == m
  {
  }

  lemma RangeNext(m: Mem, user: bool, v: nat, phys: nat, n: nat, flags: nat)
    requires Inv(m) && n > 0 && v + n <= PAGES && |Dirs(m, user)| == 4
    ensures var g := Paging.MapPage(m, user, v, phys, flags);
            Inv(g) && g.proc == m.proc && g.kernel == m.kernel
    ensures MapRange(m, user, v, phys, n, flags) == MapRange(Paging.MapPage(m, user, v, phys, flags), user, v + 1, phys + PAGE, n - 1, flags)
  {
    hide Walk, TablesApart, DirsApart;
    MapPageInv(m, user, v, phys, flags);
  }
}
