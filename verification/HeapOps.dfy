/** malloc, free, calloc and realloc as they run on memory.
 */
module HeapOps {
  import opened Options
  import opened Word32
  import H = Heap

  type Bytes = seq<Byte>

  class Allocator {
    var mem: Bytes
    var head: Word
    var brk: nat
    ghost var blocks: seq<H.Block>
    ghost var free: seq<nat>

    constructor (mem: Bytes, brk: nat)
      requires 0 < brk <= |mem| < TWO31
      ensures Valid() && View() == H.Empty(mem, brk)
    {
      this.mem, this.head, this.brk, this.blocks, this.free := mem, 0, brk, [], [];
    }

    ghost function View(): H.Heap
      reads this
    {
      H.Heap(mem, head, brk, blocks, free)
    }

    ghost predicate Valid()
      reads this
    {
      H.Inv(View()) && brk > 0
    }

    /** `sys_sbrk`: -1 past the limit. */
    method Sbrk(inc: nat) returns (r: int)
      modifies this`brk
      ensures if inc > |mem| - old(brk) then r == -1 && brk == old(brk) else r == old(brk) && brk == old(brk) + inc
    {
      if inc > |mem| - brk { return -1; }
      r := brk;
      brk := brk + inc;
    }

    /** The search of `malloc`: a pointer to the link that leads to the first block
        with room, 0 for the list head itself, and that block, 0 if there is none. */
    method Search(want: int) returns (pp: nat, cur: Word, ghost k: nat)
      requires Valid()
      ensures k <= |free| && cur == H.Link(View(), k)
      ensures H.FitFrom(View(), want, 0) == if cur == 0 then None else Some(k)
      ensures pp == if k == 0 then 0 else blocks[free[k - 1]].addr + 4
      ensures cur != 0 ==> k < |free| && cur + 8 <= |mem| && H.WordAt(mem, cur + 4) == H.Link(View(), k + 1)
      ensures pp != 0 ==> pp + 4 <= |mem|
    {
      hide H.Inv, H.Linked, H.Laid, H.WordAt;
      InvParts(View());
      pp, cur, k := 0, head, 0;
      while cur != 0
        invariant k <= |free| && cur == H.Link(View(), k)
        invariant H.FitFrom(View(), want, 0) == H.FitFrom(View(), want, k)
        invariant pp == if k == 0 then 0 else blocks[free[k - 1]].addr + 4
        invariant pp != 0 ==> pp + 4 <= |mem|
        decreases |free| - k
      {
        AtLink(View(), k);
        if H.WordAt(mem, cur) >= want { return; }
        pp, cur := cur + 4, H.WordAt(mem, cur + 4);
        k := k + 1;
      }
      AtEnd(View(), k);
    }

    /** `malloc`. */
    method Malloc(size: int) returns (p: Word)
      requires Valid() && size < TWO31
      modifies this
      ensures Valid()
      ensures match H.Malloc(old(View()), size)
              case None => p == 0 && View() == old(View())
              case Some(r) => View() == r.heap && p == View().blocks[r.block].addr + H.HEADER
    {
      hide H.Inv, H.Linked, H.Laid, H.WordAt, Patch4, H.FitFrom, H.Unlink, H.Grow;
      if size <= 0 { return 0; }
      var want := Signed(Wrap(size + 3)) / 4 * 4;
      ghost var h := View();
      if H.Malloc(h, size).Some? { H.MallocInv(h, size); }
      InvParts(h);
      var pp, cur, k := Search(want);
      if cur != 0 {
        Take(pp, cur, k);
        return cur + H.HEADER;
      }
      if Wrap(want + H.HEADER) > |mem| - brk {
        var b := Sbrk(Wrap(want + H.HEADER));
        return 0;
      }
      H.SmallGrant(h, size);
      GrowFits(h, want);
      p := NewBlock(want);
    }

    /** `*pp = b->next`. */
    method Take(pp: nat, cur: Word, ghost k: nat)
      requires Valid() && k < |free| && cur + 8 <= |mem| && H.WordAt(mem, cur + 4) == H.Link(View(), k + 1)
      requires pp == (if k == 0 then 0 else blocks[free[k - 1]].addr + 4) && (pp != 0 ==> pp + 4 <= |mem|)
      modifies this
      ensures View() == H.Unlink(old(View()), k)
    {
      hide H.Inv, H.WordAt, Patch4, H.Unlink, H.Link;
      var n := H.WordAt(mem, cur + 4);
      UnlinkIs(View(), k, pp, n);
      if pp == 0 { head := n; } else { mem := Patch4(mem, pp, n); }
      free := free[..k] + free[k + 1..];
    }

    /** A block from `sys_sbrk`. */
    method NewBlock(want: nat) returns (p: Word)
      requires want + H.HEADER <= |mem| - brk && |mem| < TWO31
      modifies this
      ensures View() == H.Grow(old(View()), want) && p == old(brk) + H.HEADER
    {
      hide Patch4;
      var b: nat := brk;
      var r := Sbrk(want + H.HEADER);
      mem := Patch4(Patch4(mem, b, want), b + 4, 0);
      blocks := blocks + [H.Block(b, want)];
      p := r + H.HEADER;
    }

    /** `free` of a block the program holds, or of nothing. */
    method Free(p: Word, ghost i: nat)
      requires Valid() && (p != 0 ==> H.Live(View(), i) && p == blocks[i].addr + H.HEADER)
      modifies this
      ensures Valid() && View() == if p == 0 then old(View()) else H.Push(old(View()), i)
    {
      if p == 0 { return; }
      H.PushInv(View(), i);
      H.BlocksApart(View(), i, i);
      var b := p - H.HEADER;
      mem := Patch4(mem, b + 4, head);
      head := b;
      free := [i] + free;
    }

    /** The byte loops of `memset` and `memcpy` go through this. */
    method Put(ghost i: nat, base: nat, k: nat, v: Byte)
      requires Valid() && i < |blocks| && k < blocks[i].size && base == blocks[i].addr + H.HEADER
      modifies this`mem
      ensures Valid() && |mem| == old(|mem|) && base + k < |mem| && Contents(i) == old(Contents(i))[k := v]
      ensures forall j :: 0 <= j < |blocks| && j != i ==> Contents(j) == old(Contents(j))
    {
      H.BlocksApart(View(), i, i);
      H.StoreInv(View(), i, k, v);
      hide H.Inv;
      mem := mem[base + k := v];
    }

    ghost function Contents(i: nat): Bytes
      reads this
      requires i < |blocks|
    {
      H.Body(View(), i)
    }

    /** `calloc`: as malloc of the product, none if that overflows, with the bytes
        asked for all zero; every other block keeps its contents.  Excluded is the
        one case in which malloc hands out a block that is too small. */
    method Calloc(n: int, size: int) returns (p: Word)
      requires Valid() && !(H.LARGEST < n * size < TWO31 && free != [])
      modifies this
      ensures Valid()
      ensures p == 0 ==> View() == old(View())
      ensures p != 0 <==> n > 0 && size > 0 && n * size < TWO31 && H.Malloc(old(View()), n * size).Some?
      ensures p != 0 ==>
                var i := H.Malloc(old(View()), n * size).value.block;
                && H.Live(View(), i) && !H.Live(old(View()), i) && p == blocks[i].addr + H.HEADER
                && blocks[i].size >= n * size && n * size <= |Contents(i)|
                && (forall k :: 0 <= k < n * size ==> Contents(i)[k] == 0)
                && H.OthersKept(old(View()), View(), -1)
    {
      hide H.Inv, H.Malloc, H.Body, H.Live;
      if n <= 0 || size <= 0 { return 0; }
      Product(n, size);
      if n > 0x7FFF_FFFF / size { return 0; }
      var total := n * size;
      ghost var h := View();
      if total > H.LARGEST { H.HugeTakesFirst(h, total); }
      p := Malloc(total);
      if p == 0 {
        if H.Malloc(h, total).Some? { H.MallocInv(h, total); }
        return;
      }
      ghost var i := H.Malloc(h, total).value.block;
      H.MallocInv(h, total);
      ghost var g := View();
      BodySize(g, i);
      for k := 0 to total
        invariant Valid() && blocks == g.blocks && free == g.free && |mem| == |g.mem|
        invariant |Contents(i)| == blocks[i].size && forall l :: 0 <= l < k ==> Contents(i)[l] == 0
        invariant forall j :: 0 <= j < |blocks| && j != i ==> Contents(j) == H.Body(g, j)
      {
        Put(i, p, k, 0);
      }
      LiveSame(g, View());
      FilledOthers(h, g, View(), i);
    }

    /** `realloc` of a block the program holds: the block itself if it is large
        enough, else a new one that starts with all the old contents. */
    method Realloc(p: Word, size: int, ghost i: nat) returns (np: Word)
      requires Valid() && size < TWO31 && !(size > H.LARGEST && free != []) && p != 0 && i < |blocks| && H.Live(View(), i) && p == blocks[i].addr + H.HEADER
      modifies this
      ensures Valid()
      ensures old(blocks[i].size) >= size ==> np == p && View() == old(View())
      ensures old(blocks[i].size) < size && H.Malloc(old(View()), size).None? ==> np == 0 && View() == old(View())
      ensures old(blocks[i].size) < size && H.Malloc(old(View()), size).Some? ==>
                var j := H.Malloc(old(View()), size).value.block;
                && H.Live(View(), j) && !H.Live(View(), i) && np == blocks[j].addr + H.HEADER && blocks[j].size >= size
                && old(Contents(i)) <= Contents(j) && H.OthersKept(old(View()), View(), i)
    {
      hide H.Inv, H.Malloc, H.Body, H.Live;
      HoldsSize(View(), i);
      var n := H.WordAt(mem, p - H.HEADER);
      if n >= size { return p; }
      ghost var h := View();
      if size > H.LARGEST { H.HugeTakesFirst(h, size); }
      np := Malloc(size);
      if np == 0 {
        if H.Malloc(h, size).Some? { H.MallocInv(h, size); }
        return;
      }
      ghost var j := H.Malloc(h, size).value.block;
      H.MallocInv(h, size);
      ghost var g := View();
      CopyReady(h, g, i, j);
      for k := 0 to n
        invariant Valid() && blocks == g.blocks && free == g.free && |mem| == |g.mem| && |Contents(j)| == blocks[j].size
        invariant Contents(j)[..k] == H.Body(h, i)[..k]
        invariant forall l :: 0 <= l < |blocks| && l != j ==> Contents(l) == H.Body(g, l)
      {
        BodyAt(View(), i, k);
        var v := mem[p + k];
        Put(j, np, k, v);
        assert Contents(j)[..k + 1] == Contents(j)[..k] + [v];
        assert H.Body(h, i)[..k + 1] == H.Body(h, i)[..k] + [H.Body(h, i)[k]];
      }
      assert H.Body(h, i)[..n] == H.Body(h, i);
      LiveSame(g, View());
      ghost var f := View();
      FilledOthers(h, g, f, j);
      H.PushInv(f, i);
      Free(p, i);
      OthersThen(h, f, View(), i);
    }
  }

  lemma UnlinkIs(h: H.Heap, k: nat, pp: nat, n: Word)
    requires H.Inv(h) && k < |h.free| && n == H.Link(h, k + 1)
    requires pp == (if k == 0 then 0 else h.blocks[h.free[k - 1]].addr + 4) && (pp != 0 ==> pp + 4 <= |h.mem|)
    ensures pp == 0 <==> k == 0
    ensures H.Unlink(h, k) ==
            if pp == 0 then h.(head := n, free := h.free[..k] + h.free[k + 1..])
            else h.(mem := Patch4(h.mem, pp, n), free := h.free[..k] + h.free[k + 1..])
  {
    hide H.Inv, H.Link, Patch4;
    InvParts(h);
    assert k > 0 ==> h.free[k - 1] < |h.blocks|;
  }

  lemma InvParts(h: H.Heap)
    requires H.Inv(h)
    ensures H.Listed(h) && |h.mem| < TWO31 && h.brk <= |h.mem| && h.head == H.Link(h, 0)
  {
  }

  /** The block a link leads to. */
  lemma AtLink(h: H.Heap, k: nat)
    requires H.Inv(h) && k <= |h.free| && H.Link(h, k) != 0
    ensures k < |h.free| && H.Link(h, k) + 8 <= |h.mem|
    ensures H.WordAt(h.mem, H.Link(h, k)) == h.blocks[h.free[k]].size && H.WordAt(h.mem, H.Link(h, k) + 4) == H.Link(h, k + 1)
  {
    hide H.WordAt;
    var i := h.free[k];
    assert H.SizeAt(h, i) == h.blocks[i].size && H.NextAt(h, h.free[k]) == H.Link(h, k + 1);
    H.BlocksApart(h, i, i);
  }

  lemma AtEnd(h: H.Heap, k: nat)
    requires H.Inv(h) && k <= |h.free| && H.Link(h, k) == 0
    ensures k == |h.free|
  {
  }

  lemma GrowFits(h: H.Heap, want: nat)
    requires h.brk + H.HEADER + want <= |h.mem| && |h.mem| < TWO31
    ensures H.Grow(h, want).blocks == h.blocks + [H.Block(h.brk, want)]
  {
  }

  lemma Product(n: int, size: int)
    requires n > 0 && size > 0
    ensures n <= 0x7FFF_FFFF / size <==> n * size <= 0x7FFF_FFFF
    ensures n * size > 0
  {
    var q := 0x7FFF_FFFF / size;
    assert 0x7FFF_FFFF < (q + 1) * size;
    if n >= q + 1 { Grows(n, q + 1, size); } else { Grows(q, n, size); assert q * size <= 0x7FFF_FFFF; }
  }

  lemma Grows(a: int, b: int, c: int)
    requires a >= b && c > 0
    ensures a * c >= b * c
  {
  }

  lemma BodySize(h: H.Heap, i: nat)
    requires H.Inv(h) && i < |h.blocks|
    ensures |H.Body(h, i)| == h.blocks[i].size && H.End(h.blocks[i]) <= |h.mem|
  {
    H.BlocksApart(h, i, i);
  }

  lemma BodyAt(h: H.Heap, i: nat, k: nat)
    requires H.Inv(h) && i < |h.blocks| && k < h.blocks[i].size
    ensures h.blocks[i].addr + H.HEADER + k < |h.mem| && k < |H.Body(h, i)| && H.Body(h, i)[k] == h.mem[h.blocks[i].addr + H.HEADER + k]
  {
    H.BlocksApart(h, i, i);
  }

  /** Filling a block that was not held leaves the held ones alone. */
  lemma FilledOthers(h: H.Heap, g: H.Heap, f: H.Heap, i: nat)
    requires H.Kept(h, g) && f.blocks == g.blocks && !H.Live(h, i)
    requires forall j :: 0 <= j < |g.blocks| && j != i ==> H.Body(f, j) == H.Body(g, j)
    ensures H.OthersKept(h, f, -1)
  {
    hide H.Body, H.SizeAt;
    forall j: nat | H.Live(h, j) ensures j < |f.blocks| && f.blocks[j] == h.blocks[j] && H.Body(f, j) == H.Body(h, j) {
      assert j != i && j < |h.blocks|;
    }
  }

  lemma OthersThen(h: H.Heap, f: H.Heap, g: H.Heap, i: nat)
    requires H.OthersKept(h, f, -1) && H.Kept(f, g)
    ensures H.OthersKept(h, g, i)
  {
    hide H.Body, H.SizeAt;
  }

  lemma LiveSame(h: H.Heap, g: H.Heap)
    requires h.blocks == g.blocks && h.free == g.free
    ensures forall j: nat :: H.Live(h, j) <==> H.Live(g, j)
  {
  }

  lemma HoldsSize(h: H.Heap, i: nat)
    requires H.Inv(h) && i < |h.blocks|
    ensures H.WordAt(h.mem, h.blocks[i].addr) == h.blocks[i].size
  {
    assert H.SizeAt(h, i) == h.blocks[i].size;
  }

  lemma CopyReady(h: H.Heap, g: H.Heap, i: nat, j: nat)
    requires H.Inv(h) && H.Inv(g) && H.Kept(h, g) && H.Live(h, i) && !H.Live(h, j) && H.Live(g, j)
    ensures i < |h.blocks| && j < |g.blocks| && i != j && H.Body(g, i) == H.Body(h, i) && g.blocks[i] == h.blocks[i]
    ensures |H.Body(h, i)| == h.blocks[i].size && |H.Body(g, j)| == g.blocks[j].size
  {
    BodySize(h, i);
    BodySize(g, j);
  }
}
