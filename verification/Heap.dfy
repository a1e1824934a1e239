/** The allocator of the C library: blocks with an eight-byte header in the heap
    itself, freed blocks on a list through their headers, first fit, no merging.
 */
module Heap {
  import opened Options
  import opened Word32

  const HEADER := 8

  type Bytes = seq<Byte>

  /** Header address and payload size. */
  datatype Block = Block(addr: nat, size: nat)

  /** Memory below the break, the list head, and what the allocator has handed
      out: every block ever made, and the free list as block indices in order. */
  datatype Heap = Heap(mem: Bytes, head: Word, brk: nat, blocks: seq<Block>, free: seq<nat>)

  function End(b: Block): nat { b.addr + HEADER + b.size }

  /** Address of the k-th block on the free list; 0 at its end. */
  function Link(h: Heap, k: nat): nat
    requires forall i :: 0 <= i < |h.free| ==> h.free[i] < |h.blocks|
  {
    if k < |h.free| then h.blocks[h.free[k]].addr else 0
  }

  /** Blocks in ascending order without overlap, inside the heap, word-sized. */
  ghost predicate Laid(h: Heap) {
    && h.brk <= |h.mem| < TWO31
    && (forall i :: 0 <= i < |h.blocks| ==> 0 < h.blocks[i].addr && 0 < h.blocks[i].size && End(h.blocks[i]) <= h.brk)
    && (forall i, j :: 0 <= i < j < |h.blocks| ==> End(h.blocks[i]) <= h.blocks[j].addr)
  }

  /** Each free block is on the list once. */
  ghost predicate Listed(h: Heap) {
    && (forall k :: 0 <= k < |h.free| ==> h.free[k] < |h.blocks|)
    && (forall j, k :: 0 <= j < k < |h.free| ==> h.free[j] != h.free[k])
  }

  function WordAt(mem: Bytes, p: nat): Word { if p + 4 <= |mem| then ReadWord(mem, p) else 0 }

  /** The two header words of a block. */
  function SizeAt(h: Heap, i: nat): Word
    requires i < |h.blocks|
  {
    WordAt(h.mem, h.blocks[i].addr)
  }

  function NextAt(h: Heap, i: nat): Word
    requires i < |h.blocks|
  {
    WordAt(h.mem, h.blocks[i].addr + 4)
  }

  /** Headers hold the size, and on the list the next block's address. */
  ghost predicate Linked(h: Heap)
    requires Listed(h)
  {
    && h.head == Link(h, 0)
    && (forall i :: 0 <= i < |h.blocks| ==> SizeAt(h, i) == h.blocks[i].size)
    && (forall k {:trigger NextAt(h, h.free[k])} :: 0 <= k < |h.free| ==> NextAt(h, h.free[k]) == Link(h, k + 1))
  }

  ghost predicate Inv(h: Heap) { Laid(h) && Listed(h) && Linked(h) }

  ghost predicate Live(h: Heap, i: nat) { i < |h.blocks| && i !in h.free }

  function Payload(h: Heap, i: nat): Bytes
    requires i < |h.blocks| && End(h.blocks[i]) <= |h.mem|
  {
    h.mem[h.blocks[i].addr + HEADER..End(h.blocks[i])]
  }

  /** A block is live or on the list exactly once, and no live payload overlaps
      another block's payload or any header. */
  lemma Sound(h: Heap, i: nat, j: nat)
    requires Inv(h) && i < |h.blocks| && j < |h.blocks| && i != j
    ensures Live(h, i) <==> multiset(h.free)[i] == 0
    ensures multiset(h.free)[i] <= 1
    ensures End(h.blocks[i]) <= h.blocks[j].addr || End(h.blocks[j]) <= h.blocks[i].addr
  {
    OnceOnly(h.free, i);
  }

  lemma {:induction false} OnceOnly(s: seq<nat>, x: nat)
    requires forall j, k :: 0 <= j < k < |s| ==> s[j] != s[k]
    ensures multiset(s)[x] == if x in s then 1 else 0
    decreases |s|
  {
    if s != [] {
      var t := s[..|s| - 1];
      assert s == t + [s[|s| - 1]];
      OnceOnly(t, x);
      if x in t {
        var i :| 0 <= i < |t| && t[i] == x;
        assert s[i] != s[|s| - 1];
      }
    }
  }

  /** Following the links in memory, `n` steps from `p`. */
  function Follow(mem: Bytes, p: nat, n: nat): nat
    decreases n
  {
    if n == 0 then p else Follow(mem, WordAt(mem, p + 4), n - 1)
  }

  lemma {:induction false} FollowsList(h: Heap, k: nat, n: nat)
    requires Inv(h) && k + n <= |h.free|
    ensures Follow(h.mem, Link(h, k), n) == Link(h, k + n)
    decreases n
  {
    hide WordAt, Laid;
    if n > 0 {
      assert NextAt(h, h.free[k]) == Link(h, k + 1);
      FollowsList(h, k + 1, n - 1);
    }
  }

  /** Acyclic: from the head the links visit the listed blocks in order, none of
      them null, and then end. */
  lemma ListEnds(h: Heap, k: nat)
    requires Inv(h) && k <= |h.free|
    ensures Follow(h.mem, h.head, k) == Link(h, k) && (Link(h, k) == 0 <==> k == |h.free|)
  {
    FollowsList(h, 0, k);
  }

  // ----- writing one header word -----

  lemma WordKept(mem: Bytes, at: nat, v: Word, p: nat)
    requires at + 4 <= |mem| && (p + 4 <= at || at + 4 <= p)
    ensures WordAt(Patch4(mem, at, v), p) == WordAt(mem, p)
  {
  }

  lemma WordWritten(mem: Bytes, at: nat, v: Word)
    requires at + 4 <= |mem|
    ensures WordAt(Patch4(mem, at, v), at) == v
  {
  }

  lemma BlocksApart(h: Heap, i: nat, j: nat)
    requires Laid(h) && i < |h.blocks| && j < |h.blocks|
    ensures i == j || End(h.blocks[i]) <= h.blocks[j].addr || End(h.blocks[j]) <= h.blocks[i].addr
    ensures End(h.blocks[i]) <= |h.mem|
  {
  }

  /** `g` has the same blocks, the same sizes in their headers and the same
      payloads as `h`, and maybe more of them. */
  ghost predicate Kept(h: Heap, g: Heap) {
    && |h.blocks| <= |g.blocks| && |g.mem| == |h.mem|
    && forall j :: 0 <= j < |h.blocks| ==>
         g.blocks[j] == h.blocks[j] && SizeAt(g, j) == SizeAt(h, j) && Body(g, j) == Body(h, j)
  }

  /** Payload, empty if it would not fit in memory. */
  function Body(h: Heap, i: nat): Bytes
    requires i < |h.blocks|
  {
    if End(h.blocks[i]) <= |h.mem| then Payload(h, i) else []
  }

  lemma SliceKept(mem: Bytes, at: nat, v: Word, a: nat, b: nat)
    requires at + 4 <= |mem| && a <= b <= |mem| && (b <= at || at + 4 <= a)
    ensures Patch4(mem, at, v)[a..b] == mem[a..b]
  {
  }

  /** A word written where block `j` is not. */
  lemma BlockKept(h: Heap, at: nat, v: Word, j: nat)
    requires at + 4 <= |h.mem| && j < |h.blocks| && End(h.blocks[j]) <= |h.mem|
    requires at + 4 <= h.blocks[j].addr || End(h.blocks[j]) <= at
    ensures var g := h.(mem := Patch4(h.mem, at, v));
            SizeAt(g, j) == SizeAt(h, j) && NextAt(g, j) == NextAt(h, j) && Body(g, j) == Body(h, j)
  {
    WordKept(h.mem, at, v, h.blocks[j].addr);
    WordKept(h.mem, at, v, h.blocks[j].addr + 4);
    SliceKept(h.mem, at, v, h.blocks[j].addr + HEADER, End(h.blocks[j]));
    hide WordAt, Patch4;
  }

  /** Its own link written. */
  lemma OwnLink(h: Heap, i: nat, v: Word)
    requires i < |h.blocks| && End(h.blocks[i]) <= |h.mem|
    ensures var g := h.(mem := Patch4(h.mem, h.blocks[i].addr + 4, v));
            SizeAt(g, i) == SizeAt(h, i) && NextAt(g, i) == v && Body(g, i) == Body(h, i)
  {
    var at := h.blocks[i].addr + 4;
    WordWritten(h.mem, at, v);
    WordKept(h.mem, at, v, h.blocks[i].addr);
    SliceKept(h.mem, at, v, h.blocks[i].addr + HEADER, End(h.blocks[i]));
    hide WordAt, Patch4;
  }

  /** Writing the link of block `i` changes no other link, no size, no payload. */
  lemma LinkWritten(h: Heap, i: nat, v: Word)
    requires Laid(h) && i < |h.blocks|
    ensures h.blocks[i].addr + 8 <= |h.mem|
    ensures var g := h.(mem := Patch4(h.mem, h.blocks[i].addr + 4, v));
            && Kept(h, g) && NextAt(g, i) == v && forall j :: 0 <= j < |h.blocks| && j != i ==> NextAt(g, j) == NextAt(h, j)
  {
    BlocksApart(h, i, i);
    OwnLink(h, i, v);
    hide WordAt, Patch4, Body, SizeAt, NextAt;
    var at := h.blocks[i].addr + 4;
    var g := h.(mem := Patch4(h.mem, at, v));
    forall j | 0 <= j < |h.blocks|
      ensures SizeAt(g, j) == SizeAt(h, j) && Body(g, j) == Body(h, j) && (j != i ==> NextAt(g, j) == NextAt(h, j))
    {
      BlocksApart(h, i, j);
      BlocksApart(h, j, i);
      if j != i { BlockKept(h, at, v, j); }
    }
  }

  // ----- the four changes -----

  /** Taking the k-th block off the list. */
  function Unlink(h: Heap, k: nat): Heap
    requires Inv(h) && k < |h.free|
  {
    var free := h.free[..k] + h.free[k + 1..];
    if k == 0 then h.(head := Link(h, 1), free := free)
    else h.(mem := Patch4(h.mem, h.blocks[h.free[k - 1]].addr + 4, Link(h, k + 1)), free := free)
  }

  lemma RemovedFrom(s: seq<nat>, k: nat, x: nat)
    requires k < |s| && forall i, j :: 0 <= i < j < |s| ==> s[i] != s[j]
    ensures x in s[..k] + s[k + 1..] <==> x in s && x != s[k]
  {
    var t := s[..k] + s[k + 1..];
    if x in s && x != s[k] {
      var i :| 0 <= i < |s| && s[i] == x;
      if i < k { assert t[i] == x; } else { assert t[i - 1] == x; }
    }
  }

  /** The list without its k-th entry. */
  lemma ListWithout(h: Heap, g: Heap, k: nat)
    requires Listed(h) && k < |h.free| && g.blocks == h.blocks && g.free == h.free[..k] + h.free[k + 1..]
    ensures Listed(g) && |g.free| == |h.free| - 1
    ensures forall l :: 0 <= l <= |g.free| ==> Link(g, l) == Link(h, if l < k then l else l + 1)
    ensures forall i :: Live(g, i) <==> Live(h, i) || i == h.free[k]
  {
    forall i | true ensures Live(g, i) <==> Live(h, i) || i == h.free[k] { RemovedFrom(h.free, k, i); }
  }

  lemma LaidSame(h: Heap, g: Heap)
    requires Laid(h) && g.blocks == h.blocks && g.brk == h.brk && |g.mem| == |h.mem|
    ensures Laid(g)
  {
  }

  lemma SizesSame(h: Heap, g: Heap, i: nat)
    requires Listed(h) && Linked(h) && Kept(h, g) && i < |h.blocks|
    ensures SizeAt(g, i) == h.blocks[i].size
  {
  }

  lemma NextOf(h: Heap, k: nat)
    requires Listed(h) && Linked(h) && k < |h.free|
    ensures NextAt(h, h.free[k]) == Link(h, k + 1)
  {
  }

  lemma Different(h: Heap, j: nat, k: nat)
    requires Listed(h) && j < |h.free| && k < |h.free| && j != k
    ensures h.free[j] != h.free[k]
  {
    if j < k { assert h.free[j] != h.free[k]; } else { assert h.free[k] != h.free[j]; }
  }

  /** What Unlink does to the links. */
  lemma UnlinkLinked(h: Heap, g: Heap, k: nat)
    requires Listed(h) && Linked(h) && k < |h.free| && Listed(g) && Kept(h, g) && g.blocks == h.blocks
    requires g.free == h.free[..k] + h.free[k + 1..] && g.head == (if k == 0 then Link(h, 1) else h.head)
    requires forall l :: 0 <= l <= |g.free| ==> Link(g, l) == Link(h, if l < k then l else l + 1)
    requires k > 0 ==> NextAt(g, h.free[k - 1]) == Link(h, k + 1)
    requires forall j :: 0 <= j < |h.blocks| && (k > 0 ==> j != h.free[k - 1]) ==> NextAt(g, j) == NextAt(h, j)
    ensures Linked(g)
  {
    hide WordAt, SizeAt, NextAt, Link, Body;
    forall i | 0 <= i < |g.blocks| ensures SizeAt(g, i) == g.blocks[i].size { SizesSame(h, g, i); }
    forall l | 0 <= l < |g.free| ensures NextAt(g, g.free[l]) == Link(g, l + 1) {
      var o := if l < k then l else l + 1;
      assert g.free[l] == h.free[o];
      NextOf(h, o);
      if l != k - 1 && k > 0 { Different(h, o, k - 1); }
    }
  }

  lemma UnlinkInv(h: Heap, k: nat)
    requires Inv(h) && k < |h.free|
    ensures var g := Unlink(h, k);
            && Inv(g) && Kept(h, g) && g.blocks == h.blocks && g.brk == h.brk
            && forall i :: Live(g, i) <==> Live(h, i) || i == h.free[k]
  {
    hide WordAt, SizeAt, NextAt, Body, Patch4, Laid, Linked, Live, Kept;
    var g := Unlink(h, k);
    KeptSame(h, g);
    ListWithout(h, g, k);
    if k > 0 { LinkWritten(h, h.free[k - 1], Link(h, k + 1)); }
    UnlinkEffect(h, g, k);
    UnlinkLinked(h, g, k);
    LaidSame(h, g);
  }

  /** The heap with only the list changed. */
  lemma KeptSame(h: Heap, g: Heap)
    ensures g.mem == h.mem && g.blocks == h.blocks ==> Kept(h, g) && forall j :: 0 <= j < |h.blocks| ==> NextAt(g, j) == NextAt(h, j)
  {
  }

  lemma UnlinkEffect(h: Heap, g: Heap, k: nat)
    requires Inv(h) && k < |h.free| && g == Unlink(h, k)
    ensures Kept(h, g) && (k > 0 ==> NextAt(g, h.free[k - 1]) == Link(h, k + 1)) && g.head == (if k == 0 then Link(h, 1) else h.head)
    ensures forall j :: 0 <= j < |h.blocks| && (k > 0 ==> j != h.free[k - 1]) ==> NextAt(g, j) == NextAt(h, j)
  {
    hide WordAt, Patch4, Laid, Linked;
    if k > 0 {
      LinkWritten(h, h.free[k - 1], Link(h, k + 1));
      var g1 := h.(mem := Patch4(h.mem, h.blocks[h.free[k - 1]].addr + 4, Link(h, k + 1)));
      SameBlocks(g1, g);
      hide Body, SizeAt, NextAt;
    }
  }

  lemma SameBlocks(h: Heap, g: Heap)
    requires g.mem == h.mem && g.blocks == h.blocks
    ensures forall j :: 0 <= j < |h.blocks| ==> SizeAt(g, j) == SizeAt(h, j) && NextAt(g, j) == NextAt(h, j) && Body(g, j) == Body(h, j)
  {
  }

  /** Putting a block at the front of the list. */
  function Push(h: Heap, i: nat): Heap
    requires Inv(h) && i < |h.blocks|
  {
    BlocksApart(h, i, i);
    h.(mem := Patch4(h.mem, h.blocks[i].addr + 4, h.head), head := h.blocks[i].addr, free := [i] + h.free)
  }

  lemma PushInv(h: Heap, i: nat)
    requires Inv(h) && Live(h, i)
    ensures var g := Push(h, i);
            && Inv(g) && Kept(h, g) && g.blocks == h.blocks && g.brk == h.brk
            && forall j :: Live(g, j) <==> Live(h, j) && j != i
  {
    BlocksApart(h, i, i);
    var g1 := h.(mem := Patch4(h.mem, h.blocks[i].addr + 4, h.head));
    var g := g1.(head := h.blocks[i].addr, free := [i] + h.free);
    assert g == Push(h, i);
    hide WordAt, Patch4, Live, Laid, Linked, Push;
    PushList(h, g, i);
    LinkWritten(h, i, h.head);
    SameBlocks(g1, g);
    PushLinked(h, g, i);
    LaidSame(h, g);
  }

  lemma PushLinked(h: Heap, g: Heap, i: nat)
    requires Listed(h) && Linked(h) && Listed(g) && i < |h.blocks| && g.blocks == h.blocks && Kept(h, g) && g.free == [i] + h.free
    requires g.head == h.blocks[i].addr && NextAt(g, i) == h.head
    requires forall l :: 0 < l <= |g.free| ==> Link(g, l) == Link(h, l - 1)
    requires forall j :: 0 <= j < |h.blocks| && j != i ==> NextAt(g, j) == NextAt(h, j)
    requires forall l :: 0 < l < |g.free| ==> g.free[l] != i
    ensures Linked(g)
  {
    hide Body, SizeAt, NextAt, WordAt;
    forall l | 0 <= l < |g.free| ensures NextAt(g, g.free[l]) == Link(g, l + 1) {
      if l > 0 {
        assert g.free[l] == h.free[l - 1];
        NextOf(h, l - 1);
      }
    }
    forall j | 0 <= j < |g.blocks| ensures SizeAt(g, j) == g.blocks[j].size { SizesSame(h, g, j); }
  }

  lemma PushList(h: Heap, g: Heap, i: nat)
    requires Listed(h) && Live(h, i) && g.blocks == h.blocks && g.free == [i] + h.free
    ensures Listed(g) && forall l :: 0 < l <= |g.free| ==> Link(g, l) == Link(h, l - 1)
    ensures forall j :: Live(g, j) <==> Live(h, j) && j != i
    ensures forall l :: 0 < l < |g.free| ==> g.free[l] != i
  {
    assert forall l :: 0 < l < |g.free| ==> g.free[l] == h.free[l - 1];
  }

  /** A new block at the break. */
  function Grow(h: Heap, want: nat): Heap
    requires h.brk + HEADER + want <= |h.mem| && want < TWO32
  {
    var m := Patch4(Patch4(h.mem, h.brk, want), h.brk + 4, 0);
    h.(mem := m, brk := h.brk + HEADER + want, blocks := h.blocks + [Block(h.brk, want)])
  }

  lemma GrowKept(h: Heap, want: nat)
    requires Laid(h) && h.brk + HEADER + want <= |h.mem| && want < TWO32
    ensures var g := Grow(h, want);
            && Kept(h, g) && SizeAt(g, |h.blocks|) == want
            && forall j :: 0 <= j < |h.blocks| ==> NextAt(g, j) == NextAt(h, j)
  {
    hide WordAt, Patch4, Laid, SizeAt, NextAt, Body;
    var g := Grow(h, want);
    var h1 := h.(mem := Patch4(h.mem, h.brk, want));
    GrowHeader(h, want);
    var h2 := h1.(mem := Patch4(h1.mem, h.brk + 4, 0));
    SamePart(h2, g);
    forall j | 0 <= j < |h.blocks|
      ensures g.blocks[j] == h.blocks[j] && SizeAt(g, j) == SizeAt(h, j) && NextAt(g, j) == NextAt(h, j) && Body(g, j) == Body(h, j)
    {
      BelowBreak(h, j);
      BlockKept(h, h.brk, want, j);
      BlockKept(h1, h.brk + 4, 0, j);
    }
  }

  lemma GrowHeader(h: Heap, want: nat)
    requires h.brk + HEADER + want <= |h.mem| && want < TWO32
    ensures SizeAt(Grow(h, want), |h.blocks|) == want
  {
    hide WordAt, Patch4;
    WordWritten(h.mem, h.brk, want);
    WordKept(Patch4(h.mem, h.brk, want), h.brk + 4, 0, h.brk);
    assert Grow(h, want).blocks[|h.blocks|] == Block(h.brk, want);
  }

  lemma SamePart(h: Heap, g: Heap)
    requires g.mem == h.mem && |h.blocks| <= |g.blocks| && forall j :: 0 <= j < |h.blocks| ==> g.blocks[j] == h.blocks[j]
    ensures forall j :: 0 <= j < |h.blocks| ==> SizeAt(g, j) == SizeAt(h, j) && NextAt(g, j) == NextAt(h, j) && Body(g, j) == Body(h, j)
  {
  }

  lemma BelowBreak(h: Heap, j: nat)
    requires Laid(h) && j < |h.blocks|
    ensures End(h.blocks[j]) <= h.brk <= |h.mem|
  {
  }

  lemma GrowInv(h: Heap, want: nat)
    requires Inv(h) && h.brk + HEADER + want <= |h.mem| && 0 < want < TWO32 && h.brk > 0
    ensures var g := Grow(h, want);
            && Inv(g) && Kept(h, g) && g.free == h.free
            && forall j :: Live(g, j) <==> Live(h, j) || j == |h.blocks|
  {
    hide WordAt, Patch4, Body, SizeAt, NextAt, Laid, Grow, Live, Kept;
    var g := Grow(h, want);
    GrowLaid(h, want);
    GrowKept(h, want);
    GrowList(h, g);
    GrowLinked(h, g);
  }

  lemma GrowLinked(h: Heap, g: Heap)
    requires Listed(h) && Linked(h) && Listed(g) && Kept(h, g) && g.free == h.free && g.head == h.head && |g.blocks| == |h.blocks| + 1
    requires SizeAt(g, |h.blocks|) == g.blocks[|h.blocks|].size
    requires forall l :: 0 <= l <= |h.free| ==> Link(g, l) == Link(h, l)
    requires forall j :: 0 <= j < |h.blocks| ==> NextAt(g, j) == NextAt(h, j)
    ensures Linked(g)
  {
    hide WordAt, Body, SizeAt, NextAt, Link;
    forall l | 0 <= l < |g.free| ensures NextAt(g, g.free[l]) == Link(g, l + 1) { NextOf(h, l); }
    forall j | 0 <= j < |g.blocks| ensures SizeAt(g, j) == g.blocks[j].size {
      if j < |h.blocks| { SizesSame(h, g, j); }
    }
  }

  lemma GrowLaid(h: Heap, want: nat)
    requires Laid(h) && h.brk + HEADER + want <= |h.mem| && 0 < want < TWO32 && h.brk > 0
    ensures var g := Grow(h, want);
            && Laid(g) && g.free == h.free && g.head == h.head
            && |g.blocks| == |h.blocks| + 1 && g.blocks[|h.blocks|].size == want && forall j :: 0 <= j < |h.blocks| ==> g.blocks[j] == h.blocks[j]
  {
    hide Patch4;
  }

  lemma GrowList(h: Heap, g: Heap)
    requires Listed(h) && g.free == h.free && |g.blocks| == |h.blocks| + 1 && forall j :: 0 <= j < |h.blocks| ==> g.blocks[j] == h.blocks[j]
    ensures Listed(g) && forall l :: 0 <= l <= |h.free| ==> Link(g, l) == Link(h, l)
    ensures forall j :: Live(g, j) <==> Live(h, j) || j == |h.blocks|
  {
  }

  /** A program writing inside a live block. */
  function Store(h: Heap, i: nat, k: nat, v: Byte): Heap
    requires i < |h.blocks| && k < h.blocks[i].size && End(h.blocks[i]) <= |h.mem|
  {
    h.(mem := h.mem[h.blocks[i].addr + HEADER + k := v])
  }

  lemma StoreInv(h: Heap, i: nat, k: nat, v: Byte)
    requires Inv(h) && i < |h.blocks| && k < h.blocks[i].size && End(h.blocks[i]) <= |h.mem|
    ensures var g := Store(h, i, k, v);
            && Inv(g) && Payload(g, i) == Payload(h, i)[k := v]
            && forall j :: 0 <= j < |h.blocks| && j != i ==> Body(g, j) == Body(h, j)
  {
    var g := Store(h, i, k, v);
    hide WordAt, Laid, Body, Payload;
    StorePayload(h, i, k, v);
    forall j | 0 <= j < |h.blocks|
      ensures SizeAt(g, j) == SizeAt(h, j) && NextAt(g, j) == NextAt(h, j) && (j != i ==> Body(g, j) == Body(h, j))
    {
      StoreElsewhere(h, i, k, v, j);
    }
    hide SizeAt, NextAt;
    forall l | 0 <= l < |g.free| ensures NextAt(g, g.free[l]) == Link(g, l + 1) { NextOf(h, l); }
    LaidSame(h, g);
  }

  lemma StorePayload(h: Heap, i: nat, k: nat, v: Byte)
    requires i < |h.blocks| && k < h.blocks[i].size && End(h.blocks[i]) <= |h.mem|
    ensures Payload(Store(h, i, k, v), i) == Payload(h, i)[k := v]
  {
  }

  lemma StoreElsewhere(h: Heap, i: nat, k: nat, v: Byte, j: nat)
    requires Laid(h) && i < |h.blocks| && k < h.blocks[i].size && End(h.blocks[i]) <= |h.mem| && j < |h.blocks|
    ensures var g := Store(h, i, k, v);
            SizeAt(g, j) == SizeAt(h, j) && NextAt(g, j) == NextAt(h, j) && (j != i ==> Body(g, j) == Body(h, j))
  {
    BlocksApart(h, i, j);
    BlocksApart(h, j, i);
    var at := h.blocks[i].addr + HEADER + k;
    ByteKept(h.mem, at, v, h.blocks[j].addr);
    ByteKept(h.mem, at, v, h.blocks[j].addr + 4);
    hide WordAt, Laid;
  }

  lemma ByteKept(mem: Bytes, at: nat, v: Byte, p: nat)
    requires at < |mem| && (p + 4 <= at || at < p)
    ensures WordAt(mem[at := v], p) == WordAt(mem, p)
  {
  }

  // ----- malloc -----

  /** First block on the list, from the k-th on, with room for `want`. */
  function FitFrom(h: Heap, want: int, k: nat): (r: Option<nat>)
    requires Listed(h)
    ensures r.Some? ==> k <= r.value < |h.free| && h.blocks[h.free[r.value]].size >= want
    ensures r.None? ==> forall j :: k <= j < |h.free| ==> h.blocks[h.free[j]].size < want
    decreases |h.free| - k
  {
    if k >= |h.free| then None
    else if h.blocks[h.free[k]].size >= want then Some(k)
    else FitFrom(h, want, k + 1)
  }

  /** Requests are rounded up to whole words, in 32-bit arithmetic: the last three
      sizes an `int` can hold become the least number there is. */
  function Want(size: int): (w: int)
    requires 0 < size < TWO31
    ensures if size <= LARGEST then size <= w < size + 4 else w == -TWO31
  {
    Signed(Wrap(size + 3)) / 4 * 4
  }

  const LARGEST := 0x7FFF_FFFC

  /** The heap after a request and the block it got. */
  datatype Grant = Grant(heap: Heap, block: nat)

  /** The block a request gets, and the heap after it; None when it fails. */
  function Malloc(h: Heap, size: int): Option<Grant>
    requires Inv(h) && size < TWO31
  {
    if size <= 0 then None
    else
      match FitFrom(h, Want(size), 0)
      case Some(k) => Some(Grant(Unlink(h, k), h.free[k]))
      case None =>
        if Wrap(Want(size) + HEADER) > |h.mem| - h.brk then None
        else Some(Grant(Grow(h, Want(size)), |h.blocks|))
  }

  /** Above 0x7FFFFFFC any free block will do, and without one the request fails. */
  lemma HugeTakesFirst(h: Heap, size: int)
    requires Inv(h) && LARGEST < size < TWO31
    ensures Malloc(h, size) == if h.free == [] then None else Some(Grant(Unlink(h, 0), h.free[0]))
  {
    hide Linked, Unlink, Grow, Laid;
    InvMem(h);
  }

  lemma InvMem(h: Heap)
    requires Inv(h)
    ensures h.brk <= |h.mem| < TWO31 && Listed(h) && forall i :: 0 <= i < |h.blocks| ==> 0 < h.blocks[i].size <= |h.mem| - HEADER
  {
    hide Linked;
  }

  /** A request that succeeds gets a block nobody holds, and no live block's contents
      change; the block is at least as large as asked for exactly when that is at
      most 0x7FFFFFFC bytes. */
  lemma MallocInv(h: Heap, size: int)
    requires Inv(h) && h.brk > 0 && size < TWO31 && Malloc(h, size).Some?
    ensures var Grant(g, i) := Malloc(h, size).value;
            && Inv(g) && g.brk > 0 && Kept(h, g) && i < |g.blocks| && Live(g, i) && !Live(h, i)
            && (g.blocks[i].size >= size <==> size <= LARGEST)
            && forall j :: Live(g, j) <==> Live(h, j) || j == i
  {
    hide Unlink, Grow, Linked, Laid, Kept, Want;
    InvMem(h);
    match FitFrom(h, Want(size), 0)
    case Some(k) => UnlinkInv(h, k);
    case None =>
      SmallGrant(h, size);
      GrowInv(h, Want(size));
      GrowLast(h, Want(size));
  }

  lemma SmallGrant(h: Heap, size: int)
    requires 0 < size < TWO31 && h.brk <= |h.mem| < TWO31 && Wrap(Want(size) + HEADER) <= |h.mem| - h.brk
    ensures size <= LARGEST && Wrap(Want(size) + HEADER) == Want(size) + HEADER
  {
  }

  lemma GrowLast(h: Heap, want: nat)
    requires h.brk + HEADER + want <= |h.mem| && want < TWO32
    ensures Grow(h, want).blocks == h.blocks + [Block(h.brk, want)] && Grow(h, want).brk == h.brk + HEADER + want
  {
    hide Patch4;
  }

  // ----- runs -----

  /** What a program does: allocate, free a block it holds, write into one. */
  datatype Event = EMalloc(size: int) | EFree(i: nat) | EStore(i: nat, k: nat, v: Byte)

  ghost predicate Allowed(h: Heap, e: Event) {
    match e
    case EMalloc(size) => size < TWO31
    case EFree(i) => Live(h, i)
    case EStore(i, k, _) => Live(h, i) && k < h.blocks[i].size
  }

  function Do(h: Heap, e: Event): Heap
    requires Inv(h) && Allowed(h, e)
  {
    match e
    case EMalloc(size) => (match Malloc(h, size) case Some(r) => r.heap case None => h)
    case EFree(i) => Push(h, i)
    case EStore(i, k, v) => BlocksApart(h, i, i); Store(h, i, k, v)
  }

  /** Live blocks, other than one, are where and what they were. */
  ghost predicate OthersKept(h: Heap, g: Heap, except: int) {
    forall j: nat :: Live(h, j) && j != except ==> j < |g.blocks| && g.blocks[j] == h.blocks[j] && Body(g, j) == Body(h, j)
  }

  lemma KeptOthers(h: Heap, g: Heap, except: int)
    requires Kept(h, g)
    ensures OthersKept(h, g, except)
  {
  }

  /** Every event keeps the heap sound and every other live block's contents. */
  lemma DoInv(h: Heap, e: Event)
    requires Inv(h) && h.brk > 0 && Allowed(h, e)
    ensures var g := Do(h, e);
            && Inv(g) && g.brk > 0 && |g.mem| == |h.mem| && |h.blocks| <= |g.blocks|
            && OthersKept(h, g, if e.EStore? then e.i else -1)
  {
    hide Inv, Body, Malloc, Push, Store, OthersKept;
    match e
    case EMalloc(size) =>
      if Malloc(h, size).Some? {
        MallocInv(h, size);
        KeptOthers(h, Malloc(h, size).value.heap, -1);
      } else {
        KeptSame(h, h);
        KeptOthers(h, h, -1);
      }
    case EFree(i) =>
      PushInv(h, i);
      KeptOthers(h, Push(h, i), -1);
    case EStore(i, k, v) =>
      InvLaid(h);
      BlocksApart(h, i, i);
      StoreInv(h, i, k, v);
      StoreSizes(h, i, k, v);
      StoreOthers(h, i, k, v);
  }

  lemma StoreOthers(h: Heap, i: nat, k: nat, v: Byte)
    requires Inv(h) && i < |h.blocks| && k < h.blocks[i].size && End(h.blocks[i]) <= |h.mem|
    ensures OthersKept(h, Store(h, i, k, v), i)
  {
    hide Inv, Body;
    StoreInv(h, i, k, v);
    StoreSizes(h, i, k, v);
    hide Store;
  }

  lemma InvLaid(h: Heap)
    requires Inv(h)
    ensures Laid(h)
  {
  }

  lemma StoreSizes(h: Heap, i: nat, k: nat, v: Byte)
    requires i < |h.blocks| && k < h.blocks[i].size && End(h.blocks[i]) <= |h.mem|
    ensures var g := Store(h, i, k, v); g.blocks == h.blocks && g.brk == h.brk && |g.mem| == |h.mem|
  {
  }

  ghost predicate AllowedAll(h: Heap, es: seq<Event>)
    requires Inv(h) && h.brk > 0
    decreases |es|
  {
    es == [] || (Allowed(h, es[0]) && (DoInv(h, es[0]); AllowedAll(Do(h, es[0]), es[1..])))
  }

  function DoAll(h: Heap, es: seq<Event>): Heap
    requires Inv(h) && h.brk > 0 && AllowedAll(h, es)
    decreases |es|
  {
    if es == [] then h else DoInv(h, es[0]); DoAll(Do(h, es[0]), es[1..])
  }

  /** The heap a program starts with. */
  function Empty(mem: Bytes, brk: nat): Heap { Heap(mem, 0, brk, [], []) }

  /** One block of four bytes, freed: 2 GB - 1 are asked for and it is what one gets. */
  lemma SmallForHuge(mem: Bytes) returns (h: Heap)
    requires |mem| == 64
    ensures Inv(Empty(mem, 4)) && AllowedAll(Empty(mem, 4), [EMalloc(4), EFree(0)]) && h == DoAll(Empty(mem, 4), [EMalloc(4), EFree(0)])
    ensures Inv(h) && |h.blocks| == 1 && h.blocks[0].size == 4
    ensures Malloc(h, 0x7FFF_FFFF).Some? && Malloc(h, 0x7FFF_FFFF).value.block == 0
  {
    var h0 := Empty(mem, 4);
    EmptyInv(mem);
    var h1 := OneBlock(mem);
    h := OneFreed(h1);
    DoInv(h0, EMalloc(4));
    DoInv(h1, EFree(0));
    hide Inv, Do, Malloc, Allowed, Empty;
    DoOne(h1, EFree(0), []);
    DoOne(h0, EMalloc(4), [EFree(0)]);
    HugeTakesFirst(h, 0x7FFF_FFFF);
  }

  lemma EmptyInv(mem: Bytes)
    requires |mem| == 64
    ensures Inv(Empty(mem, 4))
  {
  }

  lemma OneBlock(mem: Bytes) returns (h1: Heap)
    requires |mem| == 64 && Inv(Empty(mem, 4))
    ensures h1 == Do(Empty(mem, 4), EMalloc(4)) && Inv(h1) && h1.blocks == [Block(4, 4)] && h1.free == [] && h1.brk > 0 && |h1.mem| == 64
  {
    var h0 := Empty(mem, 4);
    hide Inv, Grow, Malloc;
    FirstGrant(mem);
    GrowLast(h0, 4);
    GrowInv(h0, 4);
    GrowMem(h0, 4);
    h1 := Grow(h0, 4);
  }

  lemma FirstGrant(mem: Bytes)
    requires |mem| == 64 && Inv(Empty(mem, 4))
    ensures Malloc(Empty(mem, 4), 4) == Some(Grant(Grow(Empty(mem, 4), 4), 0))
  {
    hide Inv, Grow, Unlink, Wrap, Want, Signed, Listed;
    FourBytes();
    EmptyListed(mem);
    assert FitFrom(Empty(mem, 4), 4, 0) == None;
  }

  lemma FourBytes()
    ensures Want(4) == 4 && Wrap(4 + HEADER) == 12
  {
  }

  lemma EmptyListed(mem: Bytes)
    ensures Listed(Empty(mem, 4))
  {
  }

  lemma GrowMem(h: Heap, want: nat)
    requires h.brk + HEADER + want <= |h.mem| && want < TWO32
    ensures |Grow(h, want).mem| == |h.mem|
  {
    hide Bytes4;
  }

  lemma OneFreed(h1: Heap) returns (h: Heap)
    requires Inv(h1) && h1.blocks == [Block(4, 4)] && h1.free == [] && h1.brk > 0
    ensures Allowed(h1, EFree(0)) && h == Do(h1, EFree(0)) && Inv(h) && h.blocks == [Block(4, 4)] && h.free == [0]
  {
    assert Live(h1, 0);
    PushInv(h1, 0);
    hide Inv, Patch4;
    h := Do(h1, EFree(0));
  }

  lemma DoOne(h: Heap, e: Event, es: seq<Event>)
    requires Inv(h) && h.brk > 0 && Allowed(h, e) && Inv(Do(h, e)) && Do(h, e).brk > 0 && AllowedAll(Do(h, e), es)
    ensures AllowedAll(h, [e] + es) && DoAll(h, [e] + es) == DoAll(Do(h, e), es)
  {
    hide Inv, Do, Allowed;
    assert ([e] + es)[1..] == es;
  }

  /** Over every run the heap stays sound: blocks apart, headers intact, the free
      list in memory exactly the freed blocks and ending. */
  lemma {:induction false} RunSound(h: Heap, es: seq<Event>)
    requires Inv(h) && h.brk > 0 && AllowedAll(h, es)
    ensures var g := DoAll(h, es);
            Inv(g) && Follow(g.mem, g.head, |g.free|) == 0 && forall k :: 0 <= k < |g.free| ==> Follow(g.mem, g.head, k) == g.blocks[g.free[k]].addr
    decreases |es|
  {
    if es == [] {
      ListEnds(h, |h.free|);
      forall k | 0 <= k < |h.free| ensures Follow(h.mem, h.head, k) == h.blocks[h.free[k]].addr { ListEnds(h, k); }
    } else {
      hide Inv, Do, Allowed;
      DoInv(h, es[0]);
      RunSound(Do(h, es[0]), es[1..]);
    }
  }
}
