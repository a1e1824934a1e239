/** Frame slots: every local and every switch selector of a function gets a slot
    of its own, whatever the nesting, and all lie inside the patched frame.
 */
module CcSlots {
  import opened Options
  import opened Word32
  import opened CcAst
  import opened CcStmt

  datatype Slot = Slot(off: int, size: nat)

  /** Slots a statement claims, in the order they are handed out. */
  function SlotsOf(cx: Ctx, s: Stmt): seq<Slot>
    decreases s, 1
  {
    match s
    case Decl(x, t, _) => [Slot(AddLocal(cx, x, t).off, Size(cx.env, t))]
    case Block(ss) => SlotsOfAll(cx, ss)
    case If(_, t, f) => SlotsOf(cx, t) + (match f case Some(e) => SlotsOf(CtxAfter(cx, t), e) case None => [])
    case While(_, b) => SlotsOf(cx, b)
    case Do(b, _) => SlotsOf(cx, b)
    case For(i, _, _, b) =>
      (match i case Some(d) => SlotsOf(cx, d) + SlotsOf(CtxAfter(cx, d), b) case None => SlotsOf(cx, b))
    case Switch(_, items) => [Slot(TempSlot(cx), 4)] + SlotsOfItems(cx.(off := TempSlot(cx)), items)
    case _ => []
  }

  function SlotsOfAll(cx: Ctx, ss: seq<Stmt>): seq<Slot>
    decreases ss, 0
  {
    if ss == [] then [] else SlotsOf(cx, ss[0]) + SlotsOfAll(CtxAfter(cx, ss[0]), ss[1..])
  }

  function SlotsOfItems(cx: Ctx, items: seq<SwItem>): seq<Slot>
    decreases items, 0
  {
    if items == [] then []
    else SlotsOfItem(cx, items[0]) + SlotsOfItems(CtxAfterItem(cx, items[0]), items[1..])
  }

  function SlotsOfItem(cx: Ctx, it: SwItem): seq<Slot>
    decreases it, 2
  {
    match it case Body(s) => SlotsOf(cx, s) case _ => []
  }

  /** Each slot lies below the one before, word-aligned, between `lo` and `hi`. */
  ghost predicate Stacked(ss: seq<Slot>, lo: int, hi: int) {
    if ss == [] then lo <= hi
    else ss[0].off % 4 == 0 && ss[0].off + ss[0].size <= hi && Stacked(ss[1..], lo, ss[0].off)
  }

  lemma {:induction false} StackedCat(a: seq<Slot>, b: seq<Slot>, lo: int, mid: int, hi: int)
    requires Stacked(a, mid, hi) && Stacked(b, lo, mid)
    ensures Stacked(a + b, lo, hi)
    decreases |a|
  {
    if a == [] {
      assert a + b == b;
      StackedHigher(b, lo, mid, hi);
    } else {
      assert (a + b)[1..] == a[1..] + b;
      StackedCat(a[1..], b, lo, mid, a[0].off);
    }
  }

  lemma StackedHigher(b: seq<Slot>, lo: int, mid: int, hi: int)
    requires Stacked(b, lo, mid) && mid <= hi
    ensures Stacked(b, lo, hi)
  {
  }

  lemma {:induction false} SlotsStacked(cx: Ctx, s: Stmt)
    ensures Stacked(SlotsOf(cx, s), CtxAfter(cx, s).off, cx.off)
    decreases s, 1
  {
    match s
    case Decl(x, t, _) =>
      var sl := Slot(AddLocal(cx, x, t).off, Size(cx.env, t));
      assert Stacked([sl][1..], sl.off, sl.off);
    case Block(ss) => SlotsStackedAll(cx, ss);
    case If(_, t, f) =>
      SlotsStacked(cx, t);
      if f.Some? {
        SlotsStacked(CtxAfter(cx, t), f.value);
        StackedCat(SlotsOf(cx, t), SlotsOf(CtxAfter(cx, t), f.value), CtxAfter(cx, s).off, CtxAfter(cx, t).off, cx.off);
      } else {
        assert SlotsOf(cx, t) + [] == SlotsOf(cx, t);
      }
    case While(_, b) => SlotsStacked(cx, b);
    case Do(b, _) => SlotsStacked(cx, b);
    case For(i, _, _, b) =>
      if i.Some? {
        var d := i.value;
        SlotsStacked(cx, d);
        SlotsStacked(CtxAfter(cx, d), b);
        StackedCat(SlotsOf(cx, d), SlotsOf(CtxAfter(cx, d), b), CtxAfter(cx, s).off, CtxAfter(cx, d).off, cx.off);
      } else {
        SlotsStacked(cx, b);
      }
    case Switch(_, items) =>
      var cx1 := cx.(off := TempSlot(cx));
      var temp := [Slot(TempSlot(cx), 4)];
      SlotsStackedItems(cx1, items);
      assert Stacked(temp[1..], cx1.off, cx1.off);
      StackedCat(temp, SlotsOfItems(cx1, items), CtxAfter(cx, s).off, cx1.off, cx.off);
    case _ =>
  }

  lemma {:induction false} SlotsStackedAll(cx: Ctx, ss: seq<Stmt>)
    ensures Stacked(SlotsOfAll(cx, ss), CtxAfterAll(cx, ss).off, cx.off)
    decreases ss, 0
  {
    if ss != [] {
      SlotsStacked(cx, ss[0]);
      SlotsStackedAll(CtxAfter(cx, ss[0]), ss[1..]);
      StackedCat(SlotsOf(cx, ss[0]), SlotsOfAll(CtxAfter(cx, ss[0]), ss[1..]), CtxAfterAll(cx, ss).off, CtxAfter(cx, ss[0]).off, cx.off);
    }
  }

  lemma {:induction false} SlotsStackedItems(cx: Ctx, items: seq<SwItem>)
    ensures Stacked(SlotsOfItems(cx, items), CtxAfterItems(cx, items).off, cx.off)
    decreases items, 0
  {
    if items != [] {
      SlotsStackedItem(cx, items[0]);
      var cx1 := CtxAfterItem(cx, items[0]);
      SlotsStackedItems(cx1, items[1..]);
      StackedCat(SlotsOfItem(cx, items[0]), SlotsOfItems(cx1, items[1..]), CtxAfterItems(cx, items).off, cx1.off, cx.off);
    }
  }

  lemma {:induction false} SlotsStackedItem(cx: Ctx, it: SwItem)
    ensures Stacked(SlotsOfItem(cx, it), CtxAfterItem(cx, it).off, cx.off)
    decreases it, 2
  {
    if it.Body? { SlotsStacked(cx, it.stmt); }
  }

  lemma {:induction false} StackedAt(ss: seq<Slot>, lo: int, hi: int, j: nat)
    requires Stacked(ss, lo, hi) && j < |ss|
    ensures lo <= ss[j].off && ss[j].off + ss[j].size <= hi && ss[j].off % 4 == 0
    decreases |ss|
  {
    if j > 0 { StackedAt(ss[1..], lo, ss[0].off, j - 1); } else { StackedLow(ss[1..], lo, ss[0].off); }
  }

  lemma {:induction false} StackedLow(ss: seq<Slot>, lo: int, hi: int)
    requires Stacked(ss, lo, hi)
    ensures lo <= hi
    decreases |ss|
  {
    if ss != [] { StackedLow(ss[1..], lo, ss[0].off); }
  }

  lemma {:induction false} StackedApart(ss: seq<Slot>, lo: int, hi: int, i: nat, j: nat)
    requires Stacked(ss, lo, hi) && i < j < |ss|
    ensures ss[j].off + ss[j].size <= ss[i].off
    decreases |ss|
  {
    if i > 0 { StackedApart(ss[1..], lo, ss[0].off, i - 1, j - 1); } else { StackedAt(ss[1..], lo, ss[0].off, j - 1); }
  }

  /** No two slots of a function body overlap, and all lie in the frame the
      prologue reserves. */
  lemma FrameSlotsApart(cx: Ctx, body: Stmt, i: nat, j: nat)
    requires cx.off == 0 && i < j < |SlotsOf(cx, body)|
    ensures var a, b := SlotsOf(cx, body)[i], SlotsOf(cx, body)[j];
            && b.off + b.size <= a.off && a.off + a.size <= 0
            && CtxAfter(cx, body).off <= b.off && a.off % 4 == 0 && b.off % 4 == 0
  {
    SlotsStacked(cx, body);
    StackedApart(SlotsOf(cx, body), CtxAfter(cx, body).off, 0, i, j);
    StackedAt(SlotsOf(cx, body), CtxAfter(cx, body).off, 0, i);
    StackedAt(SlotsOf(cx, body), CtxAfter(cx, body).off, 0, j);
  }
}
