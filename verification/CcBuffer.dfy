/** The generator as the compiler has it: one object whose methods append bytes,
    number labels and record places to patch.
 */
module CcBuffer {
  import opened Options
  import opened Word32
  import opened CcAst
  import opened CcConst
  import opened Patching
  import opened X86
  import opened CcGen
  import opened CcBytes
  import opened CcPatch
  import opened CcStmt

  /** Break target, and continue target unless the entry is a switch. */
  datatype Target = Target(brk: nat, cont: Option<nat>)

  lemma Cat2(w: seq<Item>, a: seq<Item>, b: seq<Item>)
    ensures w + a + b == w + (a + b)
  {
  }

  lemma CodeNext(ins: seq<Instr>, k: nat)
    requires k < |ins|
    ensures Code(ins[..k + 1]) == Code(ins[..k]) + [I(ins[k])]
  {
  }

  lemma Cat3(w: seq<Item>, a: seq<Item>, b: seq<Item>, c: seq<Item>)
    ensures w + a + b + c == w + (a + b + c)
  {
  }

  lemma CatPair(w: seq<Item>, a: seq<Item>, x: Item, y: Item)
    ensures w + a + [x] + [y] == w + (a + [x, y])
  {
  }

  function BoolCode(lTrue: nat, lFalse: nat, lEnd: nat): seq<Item> {
    [Lab(lTrue), I(PushImm(1)), Jmp(lEnd), Lab(lFalse), I(PushImm(0)), Lab(lEnd)]
  }

  lemma BoolHalves(w: seq<Item>, lTrue: nat, lFalse: nat, lEnd: nat)
    ensures w + [Lab(lTrue), I(PushImm(1)), Jmp(lEnd)] + [Lab(lFalse), I(PushImm(0)), Lab(lEnd)]
         == w + BoolCode(lTrue, lFalse, lEnd)
  {
  }

  lemma TernGen(env: Env, e: Expr, n: nat)
    requires e.Tern?
    ensures var oc := GenCond(env, e.cond, n, n + 2);
            var ot := GenExpr(env, e.thn, oc.next);
            var of := GenExpr(env, e.els, ot.next);
            GenExpr(env, e, n) == Out(oc.code + ot.code + [Jmp(n + 1), Lab(n)] + of.code + [Lab(n + 1)], of.next)
    ensures var it, jt := InferType(env, e.thn), InferType(env, e.els);
            TypeOf(Cc, env, e) ==
              if it.None? || jt.None? || it.value.TRec? || jt.value.TRec? then None
              else if TypeOf(Cc, env, e.cond).None? || TypeOf(Cc, env, e.thn).None? || TypeOf(Cc, env, e.els).None? then None
              else Some(CommonType(it.value, jt.value))
  {
    hide InferType, CommonType;
  }

  lemma LogicGen(env: Env, e: Expr, lt: nat, lf: nat, n: nat)
    requires IsLogicExpr(e)
    ensures var o := GenLogical(env, e, n, n + 1, n + 2);
            GenExpr(env, e, n) ==
            Out(o.code + [Lab(n), I(PushImm(1)), Jmp(o.next), Lab(n + 1), I(PushImm(0)), Lab(o.next)], o.next + 1)
    ensures var ol := if e.bop.LogAnd? then GenLogical(env, e.lhs, n, lf, n + 1) else GenLogical(env, e.lhs, lt, n, n + 1);
            var or := GenLogical(env, e.rhs, lt, lf, ol.next);
            GenLogical(env, e, lt, lf, n) == Out(ol.code + [Lab(n)] + or.code, or.next)
    ensures TypeOf(Cc, env, e) ==
            if TypeOf(Cc, env, e.lhs).Some? && TypeOf(Cc, env, e.rhs).Some? then Some(TInt) else None
  {
  }

  lemma TestGen(env: Env, e: Expr, lt: nat, lf: nat, n: nat)
    requires !IsLogicExpr(e)
    ensures var o := GenExpr(env, e, n);
            && GenLogical(env, e, lt, lf, n) == Out(o.code + Code(TestTop) + [Jz(lf), Jmp(lt)], o.next)
            && GenCond(env, e, lf, n) == Out(o.code + Code(TestTop) + [Jz(lf)], o.next)
  {
  }

  function NearestCont(bs: seq<Target>): Option<nat> {
    if bs == [] then None
    else if bs[|bs| - 1].cont.Some? then bs[|bs| - 1].cont
    else NearestCont(bs[..|bs| - 1])
  }

  lemma PushedTarget(bs: seq<Target>, t: Target)
    ensures NearestCont(bs + [t]) == if t.cont.Some? then t.cont else NearestCont(bs)
  {
    assert (bs + [t])[..|bs|] == bs;
  }

  ghost function ElseGen(cx: Ctx, f: Option<Stmt>, n: nat, j: Jumps, intRet: bool): Out {
    match f case Some(e) => CcStmt.GenStmt(cx, e, n, j, intRet) case None => Out([], n)
  }

  // ----- the scope only grows inside a statement -----

  ghost predicate Extends(cx: Ctx, cx': Ctx) {
    && cx.env.locals <= cx'.env.locals
    && cx'.env.globals == cx.env.globals && cx'.env.records == cx.env.records
  }

  lemma {:induction false} CtxGrows(cx: Ctx, s: Stmt)
    ensures Extends(cx, CtxAfter(cx, s))
    decreases s, 1
  {
    match s
    case If(_, t, f) =>
      CtxGrows(cx, t);
      if f.Some? { CtxGrows(CtxAfter(cx, t), f.value); }
    case While(_, b) => CtxGrows(cx, b);
    case Do(b, _) => CtxGrows(cx, b);
    case Switch(_, items) => CtxGrowsItems(cx.(off := TempSlot(cx)), items);
    case _ =>
  }

  lemma {:induction false} CtxGrowsItems(cx: Ctx, items: seq<SwItem>)
    ensures Extends(cx, CtxAfterItems(cx, items))
    decreases items, 0
  {
    if items != [] {
      CtxGrowsItem(cx, items[0]);
      CtxGrowsItems(CtxAfterItem(cx, items[0]), items[1..]);
    }
  }

  lemma {:induction false} CtxGrowsItem(cx: Ctx, it: SwItem)
    ensures Extends(cx, CtxAfterItem(cx, it))
    decreases it, 2
  {
    match it
    case Body(s) => CtxGrows(cx, s);
    case _ =>
  }

  lemma {:induction false} CtxGrowsAll(cx: Ctx, ss: seq<Stmt>)
    ensures Extends(cx, CtxAfterAll(cx, ss))
    decreases ss, 0
  {
    if ss != [] {
      CtxGrows(cx, ss[0]);
      CtxGrowsAll(CtxAfter(cx, ss[0]), ss[1..]);
    }
  }

  lemma CtxGrowsFor(cx: Ctx, s: Stmt)
    requires s.For?
    ensures var cx1 := match s.start case Some(d) => CtxAfter(cx, d) case None => cx;
            Extends(cx, cx1) && Extends(cx, CtxAfter(cx1, s.loop)) && CtxAfter(cx, s) == CtxAfter(cx1, s.loop).(env := cx.env)
  {
    if s.start.Some? { CtxGrows(cx, s.start.value); }
    CtxGrows(match s.start case Some(d) => CtxAfter(cx, d) case None => cx, s.loop);
  }

  // ----- what `gen_stmt` appends, one form at a time -----

  function UntilCode(env: Env, c: Expr, lTop: nat, lEnd: nat, n: nat): seq<Item> {
    GenCond(env, c, n, n + 1).code + [Jmp(lTop), Lab(n), Lab(lEnd)]
  }

  /** The comparisons after a switch body. */
  function ChooseCode(temp: Word, tab: Table, lDispatch: nat, lEnd: nat): seq<Item> {
    [Jmp(lEnd), Lab(lDispatch)] + Dispatch(temp, tab.cases)
    + [Jmp(match tab.dflt case Some(l) => l case None => lEnd), Lab(lEnd)]
  }

  lemma CatThree(w: seq<Item>, a: seq<Item>, x: Item, y: Item, z: Item)
    ensures w + a + [x, y] + [z] == w + (a + [x, y, z])
  {
  }

  ghost function ArmsGen(cx: Ctx, s: Stmt, lFalse: nat, lEnd: nat, n: nat, j: Jumps, ir: bool): Out
    requires s.If?
  {
    var ot := GenStmt(cx, s.thn, n, j, ir);
    var of := ElseGen(CtxAfter(cx, s.thn), s.els, ot.next, j, ir);
    Out(ot.code + [Jmp(lEnd), Lab(lFalse)] + of.code + [Lab(lEnd)], of.next)
  }

  ghost function ArmsCtx(cx: Ctx, s: Stmt): Ctx
    requires s.If?
  {
    match s.els case Some(e) => CtxAfter(CtxAfter(cx, s.thn), e) case None => CtxAfter(cx, s.thn)
  }

  ghost predicate ArmsAccepted(cx: Ctx, s: Stmt, j: Jumps)
    requires s.If?
  {
    && Accepts(cx, s.thn, j.brk.Some?, j.cont.Some?)
    && (s.els.Some? ==> Accepts(CtxAfter(cx, s.thn), s.els.value, j.brk.Some?, j.cont.Some?))
  }

  lemma IfGen(cx: Ctx, s: Stmt, n: nat, j: Jumps, ir: bool)
    requires s.If? && Grammatical(s)
    ensures var oc := GenCond(cx.env, s.cond, n, n + 2);
            var oa := ArmsGen(cx, s, n, n + 1, oc.next, j, ir);
            GenStmt(cx, s, n, j, ir) == Out(oc.code + oa.code, oa.next)
    ensures Accepts(cx, s, j.brk.Some?, j.cont.Some?) <==> TypeOf(Cc, cx.env, s.cond).Some? && ArmsAccepted(cx, s, j)
    ensures CtxAfter(cx, s) == ArmsCtx(cx, s)
  {
    hide GenCond, TypeOf;
    var oc := GenCond(cx.env, s.cond, n, n + 2);
    var ot := GenStmt(cx, s.thn, oc.next, j, ir);
    var of := ElseGen(CtxAfter(cx, s.thn), s.els, ot.next, j, ir);
    CatFive(oc.code, ot.code, [Jmp(n + 1), Lab(n)], of.code, [Lab(n + 1)]);
  }

  lemma CatFive(a: seq<Item>, b: seq<Item>, c: seq<Item>, d: seq<Item>, e: seq<Item>)
    ensures a + b + c + d + e == a + (b + c + d + e)
  {
  }

  lemma WhileGen(cx: Ctx, s: Stmt, n: nat, j: Jumps, ir: bool)
    requires s.While? && Grammatical(s)
    ensures var oc := GenCond(cx.env, s.cond, n + 1, n + 2);
            var ob := GenStmt(cx, s.loop, oc.next, Jumps(Some(n + 1), Some(n), j.epi), ir);
            GenStmt(cx, s, n, j, ir) == Out([Lab(n)] + oc.code + ob.code + [] + [] + [Jmp(n), Lab(n + 1)], ob.next)
    ensures Accepts(cx, s, j.brk.Some?, j.cont.Some?) <==> TypeOf(Cc, cx.env, s.cond).Some? && Accepts(cx, s.loop, true, true)
    ensures CtxAfter(cx, s) == CtxAfter(cx, s.loop)
  {
    hide GenCond, TypeOf;
    var lp := Loop(cx, Some(s.cond), s.loop, None, n, n + 1, n, n + 2, false, j);
    assert GenStmt(cx, s, n, j, ir) == Out(LoopCode(lp, ir), PostCode(lp, ir).next);
  }

  lemma DoGen(cx: Ctx, s: Stmt, n: nat, j: Jumps, ir: bool)
    requires s.Do? && Grammatical(s)
    ensures var ob := GenStmt(cx, s.loop, n + 3, Jumps(Some(n + 2), Some(n + 1), j.epi), ir);
            var oc := GenCond(CtxAfter(cx, s.loop).env, s.cond, ob.next, ob.next + 1);
            GenStmt(cx, s, n, j, ir) == Out([Lab(n)] + ob.code + [Lab(n + 1)] + oc.code + [Jmp(n), Lab(ob.next), Lab(n + 2)], oc.next)
    ensures Accepts(cx, s, j.brk.Some?, j.cont.Some?) <==>
              Accepts(cx, s.loop, true, true) && TypeOf(Cc, CtxAfter(cx, s.loop).env, s.cond).Some?
    ensures CtxAfter(cx, s) == CtxAfter(cx, s.loop)
  {
    hide GenCond, TypeOf;
  }

  lemma ForGen(cx: Ctx, s: Stmt, n: nat, j: Jumps, ir: bool)
    requires s.For? && Grammatical(s)
    ensures var lp := ForLoop(cx, s, n, j, ir);
            GenStmt(cx, s, n, j, ir)
            == Out((match s.start case Some(d) => GenStmt(cx, d, n, j, ir).code case None => []) + LoopCode(lp, ir), PostCode(lp, ir).next)
    ensures Accepts(cx, s, j.brk.Some?, j.cont.Some?) <==>
              var cx1 := match s.start case Some(d) => CtxAfter(cx, d) case None => cx;
              && (s.start.Some? ==> Accepts(cx, s.start.value, j.brk.Some?, j.cont.Some?))
              && TypedOpt(cx1, s.test) && Accepts(cx1, s.loop, true, true) && TypedOpt(CtxAfter(cx1, s.loop), s.post)
  {
    hide GenCond, TypeOf, LoopCode, PostCode, CtxAfter;
    match s.start
    case None =>
    case Some(d) =>
      match d {
        case ExprS(_) =>
        case Decl(_, _, _) =>
      }
  }

  lemma SwitchGen(cx: Ctx, s: Stmt, n: nat, j: Jumps, ir: bool)
    requires s.Switch?
    ensures var oc := GenExpr(cx.env, s.cond, n);
            var temp, cx1, j1 := Wrap(TempSlot(cx)), cx.(off := TempSlot(cx)), Jumps(Some(oc.next + 1), j.cont, j.epi);
            var ob, tab := GenItems(cx1, s.items, oc.next + 2, j1, ir), TableOf(cx1, s.items, oc.next + 2, j1, ir);
            GenStmt(cx, s, n, j, ir)
            == Out(oc.code + [I(PopEax), I(StoreEbpEax(temp)), Jmp(oc.next)] + ob.code
                   + ChooseCode(temp, tab, oc.next, oc.next + 1), ob.next)
    ensures Accepts(cx, s, j.brk.Some?, j.cont.Some?)
        <==> TypeOf(Cc, cx.env, s.cond).Some? && AcceptsItems(cx.(off := TempSlot(cx)), s.items, j.cont.Some?)
    ensures CtxAfter(cx, s) == CtxAfterItems(cx.(off := TempSlot(cx)), s.items)
  {
    hide GenExpr, TypeOf, GenItems, TableOf, Dispatch, AcceptsItems, CtxAfterItems;
    var oc := GenExpr(cx.env, s.cond, n);
    var temp, cx1, j1 := Wrap(TempSlot(cx)), cx.(off := TempSlot(cx)), Jumps(Some(oc.next + 1), j.cont, j.epi);
    var ob, tab := GenItems(cx1, s.items, oc.next + 2, j1, ir), TableOf(cx1, s.items, oc.next + 2, j1, ir);
    var last := match tab.dflt case Some(l) => l case None => oc.next + 1;
    Cat3(oc.code + [I(PopEax), I(StoreEbpEax(temp)), Jmp(oc.next)] + ob.code,
         [Jmp(oc.next + 1), Lab(oc.next)], Dispatch(temp, tab.cases), [Jmp(last), Lab(oc.next + 1)]);
  }

  /** The case table after one more entry of the body. */
  function Recorded(tab: Table, it: SwItem, l: nat): Table {
    match it
    case Case(e) => tab.(cases := tab.cases + [(match EvalConst(e) case Some(v) => v case None => 0, l)])
    case Default => tab.(dflt := Some(l))
    case Body(_) => tab
  }

  /** What is recorded already, followed by what the rest will record. */
  function Joined(tab: Table, rest: Table): Table {
    Table(tab.cases + rest.cases, if rest.dflt.Some? then rest.dflt else tab.dflt)
  }

  lemma JoinedNone(tab: Table)
    ensures Joined(tab, Table([], None)) == tab
  {
    assert tab.cases + [] == tab.cases;
  }

  lemma TableNext(tab: Table, cx: Ctx, its: seq<SwItem>, n: nat, j: Jumps, ir: bool)
    requires its != []
    ensures var o := GenItem(cx, its[0], n, j, ir);
            Joined(tab, TableOf(cx, its, n, j, ir))
            == Joined(Recorded(tab, its[0], n), TableOf(CtxAfterItem(cx, its[0]), its[1..], o.next, j, ir))
  {
    hide GenItem, CtxAfterItem, EvalConst;
    var o := GenItem(cx, its[0], n, j, ir);
    var rest := TableOf(CtxAfterItem(cx, its[0]), its[1..], o.next, j, ir);
    if its[0].Case? {
      var c := [(match EvalConst(its[0].key) case Some(v) => v case None => 0, n)];
      assert tab.cases + (c + rest.cases) == tab.cases + c + rest.cases;
    }
  }

  // ----- function frames and fixups -----

  function EpiCode(l: nat): seq<Item> { [Jmp(l), Lab(l), I(Leave), I(Ret)] }

  lemma FunSeq(w: seq<Item>, pro: seq<Item>, b: seq<Item>, zero: seq<Item>, epi: seq<Item>)
    ensures w + pro + b + zero + epi == w + (pro + (b + zero + epi))
    ensures w + (pro + (b + zero + epi)) == w + (pro + b + zero + epi)
    ensures w + (pro + b + zero + epi) == w + pro + b + zero + epi
  {
  }

  lemma FunGen(w: seq<Item>, cx: Ctx, body: Stmt, n: nat, ir: bool)
    ensures var o := CcStmt.GenStmt(cx, body, n + 1, Jumps(None, None, n), ir);
            var size := -CtxAfter(cx, body).off;
            var f := CcStmt.GenFun(cx, body, n, ir);
            && f.next == o.next
            && w + f.code == w + [I(PushEbp), I(MovEbpEsp), I(SubEspImm(Wrap(if size < 0 then 0 else size)))] + o.code
                             + (if ir then [I(MovEaxImm(0))] else []) + EpiCode(n)
  {
    hide CcStmt.GenStmt, CtxAfter, Wrap;
    var o := CcStmt.GenStmt(cx, body, n + 1, Jumps(None, None, n), ir);
    var size := -CtxAfter(cx, body).off;
    var pro := [I(PushEbp), I(MovEbpEsp), I(SubEspImm(Wrap(if size < 0 then 0 else size)))];
    var zero := if ir then [I(MovEaxImm(0))] else [];
    FunSeq(w, pro, o.code, zero, EpiCode(n));
    assert CcStmt.GenFun(cx, body, n, ir).code == pro + o.code + zero + EpiCode(n);
  }

  lemma ProSizes(size: Word)
    ensures ItemSize(I(PushEbp)) == 1 && ItemSize(I(MovEbpEsp)) == 2 && ItemSize(I(SubEspImm(size))) == 6
    ensures RawItem(I(SubEspImm(size))) == [0x81, 0xEC] + Bytes4(size)
  {
    hide Bytes4;
  }

  lemma FrameOffsets(w: seq<Item>, rest: seq<Item>)
    ensures var all := w + ([I(PushEbp), I(MovEbpEsp), I(SubEspImm(0))] + rest);
            && Offset(all, |w| + 2) == Offset(w, |w|) + 3 && Offset(all, |w| + 3) == Offset(w, |w|) + 9
  {
    hide Offset, ItemSize;
    var all := w + ([I(PushEbp), I(MovEbpEsp), I(SubEspImm(0))] + rest);
    assert all[..|w|] == w;
    OffsetPrefix(all, |w|, |w|);
    assert all[|w|] == I(PushEbp) && all[|w| + 1] == I(MovEbpEsp) && all[|w| + 2] == I(SubEspImm(0));
    ProSizes(0);
    OffsetNext(all, |w|);
    OffsetNext(all, |w| + 1);
    OffsetNext(all, |w| + 2);
  }

  lemma SetFrameItems(items: seq<Item>, w: seq<Item>, rest: seq<Item>, size: Word)
    requires items == w + ([I(PushEbp), I(MovEbpEsp), I(SubEspImm(0))] + rest)
    ensures items[|w| + 2 := I(SubEspImm(size))] == w + ([I(PushEbp), I(MovEbpEsp), I(SubEspImm(size))] + rest)
  {
  }

  /** The bytes, labels and places of code whose frame size is filled in. */
  lemma SetFrameBytes(items: seq<Item>, w: seq<Item>, rest: seq<Item>, size: Word)
    requires items == w + ([I(PushEbp), I(MovEbpEsp), I(SubEspImm(0))] + rest)
    ensures var k, p := |w| + 2, Offset(w, |w|) + 5;
            var upd := items[k := I(SubEspImm(size))];
            && p + 4 <= |RawCode(items)| && RawCode(upd) == Patch4(RawCode(items), p, size)
            && LabelMap(upd) == LabelMap(items) && Fixes(upd, true) == Fixes(items, true) && Fixes(upd, false) == Fixes(items, false)
  {
    hide RawCode, LabelMap, Fixes, Offset, Patch4, RawItem, ItemSize, Bytes4, HasAt;
    var k, it := |w| + 2, I(SubEspImm(size));
    FrameOffsets(w, rest);
    ProSizes(0);
    ProSizes(size);
    assert items[k] == I(SubEspImm(0));
    ReplaceRaw(items, k, it);
    ReplaceLabels(items, k, it);
    ReplaceFixes(items, k, it, true);
    ReplaceFixes(items, k, it, false);
    RawAt(items, k);
    FramePatch(RawCode(items), Offset(items, k), size);
  }

  /** Patching the immediate is replacing the instruction. */
  lemma FramePatch(s: seq<Byte>, p: nat, v: Word)
    requires HasAt(s, p, [0x81, 0xEC] + Bytes4(0))
    ensures Patch4(s, p + 2, v) == s[..p] + ([0x81, 0xEC] + Bytes4(v)) + s[p + 6..]
  {
    hide Bytes4;
    HasTail(s, p, [0x81, 0xEC], Bytes4(0));
    var head := [0x81, 0xEC];
    assert s[p + 0] == head[0] && s[p + 1] == head[1];
    assert Patch4(s, p + 2, v) == s[..p + 2] + Bytes4(v) + s[p + 6..];
    assert s[..p + 2] == s[..p] + head;
  }

  lemma JumpSites(items: seq<Item>)
    ensures Fields(items, Picks(items, true))
    ensures InBounds(RawCode(items), SitesOf(items, Picks(items, true)))
  {
    assert Distinct(Picks(items, true));
    SitesApart(items, Picks(items, true));
  }

  lemma PatchNone(s: seq<Byte>)
    ensures PatchAll(s, []) == s
  {
  }

  lemma PatchOne(s: seq<Byte>, x: Patching.Site)
    requires x.pos + 4 <= |s|
    ensures InBounds(s, [x]) && PatchAll(s, [x]) == Patch4(s, x.pos, x.val)
  {
    hide Patch4;
    assert [x][1..] == [];
  }

  lemma BoundsTake(s: seq<Byte>, sites: seq<Patching.Site>, i: nat)
    requires InBounds(s, sites) && i <= |sites|
    ensures InBounds(s, sites[..i])
  {
  }

  lemma PatchNext(s: seq<Byte>, sites: seq<Patching.Site>, i: nat)
    requires InBounds(s, sites) && i < |sites|
    ensures InBounds(s, sites[..i]) && InBounds(s, sites[..i + 1])
    ensures sites[i].pos + 4 <= |s|
    ensures PatchAll(s, sites[..i + 1]) == Patch4(PatchAll(s, sites[..i]), sites[i].pos, sites[i].val)
  {
    hide InBounds, PatchAll, Patch4;
    BoundsTake(s, sites, i + 1);
    TakeNext(sites, i);
    PatchSnoc(s, sites[..i], sites[i]);
  }

  lemma TakeNext<A>(s: seq<A>, i: nat)
    requires i < |s|
    ensures s[..i + 1] == s[..i] + [s[i]]
  {
  }

  lemma PatchSnoc(s: seq<Byte>, sites: seq<Patching.Site>, x: Patching.Site)
    requires InBounds(s, sites + [x])
    ensures InBounds(s, sites) && x.pos + 4 <= |s|
    ensures PatchAll(s, sites + [x]) == Patch4(PatchAll(s, sites), x.pos, x.val)
  {
    BoundsAt(s, sites + [x], |sites|);
    hide InBounds, PatchAll, Patch4;
    PatchCat(s, sites, [x]);
    PatchOne(PatchAll(s, sites), x);
  }

  lemma BoundsAt(s: seq<Byte>, sites: seq<Patching.Site>, i: nat)
    requires InBounds(s, sites) && i < |sites|
    ensures sites[i].pos + 4 <= |s|
  {
  }

  /** The fixup of a jump whose label is set once holds the right distance. */
  lemma FixupSite(items: seq<Item>, i: nat)
    requires i < |Fixes(items, true)|
    ensures Fixes(items, true)[i].pos + 4 <= |RawCode(items)|
    ensures |SitesOf(items, Picks(items, true))| == |Fixes(items, true)|
    ensures var f, m := Fixes(items, true)[i], LabelMap(items);
            SitesOf(items, Picks(items, true))[i].pos == f.pos
    ensures UniqueLabels(items) && Closed(items) ==>
              var f, m := Fixes(items, true)[i], LabelMap(items);
              f.what in m && SitesOf(items, Picks(items, true))[i].val == Wrap(m[f.what] - (f.pos + 4))
  {
    hide LabelMap, RawCode, UniqueLabels;
    var k := Picks(items, true)[i];
    SiteInside(items, k);
    if UniqueLabels(items) && Closed(items) {
      LabelMapFinds(items, Find(items, items[k].l));
    }
  }

  /** A jump to a label never placed is measured from zero. */
  function Distance(labels: map<nat, nat>, f: Fix): Word {
    Wrap((if f.what in labels then labels[f.what] else 0) - (f.pos + 4))
  }

  ghost predicate FixedUpTo(items: seq<Item>, s: seq<Byte>, i: nat) {
    && |s| == |RawCode(items)| && i <= |Fixes(items, true)|
    && (UniqueLabels(items) && Closed(items) ==>
          && Fields(items, Picks(items, true))
          && var sites := SitesOf(items, Picks(items, true));
             InBounds(RawCode(items), sites[..i]) && s == PatchAll(RawCode(items), sites[..i]))
  }

  lemma FixedNone(items: seq<Item>)
    ensures FixedUpTo(items, RawCode(items), 0)
  {
    JumpSites(items);
    hide RawCode, Picks, LabelMap, SitesOf, PatchAll, UniqueLabels, Closed, Fixes;
    PatchNone(RawCode(items));
    assert SitesOf(items, Picks(items, true))[..0] == [];
  }

  lemma FixedNext(items: seq<Item>, s: seq<Byte>, i: nat)
    requires FixedUpTo(items, s, i) && i < |Fixes(items, true)|
    ensures var f := Fixes(items, true)[i];
            f.pos + 4 <= |s| && FixedUpTo(items, Patch4(s, f.pos, Distance(LabelMap(items), f)), i + 1)
  {
    JumpSites(items);
    hide RawCode, Picks, LabelMap, SitesOf, PatchAll, UniqueLabels, Closed, Fixes, InBounds, Patch4, Fields;
    FixupSite(items, i);
    PatchNext(RawCode(items), SitesOf(items, Picks(items, true)), i);
  }

  lemma FixedEnd(items: seq<Item>, s: seq<Byte>)
    requires FixedUpTo(items, s, |Fixes(items, true)|)
    ensures |s| == |RawCode(items)|
    ensures UniqueLabels(items) && Closed(items) ==>
              && Fields(items, Picks(items, true)) && InBounds(RawCode(items), SitesOf(items, Picks(items, true)))
              && s == PatchAll(RawCode(items), SitesOf(items, Picks(items, true)))
  {
    JumpSites(items);
    hide RawCode, Picks, LabelMap, PatchAll, UniqueLabels, Closed, InBounds, Patch4, Fields;
    var sites := SitesOf(items, Picks(items, true));
    assert sites[..|sites|] == sites;
  }

  // ----- global addresses -----

  ghost function AllSites(items: seq<Item>): (ss: seq<Patching.Site>)
    ensures InBounds(RawCode(items), ss) && |ss| == |Picks(items, true)| + |Picks(items, false)|
    ensures Fields(items, Picks(items, true) + Picks(items, false))
  {
    AllFields(items);
    SitesOf(items, Picks(items, true) + Picks(items, false))
  }

  lemma AllFields(items: seq<Item>)
    ensures var ks := Picks(items, true) + Picks(items, false);
            Fields(items, ks) && InBounds(RawCode(items), SitesOf(items, ks))
  {
    var ks := Picks(items, true) + Picks(items, false);
    assert Fields(items, ks);
    hide RawCode, Picks, Fields;
    PicksDistinct(items);
    SitesApart(items, ks);
  }

  /** The jumps come first among all places. */
  lemma AllJumps(items: seq<Item>)
    ensures Fields(items, Picks(items, true)) && |Picks(items, true)| <= |AllSites(items)|
    ensures AllSites(items)[..|Picks(items, true)|] == SitesOf(items, Picks(items, true))
  {
    JumpSites(items);
    hide RawCode, Picks, InBounds, SiteAt, Fields;
    var js, gs := Picks(items, true), Picks(items, false);
    assert forall i :: 0 <= i < |js| ==> (js + gs)[i] == js[i];
  }

  /** The place of a global's address and what belongs there. */
  lemma GlobalSite(items: seq<Item>, i: nat)
    requires i < |Fixes(items, false)|
    ensures |Fixes(items, false)| == |Picks(items, false)|
    ensures var x := AllSites(items)[|Picks(items, true)| + i];
            x.pos == Fixes(items, false)[i].pos && x.val == Wrap(Fixes(items, false)[i].what)
    ensures Fixes(items, false)[i].pos + 4 <= |RawCode(items)|
  {
    hide RawCode, InBounds, Offset;
    var js, gs := Picks(items, true), Picks(items, false);
    assert IsGlob(items[gs[i]]);
    hide Picks, Final;
    assert (js + gs)[|js| + i] == gs[i];
    assert AllSites(items)[|js| + i] == SiteAt(items, gs[i]);
    assert Fixes(items, false)[i] == FixAt(items, gs[i]);
    hide AllSites, Fixes;
    SiteOfGlobal(items, gs[i]);
    SiteInside(items, gs[i]);
  }

  lemma SiteOfGlobal(items: seq<Item>, k: nat)
    requires k < |items| && IsGlob(items[k])
    ensures SiteAt(items, k).pos == FixAt(items, k).pos && SiteAt(items, k).val == Wrap(FixAt(items, k).what)
  {
    hide Offset;
  }

  ghost predicate GlobalsUpTo(items: seq<Item>, s: seq<Byte>, i: nat) {
    && |s| == |RawCode(items)| && i <= |Fixes(items, false)|
    && (UniqueLabels(items) && Closed(items) ==>
          && |Picks(items, true)| + i <= |AllSites(items)|
          && InBounds(RawCode(items), AllSites(items)[..|Picks(items, true)| + i])
          && s == PatchAll(RawCode(items), AllSites(items)[..|Picks(items, true)| + i]))
  }

  lemma GlobalsNone(items: seq<Item>, s: seq<Byte>)
    requires FixedUpTo(items, s, |Fixes(items, true)|)
    ensures GlobalsUpTo(items, s, 0)
  {
    hide RawCode, Picks, PatchAll, UniqueLabels, Closed, InBounds, AllSites, SitesOf, Fields;
    FixedEnd(items, s);
    AllJumps(items);
    assert AllSites(items)[..|Picks(items, true)| + 0] == AllSites(items)[..|Picks(items, true)|];
  }

  lemma GlobalsNext(items: seq<Item>, s: seq<Byte>, i: nat)
    requires GlobalsUpTo(items, s, i) && i < |Fixes(items, false)|
    ensures var f := Fixes(items, false)[i];
            f.pos + 4 <= |s| && GlobalsUpTo(items, Patch4(s, f.pos, Wrap(f.what)), i + 1)
  {
    hide RawCode, Picks, PatchAll, UniqueLabels, Closed, Fixes, InBounds, Patch4, AllSites, Fields, Wrap;
    GlobalSite(items, i);
    PatchNext(RawCode(items), AllSites(items), |Picks(items, true)| + i);
  }

  lemma GlobalsEnd(items: seq<Item>, s: seq<Byte>)
    requires GlobalsUpTo(items, s, |Fixes(items, false)|)
    ensures UniqueLabels(items) && Closed(items) ==> IsImage(s, items)
  {
    AllFields(items);
    hide RawCode, PatchAll, UniqueLabels, Closed, InBounds, Fields, IsImage, SitesOf, Picks;
    var sites := AllSites(items);
    assert sites[..|sites|] == sites;
    if UniqueLabels(items) && Closed(items) { PatchedImage(items, s); }
  }

  class Buffer {
    var code: seq<Byte>
    var labelsPos: map<nat, nat>
    var labelCount: nat
    var fixups: seq<Fix>
    var addrFix: seq<Fix>
    var breakStack: seq<Target>
    var locals: seq<Sym>
    var localOffset: int
    const globals: seq<Sym>
    const records: seq<Record>
    /** The labelled code emitted so far. */
    ghost var items: seq<Item>

    ghost predicate Valid()
      reads this`code, this`labelsPos, this`fixups, this`addrFix, this`items
    {
      && code == RawCode(items) && labelsPos == LabelMap(items)
      && fixups == Fixes(items, true) && addrFix == Fixes(items, false)
    }

    /** Valid apart from the bytes, which patching changes. */
    ghost predicate Tabled()
      reads this`labelsPos, this`fixups, this`addrFix, this`items
    {
      labelsPos == LabelMap(items) && fixups == Fixes(items, true) && addrFix == Fixes(items, false)
    }

    constructor (globals: seq<Sym>, records: seq<Record>)
      ensures Valid() && items == [] && labelCount == 0 && breakStack == [] && locals == [] && localOffset == 0
      ensures this.globals == globals && this.records == records
    {
      this.globals, this.records := globals, records;
      code, labelsPos, labelCount, fixups, addrFix := [], map[], 0, [], [];
      breakStack, locals, localOffset, items := [], [], 0, [];
    }

    // ----- emission -----

    method NewLabel() returns (l: nat)
      modifies this`labelCount
      ensures l == old(labelCount) && labelCount == l + 1
    {
      l := labelCount;
      labelCount := labelCount + 1;
    }

    method SetLabel(l: nat)
      requires Valid()
      modifies this`labelsPos, this`items
      ensures Valid() && items == old(items) + [Lab(l)]
    {
      hide RawCode, LabelMap, Fixes, Enc;
      AppendItem(items, Lab(l));
      assert RawCode(items) + [] == RawCode(items) && Fixes(items, true) + [] == Fixes(items, true)
          && Fixes(items, false) + [] == Fixes(items, false);
      labelsPos := labelsPos[l := |code|];
      items := items + [Lab(l)];
    }

    method Jump(l: nat, ifZero: bool)
      requires Valid()
      modifies this`code, this`fixups, this`items
      ensures Valid() && items == old(items) + [if ifZero then Jz(l) else Jmp(l)]
    {
      hide RawCode, LabelMap, Fixes, Enc;
      var it := if ifZero then Jz(l) else Jmp(l);
      AppendItem(items, it);
      assert Fixes(items, false) + [] == Fixes(items, false);
      code := code + if ifZero then [0x0F, 0x84] else [0xE9];
      fixups := fixups + [Fix(|code|, l)];
      code := code + [0, 0, 0, 0];
      items := items + [it];
    }

    /** A jump followed by a label. */
    method JumpLabel(l: nat, after: nat)
      requires Valid()
      modifies this`code, this`fixups, this`labelsPos, this`items
      ensures Valid() && items == old(items) + [Jmp(l), Lab(after)]
    {
      hide RawCode, LabelMap, Fixes;
      Jump(l, false);
      SetLabel(after);
      assert old(items) + [Jmp(l)] + [Lab(after)] == old(items) + [Jmp(l), Lab(after)];
    }

    method Emit(i: Instr)
      requires Valid()
      modifies this`code, this`addrFix, this`items
      ensures Valid() && items == old(items) + [I(i)]
    {
      hide RawCode, LabelMap, Fixes, Enc;
      AppendItem(items, I(i));
      assert Fixes(items, true) + [] == Fixes(items, true) && Fixes(items, false) + [] == Fixes(items, false);
      if i.MovEaxGlob? {
        code := code + [0xB8, 0, 0, 0, 0];
        addrFix := addrFix + [Fix(|code| - 4, i.g)];
      } else {
        code := code + Enc(i);
      }
      items := items + [I(i)];
    }

    method EmitAll(ins: seq<Instr>)
      requires Valid()
      modifies this`code, this`addrFix, this`items
      ensures Valid() && items == old(items) + Code(ins)
    {
      hide RawCode, LabelMap, Fixes;
      assert items + Code(ins[..0]) == items;
      for k := 0 to |ins|
        invariant Valid() && items == old(items) + Code(ins[..k])
      {
        Emit(ins[k]);
        CodeNext(ins, k);
        Cat2(old(items), Code(ins[..k]), [I(ins[k])]);
      }
      assert ins[..|ins|] == ins;
    }

    // ----- expressions -----

    ghost predicate Appended(was: seq<Item>, o: Out)
      reads this
    {
      items == was + o.code && labelCount == o.next
    }

    /** `gen_addr`; None is the compiler stopping with an error. */
    method GenAddr(env: Env, e: Expr) returns (t: Option<Ty>)
      requires Valid()
      modifies this`code, this`labelsPos, this`labelCount, this`fixups, this`addrFix, this`items
      ensures Valid() && t == AddrType(Cc, env, e)
      ensures t.Some? ==> Appended(old(items), CcGen.GenAddr(env, e, old(labelCount)))
      decreases e, 0
    {
      hide Valid, RawCode, LabelMap, Fixes, InferType, Size;
      ghost var w := items;
      match e
      case Var(x) =>
        match Lookup(env, x) {
          case None => t := None;
          case Some(s) =>
            EmitAll(LoadAddr(s));
            t := Some(s.ty);
        }
      case Deref(p) =>
        var pt := GenExpr(env, p);
        t := PtrBase(pt);
      case Index(a, i) =>
        var at := GenExpr(env, a);
        if PtrBase(at).None? { return None; }
        var it := GenExpr(env, i);
        if it.None? { return None; }
        t := PtrBase(at);
        EmitAll(IndexTail(Size(env, t.value)));
        ghost var oa := CcGen.GenExpr(env, a, old(labelCount));
        Cat3(w, oa.code, CcGen.GenExpr(env, i, oa.next).code, Code(IndexTail(Size(env, t.value))));
      case Member(r, f, arrow) =>
        var rt;
        if arrow {
          var pt := GenExpr(env, r);
          rt := PtrBase(pt);
        } else {
          rt := GenAddr(env, r);
        }
        if rt.None? { return None; }
        var fd := FieldOf(env, rt.value, f);
        if fd.None? { return None; }
        EmitAll(MemberTail(fd.value.offset));
        ghost var o := if arrow then CcGen.GenExpr(env, r, old(labelCount)) else CcGen.GenAddr(env, r, old(labelCount));
        Cat2(w, o.code, Code(MemberTail(fd.value.offset)));
        t := Some(fd.value.ty);
      case _ => t := None;
    }

    /** `gen_expr`. */
    method GenExpr(env: Env, e: Expr) returns (t: Option<Ty>)
      requires Valid()
      modifies this`code, this`labelsPos, this`labelCount, this`fixups, this`addrFix, this`items
      ensures Valid() && t == TypeOf(Cc, env, e)
      ensures t.Some? ==> Appended(old(items), CcGen.GenExpr(env, e, old(labelCount)))
      decreases e, if IsLogicExpr(e) then 3 else 1
    {
      hide Valid, RawCode, LabelMap, Fixes, InferType, Size, BinTail, BinType, CommonType;
      ghost var w := items;
      match e
      case Num(v, _) =>
        Emit(PushImm(v));
        t := Some(TInt);
      case Var(_) | Deref(_) | Index(_, _) | Member(_, _, _) =>
        var at := GenAddr(env, e);
        if at.None? { return None; }
        t := LoadType(at.value, e.Deref?);
        if t.Some? && !at.value.TArray? {
          EmitAll(LoadFrom);
          Cat2(w, CcGen.GenAddr(env, e, old(labelCount)).code, Code(LoadFrom));
        }
      case AddrOf(x) =>
        var at := GenAddr(env, x);
        t := match at case Some(u) => Some(TPtr(u)) case None => None;
      case Assign(l, r) =>
        var lt := GenAddr(env, l);
        if lt.None? || !Scalar(lt.value) { return None; }
        var rt := GenExpr(env, r);
        if rt.None? { return None; }
        EmitAll(StoreTo);
        ghost var ol := CcGen.GenAddr(env, l, old(labelCount));
        Cat3(w, ol.code, CcGen.GenExpr(env, r, ol.next).code, Code(StoreTo));
        t := lt;
      case Tern(_, _, _) => t := GenTern(env, e);
      case Un(op, a) =>
        var at := GenExpr(env, a);
        if at.None? { return None; }
        EmitAll(UnTail(op));
        Cat2(w, CcGen.GenExpr(env, a, old(labelCount)).code, Code(UnTail(op)));
        t := Some(if !op.LogNot? && at.value.TUInt? then TUInt else TInt);
      case Bin(op, l, r) =>
        if IsLogic(op) {
          t := GenLogicValue(env, e);
        } else {
          var lt := GenExpr(env, l);
          if lt.None? { return None; }
          var rt := GenExpr(env, r);
          if rt.None? { return None; }
          if (op.Div? || op.Mod?) && r.Num? && r.v == 0 { return None; }
          t := BinType(Cc, op, Decay(lt.value), Decay(rt.value));
          if t.None? { return; }
          EmitAll(BinTail(env, op, Decay(lt.value), Decay(rt.value)));
          ghost var ol := CcGen.GenExpr(env, l, old(labelCount));
          Cat3(w, ol.code, CcGen.GenExpr(env, r, ol.next).code, Code(BinTail(env, op, Decay(lt.value), Decay(rt.value))));
        }
    }

    method GenTern(env: Env, e: Expr) returns (t: Option<Ty>)
      requires Valid()
      modifies this`code, this`labelsPos, this`labelCount, this`fixups, this`addrFix, this`items
      requires e.Tern?
      ensures Valid() && t == TypeOf(Cc, env, e)
      ensures t.Some? ==> Appended(old(items), CcGen.GenExpr(env, e, old(labelCount)))
      decreases e, 1, 0
    {
      hide Valid, RawCode, LabelMap, Fixes, InferType, CommonType, TypeOf, CcGen.GenExpr, CcGen.GenCond;
      TernGen(env, e, labelCount);
      ghost var w := items;
      var tt, tf := InferType(env, e.thn), InferType(env, e.els);
      if tt.None? || tf.None? || tt.value.TRec? || tf.value.TRec? { return None; }
      t := Some(CommonType(tt.value, tf.value));
      var lFalse := NewLabel();
      var lEnd := NewLabel();
      var ok := GenCond(env, e.cond, lFalse);
      if !ok { return None; }
      ghost var oc := CcGen.GenCond(env, e.cond, lFalse, old(labelCount) + 2);
      ghost var acc := oc.code;
      var rt := GenExpr(env, e.thn);
      if rt.None? { return None; }
      ghost var ot := CcGen.GenExpr(env, e.thn, oc.next);
      Cat2(w, acc, ot.code);
      acc := acc + ot.code;
      JumpLabel(lEnd, lFalse);
      Cat2(w, acc, [Jmp(lEnd), Lab(lFalse)]);
      acc := acc + [Jmp(lEnd), Lab(lFalse)];
      var rf := GenExpr(env, e.els);
      if rf.None? { return None; }
      ghost var of := CcGen.GenExpr(env, e.els, ot.next);
      Cat2(w, acc, of.code);
      acc := acc + of.code;
      SetLabel(lEnd);
      Cat2(w, acc, [Lab(lEnd)]);
    }

    /** Both outcomes of a logical expression as a pushed 0 or 1. */
    method EmitBool(lTrue: nat, lFalse: nat)
      requires Valid()
      modifies this`code, this`labelsPos, this`labelCount, this`fixups, this`addrFix, this`items
      ensures Valid() && labelCount == old(labelCount) + 1
      ensures items == old(items) + BoolCode(lTrue, lFalse, old(labelCount))
    {
      hide RawCode, LabelMap, Fixes;
      ghost var w := items;
      SetLabel(lTrue);
      Emit(PushImm(1));
      var lEnd := NewLabel();
      Jump(lEnd, false);
      ghost var half := items;
      SetLabel(lFalse);
      Emit(PushImm(0));
      SetLabel(lEnd);
      assert half == w + [Lab(lTrue), I(PushImm(1)), Jmp(lEnd)];
      assert items == half + [Lab(lFalse), I(PushImm(0)), Lab(lEnd)];
      BoolHalves(w, lTrue, lFalse, lEnd);
    }

    method GenLogicValue(env: Env, e: Expr) returns (t: Option<Ty>)
      requires Valid()
      modifies this`code, this`labelsPos, this`labelCount, this`fixups, this`addrFix, this`items
      requires IsLogicExpr(e)
      ensures Valid() && t == TypeOf(Cc, env, e)
      ensures t.Some? ==> Appended(old(items), CcGen.GenExpr(env, e, old(labelCount)))
      decreases e, 3, 0
    {
      hide Valid, RawCode, LabelMap, Fixes, TypeOf, CcGen.GenExpr, CcGen.GenLogical;
      LogicGen(env, e, 0, 0, labelCount);
      ghost var w := items;
      var lTrue := NewLabel();
      var lFalse := NewLabel();
      var ok := GenLogical(env, e, lTrue, lFalse);
      if !ok { return None; }
      ghost var o := CcGen.GenLogical(env, e, lTrue, lFalse, old(labelCount) + 2);
      EmitBool(lTrue, lFalse);
      Cat2(w, o.code, BoolCode(lTrue, lFalse, o.next));
      t := Some(TInt);
    }

    /** `gen_logical`. */
    method GenLogical(env: Env, e: Expr, lt: nat, lf: nat) returns (ok: bool)
      requires Valid()
      modifies this`code, this`labelsPos, this`labelCount, this`fixups, this`addrFix, this`items
      ensures Valid() && ok == TypeOf(Cc, env, e).Some?
      ensures ok ==> Appended(old(items), CcGen.GenLogical(env, e, lt, lf, old(labelCount)))
      decreases e, 2
    {
      hide Valid, RawCode, LabelMap, Fixes, TypeOf, CcGen.GenExpr, CcGen.GenLogical;
      ghost var w := items;
      if IsLogicExpr(e) {
        LogicGen(env, e, lt, lf, labelCount);
        var mid := NewLabel();
        if e.bop.LogAnd? {
          ok := GenLogical(env, e.lhs, mid, lf);
        } else {
          ok := GenLogical(env, e.lhs, lt, mid);
        }
        if !ok { return; }
        ghost var ol := if e.bop.LogAnd? then CcGen.GenLogical(env, e.lhs, mid, lf, mid + 1) else CcGen.GenLogical(env, e.lhs, lt, mid, mid + 1);
        SetLabel(mid);
        Cat2(w, ol.code, [Lab(mid)]);
        ok := GenLogical(env, e.rhs, lt, lf);
        if !ok { return; }
        Cat2(w, ol.code + [Lab(mid)], CcGen.GenLogical(env, e.rhs, lt, lf, ol.next).code);
      } else {
        TestGen(env, e, lt, lf, labelCount);
        var t := GenExpr(env, e);
        if t.None? { return false; }
        ghost var o := CcGen.GenExpr(env, e, old(labelCount));
        EmitAll(TestTop);
        Jump(lf, true);
        Jump(lt, false);
        Cat2(w, o.code, Code(TestTop));
        CatPair(w, o.code + Code(TestTop), Jz(lf), Jmp(lt));
        ok := true;
      }
    }

    /** `gen_cond`. */
    method GenCond(env: Env, e: Expr, lf: nat) returns (ok: bool)
      requires Valid()
      modifies this`code, this`labelsPos, this`labelCount, this`fixups, this`addrFix, this`items
      ensures Valid() && ok == TypeOf(Cc, env, e).Some?
      ensures ok ==> Appended(old(items), CcGen.GenCond(env, e, lf, old(labelCount)))
      decreases e, 4
    {
      hide Valid, RawCode, LabelMap, Fixes, BinType, InferType, CommonType;
      ghost var w := items;
      if IsLogicExpr(e) {
        var lTrue := NewLabel();
        ok := GenLogical(env, e, lTrue, lf);
        if !ok { return; }
        SetLabel(lTrue);
        Cat2(w, CcGen.GenLogical(env, e, lTrue, lf, lTrue + 1).code, [Lab(lTrue)]);
      } else {
        var t := GenExpr(env, e);
        if t.None? { return false; }
        EmitAll(TestTop);
        Jump(lf, true);
        Cat3(w, CcGen.GenExpr(env, e, old(labelCount)).code, Code(TestTop), [Jz(lf)]);
        ok := true;
      }
    }

    // ----- statements -----

    function Now(): Ctx
      reads this
    {
      Ctx(Env(locals, globals, records), localOffset)
    }

    function Targets(epi: nat): Jumps
      reads this
    {
      Jumps(if breakStack == [] then None else Some(breakStack[|breakStack| - 1].brk), NearestCont(breakStack), epi)
    }

    /** What an accepted statement leaves behind. */
    ghost predicate Grown(was: seq<Item>, outer: seq<Target>, o: Out, cx: Ctx)
      reads this
    {
      items == was + o.code && labelCount == o.next && Now() == cx && breakStack == outer
    }

    /** `gen_expr` then `add esp, 4`. */
    method GenDrop(e: Expr) returns (ok: bool)
      requires Valid()
      modifies this`code, this`labelsPos, this`labelCount, this`fixups, this`addrFix, this`items
      ensures Valid() && ok == TypeOf(Cc, Now().env, e).Some?
      ensures ok ==> Appended(old(items), CcStmt.GenDrop(Now().env, e, old(labelCount)))
    {
      hide Valid, RawCode, LabelMap, Fixes, TypeOf, CcGen.GenExpr;
      var t := GenExpr(Env(locals, globals, records), e);
      if t.None? { return false; }
      Emit(AddEspImm(4));
      Cat2(old(items), CcGen.GenExpr(Now().env, e, old(labelCount)).code, [I(AddEspImm(4))]);
      ok := true;
    }

    /** `add_local`. */
    method AddLocal(name: string, ty: Ty)
      modifies this`locals, this`localOffset
      ensures Now() == CcStmt.AddLocal(old(Now()), name, ty)
    {
      localOffset := localOffset - Size(Env(locals, globals, records), ty);
      localOffset := localOffset - localOffset % 4;
      locals := locals + [Sym(name, ty, Local(localOffset))];
    }

    /** `gen_stmt`. */
    method GenStmt(s: Stmt, epi: nat, intRet: bool) returns (ok: bool)
      requires Valid() && Grammatical(s)
      modifies this
      ensures Valid()
      ensures ok == old(Accepts(Now(), s, Targets(epi).brk.Some?, Targets(epi).cont.Some?))
      ensures ok ==> Grown(old(items), old(breakStack), CcStmt.GenStmt(old(Now()), s, old(labelCount), old(Targets(epi)), intRet), CtxAfter(old(Now()), s))
      decreases s, 2
    {
      hide Valid, RawCode, LabelMap, Fixes, TypeOf, CcGen.GenExpr, CcGen.GenCond, LoopCode, PostCode, Size;
      match s
      case ExprS(e) => ok := GenDrop(e);
      case Decl(x, t, i) =>
        AddLocal(x, t);
        ok := true;
        if i.Some? { ok := GenDrop(Assign(Var(x), i.value)); }
      case Block(ss) => ok := GenBlock(s, epi, intRet);
      case If(_, _, _) => ok := GenIf(s, epi, intRet);
      case While(_, _) => ok := GenWhile(s, epi, intRet);
      case Do(_, _) => ok := GenDo(s, epi, intRet);
      case For(_, _, _, _) => ok := GenFor(s, epi, intRet);
      case Switch(_, _) => ok := GenSwitch(s, epi, intRet);
      case Break =>
        ok := breakStack != [];
        if ok { Jump(breakStack[|breakStack| - 1].brk, false); }
      case Continue =>
        var l := FindContinue();
        ok := l.Some?;
        if ok { Jump(l.value, false); }
      case Return(_) => ok := GenReturn(s, epi, intRet);
    }

    /** The nearest entry that is a loop: `continue` skips switches. */
    method FindContinue() returns (l: Option<nat>)
      ensures l == NearestCont(breakStack)
    {
      var i := |breakStack|;
      assert breakStack[..i] == breakStack;
      while i > 0
        invariant 0 <= i <= |breakStack| && NearestCont(breakStack) == NearestCont(breakStack[..i])
      {
        i := i - 1;
        if breakStack[i].cont.Some? { return breakStack[i].cont; }
        assert breakStack[..i + 1][..i] == breakStack[..i];
      }
      l := None;
    }

    method GenReturn(s: Stmt, epi: nat, intRet: bool) returns (ok: bool)
      requires Valid() && Grammatical(s) && s.Return?
      modifies this
      ensures Valid()
      ensures ok == old(Accepts(Now(), s, Targets(epi).brk.Some?, Targets(epi).cont.Some?))
      ensures ok ==> Grown(old(items), old(breakStack), CcStmt.GenStmt(old(Now()), s, old(labelCount), old(Targets(epi)), intRet), CtxAfter(old(Now()), s))
      decreases s, 1
    {
      hide Valid, RawCode, LabelMap, Fixes, TypeOf, CcGen.GenExpr;
      match s.val
      case None =>
        if intRet { Emit(MovEaxImm(0)); }
        Jump(epi, false);
        ok := true;
      case Some(e) =>
        var t := GenExpr(Env(locals, globals, records), e);
        if t.None? { return false; }
        Emit(PopEax);
        Jump(epi, false);
        CatPair(old(items), CcGen.GenExpr(Now().env, e, old(labelCount)).code, I(PopEax), Jmp(epi));
        ok := true;
    }

    /** Names declared in the block go out of scope at its end; its slots stay. */
    method GenBlock(s: Stmt, epi: nat, intRet: bool) returns (ok: bool)
      requires Valid() && Grammatical(s) && s.Block?
      modifies this
      ensures Valid()
      ensures ok == old(Accepts(Now(), s, Targets(epi).brk.Some?, Targets(epi).cont.Some?))
      ensures ok ==> Grown(old(items), old(breakStack), CcStmt.GenStmt(old(Now()), s, old(labelCount), old(Targets(epi)), intRet), CtxAfter(old(Now()), s))
      decreases s, 1
    {
      hide RawCode, LabelMap, Fixes;
      var saved := |locals|;
      CtxGrowsAll(Now(), s.body);
      ok := GenAll(s.body, epi, intRet);
      if saved <= |locals| { locals := locals[..saved]; }
    }

    method GenAll(ss: seq<Stmt>, epi: nat, intRet: bool) returns (ok: bool)
      requires Valid() && GrammaticalAll(ss)
      modifies this
      ensures Valid()
      ensures ok == old(AcceptsAll(Now(), ss, Targets(epi).brk.Some?, Targets(epi).cont.Some?))
      ensures ok ==> Grown(old(items), old(breakStack), CcStmt.GenAll(old(Now()), ss, old(labelCount), old(Targets(epi)), intRet), CtxAfterAll(old(Now()), ss))
      decreases ss, 0
    {
      hide Valid, RawCode, LabelMap, Fixes, CcStmt.GenStmt, CtxAfter, Accepts;
      ghost var j := Targets(epi);
      ghost var whole := CcStmt.GenAll(Now(), ss, labelCount, j, intRet);
      ghost var acc: seq<Item> := [];
      assert items + acc == items;
      for k := 0 to |ss|
        invariant Valid() && GrammaticalAll(ss[k..])
        invariant items == old(items) + acc && breakStack == old(breakStack)
        invariant AcceptsAll(Now(), ss[k..], j.brk.Some?, j.cont.Some?) == AcceptsAll(old(Now()), ss, j.brk.Some?, j.cont.Some?)
        invariant CtxAfterAll(Now(), ss[k..]) == CtxAfterAll(old(Now()), ss)
        invariant whole == Out(acc + CcStmt.GenAll(Now(), ss[k..], labelCount, j, intRet).code,
                               CcStmt.GenAll(Now(), ss[k..], labelCount, j, intRet).next)
      {
        assert ss[k..][0] == ss[k] && ss[k..][1..] == ss[k + 1..];
        ghost var o := CcStmt.GenStmt(Now(), ss[k], labelCount, j, intRet);
        ghost var o2 := CcStmt.GenAll(CtxAfter(Now(), ss[k]), ss[k + 1..], o.next, j, intRet);
        ok := GenStmt(ss[k], epi, intRet);
        if !ok { return; }
        Cat2(old(items), acc, o.code);
        Cat2(acc, o.code, o2.code);
        acc := acc + o.code;
      }
      ok := true;
      assert acc + [] == acc;
    }

    method GenIf(s: Stmt, epi: nat, intRet: bool) returns (ok: bool)
      requires Valid() && Grammatical(s) && s.If?
      modifies this
      ensures Valid()
      ensures ok == old(Accepts(Now(), s, Targets(epi).brk.Some?, Targets(epi).cont.Some?))
      ensures ok ==> Grown(old(items), old(breakStack), CcStmt.GenStmt(old(Now()), s, old(labelCount), old(Targets(epi)), intRet), CtxAfter(old(Now()), s))
      decreases s, 1
    {
      hide Valid, RawCode, LabelMap, Fixes, TypeOf, CcGen.GenExpr, CcGen.GenCond, CcStmt.GenStmt, CtxAfter, Accepts, NearestCont;
      assert Grammatical(s.thn) && (s.els.Some? ==> Grammatical(s.els.value));
      IfGen(Now(), s, labelCount, Targets(epi), intRet);
      ghost var w, cx := items, Now();
      var lFalse := NewLabel();
      var lEnd := NewLabel();
      ok := GenCond(Env(locals, globals, records), s.cond, lFalse);
      if !ok { return; }
      ok := GenArms(s, lFalse, lEnd, epi, intRet);
      if !ok { return; }
      Cat2(w, CcGen.GenCond(cx.env, s.cond, lFalse, lFalse + 2).code,
           ArmsGen(cx, s, lFalse, lEnd, CcGen.GenCond(cx.env, s.cond, lFalse, lFalse + 2).next, old(Targets(epi)), intRet).code);
    }

    /** Both arms of an `if`, its test done. */
    method GenArms(s: Stmt, lFalse: nat, lEnd: nat, epi: nat, intRet: bool) returns (ok: bool)
      requires Valid() && s.If? && Grammatical(s.thn) && (s.els.Some? ==> Grammatical(s.els.value))
      modifies this
      ensures Valid()
      ensures ok == old(ArmsAccepted(Now(), s, Targets(epi)))
      ensures ok ==> Grown(old(items), old(breakStack), ArmsGen(old(Now()), s, lFalse, lEnd, old(labelCount), old(Targets(epi)), intRet), ArmsCtx(old(Now()), s))
      decreases s, 0
    {
      hide Valid, RawCode, LabelMap, Fixes, CcStmt.GenStmt, CtxAfter, Accepts, NearestCont, ElseGen, Grammatical;
      ghost var w, cx, j := items, Now(), Targets(epi);
      ok := GenStmt(s.thn, epi, intRet);
      if !ok { return; }
      ghost var ot := CcStmt.GenStmt(cx, s.thn, old(labelCount), j, intRet);
      JumpLabel(lEnd, lFalse);
      Cat2(w, ot.code, [Jmp(lEnd), Lab(lFalse)]);
      ghost var acc := ot.code + [Jmp(lEnd), Lab(lFalse)];
      ghost var of := ElseGen(CtxAfter(cx, s.thn), s.els, ot.next, j, intRet);
      ok := GenElse(s.els, epi, intRet);
      if !ok { return; }
      Cat2(w, acc, of.code);
      acc := acc + of.code;
      SetLabel(lEnd);
      Cat2(w, acc, [Lab(lEnd)]);
    }

    method GenWhile(s: Stmt, epi: nat, intRet: bool) returns (ok: bool)
      requires Valid() && Grammatical(s) && s.While?
      modifies this
      ensures Valid()
      ensures ok == old(Accepts(Now(), s, Targets(epi).brk.Some?, Targets(epi).cont.Some?))
      ensures ok ==> Grown(old(items), old(breakStack), CcStmt.GenStmt(old(Now()), s, old(labelCount), old(Targets(epi)), intRet), CtxAfter(old(Now()), s))
      decreases s, 1
    {
      hide Valid, RawCode, LabelMap, Fixes, TypeOf, CcGen.GenExpr, CcGen.GenCond, CcStmt.GenStmt, CtxAfter, Accepts;
      WhileGen(Now(), s, labelCount, Targets(epi), intRet);
      ghost var w, cx, j := items, Now(), Targets(epi);
      var lStart := NewLabel();
      var lEnd := NewLabel();
      SetLabel(lStart);
      ok := GenCond(Env(locals, globals, records), s.cond, lEnd);
      if !ok { return; }
      ghost var oc := CcGen.GenCond(cx.env, s.cond, lEnd, lStart + 2);
      Cat2(w, [Lab(lStart)], oc.code);
      ghost var acc := [Lab(lStart)] + oc.code;
      ok := GenBody(s.loop, Target(lEnd, Some(lStart)), epi, intRet);
      if !ok { return; }
      ghost var ob := CcStmt.GenStmt(cx, s.loop, oc.next, Jumps(Some(lEnd), Some(lStart), epi), intRet);
      Cat2(w, acc, ob.code);
      acc := acc + ob.code;
      JumpLabel(lStart, lEnd);
      Cat2(w, acc, [Jmp(lStart), Lab(lEnd)]);
      assert acc + [] + [] == acc;
    }

    method GenDo(s: Stmt, epi: nat, intRet: bool) returns (ok: bool)
      requires Valid() && Grammatical(s) && s.Do?
      modifies this
      ensures Valid()
      ensures ok == old(Accepts(Now(), s, Targets(epi).brk.Some?, Targets(epi).cont.Some?))
      ensures ok ==> Grown(old(items), old(breakStack), CcStmt.GenStmt(old(Now()), s, old(labelCount), old(Targets(epi)), intRet), CtxAfter(old(Now()), s))
      decreases s, 1
    {
      hide Valid, RawCode, LabelMap, Fixes, TypeOf, CcGen.GenExpr, CcGen.GenCond, CcStmt.GenStmt, CtxAfter, Accepts;
      DoGen(Now(), s, labelCount, Targets(epi), intRet);
      assert Grammatical(s.loop);
      hide Grammatical, NearestCont;
      ghost var w, cx, j := items, Now(), Targets(epi);
      var lTop := NewLabel();
      var lCont := NewLabel();
      var lEnd := NewLabel();
      SetLabel(lTop);
      ok := GenBody(s.loop, Target(lEnd, Some(lCont)), epi, intRet);
      if !ok { return; }
      ghost var ob := CcStmt.GenStmt(cx, s.loop, lTop + 3, Jumps(Some(lEnd), Some(lCont), epi), intRet);
      Cat2(w, [Lab(lTop)], ob.code);
      ghost var acc := [Lab(lTop)] + ob.code;
      SetLabel(lCont);
      Cat2(w, acc, [Lab(lCont)]);
      acc := acc + [Lab(lCont)];
      ok := GenUntil(s.cond, lTop, lEnd);
      if !ok { return; }
      Cat2(w, acc, UntilCode(CtxAfter(cx, s.loop).env, s.cond, lTop, lEnd, ob.next));
      Cat2(acc, CcGen.GenCond(CtxAfter(cx, s.loop).env, s.cond, ob.next, ob.next + 1).code, [Jmp(lTop), Lab(ob.next), Lab(lEnd)]);
    }

    /** The test of a `do`: back to the top while it holds. */
    method GenUntil(c: Expr, lTop: nat, lEnd: nat) returns (ok: bool)
      requires Valid()
      modifies this`code, this`labelsPos, this`labelCount, this`fixups, this`addrFix, this`items
      ensures Valid() && ok == TypeOf(Cc, Now().env, c).Some?
      ensures ok ==> Appended(old(items), Out(UntilCode(Now().env, c, lTop, lEnd, old(labelCount)),
                                              CcGen.GenCond(Now().env, c, old(labelCount), old(labelCount) + 1).next))
    {
      hide Valid, TypeOf, CcGen.GenCond;
      var lExit := NewLabel();
      ok := GenCond(Env(locals, globals, records), c, lExit);
      if !ok { return; }
      JumpLabel(lTop, lExit);
      SetLabel(lEnd);
      CatThree(old(items), CcGen.GenCond(Now().env, c, lExit, lExit + 1).code, Jmp(lTop), Lab(lExit), Lab(lEnd));
    }

    method GenFor(s: Stmt, epi: nat, intRet: bool) returns (ok: bool)
      requires Valid() && Grammatical(s) && s.For?
      modifies this
      ensures Valid()
      ensures ok == old(Accepts(Now(), s, Targets(epi).brk.Some?, Targets(epi).cont.Some?))
      ensures ok ==> Grown(old(items), old(breakStack), CcStmt.GenStmt(old(Now()), s, old(labelCount), old(Targets(epi)), intRet), CtxAfter(old(Now()), s))
      decreases s, 1
    {
      hide Valid, RawCode, LabelMap, Fixes, TypeOf, CcGen.GenExpr, CcGen.GenCond, CcStmt.GenStmt, CtxAfter, Accepts;
      ForGen(Now(), s, labelCount, Targets(epi), intRet);
      CtxGrowsFor(Now(), s);
      ghost var w, cx, j := items, Now(), Targets(epi);
      var saved := |locals|;
      ghost var first: seq<Item> := [];
      assert w + first == w;
      if s.start.Some? {
        first := CcStmt.GenStmt(cx, s.start.value, labelCount, j, intRet).code;
        ok := GenStmt(s.start.value, epi, intRet);
        if !ok { return; }
      }
      ghost var lp := ForLoop(cx, s, old(labelCount), j, intRet);
      ok := GenForLoop(s, lp, epi, intRet);
      if saved <= |locals| { locals := locals[..saved]; }
      Cat2(w, first, LoopCode(lp, intRet));
    }

    /** The loop of a `for`, its initialiser done. */
    method GenForLoop(s: Stmt, ghost lp: Loop, epi: nat, intRet: bool) returns (ok: bool)
      requires Valid() && s.For? && Grammatical(s.loop)
      requires lp == Loop(Now(), s.test, s.loop, s.post, labelCount, labelCount + 1, labelCount + 2, labelCount + 3, true, Targets(epi))
      modifies this
      ensures Valid()
      ensures ok == old(TypedOpt(Now(), s.test) && Accepts(Now(), s.loop, true, true) && TypedOpt(CtxAfter(Now(), s.loop), s.post))
      ensures ok ==> Grown(old(items), old(breakStack), Out(LoopCode(lp, intRet), PostCode(lp, intRet).next), CtxAfter(old(Now()), s.loop))
      decreases s, 0
    {
      hide Valid, RawCode, LabelMap, Fixes, TypeOf, CcGen.GenExpr, CcGen.GenCond, CcStmt.GenStmt, CtxAfter, Accepts;
      ghost var w := items;
      var lStart := NewLabel();
      var lEnd := NewLabel();
      var lPost := NewLabel();
      SetLabel(lStart);
      ok := GenTest(s.test, lEnd);
      if !ok { return; }
      ghost var acc := [Lab(lStart)] + TestCode(lp).code;
      Cat2(w, [Lab(lStart)], TestCode(lp).code);
      ok := GenBody(s.loop, Target(lEnd, Some(lPost)), epi, intRet);
      if !ok { return; }
      ghost var ob := BodyCode(lp, intRet);
      Cat2(w, acc, ob.code);
      acc := acc + ob.code;
      SetLabel(lPost);
      Cat2(w, acc, [Lab(lPost)]);
      acc := acc + [Lab(lPost)];
      ok := GenStep(s.post);
      if !ok { return; }
      ghost var op := PostCode(lp, intRet);
      Cat2(w, acc, op.code);
      acc := acc + op.code;
      JumpLabel(lStart, lEnd);
      Cat2(w, acc, [Jmp(lStart), Lab(lEnd)]);
    }

    /** A loop's test, if it has one. */
    method GenTest(c: Option<Expr>, lEnd: nat) returns (ok: bool)
      requires Valid()
      modifies this`code, this`labelsPos, this`labelCount, this`fixups, this`addrFix, this`items
      ensures Valid() && ok == TypedOpt(Now(), c)
      ensures ok ==> Appended(old(items), match c case Some(e) => CcGen.GenCond(Now().env, e, lEnd, old(labelCount)) case None => Out([], old(labelCount)))
    {
      hide Valid, TypeOf, CcGen.GenCond;
      ok := true;
      match c
      case Some(e) => ok := GenCond(Env(locals, globals, records), e, lEnd);
      case None => assert items == old(items) + [];
    }

    /** The step of a `for`, if it has one. */
    method GenStep(p: Option<Expr>) returns (ok: bool)
      requires Valid()
      modifies this`code, this`labelsPos, this`labelCount, this`fixups, this`addrFix, this`items
      ensures Valid() && ok == TypedOpt(Now(), p)
      ensures ok ==> Appended(old(items), match p case Some(e) => CcStmt.GenDrop(Now().env, e, old(labelCount)) case None => Out([], old(labelCount)))
    {
      hide Valid, TypeOf, CcStmt.GenDrop;
      ok := true;
      match p
      case Some(e) => ok := GenDrop(e);
      case None => assert items == old(items) + [];
    }

    /** The body of a loop, with the loop's own targets in force. */
    method GenBody(b: Stmt, t: Target, epi: nat, intRet: bool) returns (ok: bool)
      requires Valid() && Grammatical(b) && t.cont.Some?
      modifies this
      ensures Valid()
      ensures ok == old(Accepts(Now(), b, true, true))
      ensures ok ==> Grown(old(items), old(breakStack), CcStmt.GenStmt(old(Now()), b, old(labelCount), Jumps(Some(t.brk), t.cont, epi), intRet), CtxAfter(old(Now()), b))
      decreases b, 3
    {
      hide Valid, RawCode, LabelMap, Fixes, CcStmt.GenStmt, CtxAfter, Accepts, Grammatical;
      PushedTarget(breakStack, t);
      var outer := breakStack;
      breakStack := breakStack + [t];
      ok := GenStmt(b, epi, intRet);
      breakStack := outer;
    }

    /** The other arm of an `if`, if there is one. */
    method GenElse(f: Option<Stmt>, epi: nat, intRet: bool) returns (ok: bool)
      requires Valid() && (f.Some? ==> Grammatical(f.value))
      modifies this
      ensures Valid()
      ensures ok == old(f.Some? ==> Accepts(Now(), f.value, Targets(epi).brk.Some?, Targets(epi).cont.Some?))
      ensures ok ==> Grown(old(items), old(breakStack), ElseGen(old(Now()), f, old(labelCount), old(Targets(epi)), intRet), if f.Some? then CtxAfter(old(Now()), f.value) else old(Now()))
      decreases f, 3
    {
      hide Valid, RawCode, LabelMap, Fixes, CcStmt.GenStmt, CtxAfter, Accepts, Grammatical, NearestCont;
      ok := true;
      match f
      case Some(e) => ok := GenStmt(e, epi, intRet);
      case None => assert items == old(items) + [];
    }

    /** The selector of a switch gets a slot of its own. */
    method ReserveSlot()
      modifies this`localOffset
      ensures Now() == old(Now()).(off := TempSlot(old(Now())))
    {
      localOffset := localOffset - 4;
      localOffset := localOffset - localOffset % 4;
    }

    method GenSwitch(s: Stmt, epi: nat, intRet: bool) returns (ok: bool)
      requires Valid() && Grammatical(s) && s.Switch?
      modifies this
      ensures Valid()
      ensures ok == old(Accepts(Now(), s, Targets(epi).brk.Some?, Targets(epi).cont.Some?))
      ensures ok ==> Grown(old(items), old(breakStack), CcStmt.GenStmt(old(Now()), s, old(labelCount), old(Targets(epi)), intRet), CtxAfter(old(Now()), s))
      decreases s, 1
    {
      hide Valid, RawCode, LabelMap, Fixes, TypeOf, CcGen.GenExpr, CcStmt.GenStmt, CtxAfter, Accepts, CcStmt.GenItems, TableOf, Dispatch;
      hide CtxAfterItems, AcceptsItems, ChooseCode, Wrap, TempSlot;
      SwitchGen(Now(), s, labelCount, Targets(epi), intRet);
      assert GrammaticalItems(s.items);
      hide Grammatical;
      ghost var w, cx, j := items, Now(), Targets(epi);
      ReserveSlot();
      var temp := Wrap(localOffset);
      var t := GenExpr(Env(locals, globals, records), s.cond);
      if t.None? { return false; }
      ghost var oc := CcGen.GenExpr(cx.env, s.cond, old(labelCount));
      ghost var sel := [I(PopEax), I(StoreEbpEax(temp)), Jmp(oc.next)];
      var lDispatch := SaveSelector(temp);
      Cat2(w, oc.code, sel);
      ghost var acc := oc.code + sel;
      var lEnd := NewLabel();
      PushedTarget(breakStack, Target(lEnd, None));
      var outer := breakStack;
      breakStack := breakStack + [Target(lEnd, None)];
      ghost var cx1, n1, j1 := Now(), labelCount, Targets(epi);
      var tab;
      ok, tab := GenItems(s.items, epi, intRet);
      breakStack := outer;
      if !ok { return; }
      ghost var ob := CcStmt.GenItems(cx1, s.items, n1, j1, intRet);
      Cat2(w, acc, ob.code);
      acc := acc + ob.code;
      EmitChoose(temp, tab, lDispatch, lEnd);
      Cat2(w, acc, ChooseCode(temp, tab, lDispatch, lEnd));
    }

    /** Store the selector and jump ahead to the comparisons. */
    method SaveSelector(temp: Word) returns (l: nat)
      requires Valid()
      modifies this`code, this`labelsPos, this`labelCount, this`fixups, this`addrFix, this`items
      ensures Valid() && l == old(labelCount) && labelCount == l + 1
      ensures items == old(items) + [I(PopEax), I(StoreEbpEax(temp)), Jmp(l)]
    {
      hide Valid;
      Emit(PopEax);
      Emit(StoreEbpEax(temp));
      l := NewLabel();
      Jump(l, false);
      assert old(items) + [I(PopEax)] + [I(StoreEbpEax(temp))] + [Jmp(l)] == old(items) + [I(PopEax), I(StoreEbpEax(temp)), Jmp(l)];
    }

    method EmitChoose(temp: Word, tab: Table, lDispatch: nat, lEnd: nat)
      requires Valid()
      modifies this`code, this`labelsPos, this`labelCount, this`fixups, this`addrFix, this`items
      ensures Valid() && labelCount == old(labelCount) && items == old(items) + ChooseCode(temp, tab, lDispatch, lEnd)
    {
      hide Valid, Dispatch;
      ghost var w := items;
      JumpLabel(lEnd, lDispatch);
      EmitDispatch(temp, tab.cases);
      var last := match tab.dflt case Some(l) => l case None => lEnd;
      JumpLabel(last, lEnd);
      Cat3(w, [Jmp(lEnd), Lab(lDispatch)], Dispatch(temp, tab.cases), [Jmp(last), Lab(lEnd)]);
    }

    /** One comparison per case, in order. */
    method EmitDispatch(temp: Word, cases: seq<(Word, nat)>)
      requires Valid()
      modifies this`code, this`labelsPos, this`labelCount, this`fixups, this`addrFix, this`items
      ensures Valid() && labelCount == old(labelCount) && items == old(items) + Dispatch(temp, cases)
    {
      hide Valid;
      ghost var acc: seq<Item> := [];
      assert items + acc == items;
      for k := 0 to |cases|
        invariant Valid() && labelCount == old(labelCount) && items == old(items) + acc
        invariant Dispatch(temp, cases) == acc + Dispatch(temp, cases[k..])
      {
        ghost var one := [I(LoadEaxEbp(temp)), I(CmpEaxImm(cases[k].0)), Jz(cases[k].1)];
        assert cases[k..][0] == cases[k] && cases[k..][1..] == cases[k + 1..];
        Cat2(acc, one, Dispatch(temp, cases[k + 1..]));
        EmitCase(temp, cases[k]);
        Cat2(old(items), acc, one);
        acc := acc + one;
      }
      assert acc + [] == acc;
    }

    method EmitCase(temp: Word, c: (Word, nat))
      requires Valid()
      modifies this`code, this`labelsPos, this`labelCount, this`fixups, this`addrFix, this`items
      ensures Valid() && labelCount == old(labelCount)
      ensures items == old(items) + [I(LoadEaxEbp(temp)), I(CmpEaxImm(c.0)), Jz(c.1)]
    {
      hide Valid;
      Emit(LoadEaxEbp(temp));
      Emit(CmpEaxImm(c.0));
      Jump(c.1, true);
      assert old(items) + [I(LoadEaxEbp(temp))] + [I(CmpEaxImm(c.0))] + [Jz(c.1)]
          == old(items) + [I(LoadEaxEbp(temp)), I(CmpEaxImm(c.0)), Jz(c.1)];
    }

    /** The body of a switch, recording each case label. */
    method GenItems(its: seq<SwItem>, epi: nat, intRet: bool) returns (ok: bool, tab: Table)
      requires Valid() && GrammaticalItems(its) && breakStack != []
      modifies this
      ensures Valid()
      ensures ok == old(AcceptsItems(Now(), its, Targets(epi).cont.Some?))
      ensures ok ==> Grown(old(items), old(breakStack), CcStmt.GenItems(old(Now()), its, old(labelCount), old(Targets(epi)), intRet), CtxAfterItems(old(Now()), its))
      ensures ok ==> tab == TableOf(old(Now()), its, old(labelCount), old(Targets(epi)), intRet)
      decreases its, 0
    {
      hide Valid, CcStmt.GenItem, CtxAfterItem, AcceptsItem, GrammaticalItem, EvalConst;
      ghost var j := Targets(epi);
      ghost var whole := CcStmt.GenItems(Now(), its, labelCount, j, intRet);
      ghost var all := TableOf(Now(), its, labelCount, j, intRet);
      ghost var acc: seq<Item> := [];
      assert items + acc == items;
      tab := Table([], None);
      for k := 0 to |its|
        invariant Valid() && GrammaticalItems(its[k..])
        invariant items == old(items) + acc && breakStack == old(breakStack)
        invariant AcceptsItems(Now(), its[k..], j.cont.Some?) == AcceptsItems(old(Now()), its, j.cont.Some?)
        invariant CtxAfterItems(Now(), its[k..]) == CtxAfterItems(old(Now()), its)
        invariant whole == Out(acc + CcStmt.GenItems(Now(), its[k..], labelCount, j, intRet).code,
                               CcStmt.GenItems(Now(), its[k..], labelCount, j, intRet).next)
        invariant all == Joined(tab, TableOf(Now(), its[k..], labelCount, j, intRet))
      {
        assert its[k..][0] == its[k] && its[k..][1..] == its[k + 1..];
        ghost var cx, n := Now(), labelCount;
        ghost var o := CcStmt.GenItem(cx, its[k], n, j, intRet);
        ghost var o2 := CcStmt.GenItems(CtxAfterItem(cx, its[k]), its[k + 1..], o.next, j, intRet);
        TableNext(tab, cx, its[k..], n, j, intRet);
        ok, tab := GenItem(its[k], epi, intRet, tab);
        if !ok { return; }
        Cat2(old(items), acc, o.code);
        Cat2(acc, o.code, o2.code);
        acc := acc + o.code;
      }
      ok := true;
      assert acc + [] == acc;
      JoinedNone(tab);
    }

    method GenItem(it: SwItem, epi: nat, intRet: bool, tab: Table) returns (ok: bool, tab': Table)
      requires Valid() && GrammaticalItem(it) && breakStack != []
      modifies this
      ensures Valid()
      ensures ok == old(AcceptsItem(Now(), it, Targets(epi).cont.Some?))
      ensures ok ==> Grown(old(items), old(breakStack), CcStmt.GenItem(old(Now()), it, old(labelCount), old(Targets(epi)), intRet), CtxAfterItem(old(Now()), it))
      ensures ok ==> tab' == Recorded(tab, it, old(labelCount))
      decreases it, 3
    {
      hide Valid, CcStmt.GenStmt, CtxAfter, Accepts, Grammatical, EvalConst;
      tab' := tab;
      match it
      case Case(e) =>
        var v := EvalConst(e);
        if v.None? { return false, tab; }
        var l := NewLabel();
        SetLabel(l);
        tab' := tab.(cases := tab.cases + [(v.value, l)]);
        ok := true;
      case Default =>
        var l := NewLabel();
        SetLabel(l);
        tab' := tab.(dflt := Some(l));
        ok := true;
      case Body(s) => ok := GenStmt(s, epi, intRet);
    }

    // ----- functions and fixups -----

    /** `parse_function_def`: the frame size is written into the prologue once
        the body has claimed its slots. */
    method GenFun(params: seq<(string, Ty)>, body: Stmt, intRet: bool) returns (ok: bool)
      requires Valid() && Grammatical(body)
      modifies this
      ensures Valid()
      ensures ok == Accepts(Ctx(Env(ParamSyms(records, params, 8), globals, records), 0), body, false, false)
      ensures ok ==>
                var o := CcStmt.GenFun(Ctx(Env(ParamSyms(records, params, 8), globals, records), 0), body, old(labelCount), intRet);
                Appended(old(items), o)
    {
      hide Valid, CcStmt.GenStmt, CtxAfter, Accepts, Grammatical, ParamSyms, Wrap;
      locals := [];
      localOffset := 0;
      breakStack := [];
      AddParams(params);
      ghost var cx, w, n := Now(), items, labelCount;
      assert [] + ParamSyms(records, params, 8) == ParamSyms(records, params, 8);
      Prologue();
      var patch := |code| - 4;
      var epilogue := NewLabel();
      assert Targets(epilogue) == Jumps(None, None, n);
      ghost var o := CcStmt.GenStmt(cx, body, n + 1, Jumps(None, None, n), intRet);
      ok := GenStmt(body, epilogue, intRet);
      if !ok { return; }
      ghost var zero := if intRet then [I(MovEaxImm(0))] else [];
      Epilogue(epilogue, intRet);
      var size := if -localOffset < 0 then 0 else -localOffset;
      ghost var pro := [I(PushEbp), I(MovEbpEsp), I(SubEspImm(0))];
      FunSeq(w, pro, o.code, zero, EpiCode(n));
      SetFrame(w, o.code + zero + EpiCode(n), patch, Wrap(size));
      FunSeq(w, [I(PushEbp), I(MovEbpEsp), I(SubEspImm(Wrap(size)))], o.code, zero, EpiCode(n));
      FunGen(w, cx, body, n, intRet);
    }

    method AddParams(params: seq<(string, Ty)>)
      modifies this`locals
      ensures locals == old(locals) + ParamSyms(records, params, 8)
    {
      var poff := 8;
      assert locals + ParamSyms(records, params, 8) == locals + ParamSyms(records, params[0..], poff);
      for i := 0 to |params|
        invariant locals + ParamSyms(records, params[i..], poff) == old(locals) + ParamSyms(records, params, 8)
      {
        assert params[i..][0] == params[i] && params[i..][1..] == params[i + 1..];
        ghost var rest := ParamSyms(records, params[i + 1..], poff + ArgSlot(records, params[i].1));
        assert locals + ([Sym(params[i].0, params[i].1, Local(poff))] + rest)
            == locals + [Sym(params[i].0, params[i].1, Local(poff))] + rest;
        locals := locals + [Sym(params[i].0, params[i].1, Local(poff))];
        poff := poff + ArgSlot(records, params[i].1);
      }
    }

    method Prologue()
      requires Valid()
      modifies this`code, this`addrFix, this`items
      ensures Valid() && items == old(items) + [I(PushEbp), I(MovEbpEsp), I(SubEspImm(0))]
      ensures |code| == Offset(old(items), |old(items)|) + 9
    {
      hide RawCode, LabelMap, Fixes;
      ghost var w := items;
      Emit(PushEbp);
      Emit(MovEbpEsp);
      Emit(SubEspImm(0));
      RawSnoc(w, I(PushEbp));
      RawSnoc(w + [I(PushEbp)], I(MovEbpEsp));
      RawSnoc(w + [I(PushEbp)] + [I(MovEbpEsp)], I(SubEspImm(0)));
      assert w + [I(PushEbp)] + [I(MovEbpEsp)] + [I(SubEspImm(0))] == w + [I(PushEbp), I(MovEbpEsp), I(SubEspImm(0))];
    }

    /** Falling off the end returns 0 from an `int` function; then `leave; ret`. */
    method Epilogue(l: nat, intRet: bool)
      requires Valid()
      modifies this`code, this`labelsPos, this`fixups, this`addrFix, this`items
      ensures Valid() && items == old(items) + (if intRet then [I(MovEaxImm(0))] else []) + EpiCode(l)
    {
      hide Valid;
      ghost var w := items;
      assert w + [] == w;
      if intRet { Emit(MovEaxImm(0)); }
      ghost var w1 := items;
      JumpLabel(l, l);
      Emit(Leave);
      Emit(Ret);
      assert w1 + [Jmp(l), Lab(l)] + [I(Leave)] + [I(Ret)] == w1 + EpiCode(l);
    }

    /** Write the frame size over the zero in `sub esp, imm32`. */
    method SetFrame(ghost w: seq<Item>, ghost rest: seq<Item>, patch: nat, size: Word)
      requires Valid() && items == w + ([I(PushEbp), I(MovEbpEsp), I(SubEspImm(0))] + rest)
      requires patch == Offset(w, |w|) + 5
      modifies this`code, this`items
      ensures Valid() && items == w + ([I(PushEbp), I(MovEbpEsp), I(SubEspImm(size))] + rest)
    {
      ghost var k, it := |w| + 2, I(SubEspImm(size));
      hide RawCode, LabelMap, Fixes, Offset, Patch4;
      SetFrameBytes(items, w, rest, size);
      code := Patch4(code, patch, size);
      SetFrameItems(items, w, rest, size);
      items := items[k := it];
    }

    /** `apply_fixups`: every recorded jump gets target minus the end of the jump. */
    method ApplyFixups()
      requires Valid()
      modifies this`code
      ensures |code| == |RawCode(items)| && FixedUpTo(items, code, |fixups|)
      ensures UniqueLabels(items) && Closed(items) ==>
                InBounds(RawCode(items), SitesOf(items, Picks(items, true)))
                && code == PatchAll(RawCode(items), SitesOf(items, Picks(items, true)))
    {
      hide RawCode, Picks, LabelMap, SitesOf, PatchAll, UniqueLabels, Closed, Fixes, InBounds, Patch4, FixedUpTo;
      FixedNone(items);
      for i := 0 to |fixups|
        invariant FixedUpTo(items, code, i)
      {
        FixedNext(items, code, i);
        code := Patch4(code, fixups[i].pos, Distance(labelsPos, fixups[i]));
      }
      FixedEnd(items, code);
    }

    /** Write each global's address where it was recorded. */
    method PatchGlobals()
      requires Tabled() && FixedUpTo(items, code, |fixups|)
      modifies this`code
      ensures UniqueLabels(items) && Closed(items) ==> IsImage(code, items)
    {
      hide RawCode, Picks, LabelMap, PatchAll, UniqueLabels, Closed, Fixes, Patch4, FixedUpTo, GlobalsUpTo, IsImage;
      GlobalsNone(items, code);
      for i := 0 to |addrFix|
        invariant GlobalsUpTo(items, code, i)
      {
        GlobalsNext(items, code, i);
        code := Patch4(code, addrFix[i].pos, Wrap(addrFix[i].what));
      }
      GlobalsEnd(items, code);
    }
  }
}
