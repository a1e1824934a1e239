/** Every jump a unit contains leads to a label the same unit sets; from there
    the bytes of a whole unit run as its source does.
 */
module CcClosed {
  import opened Options
  import opened Word32
  import opened CcAst
  import opened X86
  import opened CcGen
  import opened CcBytes
  import opened CcPatch
  import opened CcStmt
  import opened CcLabels

  /** Jumps go to labels of `c` itself or of `x`. */
  ghost predicate Covered(c: seq<Item>, x: set<nat>) {
    forall k :: 0 <= k < |c| && IsJump(c[k]) ==> c[k].l in x || Lab(c[k].l) in c
  }

  /** The labels a statement may jump to from inside. */
  ghost predicate Known(j: Jumps, x: set<nat>) {
    j.epi in x && (j.brk.Some? ==> j.brk.value in x) && (j.cont.Some? ==> j.cont.value in x)
  }

  lemma Cov2(a: seq<Item>, b: seq<Item>, x: set<nat>)
    requires Covered(a, x) && Covered(b, x)
    ensures Covered(a + b, x)
  {
    forall k | 0 <= k < |a + b| && IsJump((a + b)[k]) ensures (a + b)[k].l in x || Lab((a + b)[k].l) in a + b {
      if k < |a| { assert (a + b)[k] == a[k]; } else { assert (a + b)[k] == b[k - |a|]; }
    }
  }

  lemma Cov3(a: seq<Item>, b: seq<Item>, c: seq<Item>, x: set<nat>)
    requires Covered(a, x) && Covered(b, x) && Covered(c, x)
    ensures Covered(a + b + c, x)
  {
    hide Covered;
    Cov2(a, b, x);
    Cov2(a + b, c, x);
  }

  lemma Cov4(a: seq<Item>, b: seq<Item>, c: seq<Item>, d: seq<Item>, x: set<nat>)
    requires Covered(a, x) && Covered(b, x) && Covered(c, x) && Covered(d, x)
    ensures Covered(a + b + c + d, x)
  {
    hide Covered;
    Cov3(a, b, c, x);
    Cov2(a + b + c, d, x);
  }

  lemma Cov6(a: seq<Item>, b: seq<Item>, c: seq<Item>, d: seq<Item>, e: seq<Item>, f: seq<Item>, x: set<nat>)
    requires Covered(a, x) && Covered(b, x) && Covered(c, x) && Covered(d, x) && Covered(e, x) && Covered(f, x)
    ensures Covered(a + b + c + d + e + f, x)
  {
    hide Covered;
    Cov4(a, b, c, d, x);
    Cov3(a + b + c + d, e, f, x);
  }

  lemma CovCode(ins: seq<Instr>, x: set<nat>)
    ensures Covered(Code(ins), x)
  {
  }

  /** Labels set inside need not be named outside. */
  lemma CovDrop(c: seq<Item>, x: set<nat>, ls: set<nat>)
    requires Covered(c, x + ls) && forall l :: l in ls ==> Lab(l) in c
    ensures Covered(c, x)
  {
  }

  // ----- expressions -----

  lemma {:induction false} CovAddr(env: Env, e: Expr, n: nat, x: set<nat>)
    ensures Covered(GenAddr(env, e, n).code, x)
    decreases e, 0
  {
    hide LvalueType, Size, Lookup, OffsetOf, IndexTail, MemberTail, LoadAddr, GenExpr;
    assert Covered([], x);
    hide Covered;
    match e
    case Var(v) =>
      if Lookup(env, v).Some? { CovCode(LoadAddr(Lookup(env, v).value), x); }
    case Deref(p) => CovExpr(env, p, n, x);
    case Index(a, i) =>
      var oa := GenExpr(env, a, n);
      CovExpr(env, a, n, x);
      CovExpr(env, i, oa.next, x);
      var tail := IndexTail(Size(env, LvalueType(env, e)));
      CovCode(tail, x);
      Cov3(oa.code, GenExpr(env, i, oa.next).code, Code(tail), x);
    case Member(r, f, arrow) =>
      if arrow { CovExpr(env, r, n, x); } else { CovAddr(env, r, n, x); }
      var tail := MemberTail(OffsetOf(env, r, f, arrow));
      CovCode(tail, x);
      Cov2(if arrow then GenExpr(env, r, n).code else GenAddr(env, r, n).code, Code(tail), x);
    case _ =>
  }

  lemma {:induction false} CovExpr(env: Env, e: Expr, n: nat, x: set<nat>)
    ensures Covered(GenExpr(env, e, n).code, x)
    decreases e, if IsLogicExpr(e) then 3 else 1
  {
    hide LvalueType, ValueType, Size, BinTail, UnTail, GenAddr, GenCond, GenLogical;
    match e
    case Num(_, _) =>
    case Var(_) | Deref(_) | Index(_, _) | Member(_, _, _) =>
      CovAddr(env, e, n, x);
      CovCode(LoadFrom, x);
      Cov2(GenAddr(env, e, n).code, Code(LoadFrom), x);
    case AddrOf(l) => CovAddr(env, l, n, x);
    case Assign(l, r) =>
      var ol := GenAddr(env, l, n);
      CovAddr(env, l, n, x);
      CovExpr(env, r, ol.next, x);
      CovCode(StoreTo, x);
      Cov3(ol.code, GenExpr(env, r, ol.next).code, Code(StoreTo), x);
    case Tern(c, t, f) =>
      var oc := GenCond(env, c, n, n + 2);
      var ot := GenExpr(env, t, oc.next);
      var y := x + {n, n + 1};
      CovCond(env, c, n, n + 2, y);
      CovExpr(env, t, oc.next, y);
      CovExpr(env, f, ot.next, y);
      CovFork(oc.code, ot.code, GenExpr(env, f, ot.next).code, n, x);
    case Un(op, a) =>
      CovExpr(env, a, n, x);
      CovCode(UnTail(op), x);
      Cov2(GenExpr(env, a, n).code, Code(UnTail(op)), x);
    case Bin(op, l, r) =>
      if IsLogic(op) {
        CovLogicValue(env, e, n, x);
      } else {
        var ol := GenExpr(env, l, n);
        var tail := BinTail(env, op, ValueType(env, l), ValueType(env, r));
        CovExpr(env, l, n, x);
        CovExpr(env, r, ol.next, x);
        CovCode(tail, x);
        Cov3(ol.code, GenExpr(env, r, ol.next).code, Code(tail), x);
      }
  }

  /** `?:` and if/else. */
  lemma CovFork(a: seq<Item>, t: seq<Item>, f: seq<Item>, n: nat, x: set<nat>)
    requires var y := x + {n, n + 1}; Covered(a, y) && Covered(t, y) && Covered(f, y)
    ensures Covered(a + t + [Jmp(n + 1), Lab(n)] + f + [Lab(n + 1)], x)
  {
    var y := x + {n, n + 1};
    var mid, last := [Jmp(n + 1), Lab(n)], [Lab(n + 1)];
    assert mid[1] == Lab(n) && last[0] == Lab(n + 1);
    assert Covered(mid, y) && Covered(last, y);
    hide Covered;
    Cov4(a, t, mid, f, y);
    Cov2(a + t + mid + f, last, y);
    CovDrop(a + t + mid + f + last, x, {n, n + 1});
  }

  lemma {:induction false} CovLogicValue(env: Env, e: Expr, n: nat, x: set<nat>)
    requires IsLogicExpr(e)
    ensures Covered(GenExpr(env, e, n).code, x)
    decreases e, 3, 0
  {
    hide GenLogical;
    var o := GenLogical(env, e, n, n + 1, n + 2);
    var y := x + {n, n + 1, o.next};
    CovLogical(env, e, n, n + 1, n + 2, y);
    var tail := [Lab(n), I(PushImm(1)), Jmp(o.next), Lab(n + 1), I(PushImm(0)), Lab(o.next)];
    assert GenExpr(env, e, n).code == o.code + tail;
    assert tail[0] == Lab(n) && tail[3] == Lab(n + 1) && tail[5] == Lab(o.next);
    assert Covered(tail, y);
    hide Covered, GenExpr;
    Cov2(o.code, tail, y);
    CovDrop(o.code + tail, x, {n, n + 1, o.next});
  }

  lemma {:induction false} CovLogical(env: Env, e: Expr, lt: nat, lf: nat, n: nat, x: set<nat>)
    requires lt in x && lf in x
    ensures Covered(GenLogical(env, e, lt, lf, n).code, x)
    decreases e, 2
  {
    hide GenExpr;
    if IsLogicExpr(e) {
      var y := x + {n};
      var ol := if e.bop.LogAnd? then GenLogical(env, e.lhs, n, lf, n + 1) else GenLogical(env, e.lhs, lt, n, n + 1);
      if e.bop.LogAnd? { CovLogical(env, e.lhs, n, lf, n + 1, y); } else { CovLogical(env, e.lhs, lt, n, n + 1, y); }
      CovLogical(env, e.rhs, lt, lf, ol.next, y);
      var or := GenLogical(env, e.rhs, lt, lf, ol.next);
      assert Covered([Lab(n)], y);
      hide Covered;
      assert [Lab(n)][0] == Lab(n);
      Cov3(ol.code, [Lab(n)], or.code, y);
      CovDrop(ol.code + [Lab(n)] + or.code, x, {n});
    } else {
      CovExpr(env, e, n, x);
      CovCode(TestTop, x);
      Cov3(GenExpr(env, e, n).code, Code(TestTop), [Jz(lf), Jmp(lt)], x);
    }
  }

  lemma {:induction false} CovCond(env: Env, e: Expr, lf: nat, n: nat, x: set<nat>)
    requires lf in x
    ensures Covered(GenCond(env, e, lf, n).code, x)
    decreases e, 4
  {
    hide GenExpr, GenLogical;
    if IsLogicExpr(e) {
      var o := GenLogical(env, e, n, lf, n + 1);
      CovLogical(env, e, n, lf, n + 1, x + {n});
      assert [Lab(n)][0] == Lab(n);
      Cov2(o.code, [Lab(n)], x + {n});
      hide Covered;
      CovDrop(o.code + [Lab(n)], x, {n});
    } else {
      CovExpr(env, e, n, x);
      CovCode(TestTop, x);
      Cov3(GenExpr(env, e, n).code, Code(TestTop), [Jz(lf)], x);
    }
  }

  lemma CovDropExpr(env: Env, e: Expr, n: nat, x: set<nat>)
    ensures Covered(GenDrop(env, e, n).code, x)
  {
    hide GenExpr;
    CovExpr(env, e, n, x);
    Cov2(GenExpr(env, e, n).code, [I(AddEspImm(4))], x);
  }

  // ----- statements -----

  lemma {:induction false} CovStmt(cx: Ctx, s: Stmt, n: nat, j: Jumps, ir: bool, x: set<nat>)
    requires Known(j, x)
    ensures Covered(GenStmt(cx, s, n, j, ir).code, x)
    decreases s, 1
  {
    hide GenExpr, GenCond, GenDrop, CtxAfter, LoopCode, AddLocal, TableOf, GenItems, Dispatch, GenAll;
    match s
    case ExprS(e) => CovDropExpr(cx.env, e, n, x);
    case Decl(v, t, i) =>
      if i.Some? { CovDropExpr(AddLocal(cx, v, t).env, Assign(Var(v), i.value), n, x); }
    case Block(ss) => CovAll(cx, ss, n, j, ir, x);
    case If(c, t, f) =>
      var oc := GenCond(cx.env, c, n, n + 2);
      var ot := GenStmt(cx, t, oc.next, j, ir);
      var of := match f case Some(e) => GenStmt(CtxAfter(cx, t), e, ot.next, j, ir) case None => Out([], ot.next);
      var y := x + {n, n + 1};
      CovCond(cx.env, c, n, n + 2, y);
      CovStmt(cx, t, oc.next, j, ir, y);
      if f.Some? { CovStmt(CtxAfter(cx, t), f.value, ot.next, j, ir, y); }
      CovFork(oc.code, ot.code, of.code, n, x);
    case While(c, b) =>
      CovLoop(Loop(cx, Some(c), b, None, n, n + 1, n, n + 2, false, j), ir, x);
    case Do(b, c) => CovDo(cx, s, n, j, ir, x);
    case For(i, _, _, _) =>
      var lp := ForLoop(cx, s, n, j, ir);
      var first := match i case Some(d) => GenStmt(cx, d, n, j, ir).code case None => [];
      if i.Some? { CovStmt(cx, i.value, n, j, ir, x); }
      CovLoop(lp, ir, x);
      Cov2(first, LoopCode(lp, ir), x);
    case Switch(_, _) => CovSwitch(cx, s, n, j, ir, x);
    case Break =>
    case Continue =>
    case Return(v) =>
      if v.Some? {
        CovExpr(cx.env, v.value, n, x);
        Cov2(GenExpr(cx.env, v.value, n).code, [I(PopEax), Jmp(j.epi)], x);
      }
  }

  lemma {:induction false} CovAll(cx: Ctx, ss: seq<Stmt>, n: nat, j: Jumps, ir: bool, x: set<nat>)
    requires Known(j, x)
    ensures Covered(GenAll(cx, ss, n, j, ir).code, x)
    decreases ss, 0
  {
    hide GenStmt, CtxAfter;
    if ss != [] {
      var o1 := GenStmt(cx, ss[0], n, j, ir);
      CovStmt(cx, ss[0], n, j, ir, x);
      CovAll(CtxAfter(cx, ss[0]), ss[1..], o1.next, j, ir, x);
      Cov2(o1.code, GenAll(CtxAfter(cx, ss[0]), ss[1..], o1.next, j, ir).code, x);
    }
  }

  lemma {:induction false} CovLoop(lp: Loop, ir: bool, x: set<nat>)
    requires Known(lp.j, x) && (lp.isFor || lp.lCont == lp.lStart)
    ensures Covered(LoopCode(lp, ir), x)
    decreases lp.body, 4
  {
    hide GenStmt, GenCond, GenDrop, CtxAfter;
    var ls := {lp.lStart, lp.lEnd, lp.lCont};
    var y := x + ls;
    if lp.test.Some? { CovCond(lp.cx.env, lp.test.value, lp.lEnd, lp.next, y); }
    CovStmt(lp.cx, lp.body, TestCode(lp).next, Jumps(Some(lp.lEnd), Some(lp.lCont), lp.j.epi), ir, y);
    var ob := BodyCode(lp, ir);
    if lp.post.Some? { CovDropExpr(CtxAfter(lp.cx, lp.body).env, lp.post.value, ob.next, y); }
    LoopPieces(lp, TestCode(lp).code, ob.code, PostCode(lp, ir).code, x);
  }

  lemma LoopPieces(lp: Loop, t: seq<Item>, b: seq<Item>, p: seq<Item>, x: set<nat>)
    requires lp.isFor || lp.lCont == lp.lStart
    requires var y := x + {lp.lStart, lp.lEnd, lp.lCont}; Covered(t, y) && Covered(b, y) && Covered(p, y)
    ensures Covered([Lab(lp.lStart)] + t + b + ContCode(lp) + p + [Jmp(lp.lStart), Lab(lp.lEnd)], x)
  {
    var y := x + {lp.lStart, lp.lEnd, lp.lCont};
    var head, k, last := [Lab(lp.lStart)], ContCode(lp), [Jmp(lp.lStart), Lab(lp.lEnd)];
    assert head[0] == Lab(lp.lStart) && last[1] == Lab(lp.lEnd);
    if lp.isFor { assert k[0] == Lab(lp.lCont); }
    assert Covered(head, y) && Covered(k, y) && Covered(last, y);
    hide Covered;
    Cov6(head, t, b, k, p, last, y);
    CovDrop(head + t + b + k + p + last, x, {lp.lStart, lp.lEnd, lp.lCont});
  }

  lemma {:induction false} CovDo(cx: Ctx, s: Stmt, n: nat, j: Jumps, ir: bool, x: set<nat>)
    requires s.Do? && Known(j, x)
    ensures Covered(GenStmt(cx, s, n, j, ir).code, x)
    decreases s, 0
  {
    hide GenCond, CtxAfter;
    var ob := GenStmt(cx, s.loop, n + 3, Jumps(Some(n + 2), Some(n + 1), j.epi), ir);
    var oc := GenCond(CtxAfter(cx, s.loop).env, s.cond, ob.next, ob.next + 1);
    var ls := {n, n + 1, n + 2, ob.next};
    var y := x + ls;
    CovStmt(cx, s.loop, n + 3, Jumps(Some(n + 2), Some(n + 1), j.epi), ir, y);
    CovCond(CtxAfter(cx, s.loop).env, s.cond, ob.next, ob.next + 1, y);
    var head, mid, last := [Lab(n)], [Lab(n + 1)], [Jmp(n), Lab(ob.next), Lab(n + 2)];
    assert GenStmt(cx, s, n, j, ir).code == head + ob.code + mid + oc.code + last;
    assert head[0] == Lab(n) && mid[0] == Lab(n + 1) && last[1] == Lab(ob.next) && last[2] == Lab(n + 2);
    assert Covered(head, y) && Covered(mid, y) && Covered(last, y);
    hide Covered, GenStmt;
    Cov4(head, ob.code, mid, oc.code, y);
    Cov2(head + ob.code + mid + oc.code, last, y);
    CovDrop(head + ob.code + mid + oc.code + last, x, ls);
  }

  lemma {:induction false} CovItems(cx: Ctx, its: seq<SwItem>, n: nat, j: Jumps, ir: bool, x: set<nat>)
    requires Known(j, x)
    ensures Covered(GenItems(cx, its, n, j, ir).code, x)
    decreases its, 0
  {
    hide GenItem, CtxAfterItem;
    if its != [] {
      var o1 := GenItem(cx, its[0], n, j, ir);
      CovItem(cx, its[0], n, j, ir, x);
      CovItems(CtxAfterItem(cx, its[0]), its[1..], o1.next, j, ir, x);
      Cov2(o1.code, GenItems(CtxAfterItem(cx, its[0]), its[1..], o1.next, j, ir).code, x);
    }
  }

  lemma {:induction false} CovItem(cx: Ctx, it: SwItem, n: nat, j: Jumps, ir: bool, x: set<nat>)
    requires Known(j, x)
    ensures Covered(GenItem(cx, it, n, j, ir).code, x)
    decreases it, 2
  {
    hide GenStmt;
    if it.Body? { CovStmt(cx, it.stmt, n, j, ir, x); }
  }

  /** The case table names labels set in the body. */
  ghost predicate Placed(t: Table, c: seq<Item>) {
    && (forall i :: 0 <= i < |t.cases| ==> Lab(t.cases[i].1) in c)
    && (t.dflt.Some? ==> Lab(t.dflt.value) in c)
  }

  lemma {:induction false} TablePlaced(cx: Ctx, its: seq<SwItem>, n: nat, j: Jumps, ir: bool)
    ensures Placed(TableOf(cx, its, n, j, ir), GenItems(cx, its, n, j, ir).code)
    decreases its
  {
    hide GenStmt, CtxAfterItem, GenItems;
    if its != [] {
      var o1 := GenItem(cx, its[0], n, j, ir);
      var rest := GenItems(CtxAfterItem(cx, its[0]), its[1..], o1.next, j, ir).code;
      ItemsStart(cx, its, n, j, ir);
      TablePlaced(CtxAfterItem(cx, its[0]), its[1..], o1.next, j, ir);
      assert !its[0].Body? ==> o1.code[0] == Lab(n);
    }
  }

  lemma ItemsStart(cx: Ctx, its: seq<SwItem>, n: nat, j: Jumps, ir: bool)
    requires its != []
    ensures var o1 := GenItem(cx, its[0], n, j, ir);
            GenItems(cx, its, n, j, ir).code == o1.code + GenItems(CtxAfterItem(cx, its[0]), its[1..], o1.next, j, ir).code
  {
    hide GenItem, CtxAfterItem;
  }

  lemma {:induction false} CovDispatch(temp: Word, cases: seq<(Word, nat)>, x: set<nat>)
    requires forall i :: 0 <= i < |cases| ==> cases[i].1 in x
    ensures Covered(Dispatch(temp, cases), x)
  {
    if cases != [] {
      CovDispatch(temp, cases[1..], x);
      Cov2([I(LoadEaxEbp(temp)), I(CmpEaxImm(cases[0].0)), Jz(cases[0].1)], Dispatch(temp, cases[1..]), x);
    }
  }

  function Targets(t: Table): set<nat> {
    (set i | 0 <= i < |t.cases| :: t.cases[i].1) + (if t.dflt.Some? then {t.dflt.value} else {})
  }

  lemma {:induction false} CovSwitch(cx: Ctx, s: Stmt, n: nat, j: Jumps, ir: bool, x: set<nat>)
    requires s.Switch? && Known(j, x)
    ensures Covered(GenStmt(cx, s, n, j, ir).code, x)
    decreases s, 0
  {
    hide GenExpr, GenItems, TableOf, Dispatch;
    var oc := GenExpr(cx.env, s.cond, n);
    var temp, cx1, j1 := Wrap(TempSlot(cx)), cx.(off := TempSlot(cx)), Jumps(Some(oc.next + 1), j.cont, j.epi);
    var ob, tab := GenItems(cx1, s.items, oc.next + 2, j1, ir), TableOf(cx1, s.items, oc.next + 2, j1, ir);
    var last := match tab.dflt case Some(l) => l case None => oc.next + 1;
    var y := x + ({oc.next, oc.next + 1} + Targets(tab));
    CovExpr(cx.env, s.cond, n, y);
    CovItems(cx1, s.items, oc.next + 2, j1, ir, y);
    TablePlaced(cx1, s.items, oc.next + 2, j1, ir);
    CovDispatch(temp, tab.cases, y);
    SwitchPieces(oc.code, [I(PopEax), I(StoreEbpEax(temp)), Jmp(oc.next)], ob.code, tab, Dispatch(temp, tab.cases), oc.next, last, x);
  }

  lemma SwitchPieces(a: seq<Item>, sel: seq<Item>, b: seq<Item>, tab: Table, g: seq<Item>, n: nat, last: nat, x: set<nat>)
    requires var y := x + ({n, n + 1} + Targets(tab)); Covered(a, y) && Covered(sel, y) && Covered(b, y) && Covered(g, y) && last in y
    requires Placed(tab, b)
    ensures Covered(a + sel + b + [Jmp(n + 1), Lab(n)] + g + [Jmp(last), Lab(n + 1)], x)
  {
    var ls := {n, n + 1} + Targets(tab);
    var y := x + ls;
    var mid, end := [Jmp(n + 1), Lab(n)], [Jmp(last), Lab(n + 1)];
    assert mid[1] == Lab(n) && end[1] == Lab(n + 1);
    assert Covered(mid, y) && Covered(end, y);
    hide Covered;
    Cov6(a, sel, b, mid, g, end, y);
    CovDrop(a + sel + b + mid + g + end, x, ls);
  }

  // ----- a unit -----

  lemma {:induction false} CovFun(cx: Ctx, body: Stmt, n: nat, ir: bool)
    ensures Covered(GenFun(cx, body, n, ir).code, {})
  {
    hide GenStmt, CtxAfter, Wrap;
    var o := GenStmt(cx, body, n + 1, Jumps(None, None, n), ir);
    CovStmt(cx, body, n + 1, Jumps(None, None, n), ir, {n});
    var size := -CtxAfter(cx, body).off;
    var pro := [I(PushEbp), I(MovEbpEsp), I(SubEspImm(Wrap(if size < 0 then 0 else size)))];
    var zero, epi := if ir then [I(MovEaxImm(0))] else [], [Jmp(n), Lab(n), I(Leave), I(Ret)];
    assert epi[1] == Lab(n);
    Cov4(pro, o.code, zero, epi, {n});
    hide Covered;
    assert {} + {n} == {n};
    CovDrop(pro + o.code + zero + epi, {}, {n});
  }

  lemma {:induction false} CovUnit(fs: seq<FunDef>, n: nat)
    ensures Covered(GenUnit(fs, n).code, {})
    decreases |fs|
  {
    hide GenFun;
    if fs != [] {
      var o1 := GenFun(fs[0].cx, fs[0].body, n, fs[0].intRet);
      CovFun(fs[0].cx, fs[0].body, n, fs[0].intRet);
      CovUnit(fs[1..], o1.next);
      Cov2(o1.code, GenUnit(fs[1..], o1.next).code, {});
    }
  }

  lemma {:induction false} FindsLabel(c: seq<Item>, l: nat)
    requires Lab(l) in c
    ensures Find(c, l) < |c|
  {
    if c[0] != Lab(l) { FindsLabel(c[1..], l); }
  }

  /** Every jump of a unit has a target in it. */
  lemma UnitClosed(fs: seq<FunDef>, n: nat)
    ensures Closed(GenUnit(fs, n).code)
  {
    hide GenUnit;
    var c := GenUnit(fs, n).code;
    CovUnit(fs, n);
    forall k | 0 <= k < |c| && IsJump(c[k]) ensures Find(c, c[k].l) < |c| { FindsLabel(c, c[k].l); }
  }
}
