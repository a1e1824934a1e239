/** Every label the generator sets is fresh, so jumps are unambiguous. */
module CcLabels {
  import opened Options
  import opened Word32
  import opened CcAst
  import opened X86
  import opened CcGen
  import opened CcStmt

  /** How often each label is defined. */
  function Labs(c: seq<Item>): multiset<nat> {
    if c == [] then multiset{}
    else (if c[0].Lab? then multiset{c[0].l} else multiset{}) + Labs(c[1..])
  }

  lemma {:induction false} LabsCat(a: seq<Item>, b: seq<Item>)
    ensures Labs(a + b) == Labs(a) + Labs(b)
  {
    if a == [] {
      assert a + b == b;
    } else {
      assert (a + b)[1..] == a[1..] + b;
      LabsCat(a[1..], b);
    }
  }

  lemma {:induction false} LabsCode(ins: seq<Instr>)
    ensures Labs(Code(ins)) == multiset{}
    decreases |ins|
  {
    if ins != [] {
      assert Code(ins)[1..] == Code(ins[1..]);
      LabsCode(ins[1..]);
    }
  }

  lemma {:induction false} LabsAt(c: seq<Item>, i: nat)
    requires i < |c| && c[i].Lab?
    ensures Labs(c)[c[i].l] >= 1
  {
    if i > 0 { LabsAt(c[1..], i - 1); }
  }

  lemma {:induction false} LabsUnique(c: seq<Item>)
    requires forall l: nat :: Labs(c)[l] <= 1
    ensures UniqueLabels(c)
  {
    forall i, j | 0 <= i < j < |c| && c[i].Lab? && c[j].Lab? ensures c[i].l != c[j].l {
      assert c == c[..j] + c[j..];
      LabsCat(c[..j], c[j..]);
      LabsAt(c[..j], i);
      LabsAt(c[j..], 0);
      assert Labs(c)[c[j].l] <= 1;
    }
  }

  /** Each label in [x, y) at most once, none elsewhere. */
  ghost predicate Within(c: seq<Item>, x: nat, y: nat) {
    forall l: nat :: Labs(c)[l] <= if x <= l < y then 1 else 0
  }

  lemma WithinCat(a: seq<Item>, x: nat, y: nat, b: seq<Item>, y': nat, z: nat)
    requires Within(a, x, y) && Within(b, y', z) && x <= y <= y' <= z
    ensures Within(a + b, x, z)
  {
    LabsCat(a, b);
  }

  lemma WithinPlain(a: seq<Item>, x: nat, y: nat, ins: seq<Instr>)
    requires Within(a, x, y)
    ensures Within(a + Code(ins), x, y)
  {
    LabsCat(a, Code(ins));
    LabsCode(ins);
  }

  /** A label below everything else may be set anywhere. */
  lemma WithinSplit(a: seq<Item>, mid: seq<Item>, b: seq<Item>, n: nat, z: nat)
    requires Within(a + b, n + 1, z) && Labs(mid) == multiset{n} && n < z
    ensures Within(a + mid + b, n, z)
  {
    hide Labs;
    LabsCat(a, b);
    LabsCat(a, mid);
    LabsCat(a + mid, b);
    forall l: nat ensures Labs(a + mid + b)[l] <= if n <= l < z then 1 else 0 {
      assert Labs(a + mid + b)[l] == Labs(a + b)[l] + multiset{n}[l];
    }
  }

  lemma LabsNil()
    ensures Labs([]) == multiset{}
  {
  }

  lemma Labs1(i: Item)
    ensures Labs([i]) == if i.Lab? then multiset{i.l} else multiset{}
  {
    assert Labs([i][1..]) == multiset{};
  }

  lemma Labs2(i: Item, j: Item)
    ensures Labs([i, j]) == Labs([i]) + Labs([j])
  {
    assert [i, j] == [i] + [j];
    LabsCat([i], [j]);
  }

  // ----- expressions -----

  lemma {:induction false} LabsAddr(env: Env, e: Expr, n: nat)
    ensures Within(GenAddr(env, e, n).code, n, GenAddr(env, e, n).next)
    decreases e, 0
  {
    hide Labs, LvalueType, Size, Lookup, OffsetOf, IndexTail, MemberTail, LoadAddr, Within;
    LabsNone(n);
    match e
    case Var(x) =>
      if Lookup(env, x).Some? {
        var ins := LoadAddr(Lookup(env, x).value);
        WithinPlain([], n, n, ins);
        assert [] + Code(ins) == Code(ins);
      }
    case Deref(p) => LabsExpr(env, p, n);
    case Index(a, i) =>
      var oa := GenExpr(env, a, n);
      var oi := GenExpr(env, i, oa.next);
      LabsExpr(env, a, n);
      LabsExpr(env, i, oa.next);
      WithinCat(oa.code, n, oa.next, oi.code, oa.next, oi.next);
      WithinPlain(oa.code + oi.code, n, oi.next, IndexTail(Size(env, LvalueType(env, e))));
    case Member(r, f, arrow) =>
      var o := if arrow then GenExpr(env, r, n) else GenAddr(env, r, n);
      if arrow { LabsExpr(env, r, n); } else { LabsAddr(env, r, n); }
      WithinPlain(o.code, n, o.next, MemberTail(OffsetOf(env, r, f, arrow)));
    case _ =>
  }

  lemma LabsNone(n: nat)
    ensures Within([], n, n)
  {
  }

  lemma {:induction false} LabsExpr(env: Env, e: Expr, n: nat)
    ensures Within(GenExpr(env, e, n).code, n, GenExpr(env, e, n).next)
    decreases e, if IsLogicExpr(e) then 3 else 1
  {
    hide Labs, LvalueType, ValueType, Size, BinTail, UnTail, Within;
    match e
    case Num(v, _) =>
      LabsNone(n);
      WithinPlain([], n, n, [PushImm(v)]);
      assert [] + Code([PushImm(v)]) == [I(PushImm(v))];
    case Var(_) | Deref(_) | Index(_, _) | Member(_, _, _) =>
      var o := GenAddr(env, e, n);
      LabsAddr(env, e, n);
      WithinPlain(o.code, n, o.next, LoadFrom);
    case AddrOf(x) => LabsAddr(env, x, n);
    case Assign(l, r) =>
      var ol := GenAddr(env, l, n);
      var or := GenExpr(env, r, ol.next);
      LabsAddr(env, l, n);
      LabsExpr(env, r, ol.next);
      WithinCat(ol.code, n, ol.next, or.code, ol.next, or.next);
      WithinPlain(ol.code + or.code, n, or.next, StoreTo);
    case Tern(c, t, f) =>
      var oc := GenCond(env, c, n, n + 2);
      var ot := GenExpr(env, t, oc.next);
      var of := GenExpr(env, f, ot.next);
      LabsCond(env, c, n, n + 2);
      LabsExpr(env, t, oc.next);
      LabsExpr(env, f, ot.next);
      WithinFork(oc.code, ot.code, of.code, n, oc.next, ot.next, of.next);
    case Un(op, a) =>
      LabsExpr(env, a, n);
      WithinPlain(GenExpr(env, a, n).code, n, GenExpr(env, a, n).next, UnTail(op));
    case Bin(op, l, r) =>
      if IsLogic(op) {
        LabsLogicValue(env, e, n);
      } else {
        var ol := GenExpr(env, l, n);
        var or := GenExpr(env, r, ol.next);
        LabsExpr(env, l, n);
        LabsExpr(env, r, ol.next);
        WithinCat(ol.code, n, ol.next, or.code, ol.next, or.next);
        WithinPlain(ol.code + or.code, n, or.next, BinTail(env, op, ValueType(env, l), ValueType(env, r)));
      }
  }

  /** The labels of `?:` and of if/else. */
  lemma WithinFork(a: seq<Item>, t: seq<Item>, f: seq<Item>, n: nat, x: nat, y: nat, z: nat)
    requires Within(a, n + 2, x) && Within(t, x, y) && Within(f, y, z) && n + 2 <= x <= y <= z
    ensures Within(a + t + [Jmp(n + 1), Lab(n)] + f + [Lab(n + 1)], n, z)
  {
    var mid := [Jmp(n + 1), Lab(n)];
    LabsCat(a, t);
    LabsCat(a + t, mid);
    LabsCat(a + t + mid, f);
    LabsCat(a + t + mid + f, [Lab(n + 1)]);
    Labs2(Jmp(n + 1), Lab(n));
    Labs1(Jmp(n + 1));
    Labs1(Lab(n));
    Labs1(Lab(n + 1));
  }

  lemma {:induction false} LabsLogicValue(env: Env, e: Expr, n: nat)
    requires IsLogicExpr(e)
    ensures Within(GenExpr(env, e, n).code, n, GenExpr(env, e, n).next)
    decreases e, 3, 0
  {
    var o := GenLogical(env, e, n, n + 1, n + 2);
    LabsLogical(env, e, n, n + 1, n + 2);
    var a, b, c := [Lab(n), I(PushImm(1))], [Jmp(o.next), Lab(n + 1)], [I(PushImm(0)), Lab(o.next)];
    assert GenExpr(env, e, n).code == o.code + a + b + c;
    hide GenExpr, GenLogical;
    LabsCat(o.code, a);
    LabsCat(o.code + a, b);
    LabsCat(o.code + a + b, c);
    Labs2(a[0], a[1]); Labs1(a[0]); Labs1(a[1]);
    Labs2(b[0], b[1]); Labs1(b[0]); Labs1(b[1]);
    Labs2(c[0], c[1]); Labs1(c[0]); Labs1(c[1]);
  }

  lemma {:induction false} LabsLogical(env: Env, e: Expr, lt: nat, lf: nat, n: nat)
    ensures Within(GenLogical(env, e, lt, lf, n).code, n, GenLogical(env, e, lt, lf, n).next)
    decreases e, 2
  {
    if IsLogicExpr(e) {
      var ol := if e.bop.LogAnd? then GenLogical(env, e.lhs, n, lf, n + 1) else GenLogical(env, e.lhs, lt, n, n + 1);
      var or := GenLogical(env, e.rhs, lt, lf, ol.next);
      if e.bop.LogAnd? {
        LabsLogical(env, e.lhs, n, lf, n + 1);
      } else {
        LabsLogical(env, e.lhs, lt, n, n + 1);
      }
      LabsLogical(env, e.rhs, lt, lf, ol.next);
      hide Labs, Within;
      WithinCat(ol.code, n + 1, ol.next, or.code, ol.next, or.next);
      Labs1(Lab(n));
      WithinSplit(ol.code, [Lab(n)], or.code, n, or.next);
    } else {
      var o := GenExpr(env, e, n);
      LabsExpr(env, e, n);
      hide Labs, Within;
      WithinPlain(o.code, n, o.next, TestTop);
      WithinJumps(o.code + Code(TestTop), n, o.next, [Jz(lf), Jmp(lt)]);
    }
  }

  lemma WithinJumps(a: seq<Item>, x: nat, y: nat, js: seq<Item>)
    requires Within(a, x, y) && forall i :: 0 <= i < |js| ==> !js[i].Lab?
    ensures Within(a + js, x, y)
  {
    LabsCat(a, js);
    LabsFree(js);
  }

  lemma {:induction false} LabsFree(js: seq<Item>)
    requires forall i :: 0 <= i < |js| ==> !js[i].Lab?
    ensures Labs(js) == multiset{}
  {
    if js != [] { LabsFree(js[1..]); }
  }

  lemma {:induction false} LabsCond(env: Env, e: Expr, lf: nat, n: nat)
    ensures Within(GenCond(env, e, lf, n).code, n, GenCond(env, e, lf, n).next)
    decreases e, 4
  {
    if IsLogicExpr(e) {
      var o := GenLogical(env, e, n, lf, n + 1);
      LabsLogical(env, e, n, lf, n + 1);
      hide Labs, Within;
      Labs1(Lab(n));
      assert o.code + [] == o.code;
      WithinSplitEnd(o.code, n, o.next);
    } else {
      var o := GenExpr(env, e, n);
      LabsExpr(env, e, n);
      hide Labs, Within;
      WithinPlain(o.code, n, o.next, TestTop);
      WithinJumps(o.code + Code(TestTop), n, o.next, [Jz(lf)]);
    }
  }

  lemma WithinSplitEnd(a: seq<Item>, n: nat, z: nat)
    requires Within(a, n + 1, z) && n < z
    ensures Within(a + [Lab(n)], n, z)
  {
    LabsCat(a, [Lab(n)]);
    Labs1(Lab(n));
  }

  // ----- statements -----

  lemma LabsDrop(env: Env, e: Expr, n: nat)
    ensures Within(GenDrop(env, e, n).code, n, GenDrop(env, e, n).next)
  {
    LabsExpr(env, e, n);
    WithinJumps(GenExpr(env, e, n).code, n, GenExpr(env, e, n).next, [I(AddEspImm(4))]);
  }

  lemma {:induction false} LabsStmt(cx: Ctx, s: Stmt, n: nat, j: Jumps, ir: bool)
    ensures Within(GenStmt(cx, s, n, j, ir).code, n, GenStmt(cx, s, n, j, ir).next)
    decreases s, 1
  {
    hide Labs, Within, GenExpr, GenCond, GenDrop, CtxAfter, LoopCode, PostCode;
    LabsNone(n);
    match s
    case ExprS(e) => LabsDrop(cx.env, e, n);
    case Decl(x, t, i) =>
      if i.Some? { LabsDrop(AddLocal(cx, x, t).env, Assign(Var(x), i.value), n); }
    case Block(ss) => LabsAll(cx, ss, n, j, ir);
    case If(c, t, f) =>
      var oc := GenCond(cx.env, c, n, n + 2);
      var ot := GenStmt(cx, t, oc.next, j, ir);
      LabsCond(cx.env, c, n, n + 2);
      LabsStmt(cx, t, oc.next, j, ir);
      var of := match f case Some(e) => GenStmt(CtxAfter(cx, t), e, ot.next, j, ir) case None => Out([], ot.next);
      if f.Some? { LabsStmt(CtxAfter(cx, t), f.value, ot.next, j, ir); } else { LabsNone(ot.next); }
      WithinFork(oc.code, ot.code, of.code, n, oc.next, ot.next, of.next);
    case While(c, b) => LabsLoop(Loop(cx, Some(c), b, None, n, n + 1, n, n + 2, false, j), n, ir);
    case Do(_, _) => LabsDo(cx, s, n, j, ir);
    case For(i, _, _, _) =>
      var lp := ForLoop(cx, s, n, j, ir);
      LabsLoop(lp, lp.lStart, ir);
      match i {
        case Some(d) =>
          var o := GenStmt(cx, d, n, j, ir);
          LabsStmt(cx, d, n, j, ir);
          WithinCat(o.code, n, o.next, LoopCode(lp, ir), lp.lStart, PostCode(lp, ir).next);
        case None => assert [] + LoopCode(lp, ir) == LoopCode(lp, ir);
      }
    case Switch(_, _) => LabsSwitch(cx, s, n, j, ir);
    case Return(Some(e)) =>
      var o := GenExpr(cx.env, e, n);
      LabsExpr(cx.env, e, n);
      WithinJumps(o.code, n, o.next, [I(PopEax), Jmp(j.epi)]);
    case _ =>
      var js := GenStmt(cx, s, n, j, ir).code;
      WithinJumps([], n, n, js);
      assert [] + js == js;
  }

  lemma {:induction false} LabsAll(cx: Ctx, ss: seq<Stmt>, n: nat, j: Jumps, ir: bool)
    ensures Within(GenAll(cx, ss, n, j, ir).code, n, GenAll(cx, ss, n, j, ir).next)
    decreases ss, 0
  {
    hide Labs, Within, GenStmt, CtxAfter;
    LabsNone(n);
    if ss != [] {
      var o1 := GenStmt(cx, ss[0], n, j, ir);
      var o2 := GenAll(CtxAfter(cx, ss[0]), ss[1..], o1.next, j, ir);
      LabsStmt(cx, ss[0], n, j, ir);
      LabsAll(CtxAfter(cx, ss[0]), ss[1..], o1.next, j, ir);
      WithinCat(o1.code, n, o1.next, o2.code, o1.next, o2.next);
    }
  }

  lemma {:induction false} LabsLoop(lp: Loop, n: nat, ir: bool)
    requires lp.lStart == n && lp.lEnd == n + 1 && lp.next == if lp.isFor then n + 3 else n + 2
    requires lp.isFor ==> lp.lCont == n + 2
    ensures Within(LoopCode(lp, ir), n, PostCode(lp, ir).next)
    decreases lp.body, 4
  {
    var oc, ob, op := TestCode(lp), BodyCode(lp, ir), PostCode(lp, ir);
    LabsNone(lp.next);
    LabsNone(ob.next);
    if lp.test.Some? { LabsCond(lp.cx.env, lp.test.value, lp.lEnd, lp.next); }
    LabsStmt(lp.cx, lp.body, oc.next, Jumps(Some(lp.lEnd), Some(lp.lCont), lp.j.epi), ir);
    if lp.post.Some? { LabsDrop(CtxAfter(lp.cx, lp.body).env, lp.post.value, ob.next); }
    LoopPieces(oc.code, ob.code, ContCode(lp), op.code, n, if lp.isFor then n + 3 else n + 2, oc.next, ob.next, op.next);
  }

  lemma LoopPieces(a: seq<Item>, b: seq<Item>, k: seq<Item>, p: seq<Item>, n: nat, w: nat, x: nat, y: nat, z: nat)
    requires n + 2 <= w <= x <= y <= z && Within(a, w, x) && Within(b, x, y) && Within(p, y, z)
    requires k == [] || (k == [Lab(n + 2)] && w == n + 3)
    ensures Within([Lab(n)] + a + b + k + p + [Jmp(n), Lab(n + 1)], n, z)
  {
    hide Labs;
    LabsNil();
    var s, t := [Lab(n)], [Jmp(n), Lab(n + 1)];
    LabsCat(s, a);
    LabsCat(s + a, b);
    LabsCat(s + a + b, k);
    LabsCat(s + a + b + k, p);
    LabsCat(s + a + b + k + p, t);
    Labs1(Lab(n));
    Labs1(Lab(n + 2));
    Labs2(Jmp(n), Lab(n + 1));
    Labs1(Jmp(n));
    Labs1(Lab(n + 1));
  }

  lemma {:induction false} LabsDo(cx: Ctx, s: Stmt, n: nat, j: Jumps, ir: bool)
    requires s.Do?
    ensures Within(GenStmt(cx, s, n, j, ir).code, n, GenStmt(cx, s, n, j, ir).next)
    decreases s, 0
  {
    var ob := GenStmt(cx, s.loop, n + 3, Jumps(Some(n + 2), Some(n + 1), j.epi), ir);
    var oc := GenCond(CtxAfter(cx, s.loop).env, s.cond, ob.next, ob.next + 1);
    LabsStmt(cx, s.loop, n + 3, Jumps(Some(n + 2), Some(n + 1), j.epi), ir);
    LabsCond(CtxAfter(cx, s.loop).env, s.cond, ob.next, ob.next + 1);
    assert GenStmt(cx, s, n, j, ir)
        == Out([Lab(n)] + ob.code + [Lab(n + 1)] + oc.code + [Jmp(n), Lab(ob.next), Lab(n + 2)], oc.next) by {
      hide GenCond, CtxAfter;
    }
    DoPieces(ob.code, oc.code, n, ob.next, oc.next);
  }

  lemma DoPieces(b: seq<Item>, c: seq<Item>, n: nat, x: nat, z: nat)
    requires n + 3 <= x < z && Within(b, n + 3, x) && Within(c, x + 1, z)
    ensures Within([Lab(n)] + b + [Lab(n + 1)] + c + [Jmp(n), Lab(x), Lab(n + 2)], n, z)
  {
    hide Labs;
    var s, k, t := [Lab(n)], [Lab(n + 1)], [Jmp(n), Lab(x), Lab(n + 2)];
    LabsCat(s, b);
    LabsCat(s + b, k);
    LabsCat(s + b + k, c);
    LabsCat(s + b + k + c, t);
    assert t == [Jmp(n)] + [Lab(x), Lab(n + 2)];
    LabsCat([Jmp(n)], [Lab(x), Lab(n + 2)]);
    Labs2(Lab(x), Lab(n + 2));
    Labs1(Lab(n));
    Labs1(Lab(n + 1));
    Labs1(Jmp(n));
    Labs1(Lab(x));
    Labs1(Lab(n + 2));
  }

  lemma {:induction false} LabsItems(cx: Ctx, items: seq<SwItem>, n: nat, j: Jumps, ir: bool)
    ensures Within(GenItems(cx, items, n, j, ir).code, n, GenItems(cx, items, n, j, ir).next)
    decreases items, 0
  {
    hide Labs, Within, GenItem, CtxAfterItem;
    LabsNone(n);
    if items != [] {
      var o1 := GenItem(cx, items[0], n, j, ir);
      var o2 := GenItems(CtxAfterItem(cx, items[0]), items[1..], o1.next, j, ir);
      LabsItem(cx, items[0], n, j, ir);
      LabsItems(CtxAfterItem(cx, items[0]), items[1..], o1.next, j, ir);
      WithinCat(o1.code, n, o1.next, o2.code, o1.next, o2.next);
    }
  }

  lemma {:induction false} LabsItem(cx: Ctx, it: SwItem, n: nat, j: Jumps, ir: bool)
    ensures Within(GenItem(cx, it, n, j, ir).code, n, GenItem(cx, it, n, j, ir).next)
    decreases it, 2
  {
    match it
    case Body(s) => LabsStmt(cx, s, n, j, ir);
    case _ => Labs1(Lab(n));
  }

  lemma {:induction false} LabsDispatch(temp: Word, cases: seq<(Word, nat)>)
    ensures Labs(Dispatch(temp, cases)) == multiset{}
    decreases |cases|
  {
    if cases != [] {
      var one := [I(LoadEaxEbp(temp)), I(CmpEaxImm(cases[0].0)), Jz(cases[0].1)];
      LabsFree(one);
      LabsDispatch(temp, cases[1..]);
      LabsCat(one, Dispatch(temp, cases[1..]));
    }
  }

  lemma {:induction false} LabsSwitch(cx: Ctx, s: Stmt, n: nat, j: Jumps, ir: bool)
    requires s.Switch?
    ensures Within(GenStmt(cx, s, n, j, ir).code, n, GenStmt(cx, s, n, j, ir).next)
    decreases s, 0
  {
    hide Labs, Within, GenExpr, GenItems, TableOf, Dispatch, TempSlot, Wrap, CtxAfter, GenCond, GenDrop, LoopCode, GenAll;
    var oc := GenExpr(cx.env, s.cond, n);
    var temp := Wrap(TempSlot(cx));
    var cx1 := cx.(off := TempSlot(cx));
    var j1 := Jumps(Some(oc.next + 1), j.cont, j.epi);
    var ob := GenItems(cx1, s.items, oc.next + 2, j1, ir);
    var tab := TableOf(cx1, s.items, oc.next + 2, j1, ir);
    var last := match tab.dflt case Some(l) => l case None => oc.next + 1;
    var g := Dispatch(temp, tab.cases);
    LabsExpr(cx.env, s.cond, n);
    LabsItems(cx1, s.items, oc.next + 2, j1, ir);
    LabsDispatch(temp, tab.cases);
    assert GenStmt(cx, s, n, j, ir)
        == Out(oc.code + [I(PopEax), I(StoreEbpEax(temp)), Jmp(oc.next)] + ob.code + [Jmp(oc.next + 1), Lab(oc.next)]
               + g + [Jmp(last), Lab(oc.next + 1)], ob.next);
    hide GenStmt;
    SwitchPieces(oc.code, [I(PopEax), I(StoreEbpEax(temp)), Jmp(oc.next)], ob.code, g, n, oc.next, ob.next, last);
  }

  lemma SwitchPieces(a: seq<Item>, sel: seq<Item>, b: seq<Item>, g: seq<Item>, n: nat, x: nat, z: nat, last: nat)
    requires n <= x && x + 2 <= z && Within(a, n, x) && Within(b, x + 2, z) && Labs(g) == multiset{}
    requires forall i :: 0 <= i < |sel| ==> !sel[i].Lab?
    ensures Within(a + sel + b + [Jmp(x + 1), Lab(x)] + g + [Jmp(last), Lab(x + 1)], n, z)
  {
    var mid, t := [Jmp(x + 1), Lab(x)], [Jmp(last), Lab(x + 1)];
    LabsFree(sel);
    LabsCat(a, sel);
    LabsCat(a + sel, b);
    LabsCat(a + sel + b, mid);
    LabsCat(a + sel + b + mid, g);
    LabsCat(a + sel + b + mid + g, t);
    Labs2(mid[0], mid[1]);
    Labs2(t[0], t[1]);
    Labs1(mid[0]);
    Labs1(mid[1]);
    Labs1(t[0]);
    Labs1(t[1]);
  }

  lemma LabsFun(cx: Ctx, body: Stmt, n: nat, ir: bool)
    ensures Within(GenFun(cx, body, n, ir).code, n, GenFun(cx, body, n, ir).next)
  {
    hide Labs, Within, GenStmt, CtxAfter;
    var o := GenStmt(cx, body, n + 1, Jumps(None, None, n), ir);
    var size := -CtxAfter(cx, body).off;
    LabsStmt(cx, body, n + 1, Jumps(None, None, n), ir);
    FunPieces([I(PushEbp), I(MovEbpEsp), I(SubEspImm(Wrap(if size < 0 then 0 else size)))], o.code,
              if ir then [I(MovEaxImm(0))] else [], n, o.next);
  }

  lemma FunPieces(pro: seq<Item>, b: seq<Item>, zero: seq<Item>, n: nat, z: nat)
    requires Within(b, n + 1, z) && n < z
    requires forall i :: 0 <= i < |pro| ==> !pro[i].Lab?
    requires forall i :: 0 <= i < |zero| ==> !zero[i].Lab?
    ensures Within(pro + b + zero + [Jmp(n), Lab(n), I(Leave), I(Ret)], n, z)
  {
    hide Labs;
    var jl, lr := [Jmp(n), Lab(n)], [I(Leave), I(Ret)];
    var epi := jl + lr;
    assert epi == [Jmp(n), Lab(n), I(Leave), I(Ret)];
    LabsCat(pro, b);
    LabsCat(pro + b, zero);
    LabsCat(pro + b + zero, epi);
    LabsCat(jl, lr);
    LabsFree(pro);
    LabsFree(zero);
    LabsFree(lr);
    Labs2(Jmp(n), Lab(n));
    Labs1(Jmp(n));
    Labs1(Lab(n));
  }

  // ----- a translation unit -----

  datatype FunDef = FunDef(cx: Ctx, body: Stmt, intRet: bool)

  function GenUnit(fs: seq<FunDef>, n: nat): (o: Out)
    ensures o.next >= n
    decreases |fs|
  {
    if fs == [] then Out([], n)
    else
      var o1 := GenFun(fs[0].cx, fs[0].body, n, fs[0].intRet);
      var o2 := GenUnit(fs[1..], o1.next);
      Out(o1.code + o2.code, o2.next)
  }

  lemma {:induction false} LabsUnit(fs: seq<FunDef>, n: nat)
    ensures Within(GenUnit(fs, n).code, n, GenUnit(fs, n).next)
    decreases |fs|
  {
    LabsNone(n);
    if fs != [] {
      var o1 := GenFun(fs[0].cx, fs[0].body, n, fs[0].intRet);
      var o2 := GenUnit(fs[1..], o1.next);
      LabsFun(fs[0].cx, fs[0].body, n, fs[0].intRet);
      LabsUnit(fs[1..], o1.next);
      WithinCat(o1.code, n, o1.next, o2.code, o1.next, o2.next);
    }
  }

  /** No label is set twice in a whole unit. */
  lemma UnitLabelsUnique(fs: seq<FunDef>, n: nat)
    ensures UniqueLabels(GenUnit(fs, n).code)
  {
    LabsUnit(fs, n);
    LabsUnique(GenUnit(fs, n).code);
  }
}
