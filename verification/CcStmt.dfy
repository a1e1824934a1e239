/** Statements: syntax, scoping and slot allocation, meaning, and the code
    `gen_stmt` and `parse_function_def` append for them.
 */
module CcStmt {
  import opened Options
  import opened Word32
  import opened CcAst
  import opened CcConst
  import opened CcSource
  import opened X86
  import opened CcGen

  datatype Stmt =
    | ExprS(e: Expr)
    | Decl(name: string, ty: Ty, init: Option<Expr>)
    | Block(body: seq<Stmt>)
    | If(cond: Expr, thn: Stmt, els: Option<Stmt>)
    | While(cond: Expr, loop: Stmt)
    | Do(loop: Stmt, cond: Expr)
    | For(start: Option<Stmt>, test: Option<Expr>, post: Option<Expr>, loop: Stmt)
    | Switch(cond: Expr, items: seq<SwItem>)
    | Break
    | Continue
    | Return(val: Option<Expr>)

  /** Entries of a switch body. */
  datatype SwItem = Case(key: Expr) | Default | Body(stmt: Stmt)

  // ----- scope and frame layout -----

  /** Names in scope and the lowest frame offset handed out so far. */
  datatype Ctx = Ctx(env: Env, off: int)

  function AlignDown(x: int): int { x - x % 4 }

  /** `add_local`. */
  function AddLocal(cx: Ctx, name: string, ty: Ty): Ctx {
    var off := AlignDown(cx.off - Size(cx.env, ty));
    Ctx(cx.env.(locals := cx.env.locals + [Sym(name, ty, Local(off))]), off)
  }

  /** `arg_slot_bytes`: a record argument spans as many words as it needs. */
  function ArgSlot(records: seq<Record>, t: Ty): nat {
    if t.TRec? then (Size(Env([], [], records), t) + 3) / 4 * 4 else 4
  }

  /** Parameters from `off` upward, first parameter lowest. */
  function ParamSyms(records: seq<Record>, ps: seq<(string, Ty)>, off: int): (ss: seq<Sym>)
    ensures |ss| == |ps|
    decreases |ps|
  {
    if ps == [] then []
    else [Sym(ps[0].0, ps[0].1, Local(off))] + ParamSyms(records, ps[1..], off + ArgSlot(records, ps[0].1))
  }

  /** The slot a switch reserves for its selector. */
  function TempSlot(cx: Ctx): int { AlignDown(cx.off - 4) }

  /** The generator's scope and offset after a statement: a block and a `for`
      drop the names declared inside, nothing else does, and no slot is ever
      given back. */
  function CtxAfter(cx: Ctx, s: Stmt): Ctx
    decreases s, 1
  {
    match s
    case Decl(x, t, _) => AddLocal(cx, x, t)
    case Block(ss) => CtxAfterAll(cx, ss).(env := cx.env)
    case If(_, t, f) =>
      var c1 := CtxAfter(cx, t);
      (match f case Some(e) => CtxAfter(c1, e) case None => c1)
    case While(_, b) => CtxAfter(cx, b)
    case Do(b, _) => CtxAfter(cx, b)
    case For(i, _, _, b) =>
      var c1 := match i case Some(d) => CtxAfter(cx, d) case None => cx;
      CtxAfter(c1, b).(env := cx.env)
    case Switch(_, items) => CtxAfterItems(cx.(off := TempSlot(cx)), items)
    case _ => cx
  }

  function CtxAfterAll(cx: Ctx, ss: seq<Stmt>): Ctx
    decreases ss, 0
  {
    if ss == [] then cx else CtxAfterAll(CtxAfter(cx, ss[0]), ss[1..])
  }

  function CtxAfterItems(cx: Ctx, items: seq<SwItem>): Ctx
    decreases items, 0
  {
    if items == [] then cx
    else CtxAfterItems(CtxAfterItem(cx, items[0]), items[1..])
  }

  function CtxAfterItem(cx: Ctx, it: SwItem): Ctx
    decreases it, 1
  {
    match it case Body(s) => CtxAfter(cx, s) case _ => cx
  }

  /** Scope after a statement as C has it: only a declaration adds a name. */
  function ScopeAfter(cx: Ctx, s: Stmt): Ctx {
    if s.Decl? then CtxAfter(cx, s) else CtxAfter(cx, s).(env := cx.env)
  }

  // ----- meaning -----

  datatype Result =
    | Fall(mem: SMem)
    | Broke(mem: SMem)
    | Continued(mem: SMem)
    | Returned(val: Option<Word>, mem: SMem)
    | Undefined
    | NoFuel

  /** What does not change while a function body runs. */
  datatype Fun = Fun(frame: Word, intRet: bool)

  function ScopeOf(fn: Fun, cx: Ctx): Scope { Scope(Cc, cx.env, fn.frame) }

  function ZeroRet(fn: Fun): Option<Word> { if fn.intRet then Some(0) else None }

  /** Index after the label a selector value jumps to: the first equal case,
      else the last default, else the end. */
  function FirstCase(items: seq<SwItem>, v: Word): Option<nat> {
    if items == [] then None
    else if items[0].Case? && EvalConst(items[0].key) == Some(v) then Some(0)
    else match FirstCase(items[1..], v) case Some(k) => Some(k + 1) case None => None
  }

  function LastDefault(items: seq<SwItem>): Option<nat> {
    if items == [] then None
    else match LastDefault(items[1..])
      case Some(k) => Some(k + 1)
      case None => if items[0].Default? then Some(0) else None
  }

  function Entry(items: seq<SwItem>, v: Word): (k: nat)
    ensures k <= |items|
  {
    FirstCaseBound(items, v);
    LastDefaultBound(items);
    match FirstCase(items, v)
    case Some(k) => k
    case None => (match LastDefault(items) case Some(k) => k case None => |items|)
  }

  lemma FirstCaseBound(items: seq<SwItem>, v: Word)
    ensures FirstCase(items, v).Some? ==> FirstCase(items, v).value < |items|
  {
  }

  lemma LastDefaultBound(items: seq<SwItem>)
    ensures LastDefault(items).Some? ==> LastDefault(items).value < |items|
  {
  }

  /** Big-step execution; `fuel` bounds loop iterations, and NoFuel says only
      that the bound was too small. */
  function Execute(fn: Fun, cx: Ctx, s: Stmt, m: SMem, fuel: nat): Result
    decreases fuel, s, 1
  {
    var sc := ScopeOf(fn, cx);
    match s
    case ExprS(e) => (match Eval(sc, e, m) case Some(r) => Fall(r.mem) case None => Undefined)
    case Decl(x, t, i) =>
      (match i
       case None => Fall(m)
       case Some(e) =>
         (match Eval(ScopeOf(fn, AddLocal(cx, x, t)), Assign(Var(x), e), m)
          case Some(r) => Fall(r.mem) case None => Undefined))
    case Block(ss) => ExecuteAll(fn, cx, ss, m, fuel)
    case If(c, t, f) =>
      (match Eval(sc, c, m)
       case None => Undefined
       case Some(r) =>
         if r.val != 0 then Execute(fn, cx, t, r.mem, fuel)
         else match f
           case Some(e) => Execute(fn, ScopeAfter(cx, t), e, r.mem, fuel)
           case None => Fall(r.mem))
    case While(c, b) => ExecuteLoop(fn, cx, Some(c), b, None, m, fuel)
    case For(i, c, p, b) =>
      (match i
       case None => ExecuteLoop(fn, cx, c, b, p, m, fuel)
       case Some(d) =>
         (match Execute(fn, cx, d, m, fuel)
          case Fall(m1) => ExecuteLoop(fn, ScopeAfter(cx, d), c, b, p, m1, fuel)
          case r => r))
    case Do(b, c) =>
      (match Execute(fn, cx, b, m, fuel)
       case Fall(m1) => ExecuteAgain(fn, cx, s, c, m1, fuel)
       case Continued(m1) => ExecuteAgain(fn, cx, s, c, m1, fuel)
       case Broke(m1) => Fall(m1)
       case r => r)
    case Switch(c, items) =>
      (match Eval(sc, c, m)
       case None => Undefined
       case Some(r) =>
         (match ExecuteItems(fn, cx.(off := TempSlot(cx)), items, Entry(items, r.val), r.mem, fuel)
          case Broke(m1) => Fall(m1)
          case q => q))
    case Break => Broke(m)
    case Continue => Continued(m)
    case Return(None) => Returned(ZeroRet(fn), m)
    case Return(Some(e)) =>
      (match Eval(sc, e, m) case Some(r) => Returned(Some(r.val), r.mem) case None => Undefined)
  }

  /** The test at the bottom of `do`. */
  function ExecuteAgain(fn: Fun, cx: Ctx, s: Stmt, c: Expr, m: SMem, fuel: nat): Result
    requires s.Do?
    decreases fuel, s, 0
  {
    match Eval(ScopeOf(fn, cx), c, m)
    case None => Undefined
    case Some(r) =>
      if r.val == 0 then Fall(r.mem)
      else if fuel == 0 then NoFuel
      else Execute(fn, cx, s, r.mem, fuel - 1)
  }

  /** `while` and the loop of `for`, whose test and step may be missing. */
  function ExecuteLoop(fn: Fun, cx: Ctx, c: Option<Expr>, b: Stmt, p: Option<Expr>, m: SMem, fuel: nat): Result
    decreases fuel, b, 2
  {
    var sc := ScopeOf(fn, cx);
    match (match c case Some(e) => Eval(sc, e, m) case None => Some(Res(1, m)))
    case None => Undefined
    case Some(r) =>
      if r.val == 0 then Fall(r.mem)
      else
        match Execute(fn, cx, b, r.mem, fuel)
        case Fall(m1) => ExecuteStep(fn, cx, c, b, p, m1, fuel)
        case Continued(m1) => ExecuteStep(fn, cx, c, b, p, m1, fuel)
        case Broke(m1) => Fall(m1)
        case q => q
  }

  function ExecuteStep(fn: Fun, cx: Ctx, c: Option<Expr>, b: Stmt, p: Option<Expr>, m: SMem, fuel: nat): Result
    decreases fuel, b, 0
  {
    match (match p case Some(e) => Eval(ScopeOf(fn, cx), e, m) case None => Some(Res(0, m)))
    case None => Undefined
    case Some(r) => if fuel == 0 then NoFuel else ExecuteLoop(fn, cx, c, b, p, r.mem, fuel - 1)
  }

  function ExecuteAll(fn: Fun, cx: Ctx, ss: seq<Stmt>, m: SMem, fuel: nat): Result
    decreases fuel, ss, 0
  {
    if ss == [] then Fall(m)
    else match Execute(fn, cx, ss[0], m, fuel)
      case Fall(m1) => ExecuteAll(fn, ScopeAfter(cx, ss[0]), ss[1..], m1, fuel)
      case r => r
  }

  /** Run a switch body from entry `k`, labels falling through. */
  function ExecuteItems(fn: Fun, cx: Ctx, items: seq<SwItem>, k: nat, m: SMem, fuel: nat): Result
    decreases fuel, items, 0
  {
    if items == [] then Fall(m)
    else
      var cx' := if items[0].Body? then ScopeAfter(cx, items[0].stmt) else cx;
      if k > 0 then ExecuteItems(fn, cx', items[1..], k - 1, m, fuel)
      else match ExecuteItem(fn, cx, items[0], m, fuel)
        case Fall(m1) => ExecuteItems(fn, cx', items[1..], 0, m1, fuel)
        case r => r
  }

  function ExecuteItem(fn: Fun, cx: Ctx, it: SwItem, m: SMem, fuel: nat): Result
    decreases fuel, it, 2
  {
    match it case Body(s) => Execute(fn, cx, s, m, fuel) case _ => Fall(m)
  }

  // ----- acceptance -----

  /** Labels in force: nearest break target, nearest enclosing loop's continue
      target, function epilogue. */
  datatype Jumps = Jumps(brk: Option<nat>, cont: Option<nat>, epi: nat)

  predicate Typed(cx: Ctx, e: Expr) { TypeOf(Cc, cx.env, e).Some? }

  predicate TypedOpt(cx: Ctx, e: Option<Expr>) { e.None? || Typed(cx, e.value) }

  /** The statement is grammatical (see Grammatical) and the compiler accepts it:
      types check, case labels are constant, break and continue have a target. */
  predicate Accepts(cx: Ctx, s: Stmt, inBreak: bool, inLoop: bool)
    decreases s, 1
  {
    match s
    case ExprS(e) => Typed(cx, e)
    case Decl(x, t, i) => i.None? || Typed(AddLocal(cx, x, t), Assign(Var(x), i.value))
    case Block(ss) => AcceptsAll(cx, ss, inBreak, inLoop)
    case If(c, t, f) =>
      && Typed(cx, c) && !t.Decl? && Accepts(cx, t, inBreak, inLoop)
      && (match f
          case Some(e) => !e.Decl? && Accepts(CtxAfter(cx, t), e, inBreak, inLoop)
          case None => true)
    case While(c, b) => Typed(cx, c) && !b.Decl? && Accepts(cx, b, true, true)
    case Do(b, c) => !b.Decl? && Accepts(cx, b, true, true) && Typed(CtxAfter(cx, b), c)
    case For(i, c, p, b) =>
      var cx1 := match i case Some(d) => CtxAfter(cx, d) case None => cx;
      && (i.None? || ((i.value.Decl? || i.value.ExprS?) && Accepts(cx, i.value, false, false)))
      && TypedOpt(cx1, c) && !b.Decl? && Accepts(cx1, b, true, true) && TypedOpt(CtxAfter(cx1, b), p)
    case Switch(c, items) => Typed(cx, c) && AcceptsItems(cx.(off := TempSlot(cx)), items, inLoop)
    case Break => inBreak
    case Continue => inLoop
    case Return(v) => TypedOpt(cx, v)
  }

  predicate AcceptsAll(cx: Ctx, ss: seq<Stmt>, inBreak: bool, inLoop: bool)
    decreases ss, 0
  {
    ss == [] || (Accepts(cx, ss[0], inBreak, inLoop) && AcceptsAll(CtxAfter(cx, ss[0]), ss[1..], inBreak, inLoop))
  }

  predicate AcceptsItems(cx: Ctx, items: seq<SwItem>, inLoop: bool)
    decreases items, 0
  {
    items == [] || (AcceptsItem(cx, items[0], inLoop) && AcceptsItems(CtxAfterItem(cx, items[0]), items[1..], inLoop))
  }

  predicate AcceptsItem(cx: Ctx, it: SwItem, inLoop: bool)
    decreases it, 1
  {
    match it
    case Case(k) => EvalConst(k).Some?
    case Default => true
    case Body(s) => Accepts(cx, s, true, inLoop)
  }

  /** What the parser guarantees: no bare declaration under `if`, a loop or
      `else`, and a `for` starts with a declaration or an expression. */
  predicate Grammatical(s: Stmt)
    decreases s, 1
  {
    match s
    case Block(ss) => GrammaticalAll(ss)
    case If(_, t, f) => !t.Decl? && Grammatical(t) && (f.None? || (!f.value.Decl? && Grammatical(f.value)))
    case While(_, b) => !b.Decl? && Grammatical(b)
    case Do(b, _) => !b.Decl? && Grammatical(b)
    case For(i, _, _, b) => (i.None? || i.value.Decl? || i.value.ExprS?) && !b.Decl? && Grammatical(b)
    case Switch(_, items) => GrammaticalItems(items)
    case _ => true
  }

  predicate GrammaticalAll(ss: seq<Stmt>)
    decreases ss, 0
  {
    ss == [] || (Grammatical(ss[0]) && GrammaticalAll(ss[1..]))
  }

  predicate GrammaticalItem(it: SwItem)
    decreases it, 1
  {
    match it case Body(s) => Grammatical(s) case _ => true
  }

  predicate GrammaticalItems(items: seq<SwItem>)
    decreases items, 0
  {
    items == [] || (GrammaticalItem(items[0]) && GrammaticalItems(items[1..]))
  }

  /** No switch body declares a name: such a name would stay in scope after the
      switch, because only braces parsed as a block restore the scope. */
  predicate NoLeak(s: Stmt)
    decreases s, 1
  {
    match s
    case Decl(_, _, _) => false
    case If(_, t, f) => NoLeak(t) && (f.None? || NoLeak(f.value))
    case While(_, b) => NoLeak(b)
    case Do(b, _) => NoLeak(b)
    case Switch(_, items) => NoLeakItems(items)
    case _ => true
  }

  predicate NoLeakItems(items: seq<SwItem>)
    decreases items, 0
  {
    items == [] || (NoLeakItem(items[0]) && NoLeakItems(items[1..]))
  }

  predicate NoLeakItem(it: SwItem)
    decreases it, 1
  {
    match it case Body(s) => NoLeak(s) case _ => true
  }

  /** NoLeak at every statement, at any depth, that is not itself a declaration. */
  predicate ScopeSafe(s: Stmt)
    decreases s, 1
  {
    && (s.Decl? || NoLeak(s))
    && match s
       case Block(ss) => ScopeSafeAll(ss)
       case If(_, t, f) => ScopeSafe(t) && (f.None? || ScopeSafe(f.value))
       case While(_, b) => ScopeSafe(b)
       case Do(b, _) => ScopeSafe(b)
       case For(i, _, _, b) => (i.None? || ScopeSafe(i.value)) && ScopeSafe(b) && NoLeak(b)
       case Switch(_, items) => ScopeSafeItems(items)
       case _ => true
  }

  predicate ScopeSafeAll(ss: seq<Stmt>)
    decreases ss, 0
  {
    ss == [] || (ScopeSafe(ss[0]) && ScopeSafeAll(ss[1..]))
  }

  predicate ScopeSafeItems(items: seq<SwItem>)
    decreases items, 0
  {
    items == [] || (ScopeSafeItem(items[0]) && ScopeSafeItems(items[1..]))
  }

  predicate ScopeSafeItem(it: SwItem)
    decreases it, 1
  {
    match it case Body(s) => ScopeSafe(s) case _ => true
  }

  // ----- code -----

  /** `gen_expr` then `add esp, 4`. */
  function GenDrop(env: Env, e: Expr, n: nat): (o: Out)
    ensures o.next >= n
  {
    var o := GenExpr(env, e, n);
    Out(o.code + [I(AddEspImm(4))], o.next)
  }

  /** The shape `while` and `for` share. */
  datatype Loop = Loop(cx: Ctx, test: Option<Expr>, body: Stmt, post: Option<Expr>,
                       lStart: nat, lEnd: nat, lCont: nat, next: nat, isFor: bool, j: Jumps)

  function TestCode(lp: Loop): (o: Out)
    ensures o.next >= lp.next
  {
    match lp.test case Some(e) => GenCond(lp.cx.env, e, lp.lEnd, lp.next) case None => Out([], lp.next)
  }

  function BodyCode(lp: Loop, intRet: bool): (o: Out)
    ensures o.next >= lp.next
    decreases lp.body, 2
  {
    GenStmt(lp.cx, lp.body, TestCode(lp).next, Jumps(Some(lp.lEnd), Some(lp.lCont), lp.j.epi), intRet)
  }

  function PostCode(lp: Loop, intRet: bool): (o: Out)
    ensures o.next >= lp.next
    decreases lp.body, 3
  {
    var ob := BodyCode(lp, intRet);
    match lp.post case Some(e) => GenDrop(CtxAfter(lp.cx, lp.body).env, e, ob.next) case None => Out([], ob.next)
  }

  function ContCode(lp: Loop): seq<Item> { if lp.isFor then [Lab(lp.lCont)] else [] }

  function LoopCode(lp: Loop, intRet: bool): seq<Item>
    decreases lp.body, 4
  {
    [Lab(lp.lStart)] + TestCode(lp).code + BodyCode(lp, intRet).code + ContCode(lp) + PostCode(lp, intRet).code
    + [Jmp(lp.lStart), Lab(lp.lEnd)]
  }

  /** The loop of a `for` whose initialiser ran in `cx`. */
  function ForLoop(cx: Ctx, s: Stmt, n: nat, j: Jumps, intRet: bool): (lp: Loop)
    requires s.For?
    ensures lp.body == s.loop && lp.next >= n
    decreases s, 0
  {
    var next := match s.start case Some(d) => GenStmt(cx, d, n, j, intRet).next case None => n;
    var cx1 := match s.start case Some(d) => CtxAfter(cx, d) case None => cx;
    Loop(cx1, s.test, s.loop, s.post, next, next + 1, next + 2, next + 3, true, j)
  }

  /** Code and next label, and for a switch body the case table. */
  datatype Table = Table(cases: seq<(Word, nat)>, dflt: Option<nat>)

  function GenStmt(cx: Ctx, s: Stmt, n: nat, j: Jumps, intRet: bool): (o: Out)
    ensures o.next >= n
    decreases s, 1
  {
    match s
    case ExprS(e) => GenDrop(cx.env, e, n)
    case Decl(x, t, i) =>
      (match i
       case None => Out([], n)
       case Some(e) => GenDrop(AddLocal(cx, x, t).env, Assign(Var(x), e), n))
    case Block(ss) => GenAll(cx, ss, n, j, intRet)
    case If(c, t, f) =>
      var oc := GenCond(cx.env, c, n, n + 2);
      var ot := GenStmt(cx, t, oc.next, j, intRet);
      var of := match f case Some(e) => GenStmt(CtxAfter(cx, t), e, ot.next, j, intRet) case None => Out([], ot.next);
      Out(oc.code + ot.code + [Jmp(n + 1), Lab(n)] + of.code + [Lab(n + 1)], of.next)
    case While(c, b) =>
      var lp := Loop(cx, Some(c), b, None, n, n + 1, n, n + 2, false, j);
      Out(LoopCode(lp, intRet), PostCode(lp, intRet).next)
    case Do(b, c) =>
      var lTop, lCont, lEnd := n, n + 1, n + 2;
      var ob := GenStmt(cx, b, n + 3, Jumps(Some(lEnd), Some(lCont), j.epi), intRet);
      var lExit := ob.next;
      var oc := GenCond(CtxAfter(cx, b).env, c, lExit, lExit + 1);
      Out([Lab(lTop)] + ob.code + [Lab(lCont)] + oc.code + [Jmp(lTop), Lab(lExit), Lab(lEnd)], oc.next)
    case For(i, _, _, _) =>
      var lp := ForLoop(cx, s, n, j, intRet);
      var first := match i case Some(d) => GenStmt(cx, d, n, j, intRet).code case None => [];
      Out(first + LoopCode(lp, intRet), PostCode(lp, intRet).next)
    case Switch(c, items) =>
      var oc := GenExpr(cx.env, c, n);
      var temp := Wrap(TempSlot(cx));
      var lDispatch, lEnd := oc.next, oc.next + 1;
      var ob := GenItems(cx.(off := TempSlot(cx)), items, oc.next + 2, Jumps(Some(lEnd), j.cont, j.epi), intRet);
      var tab := TableOf(cx.(off := TempSlot(cx)), items, oc.next + 2, Jumps(Some(lEnd), j.cont, j.epi), intRet);
      var last := match tab.dflt case Some(l) => l case None => lEnd;
      Out(oc.code + [I(PopEax), I(StoreEbpEax(temp)), Jmp(lDispatch)] + ob.code + [Jmp(lEnd), Lab(lDispatch)]
          + Dispatch(temp, tab.cases) + [Jmp(last), Lab(lEnd)], ob.next)
    case Break => Out(match j.brk case Some(l) => [Jmp(l)] case None => [], n)
    case Continue => Out(match j.cont case Some(l) => [Jmp(l)] case None => [], n)
    case Return(None) => Out((if intRet then [I(MovEaxImm(0))] else []) + [Jmp(j.epi)], n)
    case Return(Some(e)) =>
      var o := GenExpr(cx.env, e, n);
      Out(o.code + [I(PopEax), Jmp(j.epi)], o.next)
  }

  function GenAll(cx: Ctx, ss: seq<Stmt>, n: nat, j: Jumps, intRet: bool): (o: Out)
    ensures o.next >= n
    decreases ss, 0
  {
    if ss == [] then Out([], n)
    else
      var o1 := GenStmt(cx, ss[0], n, j, intRet);
      var o2 := GenAll(CtxAfter(cx, ss[0]), ss[1..], o1.next, j, intRet);
      Out(o1.code + o2.code, o2.next)
  }

  function GenItem(cx: Ctx, it: SwItem, n: nat, j: Jumps, intRet: bool): (o: Out)
    ensures o.next >= n
    decreases it, 1
  {
    match it
    case Body(s) => GenStmt(cx, s, n, j, intRet)
    case _ => Out([Lab(n)], n + 1)
  }

  function GenItems(cx: Ctx, items: seq<SwItem>, n: nat, j: Jumps, intRet: bool): (o: Out)
    ensures o.next >= n
    decreases items, 0
  {
    if items == [] then Out([], n)
    else
      var o1 := GenItem(cx, items[0], n, j, intRet);
      var o2 := GenItems(CtxAfterItem(cx, items[0]), items[1..], o1.next, j, intRet);
      Out(o1.code + o2.code, o2.next)
  }

  /** The case values and labels recorded while the body is generated. */
  function TableOf(cx: Ctx, items: seq<SwItem>, n: nat, j: Jumps, intRet: bool): Table
    decreases items
  {
    if items == [] then Table([], None)
    else
      var o1 := GenItem(cx, items[0], n, j, intRet);
      var rest := TableOf(CtxAfterItem(cx, items[0]), items[1..], o1.next, j, intRet);
      match items[0]
      case Case(k) => rest.(cases := [(match EvalConst(k) case Some(v) => v case None => 0, n)] + rest.cases)
      case Default => if rest.dflt.None? then rest.(dflt := Some(n)) else rest
      case Body(_) => rest
  }

  /** Compare the saved selector with each case in order. */
  function Dispatch(temp: Word, cases: seq<(Word, nat)>): seq<Item> {
    if cases == [] then []
    else [I(LoadEaxEbp(temp)), I(CmpEaxImm(cases[0].0)), Jz(cases[0].1)] + Dispatch(temp, cases[1..])
  }

  /** `parse_function_def`: the epilogue label is `n`; the frame size is patched
      into the prologue once every local has its slot. */
  function GenFun(cx: Ctx, body: Stmt, n: nat, intRet: bool): (o: Out)
    ensures o.next >= n
  {
    var o := GenStmt(cx, body, n + 1, Jumps(None, None, n), intRet);
    var size := -CtxAfter(cx, body).off;
    Out([I(PushEbp), I(MovEbpEsp), I(SubEspImm(Wrap(if size < 0 then 0 else size)))] + o.code
        + (if intRet then [I(MovEaxImm(0))] else []) + [Jmp(n), Lab(n), I(Leave), I(Ret)], o.next)
  }
}
