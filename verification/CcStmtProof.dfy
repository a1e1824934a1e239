/** Statement compilation simulates source execution. */
module CcStmtProof {
  import opened Options
  import opened Word32
  import opened CcAst
  import opened CcConst
  import opened CcSource
  import opened X86
  import opened CcGen
  import opened CcTails
  import opened CcExprProof
  import opened CcStmt

  // ----- scope -----

  /** A statement leaves the generator's scope as it found it exactly when it
      leaks no declaration; otherwise extra names stay visible. */
  lemma {:induction false} LeaksScope(cx: Ctx, s: Stmt)
    ensures CtxAfter(cx, s).env == cx.env <==> NoLeak(s)
    ensures |CtxAfter(cx, s).env.locals| >= |cx.env.locals|
    ensures !NoLeak(s) ==> |CtxAfter(cx, s).env.locals| > |cx.env.locals|
    decreases s, 1
  {
    match s
    case If(_, t, f) =>
      LeaksScope(cx, t);
      if f.Some? { LeaksScope(CtxAfter(cx, t), f.value); }
    case While(_, b) => LeaksScope(cx, b);
    case Do(b, _) => LeaksScope(cx, b);
    case Switch(_, items) => LeaksScopeItems(cx.(off := TempSlot(cx)), items);
    case _ =>
  }

  lemma {:induction false} LeaksScopeItems(cx: Ctx, items: seq<SwItem>)
    ensures CtxAfterItems(cx, items).env == cx.env <==> NoLeakItems(items)
    ensures |CtxAfterItems(cx, items).env.locals| >= |cx.env.locals|
    ensures !NoLeakItems(items) ==> |CtxAfterItems(cx, items).env.locals| > |cx.env.locals|
    decreases items, 0
  {
    if items != [] {
      LeaksScopeItem(cx, items[0]);
      LeaksScopeItems(CtxAfterItem(cx, items[0]), items[1..]);
    }
  }

  lemma {:induction false} LeaksScopeItem(cx: Ctx, it: SwItem)
    ensures CtxAfterItem(cx, it).env == cx.env <==> NoLeakItem(it)
    ensures |CtxAfterItem(cx, it).env.locals| >= |cx.env.locals|
    ensures !NoLeakItem(it) ==> |CtxAfterItem(cx, it).env.locals| > |cx.env.locals|
    decreases it, 1
  {
    match it
    case Body(s) => LeaksScope(cx, s);
    case _ =>
  }

  /** A name declared in a switch body hides the outer one afterwards. */
  lemma SwitchLeaks(x: string)
    ensures var outer := Sym(x, TInt, Local(-4));
            var cx := Ctx(Env([outer], [], []), -4);
            var s := Switch(Num(0, false), [Body(Decl(x, TUInt, None))]);
            && Accepts(cx, s, false, false)
            && Lookup(cx.env, x) == Some(outer)
            && Lookup(CtxAfter(cx, s).env, x) == Some(Sym(x, TUInt, Local(-12)))
  {
    var cx := Ctx(Env([Sym(x, TInt, Local(-4))], [], []), -4);
    var it := Body(Decl(x, TUInt, None));
    var cx1 := cx.(off := TempSlot(cx));
    var cx2 := AddLocal(cx1, x, TUInt);
    assert CtxAfter(cx1, it.stmt) == cx2 && CtxAfterItem(cx1, it) == cx2;
    assert cx1.off == -8 && cx2.off == -12;
    assert [it][1..] == [];
    assert CtxAfterItems(cx2, []) == cx2 && CtxAfterItems(cx1, [it]) == cx2;
    assert AcceptsItem(cx1, it, false) && AcceptsItems(cx2, [], false);
    assert cx2.env.locals[1] == Sym(x, TUInt, Local(-12));
  }

  lemma SafeScope(cx: Ctx, s: Stmt)
    requires ScopeSafe(s)
    ensures ScopeAfter(cx, s) == CtxAfter(cx, s)
    ensures !s.Decl? ==> CtxAfter(cx, s).env == cx.env
  {
    if !s.Decl? { LeaksScope(cx, s); }
  }

  // ----- stack and hidden slots -----

  /** Stack slots an expression of the statement may need. */
  function StmtDepth(s: Stmt): nat
    decreases s, 1
  {
    match s
    case ExprS(e) => Depth(e)
    case Decl(x, _, i) => (match i case Some(e) => Depth(Assign(Var(x), e)) case None => 0)
    case Block(ss) => DepthAll(ss)
    case If(c, t, f) => Max(Depth(c), Max(StmtDepth(t), match f case Some(e) => StmtDepth(e) case None => 0))
    case While(c, b) => Max(Depth(c), StmtDepth(b))
    case Do(b, c) => Max(Depth(c), StmtDepth(b))
    case For(i, c, p, b) =>
      Max(Max(match i case Some(d) => StmtDepth(d) case None => 0, match c case Some(e) => Depth(e) case None => 0),
          Max(match p case Some(e) => Depth(e) case None => 0, StmtDepth(b)))
    case Switch(c, items) => Max(Depth(c), DepthItems(items))
    case Return(Some(e)) => Depth(e)
    case _ => 0
  }

  function DepthAll(ss: seq<Stmt>): nat
    decreases ss, 0
  {
    if ss == [] then 0 else Max(StmtDepth(ss[0]), DepthAll(ss[1..]))
  }

  function DepthItem(it: SwItem): nat
    decreases it, 1
  {
    match it case Body(s) => StmtDepth(s) case _ => 0
  }

  function DepthItems(items: seq<SwItem>): nat
    decreases items, 0
  {
    if items == [] then 0 else Max(DepthItem(items[0]), DepthItems(items[1..]))
  }

  /** Frame offsets of the selector slots of every switch inside. */
  function Temps(cx: Ctx, s: Stmt): set<int>
    decreases s, 1
  {
    match s
    case Block(ss) => TempsAll(cx, ss)
    case If(_, t, f) => Temps(cx, t) + (match f case Some(e) => Temps(CtxAfter(cx, t), e) case None => {})
    case While(_, b) => Temps(cx, b)
    case Do(b, _) => Temps(cx, b)
    case For(i, _, _, b) =>
      (match i
       case Some(d) => Temps(cx, d) + Temps(CtxAfter(cx, d), b)
       case None => Temps(cx, b))
    case Switch(_, items) => {TempSlot(cx)} + TempsItems(cx.(off := TempSlot(cx)), items)
    case _ => {}
  }

  function TempsAll(cx: Ctx, ss: seq<Stmt>): set<int>
    decreases ss, 0
  {
    if ss == [] then {} else Temps(cx, ss[0]) + TempsAll(CtxAfter(cx, ss[0]), ss[1..])
  }

  function TempsItem(cx: Ctx, it: SwItem): set<int>
    decreases it, 1
  {
    match it case Body(s) => Temps(cx, s) case _ => {}
  }

  function TempsItems(cx: Ctx, items: seq<SwItem>): set<int>
    decreases items, 0
  {
    if items == [] then {} else TempsItem(cx, items[0]) + TempsItems(CtxAfterItem(cx, items[0]), items[1..])
  }

  // ----- the simulation relation for statements -----

  /** The program, the function, and the stack bounds between statements. */
  datatype Site = Site(prog: seq<Item>, fn: Fun, lo: nat, hi: nat)

  /** A selector slot lies in the frame, is no program object, and is aligned. */
  ghost predicate Hidden(w: Site, m: SMem, t: int) {
    && w.hi <= w.fn.frame + t < w.fn.frame
    && Aligned(w.fn.frame + t) && (w.fn.frame + t) !in m
  }

  ghost predicate HiddenAll(w: Site, m: SMem, ts: set<int>) { forall t :: t in ts ==> Hidden(w, m, t) }

  ghost predicate Begin(w: Site, c: Conf, m: SMem, depth: nat, ts: set<int>) {
    && UniqueLabels(w.prog) && w.fn.frame == c.st.ebp
    && c.st.esp == w.hi && Rep(c.st, m, w.lo, w.hi) && w.lo + 4 * depth <= w.hi
    && HiddenAll(w, m, ts)
  }

  /** Stack balanced, objects as the source has them, the caller's memory kept. */
  ghost predicate Settled(w: Site, s: State, m: SMem, m': SMem, t: State) {
    && m'.Keys == m.Keys && t.esp == s.esp == w.hi && t.ebp == s.ebp
    && Rep(t, m', w.lo, w.hi)
    && forall a: Word :: a !in m && !(w.lo <= a < w.hi) && !(w.hi <= a < w.fn.frame) ==> Rd(t.mem, a) == Rd(s.mem, a)
  }

  /** The source comes to an end without undefined behaviour. */
  predicate Defined(r: Result) { !r.Undefined? && !r.NoFuel? }

  /** Nothing undefined has happened so far. */
  predicate Allowed(r: Result) { !r.Undefined? }

  /** Control is where the outcome says. */
  ghost predicate Lands(w: Site, j: Jumps, end: nat, r: Result, d: Conf)
    requires Defined(r)
  {
    match r
    case Fall(_) => d.pc == end
    case Broke(_) => j.brk.Some? && d.pc == Find(w.prog, j.brk.value)
    case Continued(_) => j.cont.Some? && d.pc == Find(w.prog, j.cont.value)
    case Returned(v, _) => d.pc == Find(w.prog, j.epi) && (v.Some? ==> d.st.eax == v.value)
  }

  /** The outcome is reached.  As long as the source goes on for more than `fuel`
      iterations, so does the code for more than `fuel` steps. */
  ghost predicate Done(w: Site, j: Jumps, c: Conf, m: SMem, end: nat, r: Result, fuel: nat, k: nat, d: Conf)
    requires Allowed(r)
  {
    && Run(w.prog, c, k) == Some(d)
    && if r.NoFuel? then k > fuel else Lands(w, j, end, r, d) && Settled(w, c.st, m, r.mem, d.st)
  }

  lemma SettledTwice(w: Site, s: State, m: SMem, s1: State, m1: SMem, t: State, m2: SMem)
    requires Settled(w, s, m, m1, s1) && Settled(w, s1, m1, m2, t)
    ensures Settled(w, s, m, m2, t)
  {
  }

  lemma NeutralSettled(w: Site, s: State, m: SMem, m': SMem, t: State)
    requires s.esp == w.hi && Neutral(s, m, m', t, w.lo, w.hi)
    ensures Settled(w, s, m, m', t)
  {
  }

  /** Facts of a settled state that let the next piece begin. */
  lemma SettledBegin(w: Site, c: Conf, m: SMem, depth: nat, ts: set<int>, m': SMem, d: Conf)
    requires Begin(w, c, m, depth, ts) && Settled(w, c.st, m, m', d.st)
    ensures Begin(w, d, m', depth, ts)
  {
  }

  lemma BeginLess(w: Site, c: Conf, m: SMem, depth: nat, ts: set<int>, depth': nat, ts': set<int>)
    requires Begin(w, c, m, depth, ts) && depth' <= depth && ts' <= ts
    ensures Begin(w, c, m, depth', ts')
  {
  }

  /** A later piece finishes what an earlier one began. */
  lemma Chain(w: Site, j: Jumps, c: Conf, m: SMem, k1: nat, d1: Conf, m1: SMem, end: nat, r: Result, f2: nat, fuel: nat, k2: nat, d2: Conf)
    requires Run(w.prog, c, k1) == Some(d1) && Settled(w, c.st, m, m1, d1.st)
    requires Allowed(r) && Done(w, j, d1, m1, end, r, f2, k2, d2) && k1 + f2 >= fuel
    ensures Done(w, j, c, m, end, r, fuel, k1 + k2, d2)
  {
    hide Run, Settled, Lands;
    RunCat(w.prog, c, k1, d1, k2);
    if Defined(r) { SettledTwice(w, c.st, m, d1.st, m1, d2.st, r.mem); }
  }

  // ----- expressions as statements -----

  lemma DropNeutral(s: State, m: SMem, r: Res, s1: State, lo: nat, hi: nat) returns (t: State)
    requires Rep(s, m, lo, hi) && Yields(s, m, r, s1, lo, hi)
    ensures X86.Exec(AddEspImm(4), s1) == Some(t) && Neutral(s, m, r.mem, t, lo, hi)
  {
    t := X86.Exec(AddEspImm(4), s1).value;
  }

  lemma RunInstr(prog: seq<Item>, c: Conf, k: nat, d: Conf, i: Instr, t: State)
    requires Run(prog, c, k) == Some(d) && d.pc < |prog| && prog[d.pc] == I(i) && X86.Exec(i, d.st) == Some(t)
    ensures Run(prog, c, k + 1) == Some(Conf(d.pc + 1, t))
  {
    RunStep(prog, c, k, d);
  }

  /** `gen_expr` followed by `add esp, 4`. */
  lemma DropRuns(w: Site, cx: Ctx, e: Expr, n: nat, c: Conf, m: SMem) returns (k: nat, d: Conf)
    requires Begin(w, c, m, Depth(e), {})
    requires CodeAt(w.prog, c.pc, GenDrop(cx.env, e, n).code)
    requires Typed(cx, e) && Eval(ScopeOf(w.fn, cx), e, m).Some?
    ensures Run(w.prog, c, k) == Some(d) && d.pc == c.pc + |GenDrop(cx.env, e, n).code|
    ensures Settled(w, c.st, m, Eval(ScopeOf(w.fn, cx), e, m).value.mem, d.st)
  {
    hide Run, X86.Exec, Rep, Yields, Neutral, UniqueLabels, CodeAt, GenExpr, Eval, TypeOf, Depth, Settled;
    var sc := ScopeOf(w.fn, cx);
    var o := GenExpr(cx.env, e, n);
    CodeAtCat(w.prog, c.pc, o.code, [I(AddEspImm(4))]);
    InProgram(w.prog, c.pc + |o.code|, [I(AddEspImm(4))]);
    CodeAtItem(w.prog, c.pc + |o.code|, [I(AddEspImm(4))], 0);
    var j, d1 := ExprRuns(w.prog, sc, e, n, c, m, w.lo, w.hi);
    var t := DropNeutral(c.st, m, Eval(sc, e, m).value, d1.st, w.lo, w.hi);
    RunInstr(w.prog, c, j, d1, AddEspImm(4), t);
    NeutralSettled(w, c.st, m, Eval(sc, e, m).value.mem, t);
    k, d := j + 1, Conf(d1.pc + 1, t);
  }

  /** A condition evaluated at statement level. */
  lemma TestAt(w: Site, cx: Ctx, e: Expr, lf: nat, n: nat, c: Conf, m: SMem) returns (k: nat, d: Conf)
    requires Begin(w, c, m, Depth(e), {})
    requires CodeAt(w.prog, c.pc, GenCond(cx.env, e, lf, n).code)
    requires Typed(cx, e) && Eval(ScopeOf(w.fn, cx), e, m).Some?
    ensures Run(w.prog, c, k) == Some(d)
    ensures d.pc == if Eval(ScopeOf(w.fn, cx), e, m).value.val != 0 then c.pc + |GenCond(cx.env, e, lf, n).code| else Find(w.prog, lf)
    ensures Settled(w, c.st, m, Eval(ScopeOf(w.fn, cx), e, m).value.mem, d.st)
  {
    hide Run, Rep, Neutral, UniqueLabels, CodeAt, GenCond, Eval, TypeOf, Depth, Settled, Find;
    var sc := ScopeOf(w.fn, cx);
    k, d := CondRuns(w.prog, sc, e, lf, n, c, m, w.lo, w.hi);
    NeutralSettled(w, c.st, m, Eval(sc, e, m).value.mem, d.st);
  }

  // ----- the theorem -----

  /** `gen_stmt`: every outcome of the source is reached, at its label, with the
      stack balanced. */
  lemma {:induction false} StmtRuns(w: Site, cx: Ctx, s: Stmt, n: nat, j: Jumps, c: Conf, m: SMem, fuel: nat)
      returns (k: nat, d: Conf)
    requires Begin(w, c, m, StmtDepth(s), Temps(cx, s))
    requires CodeAt(w.prog, c.pc, GenStmt(cx, s, n, j, w.fn.intRet).code)
    requires Accepts(cx, s, j.brk.Some?, j.cont.Some?) && ScopeSafe(s)
    requires Allowed(Execute(w.fn, cx, s, m, fuel))
    ensures Done(w, j, c, m, c.pc + |GenStmt(cx, s, n, j, w.fn.intRet).code|, Execute(w.fn, cx, s, m, fuel), fuel, k, d)
    decreases fuel, s, 3
  {
    hide Run, Settled, Begin, CodeAt, UniqueLabels, GenCond, GenExpr, Eval, TypeOf, Depth, CtxAfter;
    match s
    case ExprS(_) => k, d := ExprStmtRuns(w, cx, s, n, j, c, m, fuel);
    case Decl(_, _, _) => k, d := ExprStmtRuns(w, cx, s, n, j, c, m, fuel);
    case Block(ss) => k, d := AllRuns(w, cx, ss, n, j, c, m, fuel);
    case If(_, _, _) => k, d := IfRuns(w, cx, s, n, j, c, m, fuel);
    case While(_, _) => k, d := WhileRuns(w, cx, s, n, j, c, m, fuel);
    case Do(_, _) => k, d := DoRuns(w, cx, s, n, j, c, m, fuel);
    case For(_, _, _, _) => k, d := ForRuns(w, cx, s, n, j, c, m, fuel);
    case Switch(_, _) => k, d := SwitchRuns(w, cx, s, n, j, c, m, fuel);
    case Break => k, d := JumpRuns(w, cx, s, n, j, c, m, fuel);
    case Continue => k, d := JumpRuns(w, cx, s, n, j, c, m, fuel);
    case Return(_) => k, d := ReturnRuns(w, cx, s, n, j, c, m, fuel);
  }

  lemma {:induction false} ExprStmtRuns(w: Site, cx: Ctx, s: Stmt, n: nat, j: Jumps, c: Conf, m: SMem, fuel: nat)
      returns (k: nat, d: Conf)
    requires s.ExprS? || s.Decl?
    requires Begin(w, c, m, StmtDepth(s), Temps(cx, s))
    requires CodeAt(w.prog, c.pc, GenStmt(cx, s, n, j, w.fn.intRet).code)
    requires Accepts(cx, s, j.brk.Some?, j.cont.Some?) && ScopeSafe(s)
    requires Allowed(Execute(w.fn, cx, s, m, fuel))
    ensures Done(w, j, c, m, c.pc + |GenStmt(cx, s, n, j, w.fn.intRet).code|, Execute(w.fn, cx, s, m, fuel), fuel, k, d)
  {
    hide Settled, CodeAt, UniqueLabels, Find, GenDrop, Eval, TypeOf, Depth;
    if s.Decl? && s.init.None? {
      SettledBase(w, c, m, StmtDepth(s), Temps(cx, s));
      k, d := 0, c;
    } else {
      BeginLess(w, c, m, StmtDepth(s), Temps(cx, s), StmtDepth(s), {});
      if s.ExprS? {
        k, d := DropRuns(w, cx, s.e, n, c, m);
      } else {
        k, d := DropRuns(w, AddLocal(cx, s.name, s.ty), Assign(Var(s.name), s.init.value), n, c, m);
      }
    }
  }

  lemma SettledBase(w: Site, c: Conf, m: SMem, depth: nat, ts: set<int>)
    requires Begin(w, c, m, depth, ts)
    ensures Settled(w, c.st, m, m, c.st)
  {
  }

  lemma {:induction false} JumpRuns(w: Site, cx: Ctx, s: Stmt, n: nat, j: Jumps, c: Conf, m: SMem, fuel: nat)
      returns (k: nat, d: Conf)
    requires s.Break? || s.Continue?
    requires Begin(w, c, m, StmtDepth(s), Temps(cx, s))
    requires CodeAt(w.prog, c.pc, GenStmt(cx, s, n, j, w.fn.intRet).code)
    requires Accepts(cx, s, j.brk.Some?, j.cont.Some?) && ScopeSafe(s)
    requires Allowed(Execute(w.fn, cx, s, m, fuel))
    ensures Done(w, j, c, m, c.pc + |GenStmt(cx, s, n, j, w.fn.intRet).code|, Execute(w.fn, cx, s, m, fuel), fuel, k, d)
  {
    hide Settled, UniqueLabels, Find, CodeAt;
    SettledBase(w, c, m, StmtDepth(s), Temps(cx, s));
    var l := if s.Break? then j.brk.value else j.cont.value;
    assert GenStmt(cx, s, n, j, w.fn.intRet).code == [Jmp(l)];
    InProgram(w.prog, c.pc, [Jmp(l)]);
    CodeAtItem(w.prog, c.pc, [Jmp(l)], 0);
    assert Run(w.prog, c, 0) == Some(c);
    RunJmp(w.prog, c, 0, c);
    k, d := 1, Conf(Find(w.prog, l), c.st);
  }

  /** `pop eax` after an expression leaves its value in eax. */
  lemma PopNeutral(s: State, m: SMem, r: Res, s1: State, lo: nat, hi: nat) returns (t: State)
    requires Rep(s, m, lo, hi) && Yields(s, m, r, s1, lo, hi)
    ensures X86.Exec(PopEax, s1) == Some(t) && Neutral(s, m, r.mem, t, lo, hi) && t.eax == r.val
  {
    t := X86.Exec(PopEax, s1).value;
  }

  /** Evaluate into eax. */
  lemma EaxRuns(w: Site, cx: Ctx, e: Expr, n: nat, c: Conf, m: SMem) returns (k: nat, d: Conf)
    requires Begin(w, c, m, Depth(e), {})
    requires CodeAt(w.prog, c.pc, GenExpr(cx.env, e, n).code + [I(PopEax)])
    requires Typed(cx, e) && Eval(ScopeOf(w.fn, cx), e, m).Some?
    ensures Run(w.prog, c, k) == Some(d) && d.pc == c.pc + |GenExpr(cx.env, e, n).code| + 1
    ensures Settled(w, c.st, m, Eval(ScopeOf(w.fn, cx), e, m).value.mem, d.st)
    ensures d.st.eax == Eval(ScopeOf(w.fn, cx), e, m).value.val
  {
    hide Run, X86.Exec, Rep, Yields, Neutral, UniqueLabels, CodeAt, GenExpr, Eval, TypeOf, Depth, Settled;
    var sc := ScopeOf(w.fn, cx);
    var o := GenExpr(cx.env, e, n);
    CodeAtCat(w.prog, c.pc, o.code, [I(PopEax)]);
    InProgram(w.prog, c.pc + |o.code|, [I(PopEax)]);
    CodeAtItem(w.prog, c.pc + |o.code|, [I(PopEax)], 0);
    var j, d1 := ExprRuns(w.prog, sc, e, n, c, m, w.lo, w.hi);
    var t := PopNeutral(c.st, m, Eval(sc, e, m).value, d1.st, w.lo, w.hi);
    RunInstr(w.prog, c, j, d1, PopEax, t);
    NeutralSettled(w, c.st, m, Eval(sc, e, m).value.mem, t);
    k, d := j + 1, Conf(d1.pc + 1, t);
  }

  lemma EaxSettled(w: Site, s: State, m: SMem, m': SMem, t: State, v: Word)
    requires Settled(w, s, m, m', t)
    ensures Settled(w, s, m, m', t.(eax := v))
  {
  }

  lemma {:induction false} ReturnRuns(w: Site, cx: Ctx, s: Stmt, n: nat, j: Jumps, c: Conf, m: SMem, fuel: nat)
      returns (k: nat, d: Conf)
    requires s.Return?
    requires Begin(w, c, m, StmtDepth(s), Temps(cx, s))
    requires CodeAt(w.prog, c.pc, GenStmt(cx, s, n, j, w.fn.intRet).code)
    requires Accepts(cx, s, j.brk.Some?, j.cont.Some?) && ScopeSafe(s)
    requires Allowed(Execute(w.fn, cx, s, m, fuel))
    ensures Done(w, j, c, m, c.pc + |GenStmt(cx, s, n, j, w.fn.intRet).code|, Execute(w.fn, cx, s, m, fuel), fuel, k, d)
  {
    hide Run, Settled, UniqueLabels, Find, CodeAt, GenExpr, Eval, TypeOf, Depth;
    BeginLess(w, c, m, StmtDepth(s), Temps(cx, s), StmtDepth(s), {});
    match s.val
    case Some(e) =>
      var o := GenExpr(cx.env, e, n);
      assert GenStmt(cx, s, n, j, w.fn.intRet).code == o.code + [I(PopEax)] + [Jmp(j.epi)];
      CodeAtCat(w.prog, c.pc, o.code + [I(PopEax)], [Jmp(j.epi)]);
      var k1, d1 := EaxRuns(w, cx, e, n, c, m);
      InProgram(w.prog, d1.pc, [Jmp(j.epi)]);
      CodeAtItem(w.prog, d1.pc, [Jmp(j.epi)], 0);
      RunJmp(w.prog, c, k1, d1);
      k, d := k1 + 1, Conf(Find(w.prog, j.epi), d1.st);
    case None =>
      k, d := BareReturnRuns(w, j, c, m);
  }

  lemma BareReturnRuns(w: Site, j: Jumps, c: Conf, m: SMem) returns (k: nat, d: Conf)
    requires Begin(w, c, m, 0, {})
    requires CodeAt(w.prog, c.pc, (if w.fn.intRet then [I(MovEaxImm(0))] else []) + [Jmp(j.epi)])
    ensures Run(w.prog, c, k) == Some(d) && d.pc == Find(w.prog, j.epi) && Settled(w, c.st, m, m, d.st)
    ensures w.fn.intRet ==> d.st.eax == 0
  {
    hide Settled, UniqueLabels, Find, CodeAt;
    SettledBase(w, c, m, 0, {});
    assert Run(w.prog, c, 0) == Some(c);
    if w.fn.intRet {
      var code := [I(MovEaxImm(0)), Jmp(j.epi)];
      assert code == [I(MovEaxImm(0))] + [Jmp(j.epi)];
      InProgram(w.prog, c.pc, code);
      CodeAtItem(w.prog, c.pc, code, 0);
      CodeAtItem(w.prog, c.pc, code, 1);
      var t := c.st.(eax := 0);
      RunInstr(w.prog, c, 0, c, MovEaxImm(0), t);
      RunJmp(w.prog, c, 1, Conf(c.pc + 1, t));
      EaxSettled(w, c.st, m, m, c.st, 0);
      k, d := 2, Conf(Find(w.prog, j.epi), t);
    } else {
      var code := [Jmp(j.epi)];
      assert code == [] + [Jmp(j.epi)];
      InProgram(w.prog, c.pc, code);
      CodeAtItem(w.prog, c.pc, code, 0);
      RunJmp(w.prog, c, 0, c);
      k, d := 1, Conf(Find(w.prog, j.epi), c.st);
    }
  }

  lemma {:induction false} AllRuns(w: Site, cx: Ctx, ss: seq<Stmt>, n: nat, j: Jumps, c: Conf, m: SMem, fuel: nat)
      returns (k: nat, d: Conf)
    requires Begin(w, c, m, DepthAll(ss), TempsAll(cx, ss))
    requires CodeAt(w.prog, c.pc, GenAll(cx, ss, n, j, w.fn.intRet).code)
    requires AcceptsAll(cx, ss, j.brk.Some?, j.cont.Some?) && ScopeSafeAll(ss)
    requires Allowed(ExecuteAll(w.fn, cx, ss, m, fuel))
    ensures Done(w, j, c, m, c.pc + |GenAll(cx, ss, n, j, w.fn.intRet).code|, ExecuteAll(w.fn, cx, ss, m, fuel), fuel, k, d)
    decreases fuel, ss, 0
  {
    hide X86.Step, GenExpr, TypeOf, Eval, Wrap;
    hide Settled, Begin, Lands, CodeAt, UniqueLabels, Find, GenStmt, Execute, Accepts, ScopeSafe, StmtDepth, Temps, CtxAfter;
    SettledBase(w, c, m, DepthAll(ss), TempsAll(cx, ss));
    if ss == [] {
      k, d := 0, c;
      LandsFall(w, j, c.pc, m, c);
    } else {
      var o1 := GenStmt(cx, ss[0], n, j, w.fn.intRet);
      var o2 := GenAll(CtxAfter(cx, ss[0]), ss[1..], o1.next, j, w.fn.intRet);
      CodeAtCat(w.prog, c.pc, o1.code, o2.code);
      BeginLess(w, c, m, DepthAll(ss), TempsAll(cx, ss), StmtDepth(ss[0]), Temps(cx, ss[0]));
      var k1, d1 := StmtRuns(w, cx, ss[0], n, j, c, m, fuel);
      var r := Execute(w.fn, cx, ss[0], m, fuel);
      SafeScope(cx, ss[0]);
      if r.Fall? {
        LandsAt(w, j, c.pc + |o1.code|, r, d1);
        SettledBegin(w, c, m, DepthAll(ss), TempsAll(cx, ss), r.mem, d1);
        BeginLess(w, d1, r.mem, DepthAll(ss), TempsAll(cx, ss), DepthAll(ss[1..]), TempsAll(CtxAfter(cx, ss[0]), ss[1..]));
        var k2, d2 := AllRuns(w, CtxAfter(cx, ss[0]), ss[1..], o1.next, j, d1, r.mem, fuel);
        k, d := k1 + k2, d2;
        Chain(w, j, c, m, k1, d1, r.mem, c.pc + |o1.code| + |o2.code|, ExecuteAll(w.fn, CtxAfter(cx, ss[0]), ss[1..], r.mem, fuel), fuel, fuel, k2, d2);
      } else {
        k, d := k1, d1;
        if Defined(r) { LandsElsewhere(w, j, c.pc + |o1.code|, c.pc + |o1.code| + |o2.code|, r, d1); }
      }
    }
  }

  lemma LandsFall(w: Site, j: Jumps, end: nat, m: SMem, d: Conf)
    requires d.pc == end
    ensures Lands(w, j, end, Fall(m), d)
  {
  }

  lemma LandsAt(w: Site, j: Jumps, end: nat, r: Result, d: Conf)
    requires r.Fall? && Lands(w, j, end, r, d)
    ensures d.pc == end
  {
  }

  /** Only falling through depends on where the code ends. */
  lemma LandsElsewhere(w: Site, j: Jumps, end: nat, end': nat, r: Result, d: Conf)
    requires Defined(r) && !r.Fall? && Lands(w, j, end, r, d)
    ensures Lands(w, j, end', r, d)
  {
  }

  lemma IfUnfold(fn: Fun, cx: Ctx, s: Stmt, n: nat, j: Jumps, m: SMem, fuel: nat)
    requires s.If? && ScopeSafe(s) && Accepts(cx, s, j.brk.Some?, j.cont.Some?) && Allowed(Execute(fn, cx, s, m, fuel))
    ensures var oc := GenCond(cx.env, s.cond, n, n + 2);
            var ot := GenStmt(cx, s.thn, oc.next, j, fn.intRet);
            var cx1 := CtxAfter(cx, s.thn);
            var of := match s.els case Some(e) => GenStmt(cx1, e, ot.next, j, fn.intRet) case None => Out([], ot.next);
            GenStmt(cx, s, n, j, fn.intRet).code == oc.code + ot.code + [Jmp(n + 1), Lab(n)] + of.code + [Lab(n + 1)]
    ensures Typed(cx, s.cond) && Accepts(cx, s.thn, j.brk.Some?, j.cont.Some?) && ScopeSafe(s.thn)
    ensures s.els.Some? ==> Accepts(CtxAfter(cx, s.thn), s.els.value, j.brk.Some?, j.cont.Some?) && ScopeSafe(s.els.value)
    ensures StmtDepth(s) >= Depth(s.cond) && StmtDepth(s) >= StmtDepth(s.thn)
    ensures s.els.Some? ==> StmtDepth(s) >= StmtDepth(s.els.value)
    ensures Temps(cx, s.thn) <= Temps(cx, s)
    ensures s.els.Some? ==> Temps(CtxAfter(cx, s.thn), s.els.value) <= Temps(cx, s)
    ensures Eval(ScopeOf(fn, cx), s.cond, m).Some?
    ensures var r := Eval(ScopeOf(fn, cx), s.cond, m).value;
            Execute(fn, cx, s, m, fuel) ==
              if r.val != 0 then Execute(fn, cx, s.thn, r.mem, fuel)
              else match s.els
                case Some(e) => Execute(fn, CtxAfter(cx, s.thn), e, r.mem, fuel)
                case None => Fall(r.mem)
  {
    hide GenCond, Eval, TypeOf, Depth;
    SafeScope(cx, s.thn);
  }

  lemma {:induction false} IfRuns(w: Site, cx: Ctx, s: Stmt, n: nat, j: Jumps, c: Conf, m: SMem, fuel: nat)
      returns (k: nat, d: Conf)
    requires s.If?
    requires Begin(w, c, m, StmtDepth(s), Temps(cx, s))
    requires CodeAt(w.prog, c.pc, GenStmt(cx, s, n, j, w.fn.intRet).code)
    requires Accepts(cx, s, j.brk.Some?, j.cont.Some?) && ScopeSafe(s)
    requires Allowed(Execute(w.fn, cx, s, m, fuel))
    ensures Done(w, j, c, m, c.pc + |GenStmt(cx, s, n, j, w.fn.intRet).code|, Execute(w.fn, cx, s, m, fuel), fuel, k, d)
    decreases fuel, s, 1
  {
    hide Run, Settled, Begin, Lands, CodeAt, UniqueLabels, Find;
    hide GenStmt, GenAll, GenItems, Execute, ExecuteAll, Accepts, ScopeSafe, StmtDepth, Temps, CtxAfter, GenCond, GenExpr, Eval, TypeOf, Depth;
    IfUnfold(w.fn, cx, s, n, j, m, fuel);
    var oc := GenCond(cx.env, s.cond, n, n + 2);
    var ot := GenStmt(cx, s.thn, oc.next, j, w.fn.intRet);
    var cx1 := CtxAfter(cx, s.thn);
    var of := match s.els case Some(e) => GenStmt(cx1, e, ot.next, j, w.fn.intRet) case None => Out([], ot.next);
    var pM := c.pc + |oc.code| + |ot.code|;
    var pE := pM + 2 + |of.code|;
    BeginLess(w, c, m, StmtDepth(s), Temps(cx, s), Depth(s.cond), {});
    BeginUnique(w, c, m, Depth(s.cond), {});
    TernLayout(w.prog, c.pc, oc.code, ot.code, of.code, n, n + 1);
    var k1, d1 := TestAt(w, cx, s.cond, n, n + 2, c, m);
    var r := Eval(ScopeOf(w.fn, cx), s.cond, m).value;
    SettledBegin(w, c, m, StmtDepth(s), Temps(cx, s), r.mem, d1);
    if r.val != 0 {
      BeginLess(w, d1, r.mem, StmtDepth(s), Temps(cx, s), StmtDepth(s.thn), Temps(cx, s.thn));
      var k2, d2 := StmtRuns(w, cx, s.thn, oc.next, j, d1, r.mem, fuel);
      k2, d2 := OverElse(w, j, d1, r.mem, pM, pE, Execute(w.fn, cx, s.thn, r.mem, fuel), fuel, k2, d2);
      Chain(w, j, c, m, k1, d1, r.mem, pE + 1, Execute(w.fn, cx, s, m, fuel), fuel, fuel, k2, d2);
      k, d := k1 + k2, d2;
    } else {
      RunLab(w.prog, c, k1, d1);
      var d1' := Conf(pM + 2, d1.st);
      SettledBegin(w, c, m, StmtDepth(s), Temps(cx, s), r.mem, d1');
      var k2, d2 := ElseRuns(w, cx1, s.els, ot.next, j, d1', r.mem, fuel, pE, StmtDepth(s), Temps(cx, s));
      Chain(w, j, c, m, k1 + 1, d1', r.mem, pE + 1, Execute(w.fn, cx, s, m, fuel), fuel, fuel, k2, d2);
      k, d := k1 + 1 + k2, d2;
    }
  }

  lemma BeginUnique(w: Site, c: Conf, m: SMem, depth: nat, ts: set<int>)
    requires Begin(w, c, m, depth, ts)
    ensures UniqueLabels(w.prog)
  {
  }

  /** After the then-branch: over the jump, the else-branch and the end label. */
  lemma OverElse(w: Site, j: Jumps, c: Conf, m: SMem, pM: nat, pE: nat, r: Result, fuel: nat, k: nat, d: Conf)
      returns (k': nat, d': Conf)
    requires Allowed(r) && Done(w, j, c, m, pM, r, fuel, k, d)
    requires pM < pE < |w.prog| && w.prog[pM].Jmp? && Find(w.prog, w.prog[pM].l) == pE && w.prog[pE].Lab?
    ensures Done(w, j, c, m, pE + 1, r, fuel, k', d')
  {
    hide Run, Settled, Find;
    if r.Fall? {
      RunJmp(w.prog, c, k, d);
      RunLab(w.prog, c, k + 1, Conf(pE, d.st));
      k', d' := k + 2, Conf(pE + 1, d.st);
    } else {
      k', d' := k, d;
    }
  }

  lemma {:induction false} ElseRuns(w: Site, cx: Ctx, f: Option<Stmt>, n: nat, j: Jumps, c: Conf, m: SMem, fuel: nat, pE: nat,
                                    depth: nat, ts: set<int>)
      returns (k: nat, d: Conf)
    requires Begin(w, c, m, depth, ts)
    requires f.Some? ==> StmtDepth(f.value) <= depth && Temps(cx, f.value) <= ts
    requires f.Some? ==> Accepts(cx, f.value, j.brk.Some?, j.cont.Some?) && ScopeSafe(f.value)
    requires f.Some? ==> CodeAt(w.prog, c.pc, GenStmt(cx, f.value, n, j, w.fn.intRet).code)
    requires f.Some? ==> Allowed(Execute(w.fn, cx, f.value, m, fuel))
    requires pE == c.pc + match f case Some(e) => |GenStmt(cx, e, n, j, w.fn.intRet).code| case None => 0
    requires pE < |w.prog| && w.prog[pE].Lab?
    ensures Done(w, j, c, m, pE + 1, match f case Some(e) => Execute(w.fn, cx, e, m, fuel) case None => Fall(m), fuel, k, d)
    decreases fuel, f, 4
  {
    hide Settled, Begin, CodeAt, UniqueLabels, Find;
    hide GenStmt, GenAll, GenItems, Execute, ExecuteAll, Accepts, ScopeSafe, StmtDepth, Temps, CtxAfter, GenCond, GenExpr, Eval, TypeOf, Depth;
    match f
    case None =>
      SettledBase(w, c, m, depth, ts);
      assert Run(w.prog, c, 0) == Some(c);
      RunLab(w.prog, c, 0, c);
      k, d := 1, Conf(pE + 1, c.st);
    case Some(e) =>
      BeginLess(w, c, m, depth, ts, StmtDepth(e), Temps(cx, e));
      k, d := StmtRuns(w, cx, e, n, j, c, m, fuel);
      var r := Execute(w.fn, cx, e, m, fuel);
      if r.Fall? {
        RunLab(w.prog, c, k, d);
        k, d := k + 1, Conf(pE + 1, d.st);
      }
  }

  // ----- while and for -----

  /** Where the pieces of a loop at `p` lie. */
  ghost predicate LoopAt(w: Site, lp: Loop, p: nat, pBody: nat, pCont: nat, pPost: nat, pJmp: nat) {
    var ir := w.fn.intRet;
    && pBody == p + 1 + |TestCode(lp).code| && pCont == pBody + |BodyCode(lp, ir).code|
    && pPost == pCont + |ContCode(lp)| && pJmp == pPost + |PostCode(lp, ir).code|
    && p + 1 <= pJmp && pJmp + 1 < |w.prog|
    && CodeAt(w.prog, p + 1, TestCode(lp).code) && CodeAt(w.prog, pBody, BodyCode(lp, ir).code)
    && CodeAt(w.prog, pPost, PostCode(lp, ir).code)
    && w.prog[p] == Lab(lp.lStart) && Find(w.prog, lp.lStart) == p
    && w.prog[pJmp] == Jmp(lp.lStart) && w.prog[pJmp + 1] == Lab(lp.lEnd) && Find(w.prog, lp.lEnd) == pJmp + 1
    && (lp.isFor ==> w.prog[pCont] == Lab(lp.lCont) && Find(w.prog, lp.lCont) == pCont)
  }

  lemma SixPieces(prog: seq<Item>, p: nat, a: seq<Item>, b: seq<Item>, t: seq<Item>, o: seq<Item>, e: seq<Item>, z: seq<Item>)
    requires CodeAt(prog, p, a + b + t + o + e + z)
    ensures CodeAt(prog, p, a) && CodeAt(prog, p + |a|, b) && CodeAt(prog, p + |a| + |b|, t)
    ensures CodeAt(prog, p + |a| + |b| + |t|, o) && CodeAt(prog, p + |a| + |b| + |t| + |o|, e)
    ensures CodeAt(prog, p + |a| + |b| + |t| + |o| + |e|, z)
  {
    hide CodeAt;
    CodeAtCat(prog, p, a + b + t + o + e, z);
    CodeAtCat(prog, p, a + b + t + o, e);
    CodeAtCat(prog, p, a + b + t, o);
    CodeAtCat(prog, p, a + b, t);
    CodeAtCat(prog, p, a, b);
  }

  lemma LoopLayout(w: Site, lp: Loop, p: nat) returns (pBody: nat, pCont: nat, pPost: nat, pJmp: nat)
    requires UniqueLabels(w.prog) && CodeAt(w.prog, p, LoopCode(lp, w.fn.intRet))
    ensures LoopAt(w, lp, p, pBody, pCont, pPost, pJmp)
    ensures p + |LoopCode(lp, w.fn.intRet)| == pJmp + 2
  {
    hide UniqueLabels, CodeAt, Find, TestCode, BodyCode, PostCode;
    var ir := w.fn.intRet;
    var a, b, t, o, e := [Lab(lp.lStart)], TestCode(lp).code, BodyCode(lp, ir).code, ContCode(lp), PostCode(lp, ir).code;
    var z := [Jmp(lp.lStart), Lab(lp.lEnd)];
    SixPieces(w.prog, p, a, b, t, o, e, z);
    pBody, pCont := p + 1 + |b|, p + 1 + |b| + |t|;
    pPost := pCont + |o|;
    pJmp := pPost + |e|;
    LabelAt(w.prog, p, a, 0);
    LabelAt(w.prog, pJmp, z, 1);
    CodeAtItem(w.prog, pJmp, z, 0);
    if lp.isFor { LabelAt(w.prog, pCont, o, 0); }
  }

  /** What a loop demands of its parts. */
  ghost predicate LoopOk(lp: Loop, depth: nat, ts: set<int>) {
    && TypedOpt(lp.cx, lp.test) && TypedOpt(lp.cx, lp.post)
    && Accepts(lp.cx, lp.body, true, true) && ScopeSafe(lp.body) && CtxAfter(lp.cx, lp.body).env == lp.cx.env
    && (lp.test.Some? ==> Depth(lp.test.value) <= depth) && (lp.post.Some? ==> Depth(lp.post.value) <= depth)
    && StmtDepth(lp.body) <= depth && Temps(lp.cx, lp.body) <= ts
    && (lp.isFor || (lp.lCont == lp.lStart && lp.post.None?))
  }

  /** Truth of a test that may be missing. */
  function EvalTest(sc: Scope, c: Option<Expr>, m: SMem, missing: Word): Option<Res> {
    match c case Some(e) => Eval(sc, e, m) case None => Some(Res(missing, m))
  }

  lemma LoopTest(w: Site, lp: Loop, c: Conf, m: SMem, depth: nat, ts: set<int>) returns (k: nat, d: Conf)
    requires Begin(w, c, m, depth, ts) && LoopOk(lp, depth, ts)
    requires CodeAt(w.prog, c.pc, TestCode(lp).code)
    requires EvalTest(ScopeOf(w.fn, lp.cx), lp.test, m, 1).Some?
    ensures var r := EvalTest(ScopeOf(w.fn, lp.cx), lp.test, m, 1).value;
            && Run(w.prog, c, k) == Some(d) && Settled(w, c.st, m, r.mem, d.st)
            && d.pc == if r.val != 0 then c.pc + |TestCode(lp).code| else Find(w.prog, lp.lEnd)
  {
    hide Settled, Begin, CodeAt, Find, GenCond, Eval, TypeOf, Depth, Accepts, ScopeSafe, StmtDepth, Temps, CtxAfter;
    match lp.test
    case None =>
      SettledBase(w, c, m, depth, ts);
      k, d := 0, c;
    case Some(e) =>
      BeginLess(w, c, m, depth, ts, Depth(e), {});
      k, d := TestAt(w, lp.cx, e, lp.lEnd, lp.next, c, m);
  }

  /** From the continue target, through the step, back to the top. */
  lemma LoopBack(w: Site, lp: Loop, p: nat, pBody: nat, pCont: nat, pPost: nat, pJmp: nat, c: Conf, m: SMem,
                 depth: nat, ts: set<int>) returns (k: nat, d: Conf)
    requires Begin(w, c, m, depth, ts) && LoopOk(lp, depth, ts) && LoopAt(w, lp, p, pBody, pCont, pPost, pJmp)
    requires c.pc == pCont || (!lp.isFor && c.pc == p)
    requires EvalTest(ScopeOf(w.fn, lp.cx), lp.post, m, 0).Some?
    ensures k > 0 && Run(w.prog, c, k) == Some(d) && d.pc == p + 1
    ensures Settled(w, c.st, m, EvalTest(ScopeOf(w.fn, lp.cx), lp.post, m, 0).value.mem, d.st)
  {
    hide Settled, Begin, CodeAt, Find, TestCode, BodyCode, GenExpr, Eval, TypeOf, Depth, Accepts, ScopeSafe, StmtDepth, Temps;
    SettledBase(w, c, m, depth, ts);
    assert Run(w.prog, c, 0) == Some(c);
    k, d := 0, c;
    if c.pc == p && !lp.isFor {
      RunLab(w.prog, c, k, d);
      k, d := k + 1, Conf(p + 1, d.st);
    } else {
      if lp.isFor {
        RunLab(w.prog, c, 0, c);
        k, d := 1, Conf(pPost, c.st);
      }
      var m1 := m;
      if lp.post.Some? {
        var e := lp.post.value;
        SettledBegin(w, c, m, depth, ts, m, d);
        BeginLess(w, d, m, depth, ts, Depth(e), {});
        var k2, d2 := DropRuns(w, lp.cx, e, BodyCode(lp, w.fn.intRet).next, d, m);
        RunCat(w.prog, c, k, d, k2);
        SettledTwice(w, c.st, m, d.st, m, d2.st, Eval(ScopeOf(w.fn, lp.cx), e, m).value.mem);
        k, d := k + k2, d2;
      }
      RunJmp(w.prog, c, k, d);
      RunLab(w.prog, c, k + 1, Conf(p, d.st));
      k, d := k + 2, Conf(p + 1, d.st);
    }
  }

  lemma ExitLoop(w: Site, j: Jumps, c: Conf, m: SMem, m': SMem, pEnd: nat, fuel: nat, k: nat, d: Conf) returns (k': nat, d': Conf)
    requires Run(w.prog, c, k) == Some(d) && Settled(w, c.st, m, m', d.st)
    requires d.pc == pEnd < |w.prog| && w.prog[pEnd].Lab?
    ensures Done(w, j, c, m, pEnd + 1, Fall(m'), fuel, k', d')
  {
    hide Run, Settled;
    RunLab(w.prog, c, k, d);
    k', d' := k + 1, Conf(pEnd + 1, d.st);
  }

  function LoopResult(w: Site, lp: Loop, m: SMem, fuel: nat): Result {
    ExecuteLoop(w.fn, lp.cx, lp.test, lp.body, lp.post, m, fuel)
  }

  lemma LoopUnfold(w: Site, lp: Loop, m: SMem, fuel: nat)
    requires Allowed(LoopResult(w, lp, m, fuel))
    ensures EvalTest(ScopeOf(w.fn, lp.cx), lp.test, m, 1).Some?
    ensures var r := EvalTest(ScopeOf(w.fn, lp.cx), lp.test, m, 1).value;
            if r.val == 0 then LoopResult(w, lp, m, fuel) == Fall(r.mem)
            else
              var q := Execute(w.fn, lp.cx, lp.body, r.mem, fuel);
              && Allowed(q)
              && (q.Broke? ==> LoopResult(w, lp, m, fuel) == Fall(q.mem))
              && (q.Returned? || q.NoFuel? ==> LoopResult(w, lp, m, fuel) == q)
              && (q.Fall? || q.Continued? ==>
                    && EvalTest(ScopeOf(w.fn, lp.cx), lp.post, q.mem, 0).Some?
                    && LoopResult(w, lp, m, fuel) ==
                       if fuel == 0 then NoFuel
                       else LoopResult(w, lp, EvalTest(ScopeOf(w.fn, lp.cx), lp.post, q.mem, 0).value.mem, fuel - 1))
  {
    hide Eval, Execute;
    var r := EvalTest(ScopeOf(w.fn, lp.cx), lp.test, m, 1).value;
    if r.val != 0 {
      var q := Execute(w.fn, lp.cx, lp.body, r.mem, fuel);
      if q.Fall? || q.Continued? {
        assert LoopResult(w, lp, m, fuel) == ExecuteStep(w.fn, lp.cx, lp.test, lp.body, lp.post, q.mem, fuel);
      }
    }
  }

  /** The loop from its test on. */
  lemma {:induction false} LoopRuns(w: Site, lp: Loop, p: nat, pBody: nat, pCont: nat, pPost: nat, pJmp: nat, c: Conf, m: SMem,
                                    depth: nat, ts: set<int>, fuel: nat) returns (k: nat, d: Conf)
    requires Begin(w, c, m, depth, ts) && LoopOk(lp, depth, ts) && LoopAt(w, lp, p, pBody, pCont, pPost, pJmp)
    requires c.pc == p + 1 && Allowed(LoopResult(w, lp, m, fuel))
    ensures Done(w, lp.j, c, m, pJmp + 2, LoopResult(w, lp, m, fuel), fuel, k, d)
    decreases fuel, lp.body, 4
  {
    hide Run, Settled, Begin, CodeAt, Find, TestCode, PostCode, GenStmt;
    hide Execute, ExecuteLoop, Eval, Accepts, ScopeSafe, StmtDepth, Temps, CtxAfter, TypeOf, Depth, EvalTest;
    LoopUnfold(w, lp, m, fuel);
    var r := EvalTest(ScopeOf(w.fn, lp.cx), lp.test, m, 1).value;
    var k1, d1 := LoopTest(w, lp, c, m, depth, ts);
    if r.val == 0 {
      k, d := ExitLoop(w, lp.j, c, m, r.mem, pJmp + 1, fuel, k1, d1);
    } else {
      SettledBegin(w, c, m, depth, ts, r.mem, d1);
      BeginLess(w, d1, r.mem, depth, ts, StmtDepth(lp.body), Temps(lp.cx, lp.body));
      var jb := Jumps(Some(lp.lEnd), Some(lp.lCont), lp.j.epi);
      var k2, d2 := StmtRuns(w, lp.cx, lp.body, TestCode(lp).next, jb, d1, r.mem, fuel);
      var q := Execute(w.fn, lp.cx, lp.body, r.mem, fuel);
      RunCat(w.prog, c, k1, d1, k2);
      if Defined(q) { SettledTwice(w, c.st, m, d1.st, r.mem, d2.st, q.mem); }
      if q.Broke? {
        k, d := ExitLoop(w, lp.j, c, m, q.mem, pJmp + 1, fuel, k1 + k2, d2);
      } else if q.Returned? || q.NoFuel? {
        k, d := k1 + k2, d2;
      } else {
        SettledBegin(w, c, m, depth, ts, q.mem, d2);
        var k3, d3 := LoopBack(w, lp, p, pBody, pCont, pPost, pJmp, d2, q.mem, depth, ts);
        var m3 := EvalTest(ScopeOf(w.fn, lp.cx), lp.post, q.mem, 0).value.mem;
        RunCat(w.prog, c, k1 + k2, d2, k3);
        SettledTwice(w, c.st, m, d2.st, q.mem, d3.st, m3);
        SettledBegin(w, c, m, depth, ts, m3, d3);
        if fuel == 0 { return k1 + k2 + k3, d3; }
        var k4, d4 := LoopRuns(w, lp, p, pBody, pCont, pPost, pJmp, d3, m3, depth, ts, fuel - 1);
        Chain(w, lp.j, c, m, k1 + k2 + k3, d3, m3, pJmp + 2, LoopResult(w, lp, m3, fuel - 1), fuel - 1, fuel, k4, d4);
        k, d := k1 + k2 + k3 + k4, d4;
      }
    }
  }

  /** The loop from its start label. */
  lemma {:induction false} LoopStarts(w: Site, lp: Loop, c: Conf, m: SMem, depth: nat, ts: set<int>, fuel: nat)
      returns (k: nat, d: Conf)
    requires Begin(w, c, m, depth, ts) && LoopOk(lp, depth, ts)
    requires CodeAt(w.prog, c.pc, LoopCode(lp, w.fn.intRet)) && Allowed(LoopResult(w, lp, m, fuel))
    ensures Done(w, lp.j, c, m, c.pc + |LoopCode(lp, w.fn.intRet)|, LoopResult(w, lp, m, fuel), fuel, k, d)
    decreases fuel, lp.body, 5
  {
    hide Settled, Begin, CodeAt, Find, LoopCode, LoopOk, LoopResult, Lands;
    BeginUnique(w, c, m, depth, ts);
    var pBody, pCont, pPost, pJmp := LoopLayout(w, lp, c.pc);
    SettledBase(w, c, m, depth, ts);
    assert Run(w.prog, c, 0) == Some(c);
    RunLab(w.prog, c, 0, c);
    var d1 := Conf(c.pc + 1, c.st);
    SettledBegin(w, c, m, depth, ts, m, d1);
    var k2, d2 := LoopRuns(w, lp, c.pc, pBody, pCont, pPost, pJmp, d1, m, depth, ts, fuel);
    Chain(w, lp.j, c, m, 1, d1, m, pJmp + 2, LoopResult(w, lp, m, fuel), fuel, fuel, k2, d2);
    k, d := 1 + k2, d2;
  }

  lemma {:induction false} WhileRuns(w: Site, cx: Ctx, s: Stmt, n: nat, j: Jumps, c: Conf, m: SMem, fuel: nat)
      returns (k: nat, d: Conf)
    requires s.While?
    requires Begin(w, c, m, StmtDepth(s), Temps(cx, s))
    requires CodeAt(w.prog, c.pc, GenStmt(cx, s, n, j, w.fn.intRet).code)
    requires Accepts(cx, s, j.brk.Some?, j.cont.Some?) && ScopeSafe(s)
    requires Allowed(Execute(w.fn, cx, s, m, fuel))
    ensures Done(w, j, c, m, c.pc + |GenStmt(cx, s, n, j, w.fn.intRet).code|, Execute(w.fn, cx, s, m, fuel), fuel, k, d)
    decreases fuel, s, 1
  {
    hide Run, Settled, Begin, CodeAt, UniqueLabels, GenCond, Eval, TypeOf, Depth, Execute;
    SafeScope(cx, s.loop);
    var lp := Loop(cx, Some(s.cond), s.loop, None, n, n + 1, n, n + 2, false, j);
    assert GenStmt(cx, s, n, j, w.fn.intRet).code == LoopCode(lp, w.fn.intRet);
    WhileResult(w, cx, s, m, fuel, lp);
    k, d := LoopStarts(w, lp, c, m, StmtDepth(s), Temps(cx, s), fuel);
  }

  lemma WhileResult(w: Site, cx: Ctx, s: Stmt, m: SMem, fuel: nat, lp: Loop)
    requires s.While? && lp.cx == cx && lp.test == Some(s.cond) && lp.body == s.loop && lp.post.None?
    ensures Execute(w.fn, cx, s, m, fuel) == LoopResult(w, lp, m, fuel)
  {
  }

  lemma ForUnfold(w: Site, cx: Ctx, s: Stmt, n: nat, j: Jumps, m: SMem, fuel: nat)
    requires s.For? && ScopeSafe(s) && Accepts(cx, s, j.brk.Some?, j.cont.Some?) && Allowed(Execute(w.fn, cx, s, m, fuel))
    ensures var lp := ForLoop(cx, s, n, j, w.fn.intRet);
            && LoopOk(lp, StmtDepth(s), Temps(cx, s))
            && match s.start
               case None =>
                 && GenStmt(cx, s, n, j, w.fn.intRet).code == LoopCode(lp, w.fn.intRet)
                 && Execute(w.fn, cx, s, m, fuel) == LoopResult(w, lp, m, fuel)
               case Some(d) =>
                 && GenStmt(cx, s, n, j, w.fn.intRet).code == GenStmt(cx, d, n, j, w.fn.intRet).code + LoopCode(lp, w.fn.intRet)
                 && Accepts(cx, d, j.brk.Some?, j.cont.Some?) && ScopeSafe(d) && StmtDepth(d) <= StmtDepth(s)
                 && Temps(cx, d) <= Temps(cx, s)
                 && Execute(w.fn, cx, d, m, fuel).Fall?
                 && Execute(w.fn, cx, s, m, fuel) == LoopResult(w, lp, Execute(w.fn, cx, d, m, fuel).mem, fuel)
  {
    hide GenCond, Eval, TypeOf, Depth;
    var cx1 := match s.start case Some(d) => CtxAfter(cx, d) case None => cx;
    LeaksScope(cx1, s.loop);
    if s.start.Some? { SafeScope(cx, s.start.value); }
  }

  lemma {:induction false} ForRuns(w: Site, cx: Ctx, s: Stmt, n: nat, j: Jumps, c: Conf, m: SMem, fuel: nat)
      returns (k: nat, d: Conf)
    requires s.For?
    requires Begin(w, c, m, StmtDepth(s), Temps(cx, s))
    requires CodeAt(w.prog, c.pc, GenStmt(cx, s, n, j, w.fn.intRet).code)
    requires Accepts(cx, s, j.brk.Some?, j.cont.Some?) && ScopeSafe(s)
    requires Allowed(Execute(w.fn, cx, s, m, fuel))
    ensures Done(w, j, c, m, c.pc + |GenStmt(cx, s, n, j, w.fn.intRet).code|, Execute(w.fn, cx, s, m, fuel), fuel, k, d)
    decreases fuel, s, 1
  {
    hide Run, Settled, Begin, CodeAt, UniqueLabels, LoopOk, LoopCode, LoopResult, Lands;
    hide GenStmt, GenAll, GenItems, Execute, ExecuteAll, Accepts, ScopeSafe, StmtDepth, Temps, CtxAfter, GenCond, GenExpr, Eval, TypeOf, Depth;
    ForUnfold(w, cx, s, n, j, m, fuel);
    var lp := ForLoop(cx, s, n, j, w.fn.intRet);
    match s.start
    case None => k, d := LoopStarts(w, lp, c, m, StmtDepth(s), Temps(cx, s), fuel);
    case Some(i) =>
      var oi := GenStmt(cx, i, n, j, w.fn.intRet);
      CodeAtCat(w.prog, c.pc, oi.code, LoopCode(lp, w.fn.intRet));
      BeginLess(w, c, m, StmtDepth(s), Temps(cx, s), StmtDepth(i), Temps(cx, i));
      var k1, d1 := StmtRuns(w, cx, i, n, j, c, m, fuel);
      var m1 := Execute(w.fn, cx, i, m, fuel).mem;
      LandsAt(w, j, c.pc + |oi.code|, Execute(w.fn, cx, i, m, fuel), d1);
      SettledBegin(w, c, m, StmtDepth(s), Temps(cx, s), m1, d1);
      var k2, d2 := LoopStarts(w, lp, d1, m1, StmtDepth(s), Temps(cx, s), fuel);
      Chain(w, j, c, m, k1, d1, m1, d1.pc + |LoopCode(lp, w.fn.intRet)|, LoopResult(w, lp, m1, fuel), fuel, fuel, k2, d2);
      k, d := k1 + k2, d2;
  }

  // ----- do -----

  /** Where the pieces of a `do` at `p` lie. */
  ghost predicate DoAt(w: Site, cx: Ctx, s: Stmt, n: nat, epi: nat, p: nat, pCont: nat, pJmp: nat)
    requires s.Do?
  {
    var ob := GenStmt(cx, s.loop, n + 3, Jumps(Some(n + 2), Some(n + 1), epi), w.fn.intRet);
    var oc := GenCond(CtxAfter(cx, s.loop).env, s.cond, ob.next, ob.next + 1);
    && pCont == p + 1 + |ob.code| && pJmp == pCont + 1 + |oc.code| && pJmp + 2 < |w.prog|
    && CodeAt(w.prog, p + 1, ob.code) && CodeAt(w.prog, pCont + 1, oc.code)
    && w.prog[p] == Lab(n) && Find(w.prog, n) == p
    && w.prog[pCont] == Lab(n + 1) && Find(w.prog, n + 1) == pCont
    && w.prog[pJmp] == Jmp(n) && w.prog[pJmp + 1] == Lab(ob.next) && Find(w.prog, ob.next) == pJmp + 1
    && w.prog[pJmp + 2] == Lab(n + 2) && Find(w.prog, n + 2) == pJmp + 2
  }

  lemma DoCode(cx: Ctx, s: Stmt, n: nat, j: Jumps, intRet: bool)
    requires s.Do?
    ensures var ob := GenStmt(cx, s.loop, n + 3, Jumps(Some(n + 2), Some(n + 1), j.epi), intRet);
            var oc := GenCond(CtxAfter(cx, s.loop).env, s.cond, ob.next, ob.next + 1);
            GenStmt(cx, s, n, j, intRet).code
            == [Lab(n)] + ob.code + [Lab(n + 1)] + oc.code + [] + [Jmp(n), Lab(ob.next), Lab(n + 2)]
  {
    hide GenCond, CtxAfter;
    var ob := GenStmt(cx, s.loop, n + 3, Jumps(Some(n + 2), Some(n + 1), j.epi), intRet);
    var oc := GenCond(CtxAfter(cx, s.loop).env, s.cond, ob.next, ob.next + 1);
    var front := [Lab(n)] + ob.code + [Lab(n + 1)] + oc.code;
    assert front + [] == front;
  }

  lemma DoLayout(w: Site, cx: Ctx, s: Stmt, n: nat, j: Jumps, p: nat) returns (pCont: nat, pJmp: nat)
    requires s.Do? && UniqueLabels(w.prog) && CodeAt(w.prog, p, GenStmt(cx, s, n, j, w.fn.intRet).code)
    ensures DoAt(w, cx, s, n, j.epi, p, pCont, pJmp)
    ensures p + |GenStmt(cx, s, n, j, w.fn.intRet).code| == pJmp + 3
  {
    hide UniqueLabels, CodeAt, Find, GenStmt, GenCond, CtxAfter;
    var ob := GenStmt(cx, s.loop, n + 3, Jumps(Some(n + 2), Some(n + 1), j.epi), w.fn.intRet);
    var oc := GenCond(CtxAfter(cx, s.loop).env, s.cond, ob.next, ob.next + 1);
    var a, o, z := [Lab(n)], [Lab(n + 1)], [Jmp(n), Lab(ob.next), Lab(n + 2)];
    DoCode(cx, s, n, j, w.fn.intRet);
    SixPieces(w.prog, p, a, ob.code, o, oc.code, [], z);
    pCont := p + 1 + |ob.code|;
    pJmp := pCont + 1 + |oc.code|;
    LabelAt(w.prog, p, a, 0);
    LabelAt(w.prog, pCont, o, 0);
    CodeAtItem(w.prog, pJmp, z, 0);
    LabelAt(w.prog, pJmp, z, 1);
    LabelAt(w.prog, pJmp, z, 2);
  }

  lemma DoUnfold(fn: Fun, cx: Ctx, s: Stmt, m: SMem, fuel: nat)
    requires s.Do? && ScopeSafe(s) && Accepts(cx, s, true, true) && Allowed(Execute(fn, cx, s, m, fuel))
    ensures Accepts(cx, s.loop, true, true) && ScopeSafe(s.loop) && Typed(cx, s.cond) && CtxAfter(cx, s.loop).env == cx.env
    ensures StmtDepth(s.loop) <= StmtDepth(s) && Depth(s.cond) <= StmtDepth(s) && Temps(cx, s.loop) == Temps(cx, s)
    ensures var q := Execute(fn, cx, s.loop, m, fuel);
            && Allowed(q)
            && (q.Broke? ==> Execute(fn, cx, s, m, fuel) == Fall(q.mem))
            && (q.Returned? || q.NoFuel? ==> Execute(fn, cx, s, m, fuel) == q)
            && (q.Fall? || q.Continued? ==>
                  && Eval(ScopeOf(fn, cx), s.cond, q.mem).Some?
                  && var r := Eval(ScopeOf(fn, cx), s.cond, q.mem).value;
                     if r.val == 0 then Execute(fn, cx, s, m, fuel) == Fall(r.mem)
                     else Execute(fn, cx, s, m, fuel) == if fuel == 0 then NoFuel else Execute(fn, cx, s, r.mem, fuel - 1))
  {
    hide Eval, Depth;
    LeaksScope(cx, s.loop);
    var q := Execute(fn, cx, s.loop, m, fuel);
    if q.Fall? || q.Continued? {
      assert Execute(fn, cx, s, m, fuel) == ExecuteAgain(fn, cx, s, s.cond, q.mem, fuel);
    }
  }

  /** Acceptance of a loop does not depend on what surrounds it. */
  lemma DoAnywhere(cx: Ctx, s: Stmt, b: bool, l: bool)
    requires s.Do? && Accepts(cx, s, b, l)
    ensures Accepts(cx, s, true, true)
  {
  }

  lemma {:induction false} DoLoopRuns(w: Site, cx: Ctx, s: Stmt, n: nat, j: Jumps, p: nat, pCont: nat, pJmp: nat, c: Conf, m: SMem, fuel: nat)
      returns (k: nat, d: Conf)
    requires s.Do? && Begin(w, c, m, StmtDepth(s), Temps(cx, s)) && DoAt(w, cx, s, n, j.epi, p, pCont, pJmp)
    requires c.pc == p + 1 && Accepts(cx, s, true, true) && ScopeSafe(s) && Allowed(Execute(w.fn, cx, s, m, fuel))
    ensures Done(w, j, c, m, pJmp + 3, Execute(w.fn, cx, s, m, fuel), fuel, k, d)
    decreases fuel, s, 0
  {
    hide Run, Settled, Begin, CodeAt, UniqueLabels, Find;
    hide GenStmt, GenAll, GenItems, Execute, ExecuteAll, Accepts, ScopeSafe, StmtDepth, Temps, CtxAfter, GenCond, GenExpr, Eval, TypeOf, Depth;
    DoUnfold(w.fn, cx, s, m, fuel);
    var jb := Jumps(Some(n + 2), Some(n + 1), j.epi);
    var ob := GenStmt(cx, s.loop, n + 3, jb, w.fn.intRet);
    BeginLess(w, c, m, StmtDepth(s), Temps(cx, s), StmtDepth(s.loop), Temps(cx, s.loop));
    var k1, d1 := StmtRuns(w, cx, s.loop, n + 3, jb, c, m, fuel);
    var q := Execute(w.fn, cx, s.loop, m, fuel);
    if q.Broke? {
      k, d := ExitLoop(w, j, c, m, q.mem, pJmp + 2, fuel, k1, d1);
    } else if q.Returned? || q.NoFuel? {
      k, d := k1, d1;
    } else {
      RunLab(w.prog, c, k1, d1);
      var d2 := Conf(pCont + 1, d1.st);
      SettledBegin(w, c, m, StmtDepth(s), Temps(cx, s), q.mem, d2);
      BeginLess(w, d2, q.mem, StmtDepth(s), Temps(cx, s), Depth(s.cond), {});
      var r := Eval(ScopeOf(w.fn, cx), s.cond, q.mem).value;
      var k3, d3 := TestAt(w, cx, s.cond, ob.next, ob.next + 1, d2, q.mem);
      RunCat(w.prog, c, k1 + 1, d2, k3);
      SettledTwice(w, c.st, m, d2.st, q.mem, d3.st, r.mem);
      if r.val == 0 {
        RunLab(w.prog, c, k1 + 1 + k3, d3);
        k, d := ExitLoop(w, j, c, m, r.mem, pJmp + 2, fuel, k1 + 2 + k3, Conf(pJmp + 2, d3.st));
      } else {
        RunJmp(w.prog, c, k1 + 1 + k3, d3);
        RunLab(w.prog, c, k1 + 2 + k3, Conf(p, d3.st));
        var d4 := Conf(p + 1, d3.st);
        SettledBegin(w, c, m, StmtDepth(s), Temps(cx, s), r.mem, d4);
        if fuel == 0 { return k1 + 3 + k3, d4; }
        var k5, d5 := DoLoopRuns(w, cx, s, n, j, p, pCont, pJmp, d4, r.mem, fuel - 1);
        Chain(w, j, c, m, k1 + 3 + k3, d4, r.mem, pJmp + 3, Execute(w.fn, cx, s, r.mem, fuel - 1), fuel - 1, fuel, k5, d5);
        k, d := k1 + 3 + k3 + k5, d5;
      }
    }
  }

  lemma {:induction false} DoRuns(w: Site, cx: Ctx, s: Stmt, n: nat, j: Jumps, c: Conf, m: SMem, fuel: nat)
      returns (k: nat, d: Conf)
    requires s.Do?
    requires Begin(w, c, m, StmtDepth(s), Temps(cx, s))
    requires CodeAt(w.prog, c.pc, GenStmt(cx, s, n, j, w.fn.intRet).code)
    requires Accepts(cx, s, j.brk.Some?, j.cont.Some?) && ScopeSafe(s)
    requires Allowed(Execute(w.fn, cx, s, m, fuel))
    ensures Done(w, j, c, m, c.pc + |GenStmt(cx, s, n, j, w.fn.intRet).code|, Execute(w.fn, cx, s, m, fuel), fuel, k, d)
    decreases fuel, s, 1
  {
    hide Settled, Begin, CodeAt, Find, UniqueLabels, DoAt, Lands;
    hide GenStmt, GenAll, GenItems, Execute, ExecuteAll, Accepts, ScopeSafe, StmtDepth, Temps, CtxAfter, GenCond, GenExpr, Eval, TypeOf, Depth;
    DoAnywhere(cx, s, j.brk.Some?, j.cont.Some?);
    BeginUnique(w, c, m, StmtDepth(s), Temps(cx, s));
    var pCont, pJmp := DoLayout(w, cx, s, n, j, c.pc);
    DoTop(w, cx, s, n, j.epi, c.pc, pCont, pJmp);
    SettledBase(w, c, m, StmtDepth(s), Temps(cx, s));
    assert Run(w.prog, c, 0) == Some(c);
    RunLab(w.prog, c, 0, c);
    var d1 := Conf(c.pc + 1, c.st);
    SettledBegin(w, c, m, StmtDepth(s), Temps(cx, s), m, d1);
    var k2, d2 := DoLoopRuns(w, cx, s, n, j, c.pc, pCont, pJmp, d1, m, fuel);
    Chain(w, j, c, m, 1, d1, m, pJmp + 3, Execute(w.fn, cx, s, m, fuel), fuel, fuel, k2, d2);
    k, d := 1 + k2, d2;
  }

  lemma DoTop(w: Site, cx: Ctx, s: Stmt, n: nat, epi: nat, p: nat, pCont: nat, pJmp: nat)
    requires s.Do? && DoAt(w, cx, s, n, epi, p, pCont, pJmp)
    ensures p < |w.prog| && w.prog[p].Lab?
  {
  }

  // ----- switch -----

  /** Code length of the first `k` entries of a switch body. */
  function ItemOff(cx: Ctx, items: seq<SwItem>, n: nat, j: Jumps, intRet: bool, k: nat): nat
    decreases items
  {
    if items == [] || k == 0 then 0
    else
      var o := GenItem(cx, items[0], n, j, intRet);
      |o.code| + ItemOff(CtxAfterItem(cx, items[0]), items[1..], o.next, j, intRet, k - 1)
  }

  /** The label the dispatch code jumps to for selector `v`, if a case matches. */
  function MatchLabel(cases: seq<(Word, nat)>, v: Word): Option<nat> {
    if cases == [] then None else if cases[0].0 == v then Some(cases[0].1) else MatchLabel(cases[1..], v)
  }

  lemma ItemOffNext(cx: Ctx, items: seq<SwItem>, n: nat, j: Jumps, ir: bool, k: nat)
    requires items != []
    ensures var o := GenItem(cx, items[0], n, j, ir);
            ItemOff(cx, items, n, j, ir, k + 1) == |o.code| + ItemOff(CtxAfterItem(cx, items[0]), items[1..], o.next, j, ir, k)
    ensures ItemOff(cx, items, n, j, ir, 0) == 0
  {
    hide GenItem, CtxAfterItem;
  }

  /** How one entry extends the case table. */
  lemma TableStep(cx: Ctx, items: seq<SwItem>, n: nat, j: Jumps, ir: bool, v: Word)
    requires items != [] && (items[0].Case? ==> EvalConst(items[0].key).Some?)
    ensures var o := GenItem(cx, items[0], n, j, ir);
            var rest := TableOf(CtxAfterItem(cx, items[0]), items[1..], o.next, j, ir);
            MatchLabel(TableOf(cx, items, n, j, ir).cases, v)
            == if items[0].Case? && EvalConst(items[0].key) == Some(v) then Some(n) else MatchLabel(rest.cases, v)
  {
    hide GenItem, CtxAfterItem, EvalConst;
    var o := GenItem(cx, items[0], n, j, ir);
    var rest := TableOf(CtxAfterItem(cx, items[0]), items[1..], o.next, j, ir);
    if items[0].Case? {
      var cs := [(EvalConst(items[0].key).value, n)] + rest.cases;
      assert TableOf(cx, items, n, j, ir).cases == cs && cs[1..] == rest.cases;
    }
  }

  /** The recorded case labels sit where the source semantics enters the body. */
  lemma {:induction false} CaseLabels(prog: seq<Item>, p: nat, cx: Ctx, items: seq<SwItem>, n: nat, j: Jumps, ir: bool, v: Word, inLoop: bool)
    requires UniqueLabels(prog) && CodeAt(prog, p, GenItems(cx, items, n, j, ir).code) && AcceptsItems(cx, items, inLoop)
    ensures var hit := MatchLabel(TableOf(cx, items, n, j, ir).cases, v);
            && hit.Some? == FirstCase(items, v).Some?
            && (hit.Some? ==> Find(prog, hit.value) == p + ItemOff(cx, items, n, j, ir, FirstCase(items, v).value))
    decreases items
  {
    hide UniqueLabels, CodeAt, Find, GenStmt, CtxAfter, Accepts, EvalConst, ItemOff;
    if items != [] {
      var it := items[0];
      var o1 := GenItem(cx, it, n, j, ir);
      var cx1 := CtxAfterItem(cx, it);
      CodeAtCat(prog, p, o1.code, GenItems(cx1, items[1..], o1.next, j, ir).code);
      CaseLabels(prog, p + |o1.code|, cx1, items[1..], o1.next, j, ir, v, inLoop);
      TableStep(cx, items, n, j, ir, v);
      hide GenItems, AcceptsItems, TableOf, MatchLabel;
      if it.Case? && EvalConst(it.key) == Some(v) {
        LabelAt(prog, p, o1.code, 0);
        ItemOffNext(cx, items, n, j, ir, 0);
      } else if FirstCase(items[1..], v).Some? {
        ItemOffNext(cx, items, n, j, ir, FirstCase(items[1..], v).value);
      }
    }
  }

  lemma {:induction false} DefaultLabel(prog: seq<Item>, p: nat, cx: Ctx, items: seq<SwItem>, n: nat, j: Jumps, ir: bool)
    requires UniqueLabels(prog) && CodeAt(prog, p, GenItems(cx, items, n, j, ir).code)
    ensures var dflt := TableOf(cx, items, n, j, ir).dflt;
            && dflt.Some? == LastDefault(items).Some?
            && (dflt.Some? ==> Find(prog, dflt.value) == p + ItemOff(cx, items, n, j, ir, LastDefault(items).value))
    decreases items
  {
    hide UniqueLabels, CodeAt, Find, GenStmt, CtxAfter, Fold;
    if items != [] {
      var it := items[0];
      var o1 := GenItem(cx, it, n, j, ir);
      var cx1 := CtxAfterItem(cx, it);
      CodeAtCat(prog, p, o1.code, GenItems(cx1, items[1..], o1.next, j, ir).code);
      DefaultLabel(prog, p + |o1.code|, cx1, items[1..], o1.next, j, ir);
      hide GenItems;
      if it.Default? { LabelAt(prog, p, o1.code, 0); }
    }
  }

  /** Run a switch body from entry `e`. */
  lemma {:induction false} ItemsRuns(w: Site, cx: Ctx, items: seq<SwItem>, n: nat, j: Jumps, p: nat, e: nat, c: Conf, m: SMem, fuel: nat)
      returns (k: nat, d: Conf)
    requires Begin(w, c, m, DepthItems(items), TempsItems(cx, items))
    requires CodeAt(w.prog, p, GenItems(cx, items, n, j, w.fn.intRet).code)
    requires e <= |items| && c.pc == p + ItemOff(cx, items, n, j, w.fn.intRet, e)
    requires j.brk.Some? && AcceptsItems(cx, items, j.cont.Some?) && ScopeSafeItems(items)
    requires Allowed(ExecuteItems(w.fn, cx, items, e, m, fuel))
    ensures Done(w, j, c, m, p + |GenItems(cx, items, n, j, w.fn.intRet).code|, ExecuteItems(w.fn, cx, items, e, m, fuel), fuel, k, d)
    decreases fuel, items, 0
  {
    hide X86.Step, GenExpr, TypeOf, Eval, Wrap;
    hide Settled, Begin, Lands, CodeAt, UniqueLabels, Find, GenStmt, Execute, Accepts, ScopeSafe, StmtDepth, Temps, CtxAfter;
    SettledBase(w, c, m, DepthItems(items), TempsItems(cx, items));
    if items == [] {
      k, d := 0, c;
      LandsFall(w, j, p, m, c);
    } else {
      var it := items[0];
      var o1 := GenItem(cx, it, n, j, w.fn.intRet);
      var cx1 := CtxAfterItem(cx, it);
      var o2 := GenItems(cx1, items[1..], o1.next, j, w.fn.intRet);
      var p1 := p + |o1.code|;
      CodeAtCat(w.prog, p, o1.code, o2.code);
      if it.Body? { SafeScope(cx, it.stmt); }
      if e > 0 {
        BeginLess(w, c, m, DepthItems(items), TempsItems(cx, items), DepthItems(items[1..]), TempsItems(cx1, items[1..]));
        k, d := ItemsRuns(w, cx1, items[1..], o1.next, j, p1, e - 1, c, m, fuel);
      } else {
        BeginLess(w, c, m, DepthItems(items), TempsItems(cx, items), DepthItem(it), TempsItem(cx, it));
        var k1, d1 := ItemRuns(w, cx, it, n, j, c, m, fuel);
        var r := ExecuteItem(w.fn, cx, it, m, fuel);
        if r.Fall? {
          LandsAt(w, j, p1, r, d1);
          SettledBegin(w, c, m, DepthItems(items), TempsItems(cx, items), r.mem, d1);
          BeginLess(w, d1, r.mem, DepthItems(items), TempsItems(cx, items), DepthItems(items[1..]), TempsItems(cx1, items[1..]));
          var k2, d2 := ItemsRuns(w, cx1, items[1..], o1.next, j, p1, 0, d1, r.mem, fuel);
          Chain(w, j, c, m, k1, d1, r.mem, p1 + |o2.code|, ExecuteItems(w.fn, cx1, items[1..], 0, r.mem, fuel), fuel, fuel, k2, d2);
          k, d := k1 + k2, d2;
        } else {
          if Defined(r) { LandsElsewhere(w, j, p1, p1 + |o2.code|, r, d1); }
          k, d := k1, d1;
        }
      }
    }
  }

  lemma {:induction false} ItemRuns(w: Site, cx: Ctx, it: SwItem, n: nat, j: Jumps, c: Conf, m: SMem, fuel: nat)
      returns (k: nat, d: Conf)
    requires Begin(w, c, m, DepthItem(it), TempsItem(cx, it))
    requires CodeAt(w.prog, c.pc, GenItem(cx, it, n, j, w.fn.intRet).code)
    requires j.brk.Some? && AcceptsItem(cx, it, j.cont.Some?) && ScopeSafeItem(it)
    requires Allowed(ExecuteItem(w.fn, cx, it, m, fuel))
    ensures Done(w, j, c, m, c.pc + |GenItem(cx, it, n, j, w.fn.intRet).code|, ExecuteItem(w.fn, cx, it, m, fuel), fuel, k, d)
    decreases fuel, it, 4
  {
    hide Settled, Begin, CodeAt, UniqueLabels, Find;
    hide GenStmt, GenAll, Execute, ExecuteAll, Accepts, ScopeSafe, StmtDepth, Temps, CtxAfter, GenCond, GenExpr, Eval, TypeOf, Depth;
    match it
    case Body(s) => k, d := StmtRuns(w, cx, s, n, j, c, m, fuel);
    case _ =>
      SettledBase(w, c, m, DepthItem(it), TempsItem(cx, it));
      InProgram(w.prog, c.pc, [Lab(n)]);
      CodeAtItem(w.prog, c.pc, [Lab(n)], 0);
      assert Run(w.prog, c, 0) == Some(c);
      RunLab(w.prog, c, 0, c);
      k, d := 1, Conf(c.pc + 1, c.st);
  }

  /** Memory, stack and frame unchanged; registers and flags are scratch. */
  ghost predicate SameMem(s: State, t: State) { t.mem == s.mem && t.esp == s.esp && t.ebp == s.ebp }

  lemma CompareOne(prog: seq<Item>, c: Conf, k: nat, d: Conf, temp: Word, x: Word, l: nat, v: Word)
      returns (d': Conf)
    requires Run(prog, c, k) == Some(d)
    requires CodeAt(prog, d.pc, [I(LoadEaxEbp(temp)), I(CmpEaxImm(x)), Jz(l)])
    requires var a := Wrap(d.st.ebp + temp); Aligned(a) && Rd(d.st.mem, a) == v
    ensures Run(prog, c, k + 3) == Some(d') && SameMem(d.st, d'.st)
    ensures d'.pc == if x == v then Find(prog, l) else d.pc + 3
  {
    hide Run, CodeAt, Find;
    var code := [I(LoadEaxEbp(temp)), I(CmpEaxImm(x)), Jz(l)];
    InProgram(prog, d.pc, code);
    CodeAtItem(prog, d.pc, code, 0);
    CodeAtItem(prog, d.pc, code, 1);
    CodeAtItem(prog, d.pc, code, 2);
    var s1 := d.st.(eax := v);
    RunInstr(prog, c, k, d, LoadEaxEbp(temp), s1);
    var s2 := s1.(flags := Some(CmpFlags(v, x)));
    RunInstr(prog, c, k + 1, Conf(d.pc + 1, s1), CmpEaxImm(x), s2);
    RunJz(prog, c, k + 2, Conf(d.pc + 2, s2));
    d' := Conf(if x == v then Find(prog, l) else d.pc + 3, s2);
  }

  /** The dispatch chain reaches the label of the first matching case. */
  lemma {:induction false} DispatchRuns(prog: seq<Item>, c: Conf, k: nat, d: Conf, temp: Word, cases: seq<(Word, nat)>, v: Word)
      returns (k': nat, d': Conf)
    requires Run(prog, c, k) == Some(d) && CodeAt(prog, d.pc, Dispatch(temp, cases))
    requires var a := Wrap(d.st.ebp + temp); Aligned(a) && Rd(d.st.mem, a) == v
    ensures Run(prog, c, k') == Some(d') && SameMem(d.st, d'.st)
    ensures d'.pc == match MatchLabel(cases, v)
                     case Some(l) => Find(prog, l)
                     case None => d.pc + |Dispatch(temp, cases)|
    decreases |cases|
  {
    hide Run, CodeAt, Find;
    if cases == [] {
      k', d' := k, d;
    } else {
      var one := [I(LoadEaxEbp(temp)), I(CmpEaxImm(cases[0].0)), Jz(cases[0].1)];
      CodeAtCat(prog, d.pc, one, Dispatch(temp, cases[1..]));
      d' := CompareOne(prog, c, k, d, temp, cases[0].0, cases[0].1, v);
      k' := k + 3;
      if cases[0].0 != v {
        k', d' := DispatchRuns(prog, c, k + 3, d', temp, cases[1..], v);
      }
    }
  }

  /** Saving the selector touches only its hidden slot. */
  lemma SaveSelector(w: Site, c: Conf, m: SMem, m1: SMem, d: Conf, k: nat, t: int, depth: nat, ts: set<int>)
      returns (d': Conf)
    requires Begin(w, c, m, depth, ts) && t in ts
    requires Run(w.prog, c, k) == Some(d) && Settled(w, c.st, m, m1, d.st)
    requires d.pc < |w.prog| && w.prog[d.pc] == I(StoreEbpEax(Wrap(t)))
    ensures Run(w.prog, c, k + 1) == Some(d') && d'.pc == d.pc + 1
    ensures Settled(w, c.st, m, m1, d'.st) && d'.st.ebp == w.fn.frame
    ensures var a := Wrap(w.fn.frame + Wrap(t)); Aligned(a) && Rd(d'.st.mem, a) == d.st.eax
  {
    hide Run, UniqueLabels;
    assert Hidden(w, m, t);
    WrapAdd(t, w.fn.frame);
    var a: Word := w.fn.frame + t;
    assert Wrap(d.st.ebp + Wrap(t)) == a;
    var s' := d.st.(mem := d.st.mem[a := d.st.eax]);
    RunInstr(w.prog, c, k, d, StoreEbpEax(Wrap(t)), s');
    d' := Conf(d.pc + 1, s');
  }

  lemma SameMemSettled(w: Site, s: State, m: SMem, m': SMem, t: State, t': State)
    requires Settled(w, s, m, m', t) && SameMem(t, t')
    ensures Settled(w, s, m, m', t')
  {
  }

  /** The pieces of a switch. */
  datatype SwitchParts = SwitchParts(oc: Out, cx1: Ctx, temp: Word, j1: Jumps, ob: Out, tab: Table, last: nat)

  function PartsOf(cx: Ctx, s: Stmt, n: nat, j: Jumps, ir: bool): SwitchParts
    requires s.Switch?
  {
    var oc := GenExpr(cx.env, s.cond, n);
    var cx1 := cx.(off := TempSlot(cx));
    var j1 := Jumps(Some(oc.next + 1), j.cont, j.epi);
    var tab := TableOf(cx1, s.items, oc.next + 2, j1, ir);
    SwitchParts(oc, cx1, Wrap(TempSlot(cx)), j1, GenItems(cx1, s.items, oc.next + 2, j1, ir), tab,
                match tab.dflt case Some(l) => l case None => oc.next + 1)
  }

  lemma SwitchUnfold(fn: Fun, cx: Ctx, s: Stmt, n: nat, j: Jumps, m: SMem, fuel: nat)
    requires s.Switch? && ScopeSafe(s) && Accepts(cx, s, j.brk.Some?, j.cont.Some?) && Allowed(Execute(fn, cx, s, m, fuel))
    ensures var q := PartsOf(cx, s, n, j, fn.intRet);
            GenStmt(cx, s, n, j, fn.intRet).code
            == q.oc.code + [I(PopEax), I(StoreEbpEax(q.temp)), Jmp(q.oc.next)] + q.ob.code + [Jmp(q.oc.next + 1), Lab(q.oc.next)]
               + Dispatch(q.temp, q.tab.cases) + [Jmp(q.last), Lab(q.oc.next + 1)]
    ensures var cx1 := cx.(off := TempSlot(cx));
            && Typed(cx, s.cond) && AcceptsItems(cx1, s.items, j.cont.Some?) && ScopeSafeItems(s.items)
            && Depth(s.cond) <= StmtDepth(s) && DepthItems(s.items) <= StmtDepth(s)
            && TempSlot(cx) in Temps(cx, s) && TempsItems(cx1, s.items) <= Temps(cx, s)
    ensures Eval(ScopeOf(fn, cx), s.cond, m).Some?
    ensures var r := Eval(ScopeOf(fn, cx), s.cond, m).value;
            var b := ExecuteItems(fn, cx.(off := TempSlot(cx)), s.items, Entry(s.items, r.val), r.mem, fuel);
            && Allowed(b) && Execute(fn, cx, s, m, fuel) == if b.Broke? then Fall(b.mem) else b
  {
    hide Eval, TypeOf, Depth, Dispatch, TableOf, GenItems, GenExpr, Entry;
  }

  /** Up to the dispatch label: selector evaluated and saved. */
  lemma {:induction false} SelectorRuns(w: Site, cx: Ctx, s: Stmt, n: nat, j: Jumps, c: Conf, m: SMem, pD: nat)
      returns (k: nat, d: Conf)
    requires s.Switch? && Begin(w, c, m, StmtDepth(s), Temps(cx, s)) && TempSlot(cx) in Temps(cx, s)
    requires Depth(s.cond) <= StmtDepth(s) && Typed(cx, s.cond) && Eval(ScopeOf(w.fn, cx), s.cond, m).Some?
    requires var q := PartsOf(cx, s, n, j, w.fn.intRet);
             && CodeAt(w.prog, c.pc, q.oc.code + [I(PopEax), I(StoreEbpEax(q.temp)), Jmp(q.oc.next)])
             && pD < |w.prog| && w.prog[pD] == Lab(q.oc.next) && Find(w.prog, q.oc.next) == pD
    ensures var r := Eval(ScopeOf(w.fn, cx), s.cond, m).value;
            && Run(w.prog, c, k) == Some(d) && d.pc == pD + 1 && Settled(w, c.st, m, r.mem, d.st) && d.st.ebp == w.fn.frame
            && var a := Wrap(w.fn.frame + Wrap(TempSlot(cx))); Aligned(a) && Rd(d.st.mem, a) == r.val
  {
    hide Run, Settled, Begin, CodeAt, UniqueLabels, Find, GenItems, TableOf;
    hide GenStmt, GenAll, Execute, ExecuteAll, Accepts, ScopeSafe, StmtDepth, Temps, CtxAfter, GenCond, GenExpr, Eval, TypeOf, Depth;
    var q := PartsOf(cx, s, n, j, w.fn.intRet);
    var r := Eval(ScopeOf(w.fn, cx), s.cond, m).value;
    var rest := [I(StoreEbpEax(q.temp)), Jmp(q.oc.next)];
    assert q.oc.code + [I(PopEax), I(StoreEbpEax(q.temp)), Jmp(q.oc.next)] == q.oc.code + [I(PopEax)] + rest;
    CodeAtCat(w.prog, c.pc, q.oc.code + [I(PopEax)], rest);
    BeginLess(w, c, m, StmtDepth(s), Temps(cx, s), Depth(s.cond), {});
    var k1, d1 := EaxRuns(w, cx, s.cond, n, c, m);
    InProgram(w.prog, d1.pc, rest);
    CodeAtItem(w.prog, d1.pc, rest, 0);
    CodeAtItem(w.prog, d1.pc, rest, 1);
    var d2 := SaveSelector(w, c, m, r.mem, d1, k1, TempSlot(cx), StmtDepth(s), Temps(cx, s));
    RunJmp(w.prog, c, k1 + 1, d2);
    RunLab(w.prog, c, k1 + 2, Conf(pD, d2.st));
    k, d := k1 + 3, Conf(pD + 1, d2.st);
  }

  /** From the dispatch chain into the body, or past it. */
  lemma {:induction false} EnterRuns(w: Site, q: SwitchParts, items: seq<SwItem>, n: nat, pB: nat, c: Conf, k: nat, d: Conf, v: Word)
      returns (k': nat, d': Conf)
    requires UniqueLabels(w.prog) && CodeAt(w.prog, pB, q.ob.code) && q.ob == GenItems(q.cx1, items, n, q.j1, w.fn.intRet)
    requires q.tab == TableOf(q.cx1, items, n, q.j1, w.fn.intRet) && AcceptsItems(q.cx1, items, q.j1.cont.Some?)
    requires q.j1.brk.Some? && q.last == match q.tab.dflt case Some(l) => l case None => q.j1.brk.value
    requires Run(w.prog, c, k) == Some(d) && CodeAt(w.prog, d.pc, Dispatch(q.temp, q.tab.cases) + [Jmp(q.last)])
    requires var a := Wrap(d.st.ebp + q.temp); Aligned(a) && Rd(d.st.mem, a) == v
    ensures Run(w.prog, c, k') == Some(d') && SameMem(d.st, d'.st)
    ensures d'.pc == if Entry(items, v) < |items| then pB + ItemOff(q.cx1, items, n, q.j1, w.fn.intRet, Entry(items, v))
                     else Find(w.prog, q.j1.brk.value)
  {
    hide Run, UniqueLabels, CodeAt, Find, GenItems, TableOf, AcceptsItems, ItemOff, Dispatch, MatchLabel, FirstCase, LastDefault;
    CaseLabels(w.prog, pB, q.cx1, items, n, q.j1, w.fn.intRet, v, q.j1.cont.Some?);
    DefaultLabel(w.prog, pB, q.cx1, items, n, q.j1, w.fn.intRet);
    FirstCaseBound(items, v);
    LastDefaultBound(items);
    CodeAtCat(w.prog, d.pc, Dispatch(q.temp, q.tab.cases), [Jmp(q.last)]);
    k', d' := DispatchRuns(w.prog, c, k, d, q.temp, q.tab.cases, v);
    if MatchLabel(q.tab.cases, v).None? {
      InProgram(w.prog, d'.pc, [Jmp(q.last)]);
      CodeAtItem(w.prog, d'.pc, [Jmp(q.last)], 0);
      RunJmp(w.prog, c, k', d');
      k', d' := k' + 1, Conf(Find(w.prog, q.last), d'.st);
    }
  }

  /** Out of the body: over the jump after it, or straight from a break. */
  lemma LeaveSwitch(w: Site, j: Jumps, j1: Jumps, c: Conf, m: SMem, pA: nat, pE: nat, r: Result, fuel: nat, k: nat, d: Conf)
      returns (k': nat, d': Conf)
    requires Allowed(r) && Done(w, j1, c, m, pA, r, fuel, k, d)
    requires j1.brk.Some? && j1.cont == j.cont && j1.epi == j.epi
    requires pA < |w.prog| && w.prog[pA] == Jmp(j1.brk.value)
    requires pE < |w.prog| && w.prog[pE].Lab? && Find(w.prog, j1.brk.value) == pE
    ensures Done(w, j, c, m, pE + 1, if r.Broke? then Fall(r.mem) else r, fuel, k', d')
  {
    hide Run, Settled, Find;
    k', d' := k, d;
    if r.Fall? {
      RunJmp(w.prog, c, k, d);
      k', d' := k + 1, Conf(pE, d.st);
    }
    if r.Fall? || r.Broke? {
      RunLab(w.prog, c, k', d');
      k', d' := k' + 1, Conf(pE + 1, d'.st);
    }
  }

  /** No case and no default: the body is skipped. */
  lemma {:induction false} SkipsAll(fn: Fun, cx: Ctx, items: seq<SwItem>, m: SMem, fuel: nat)
    ensures ExecuteItems(fn, cx, items, |items|, m, fuel) == Fall(m)
    decreases items
  {
    if items != [] {
      SkipsAll(fn, if items[0].Body? then ScopeAfter(cx, items[0].stmt) else cx, items[1..], m, fuel);
    }
  }

  lemma {:induction false} SwitchRuns(w: Site, cx: Ctx, s: Stmt, n: nat, j: Jumps, c: Conf, m: SMem, fuel: nat)
      returns (k: nat, d: Conf)
    requires s.Switch?
    requires Begin(w, c, m, StmtDepth(s), Temps(cx, s))
    requires CodeAt(w.prog, c.pc, GenStmt(cx, s, n, j, w.fn.intRet).code)
    requires Accepts(cx, s, j.brk.Some?, j.cont.Some?) && ScopeSafe(s)
    requires Allowed(Execute(w.fn, cx, s, m, fuel))
    ensures Done(w, j, c, m, c.pc + |GenStmt(cx, s, n, j, w.fn.intRet).code|, Execute(w.fn, cx, s, m, fuel), fuel, k, d)
    decreases fuel, s, 1
  {
    hide Run, Settled, Begin, Lands, CodeAt, UniqueLabels, Find, GenItems, TableOf, Dispatch, Entry, ExecuteItems, AcceptsItems;
    hide ItemOff, DepthItems, TempsItems, ScopeSafeItems;
    hide GenStmt, GenAll, Execute, ExecuteAll, Accepts, ScopeSafe, StmtDepth, Temps, CtxAfter, GenCond, GenExpr, Eval, TypeOf, Depth;
    SwitchUnfold(w.fn, cx, s, n, j, m, fuel);
    var q := PartsOf(cx, s, n, j, w.fn.intRet);
    var r := Eval(ScopeOf(w.fn, cx), s.cond, m).value;
    var a, b, g := q.oc.code + [I(PopEax), I(StoreEbpEax(q.temp)), Jmp(q.oc.next)], [Jmp(q.oc.next + 1), Lab(q.oc.next)], Dispatch(q.temp, q.tab.cases);
    var pB := c.pc + |a|;
    var pA := pB + |q.ob.code|;
    var pE := pA + 2 + |g| + 1;
    BeginUnique(w, c, m, StmtDepth(s), Temps(cx, s));
    SwitchLayout(w.prog, c.pc, a, q.ob.code, q.oc.next + 1, q.oc.next, g, q.last);
    var k1, d1 := SelectorRuns(w, cx, s, n, j, c, m, pA + 1);
    var k2, d2 := EnterRuns(w, q, s.items, q.oc.next + 2, pB, c, k1, d1, r.val);
    SameMemSettled(w, c.st, m, r.mem, d1.st, d2.st);
    var e := Entry(s.items, r.val);
    if e == |s.items| {
      SkipsAll(w.fn, q.cx1, s.items, r.mem, fuel);
      k, d := ExitLoop(w, j, c, m, r.mem, pE, fuel, k2, d2);
    } else {
      SettledBegin(w, c, m, StmtDepth(s), Temps(cx, s), r.mem, d2);
      BeginLess(w, d2, r.mem, StmtDepth(s), Temps(cx, s), DepthItems(s.items), TempsItems(q.cx1, s.items));
      var body := ExecuteItems(w.fn, q.cx1, s.items, e, r.mem, fuel);
      var k3, d3 := ItemsRuns(w, q.cx1, s.items, q.oc.next + 2, q.j1, pB, e, d2, r.mem, fuel);
      k3, d3 := LeaveSwitch(w, j, q.j1, d2, r.mem, pA, pE, body, fuel, k3, d3);
      Chain(w, j, c, m, k2, d2, r.mem, pE + 1, Execute(w.fn, cx, s, m, fuel), fuel, fuel, k3, d3);
      k, d := k2 + k3, d3;
    }
  }

  lemma SwitchLayout(prog: seq<Item>, p: nat, a: seq<Item>, ob: seq<Item>, lEnd: nat, lDispatch: nat, g: seq<Item>, last: nat)
    requires UniqueLabels(prog)
    requires CodeAt(prog, p, a + ob + [Jmp(lEnd), Lab(lDispatch)] + g + [Jmp(last), Lab(lEnd)])
    ensures CodeAt(prog, p, a) && CodeAt(prog, p + |a|, ob)
    ensures var pA := p + |a| + |ob|;
            && CodeAt(prog, pA + 2, g + [Jmp(last)]) && pA + 3 + |g| < |prog|
            && prog[pA] == Jmp(lEnd) && prog[pA + 1] == Lab(lDispatch) && Find(prog, lDispatch) == pA + 1
            && prog[pA + 3 + |g|] == Lab(lEnd) && Find(prog, lEnd) == pA + 3 + |g|
  {
    hide UniqueLabels, CodeAt, Find;
    var mid := [Jmp(lEnd), Lab(lDispatch)];
    var pA := p + |a| + |ob|;
    assert a + ob + mid + g + [Jmp(last), Lab(lEnd)] == a + ob + mid + (g + [Jmp(last)]) + [] + [Lab(lEnd)];
    SixPieces(prog, p, a, ob, mid, g + [Jmp(last)], [], [Lab(lEnd)]);
    CodeAtItem(prog, pA, mid, 0);
    LabelAt(prog, pA, mid, 1);
    LabelAt(prog, pA + 3 + |g|, [Lab(lEnd)], 0);
  }

}
