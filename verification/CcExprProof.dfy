/** Expression compilation preserves meaning. */
module CcExprProof {
  import opened Options
  import opened Word32
  import opened CcAst
  import opened CcSource
  import opened X86
  import opened CcGen
  import opened CcTails

  // ----- running code inside a larger program -----

  ghost predicate CodeAt(prog: seq<Item>, i: nat, c: seq<Item>) {
    i + |c| <= |prog| && prog[i..i + |c|] == c
  }

  lemma CodeAtCat(prog: seq<Item>, i: nat, a: seq<Item>, b: seq<Item>)
    requires CodeAt(prog, i, a + b)
    ensures CodeAt(prog, i, a) && CodeAt(prog, i + |a|, b)
  {
    assert prog[i..i + |a|] == (a + b)[..|a|];
    assert prog[i + |a|..i + |a| + |b|] == (a + b)[|a|..];
  }

  lemma CodeAtItem(prog: seq<Item>, i: nat, c: seq<Item>, k: nat)
    requires CodeAt(prog, i, c) && k < |c|
    ensures prog[i + k] == c[k]
  {
    assert prog[i..i + |c|][k] == prog[i + k];
  }

  lemma {:induction false} FindUnique(prog: seq<Item>, l: nat, p: nat)
    requires UniqueLabels(prog) && p < |prog| && prog[p] == Lab(l)
    ensures Find(prog, l) == p
  {
    var k := Find(prog, l);
    FindsSome(prog, l, p);
  }

  lemma {:induction false} FindsSome(prog: seq<Item>, l: nat, p: nat)
    requires p < |prog| && prog[p] == Lab(l)
    ensures Find(prog, l) < |prog|
  {
    if prog[0] != Lab(l) { FindsSome(prog[1..], l, p - 1); }
  }

  lemma {:induction false} RunCat(prog: seq<Item>, c: Conf, j: nat, d: Conf, k: nat)
    requires Run(prog, c, j) == Some(d)
    ensures Run(prog, c, j + k) == Run(prog, d, k)
    decreases j
  {
    if j > 0 { RunCat(prog, Step(prog, c).value, j - 1, d, k); }
  }

  lemma RunStep(prog: seq<Item>, c: Conf, j: nat, d: Conf)
    requires Run(prog, c, j) == Some(d)
    ensures Run(prog, c, j + 1) == Step(prog, d)
  {
    RunCat(prog, c, j, d, 1);
    match Step(prog, d)
    case None =>
    case Some(e) => assert Run(prog, e, 0) == Some(e);
  }

  lemma {:induction false} RunStraight(prog: seq<Item>, c: Conf, ins: seq<Instr>, t: State)
    requires CodeAt(prog, c.pc, Code(ins)) && ExecAll(ins, c.st) == Some(t)
    ensures Run(prog, c, |ins|) == Some(Conf(c.pc + |ins|, t))
    decreases |ins|
  {
    if ins != [] {
      CodeAtItem(prog, c.pc, Code(ins), 0);
      var d := Step(prog, c).value;
      assert Code(ins) == Code(ins[..1]) + Code(ins[1..]);
      CodeAtCat(prog, c.pc, Code(ins[..1]), Code(ins[1..]));
      RunStraight(prog, d, ins[1..], t);
    }
  }

  /** One step over a label. */
  lemma RunLab(prog: seq<Item>, c: Conf, j: nat, d: Conf)
    requires Run(prog, c, j) == Some(d) && d.pc < |prog| && prog[d.pc].Lab?
    ensures Run(prog, c, j + 1) == Some(Conf(d.pc + 1, d.st))
  {
    RunStep(prog, c, j, d);
  }

  /** A jump lands just before its label. */
  lemma RunJmp(prog: seq<Item>, c: Conf, j: nat, d: Conf)
    requires Run(prog, c, j) == Some(d) && d.pc < |prog| && prog[d.pc].Jmp?
    ensures Run(prog, c, j + 1) == Some(Conf(Find(prog, prog[d.pc].l), d.st))
  {
    RunStep(prog, c, j, d);
  }

  lemma RunJz(prog: seq<Item>, c: Conf, j: nat, d: Conf)
    requires Run(prog, c, j) == Some(d) && d.pc < |prog| && prog[d.pc].Jz? && d.st.flags.Some?
    ensures Run(prog, c, j + 1) ==
            Some(Conf(if d.st.flags.value.zf then Find(prog, prog[d.pc].l) else d.pc + 1, d.st))
  {
    RunStep(prog, c, j, d);
  }

  lemma RunPush(prog: seq<Item>, c: Conf, j: nat, d: Conf, v: Word, t: State)
    requires Run(prog, c, j) == Some(d) && d.pc < |prog| && prog[d.pc] == I(PushImm(v)) && Push(d.st, v) == Some(t)
    ensures Run(prog, c, j + 1) == Some(Conf(d.pc + 1, t))
  {
    RunStep(prog, c, j, d);
  }

  // ----- the simulation relation -----

  /** Stack words in use or free lie in [lo, hi), no program object does, and
      every object holds its source value. */
  ghost predicate Rep(s: State, m: SMem, lo: nat, hi: nat) {
    && Aligned(s.esp) && lo <= s.esp <= hi < TWO32
    && forall a :: a in m ==> Aligned(a) && (a < lo || a >= hi) && Rd(s.mem, a) == m[a]
  }

  /** Nothing but program objects and the free stack has changed. */
  ghost predicate Kept(s: State, t: State, m: SMem, lo: nat) {
    && t.ebp == s.ebp
    && forall a: Word :: a !in m && !(lo <= a < s.esp) ==> Rd(t.mem, a) == Rd(s.mem, a)
  }

  /** One slot pushed, holding the value; source and machine memory agree. */
  ghost predicate Yields(s: State, m: SMem, r: Res, t: State, lo: nat, hi: nat) {
    && r.mem.Keys == m.Keys
    && t.ebp == s.ebp && t.esp == s.esp - 4 && Rd(t.mem, t.esp) == r.val
    && Rep(t, r.mem, lo, hi) && Kept(s, t, m, lo)
  }

  /** The stack is as before. */
  ghost predicate Neutral(s: State, m: SMem, m': SMem, t: State, lo: nat, hi: nat) {
    && m'.Keys == m.Keys && t.esp == s.esp && t.ebp == s.ebp
    && Rep(t, m', lo, hi) && Kept(s, t, m, lo)
  }

  function Max(a: nat, b: nat): nat { if a > b then a else b }

  /** Stack slots needed below esp. */
  function Depth(e: Expr): (d: nat)
    ensures d >= 1
    decreases e, 1
  {
    match e
    case Num(_, _) => 1
    case Var(_) | Deref(_) | Index(_, _) | Member(_, _, _) => DepthAddr(e)
    case AddrOf(x) => DepthAddr(x)
    case Assign(l, r) => Max(DepthAddr(l), 1 + Depth(r))
    case Tern(c, t, f) => Max(Depth(c), Max(Depth(t), Depth(f)))
    case Un(_, a) => Depth(a)
    case Bin(op, l, r) => if IsLogic(op) then Max(Depth(l), Depth(r)) else Max(Depth(l), 1 + Depth(r))
  }

  function DepthAddr(e: Expr): (d: nat)
    ensures d >= 1
    decreases e, 0
  {
    match e
    case Deref(p) => Depth(p)
    case Index(a, i) => Max(Depth(a), 1 + Depth(i))
    case Member(r, _, arrow) => if arrow then Depth(r) else DepthAddr(r)
    case _ => 1
  }

  /** A tail that consumes `k` pushed words completes the expression. */
  lemma TailYields(s: State, m: SMem, s2: State, m2: SMem, k: nat, v: Word, t: State, lo: nat, hi: nat)
    requires m2.Keys == m.Keys && Rep(s, m, lo, hi) && lo + 4 <= s.esp
    requires s2.esp == s.esp - 4 * k && Rep(s2, m2, lo, hi) && Kept(s, s2, m, lo)
    requires Pushed(s2, k, v, t)
    ensures Yields(s, m, Res(v, m2), t, lo, hi)
  {
    forall a | a in m2 ensures Rd(t.mem, a) == m2[a] {
      assert a < lo || a >= hi;
    }
  }

  // ----- the theorem -----

  /** Everything a compiled piece may assume. */
  ghost predicate Ready(prog: seq<Item>, sc: Scope, c: Conf, m: SMem, lo: nat, hi: nat, depth: nat) {
    && UniqueLabels(prog) && sc.rule == Cc && sc.frame == c.st.ebp
    && Rep(c.st, m, lo, hi) && lo + 4 * depth <= c.st.esp
  }

  lemma Finish(prog: seq<Item>, c: Conf, j: nat, d: Conf, ins: seq<Instr>, t: State)
    requires Run(prog, c, j) == Some(d)
    requires CodeAt(prog, d.pc, Code(ins)) && ExecAll(ins, d.st) == Some(t)
    ensures Run(prog, c, j + |ins|) == Some(Conf(d.pc + |ins|, t))
  {
    RunStraight(prog, d, ins, t);
    RunCat(prog, c, j, d, |ins|);
  }

  /** Two operands one after the other: both are on the stack. */
  lemma BothPushed(s: State, m: SMem, ra: Res, s1: State, rb: Res, s2: State, lo: nat, hi: nat)
    requires Rep(s, m, lo, hi) && lo + 8 <= s.esp
    requires Yields(s, m, ra, s1, lo, hi) && Yields(s1, ra.mem, rb, s2, lo, hi)
    ensures Top2(s2, ra.val, rb.val) || s.esp == TWO32
    ensures rb.mem.Keys == m.Keys && Kept(s, s2, m, lo)
  {
    assert s1.esp !in ra.mem;
  }

  /** `gen_expr` pushes exactly the value. */
  lemma {:induction false} ExprRuns(prog: seq<Item>, sc: Scope, e: Expr, n: nat, c: Conf, m: SMem, lo: nat, hi: nat)
      returns (k: nat, d: Conf)
    requires Ready(prog, sc, c, m, lo, hi, Depth(e))
    requires CodeAt(prog, c.pc, GenExpr(sc.env, e, n).code)
    requires TypeOf(Cc, sc.env, e).Some? && Eval(sc, e, m).Some?
    ensures Run(prog, c, k) == Some(d) && d.pc == c.pc + |GenExpr(sc.env, e, n).code|
    ensures Yields(c.st, m, Eval(sc, e, m).value, d.st, lo, hi)
    decreases e, if IsLogicExpr(e) then 3 else 1
  {
    hide X86.Step, Run, Rep, Kept, UniqueLabels, CodeAt, InferType, CommonType;
    match e
    case Num(_, _) => k, d := NumRuns(prog, sc, e, n, c, m, lo, hi);
    case Var(_) | Deref(_) | Index(_, _) | Member(_, _, _) => k, d := LvalueRuns(prog, sc, e, n, c, m, lo, hi);
    case AddrOf(x) => k, d := AddrRuns(prog, sc, x, n, c, m, lo, hi);
    case Assign(_, _) => k, d := AssignRuns(prog, sc, e, n, c, m, lo, hi);
    case Tern(_, _, _) => k, d := TernRuns(prog, sc, e, n, c, m, lo, hi);
    case Un(_, _) => k, d := UnRuns(prog, sc, e, n, c, m, lo, hi);
    case Bin(op, _, _) =>
      if IsLogic(op) {
        k, d := LogicValueRuns(prog, sc, e, n, c, m, lo, hi);
      } else {
        k, d := BinRuns(prog, sc, e, n, c, m, lo, hi);
      }
  }

  lemma NumRuns(prog: seq<Item>, sc: Scope, e: Expr, n: nat, c: Conf, m: SMem, lo: nat, hi: nat)
      returns (k: nat, d: Conf)
    requires e.Num?
    requires Ready(prog, sc, c, m, lo, hi, Depth(e))
    requires CodeAt(prog, c.pc, GenExpr(sc.env, e, n).code)
    requires TypeOf(Cc, sc.env, e).Some? && Eval(sc, e, m).Some?
    ensures Run(prog, c, k) == Some(d) && d.pc == c.pc + |GenExpr(sc.env, e, n).code|
    ensures Yields(c.st, m, Eval(sc, e, m).value, d.st, lo, hi)
  {
    hide UniqueLabels;
    CodeAtItem(prog, c.pc, [I(PushImm(e.v))], 0);
    var t := Push(c.st, e.v).value;
    assert Run(prog, c, 0) == Some(c);
    RunPush(prog, c, 0, c, e.v, t);
    PushedOne(c.st, m, e.v, t, lo, hi);
    k, d := 1, Conf(c.pc + 1, t);
  }

  lemma UnUnfold(sc: Scope, e: Expr, n: nat, m: SMem)
    requires e.Un? && TypeOf(Cc, sc.env, e).Some? && Eval(sc, e, m).Some?
    ensures GenExpr(sc.env, e, n).code == GenExpr(sc.env, e.arg, n).code + Code(UnTail(e.uop))
    ensures TypeOf(Cc, sc.env, e.arg).Some? && Depth(e) == Depth(e.arg)
    ensures var r := Eval(sc, e.arg, m); r.Some? && Eval(sc, e, m) == Some(Res(UnSem(e.uop, r.value.val), r.value.mem))
  {
    hide UnSem, UnTail;
  }

  lemma {:induction false} UnRuns(prog: seq<Item>, sc: Scope, e: Expr, n: nat, c: Conf, m: SMem, lo: nat, hi: nat)
      returns (k: nat, d: Conf)
    requires e.Un?
    requires Ready(prog, sc, c, m, lo, hi, Depth(e))
    requires CodeAt(prog, c.pc, GenExpr(sc.env, e, n).code)
    requires TypeOf(Cc, sc.env, e).Some? && Eval(sc, e, m).Some?
    ensures Run(prog, c, k) == Some(d) && d.pc == c.pc + |GenExpr(sc.env, e, n).code|
    ensures Yields(c.st, m, Eval(sc, e, m).value, d.st, lo, hi)
    decreases e, 1, 0
  {
    hide X86.Step, Run, Exec, ExecAll, Pushed, Kept, UniqueLabels, CodeAt, UnSem, UnTail;
    UnUnfold(sc, e, n, m);
    hide GenExpr, Eval, TypeOf, Depth;
    var op, a := e.uop, e.arg;
    var o := GenExpr(sc.env, a, n);
    CodeAtCat(prog, c.pc, o.code, Code(UnTail(op)));
    var j, d1 := ExprRuns(prog, sc, a, n, c, m, lo, hi);
    var ra := Eval(sc, a, m).value;
    var t := UnTailRuns(op, d1.st, ra.val);
    TailYields(c.st, m, d1.st, ra.mem, 1, UnSem(op, ra.val), t, lo, hi);
    Finish(prog, c, j, d1, UnTail(op), t);
    k, d := j + |UnTail(op)|, Conf(d1.pc + |UnTail(op)|, t);
  }

  lemma {:induction false} LvalueRuns(prog: seq<Item>, sc: Scope, e: Expr, n: nat, c: Conf, m: SMem, lo: nat, hi: nat)
      returns (k: nat, d: Conf)
    requires e.Var? || e.Deref? || e.Index? || e.Member?
    requires Ready(prog, sc, c, m, lo, hi, Depth(e))
    requires CodeAt(prog, c.pc, GenExpr(sc.env, e, n).code)
    requires TypeOf(Cc, sc.env, e).Some? && Eval(sc, e, m).Some?
    ensures Run(prog, c, k) == Some(d) && d.pc == c.pc + |GenExpr(sc.env, e, n).code|
    ensures Yields(c.st, m, Eval(sc, e, m).value, d.st, lo, hi)
    decreases e, 1, 0
  {
    hide X86.Step, Run, Exec, ExecAll, Pushed, Kept, UniqueLabels, CodeAt, InferType, CommonType, Size, BinType;
    var o := GenAddr(sc.env, e, n);
    if LvalueType(sc.env, e).TArray? {
      k, d := AddrRuns(prog, sc, e, n, c, m, lo, hi);
    } else {
      CodeAtCat(prog, c.pc, o.code, Code(LoadFrom));
      var j, d1 := AddrRuns(prog, sc, e, n, c, m, lo, hi);
      var ra := EvalAddr(sc, e, m).value;
      var t := LoadFromRuns(d1.st, ra.val);
      TailYields(c.st, m, d1.st, ra.mem, 1, Rd(d1.st.mem, ra.val), t, lo, hi);
      Finish(prog, c, j, d1, LoadFrom, t);
      k, d := j + |LoadFrom|, Conf(d1.pc + |LoadFrom|, t);
    }
  }

  /** `gen_addr` pushes the address the lvalue designates. */
  lemma {:induction false} AddrRuns(prog: seq<Item>, sc: Scope, e: Expr, n: nat, c: Conf, m: SMem, lo: nat, hi: nat)
      returns (k: nat, d: Conf)
    requires Ready(prog, sc, c, m, lo, hi, DepthAddr(e))
    requires CodeAt(prog, c.pc, GenAddr(sc.env, e, n).code)
    requires AddrType(Cc, sc.env, e).Some? && EvalAddr(sc, e, m).Some?
    ensures Run(prog, c, k) == Some(d) && d.pc == c.pc + |GenAddr(sc.env, e, n).code|
    ensures Yields(c.st, m, EvalAddr(sc, e, m).value, d.st, lo, hi)
    decreases e, 0, 1
  {
    hide X86.Step, Run, Rep, Kept, UniqueLabels, CodeAt, InferType, CommonType;
    match e
    case Var(_) => k, d := VarRuns(prog, sc, e, n, c, m, lo, hi);
    case Deref(p) => k, d := ExprRuns(prog, sc, p, n, c, m, lo, hi);
    case Index(_, _) => k, d := IndexRuns(prog, sc, e, n, c, m, lo, hi);
    case Member(_, _, _) => k, d := MemberRuns(prog, sc, e, n, c, m, lo, hi);
  }

  lemma VarRuns(prog: seq<Item>, sc: Scope, e: Expr, n: nat, c: Conf, m: SMem, lo: nat, hi: nat)
      returns (k: nat, d: Conf)
    requires e.Var?
    requires Ready(prog, sc, c, m, lo, hi, DepthAddr(e))
    requires CodeAt(prog, c.pc, GenAddr(sc.env, e, n).code)
    requires AddrType(Cc, sc.env, e).Some? && EvalAddr(sc, e, m).Some?
    ensures Run(prog, c, k) == Some(d) && d.pc == c.pc + |GenAddr(sc.env, e, n).code|
    ensures Yields(c.st, m, EvalAddr(sc, e, m).value, d.st, lo, hi)
  {
    hide Exec, ExecAll, X86.Step, Run, UniqueLabels, Pushed;
    var sy := Lookup(sc.env, e.name).value;
    var t := LoadAddrRuns(sy, c.st);
    KeptSame(c.st, m, lo);
    TailYields(c.st, m, c.st, m, 0, AddrOfSym(c.st.ebp, sy), t, lo, hi);
    RunStraight(prog, c, LoadAddr(sy), t);
    k, d := |LoadAddr(sy)|, Conf(c.pc + |LoadAddr(sy)|, t);
  }

  lemma KeptSame(s: State, m: SMem, lo: nat)
    ensures Kept(s, s, m, lo)
  {
  }

  lemma MemberUnfold(sc: Scope, e: Expr, n: nat, m: SMem)
    requires e.Member? && sc.rule == Cc && AddrType(Cc, sc.env, e).Some? && EvalAddr(sc, e, m).Some?
    ensures var o := if e.arrow then GenExpr(sc.env, e.rec, n) else GenAddr(sc.env, e.rec, n);
            var off := OffsetOf(sc.env, e.rec, e.field, e.arrow);
            var r := if e.arrow then Eval(sc, e.rec, m) else EvalAddr(sc, e.rec, m);
            && GenAddr(sc.env, e, n).code == o.code + Code(MemberTail(off))
            && r.Some? && EvalAddr(sc, e, m) == Some(Res(Wrap(r.value.val + off), r.value.mem))
    ensures DepthAddr(e) == if e.arrow then Depth(e.rec) else DepthAddr(e.rec)
    ensures if e.arrow then TypeOf(Cc, sc.env, e.rec).Some? else AddrType(Cc, sc.env, e.rec).Some?
  {
  }

  lemma {:induction false} MemberRuns(prog: seq<Item>, sc: Scope, e: Expr, n: nat, c: Conf, m: SMem, lo: nat, hi: nat)
      returns (k: nat, d: Conf)
    requires e.Member?
    requires Ready(prog, sc, c, m, lo, hi, DepthAddr(e))
    requires CodeAt(prog, c.pc, GenAddr(sc.env, e, n).code)
    requires AddrType(Cc, sc.env, e).Some? && EvalAddr(sc, e, m).Some?
    ensures Run(prog, c, k) == Some(d) && d.pc == c.pc + |GenAddr(sc.env, e, n).code|
    ensures Yields(c.st, m, EvalAddr(sc, e, m).value, d.st, lo, hi)
    decreases e, 0, 0
  {
    hide X86.Step, Run, Exec, ExecAll, Pushed, Kept, UniqueLabels, CodeAt;
    hide GenExpr, GenAddr, GenLogical, GenCond, Eval, EvalAddr, TypeOf, AddrType, Depth, DepthAddr, OffsetOf, MemberTail;
    MemberUnfold(sc, e, n, m);
    var o := if e.arrow then GenExpr(sc.env, e.rec, n) else GenAddr(sc.env, e.rec, n);
    var off := OffsetOf(sc.env, e.rec, e.field, e.arrow);
    CodeAtCat(prog, c.pc, o.code, Code(MemberTail(off)));
    var j, d1;
    if e.arrow {
      j, d1 := ExprRuns(prog, sc, e.rec, n, c, m, lo, hi);
    } else {
      j, d1 := AddrRuns(prog, sc, e.rec, n, c, m, lo, hi);
    }
    var ra := (if e.arrow then Eval(sc, e.rec, m) else EvalAddr(sc, e.rec, m)).value;
    var t := MemberTailRuns(off, d1.st, ra.val);
    TailYields(c.st, m, d1.st, ra.mem, 1, Wrap(ra.val + off), t, lo, hi);
    Finish(prog, c, j, d1, MemberTail(off), t);
    k, d := j + |MemberTail(off)|, Conf(d1.pc + |MemberTail(off)|, t);
  }

  lemma {:induction false} IndexRuns(prog: seq<Item>, sc: Scope, e: Expr, n: nat, c: Conf, m: SMem, lo: nat, hi: nat)
      returns (k: nat, d: Conf)
    requires e.Index?
    requires Ready(prog, sc, c, m, lo, hi, DepthAddr(e))
    requires CodeAt(prog, c.pc, GenAddr(sc.env, e, n).code)
    requires AddrType(Cc, sc.env, e).Some? && EvalAddr(sc, e, m).Some?
    ensures Run(prog, c, k) == Some(d) && d.pc == c.pc + |GenAddr(sc.env, e, n).code|
    ensures Yields(c.st, m, EvalAddr(sc, e, m).value, d.st, lo, hi)
    decreases e, 0, 0
  {
    hide X86.Step, Run, Exec, ExecAll, Pushed, Kept, UniqueLabels, CodeAt, InferType, CommonType, Rep, Top2, Size, BinType;
    var a, i := e.arr, e.idx;
    var size := Size(sc.env, LvalueType(sc.env, e));
    var tail := IndexTail(size);
    var oa := GenExpr(sc.env, a, n);
    var oi := GenExpr(sc.env, i, oa.next);
    CodeAtCat(prog, c.pc, oa.code + oi.code, Code(tail));
    CodeAtCat(prog, c.pc, oa.code, oi.code);
    var j1, d1 := ExprRuns(prog, sc, a, n, c, m, lo, hi);
    var ra := Eval(sc, a, m).value;
    var j2, d2 := ExprRuns(prog, sc, i, oa.next, d1, ra.mem, lo, hi);
    var ri := Eval(sc, i, ra.mem).value;
    RunCat(prog, c, j1, d1, j2);
    BothPushed(c.st, m, ra, d1.st, ri, d2.st, lo, hi);
    var t := ScaledRuns(size, false, d2.st, ra.val, ri.val);
    TailYields(c.st, m, d2.st, ri.mem, 2, Wrap(ra.val + ri.val * Scale(size)), t, lo, hi);
    Finish(prog, c, j1 + j2, d2, tail, t);
    k, d := j1 + j2 + |tail|, Conf(d2.pc + |tail|, t);
  }

  lemma StoreYields(s: State, m: SMem, s2: State, m2: SMem, a: Word, v: Word, t: State, lo: nat, hi: nat)
    requires m2.Keys == m.Keys && a in m2 && Rep(s, m, lo, hi) && lo + 8 <= s.esp
    requires s2.esp == s.esp - 8 && Rep(s2, m2, lo, hi) && Kept(s, s2, m, lo)
    requires t.esp == s2.esp + 4 && t.ebp == s2.ebp && Rd(t.mem, t.esp) == v && Rd(t.mem, a) == v
    requires forall x: Word :: x != a && (x < s2.esp || x >= s2.esp + 8) ==> Rd(t.mem, x) == Rd(s2.mem, x)
    ensures Yields(s, m, Res(v, m2[a := v]), t, lo, hi)
  {
    assert m2[a := v].Keys == m.Keys;
    forall x | x in m2[a := v] ensures Rd(t.mem, x) == m2[a := v][x] {
      assert x in m2 && (x < lo || x >= hi);
    }
  }

  /** An object is not among the two words just pushed. */
  lemma ObjectApart(s: State, m: SMem, t: State, m2: SMem, lo: nat, hi: nat, a: Word)
    requires Rep(s, m, lo, hi) && Rep(t, m2, lo, hi) && a in m2 && t.esp + 8 == s.esp
    ensures Aligned(a) && (a < t.esp || a >= t.esp + 8)
  {
  }

  lemma AssignUnfold(sc: Scope, e: Expr, n: nat, m: SMem)
    requires e.Assign? && TypeOf(Cc, sc.env, e).Some? && Eval(sc, e, m).Some?
    ensures var ol := GenAddr(sc.env, e.dst, n);
            GenExpr(sc.env, e, n).code == ol.code + GenExpr(sc.env, e.src, ol.next).code + Code(StoreTo)
    ensures AddrType(Cc, sc.env, e.dst).Some? && TypeOf(Cc, sc.env, e.src).Some?
    ensures Depth(e) >= DepthAddr(e.dst) && Depth(e) >= 1 + Depth(e.src)
    ensures var ra := EvalAddr(sc, e.dst, m);
            && ra.Some?
            && var rv := Eval(sc, e.src, ra.value.mem);
               && rv.Some? && ra.value.val in rv.value.mem
               && Eval(sc, e, m) == Some(Res(rv.value.val, rv.value.mem[ra.value.val := rv.value.val]))
  {
  }

  lemma {:induction false} AssignRuns(prog: seq<Item>, sc: Scope, e: Expr, n: nat, c: Conf, m: SMem, lo: nat, hi: nat)
      returns (k: nat, d: Conf)
    requires e.Assign?
    requires Ready(prog, sc, c, m, lo, hi, Depth(e))
    requires CodeAt(prog, c.pc, GenExpr(sc.env, e, n).code)
    requires TypeOf(Cc, sc.env, e).Some? && Eval(sc, e, m).Some?
    ensures Run(prog, c, k) == Some(d) && d.pc == c.pc + |GenExpr(sc.env, e, n).code|
    ensures Yields(c.st, m, Eval(sc, e, m).value, d.st, lo, hi)
    decreases e, 1, 0
  {
    hide X86.Step, Run, Exec, ExecAll, Pushed, Kept, UniqueLabels, CodeAt, InferType, Size, Top2, Rep;
    hide GenExpr, GenAddr, GenLogical, GenCond, Eval, EvalAddr, TypeOf, AddrType, Depth, DepthAddr;
    AssignUnfold(sc, e, n, m);
    var l, r := e.dst, e.src;
    var ol := GenAddr(sc.env, l, n);
    var or := GenExpr(sc.env, r, ol.next);
    var ra := EvalAddr(sc, l, m).value;
    var rv := Eval(sc, r, ra.mem).value;
    CodeAtCat(prog, c.pc, ol.code + or.code, Code(StoreTo));
    CodeAtCat(prog, c.pc, ol.code, or.code);
    var j1, d1 := AddrRuns(prog, sc, l, n, c, m, lo, hi);
    var j2, d2 := ExprRuns(prog, sc, r, ol.next, d1, ra.mem, lo, hi);
    RunCat(prog, c, j1, d1, j2);
    BothPushed(c.st, m, ra, d1.st, rv, d2.st, lo, hi);
    ObjectApart(c.st, m, d2.st, rv.mem, lo, hi, ra.val);
    var t := StoreToRuns(d2.st, ra.val, rv.val);
    StoreYields(c.st, m, d2.st, rv.mem, ra.val, rv.val, t, lo, hi);
    Finish(prog, c, j1 + j2, d2, StoreTo, t);
    k, d := j1 + j2 + |StoreTo|, Conf(d2.pc + |StoreTo|, t);
  }

  lemma {:induction false} BinRuns(prog: seq<Item>, sc: Scope, e: Expr, n: nat, c: Conf, m: SMem, lo: nat, hi: nat)
      returns (k: nat, d: Conf)
    requires e.Bin? && !IsLogic(e.bop)
    requires Ready(prog, sc, c, m, lo, hi, Depth(e))
    requires CodeAt(prog, c.pc, GenExpr(sc.env, e, n).code)
    requires TypeOf(Cc, sc.env, e).Some? && Eval(sc, e, m).Some?
    ensures Run(prog, c, k) == Some(d) && d.pc == c.pc + |GenExpr(sc.env, e, n).code|
    ensures Yields(c.st, m, Eval(sc, e, m).value, d.st, lo, hi)
    decreases e, 1, 0
  {
    hide X86.Step, Run, Exec, ExecAll, Pushed, Kept, UniqueLabels, CodeAt, InferType, CommonType, Rep, Top2, BinTail, BinSem, BinType, Size;
    var l, r := e.lhs, e.rhs;
    var tail := BinTail(sc.env, e.bop, ValueType(sc.env, l), ValueType(sc.env, r));
    var ol := GenExpr(sc.env, l, n);
    var or := GenExpr(sc.env, r, ol.next);
    CodeAtCat(prog, c.pc, ol.code + or.code, Code(tail));
    CodeAtCat(prog, c.pc, ol.code, or.code);
    var j1, d1 := ExprRuns(prog, sc, l, n, c, m, lo, hi);
    var ra := Eval(sc, l, m).value;
    var j2, d2 := ExprRuns(prog, sc, r, ol.next, d1, ra.mem, lo, hi);
    var rb := Eval(sc, r, ra.mem).value;
    RunCat(prog, c, j1, d1, j2);
    BothPushed(c.st, m, ra, d1.st, rb, d2.st, lo, hi);
    var t := BinTailRuns(sc.env, e.bop, ValueType(sc.env, l), ValueType(sc.env, r), d2.st, ra.val, rb.val);
    TailYields(c.st, m, d2.st, rb.mem, 2, Eval(sc, e, m).value.val, t, lo, hi);
    Finish(prog, c, j1 + j2, d2, tail, t);
    k, d := j1 + j2 + |tail|, Conf(d2.pc + |tail|, t);
  }

  lemma NeutralThen(s: State, m: SMem, m1: SMem, s1: State, r: Res, t: State, lo: nat, hi: nat)
    requires Neutral(s, m, m1, s1, lo, hi) && Yields(s1, m1, r, t, lo, hi)
    ensures Yields(s, m, r, t, lo, hi)
  {
  }

  /** A label found where the code puts it. */
  lemma LabelAt(prog: seq<Item>, p: nat, c: seq<Item>, i: nat)
    requires UniqueLabels(prog) && CodeAt(prog, p, c) && i < |c| && c[i].Lab?
    ensures p + i < |prog| && prog[p + i] == c[i] && Find(prog, c[i].l) == p + i
  {
    hide UniqueLabels, Find;
    CodeAtItem(prog, p, c, i);
    FindUnique(prog, c[i].l, p + i);
  }

  /** Where the pieces of `?:` and of if/else end up. */
  lemma TernLayout(prog: seq<Item>, p: nat, a: seq<Item>, t: seq<Item>, f: seq<Item>, lFalse: nat, lEnd: nat)
    requires UniqueLabels(prog)
    requires CodeAt(prog, p, a + t + [Jmp(lEnd), Lab(lFalse)] + f + [Lab(lEnd)])
    ensures CodeAt(prog, p, a) && CodeAt(prog, p + |a|, t) && CodeAt(prog, p + |a| + |t| + 2, f)
    ensures var pM, pE := p + |a| + |t|, p + |a| + |t| + 2 + |f|;
            && pE < |prog| && prog[pM] == Jmp(lEnd)
            && prog[pM + 1] == Lab(lFalse) && Find(prog, lFalse) == pM + 1
            && prog[pE] == Lab(lEnd) && Find(prog, lEnd) == pE
  {
    hide CodeAt, UniqueLabels, Find;
    var mid := [Jmp(lEnd), Lab(lFalse)];
    var pM, pE := p + |a| + |t|, p + |a| + |t| + 2 + |f|;
    CodeAtCat(prog, p, a + t + mid + f, [Lab(lEnd)]);
    CodeAtCat(prog, p, a + t + mid, f);
    CodeAtCat(prog, p, a + t, mid);
    CodeAtCat(prog, p, a, t);
    InProgram(prog, pM, mid);
    CodeAtItem(prog, pM, mid, 0);
    LabelAt(prog, pM, mid, 1);
    LabelAt(prog, pE, [Lab(lEnd)], 0);
  }

  lemma TernUnfold(sc: Scope, e: Expr, n: nat, m: SMem)
    requires e.Tern? && sc.rule == Cc && TypeOf(Cc, sc.env, e).Some? && Eval(sc, e, m).Some?
    ensures var oc := GenCond(sc.env, e.cond, n, n + 2);
            var ot := GenExpr(sc.env, e.thn, oc.next);
            var of := GenExpr(sc.env, e.els, ot.next);
            GenExpr(sc.env, e, n).code == oc.code + ot.code + [Jmp(n + 1), Lab(n)] + of.code + [Lab(n + 1)]
    ensures TypeOf(Cc, sc.env, e.cond).Some? && TypeOf(Cc, sc.env, e.thn).Some? && TypeOf(Cc, sc.env, e.els).Some?
    ensures Depth(e) >= Depth(e.cond) && Depth(e) >= Depth(e.thn) && Depth(e) >= Depth(e.els)
    ensures Eval(sc, e.cond, m).Some?
    ensures var rc := Eval(sc, e.cond, m).value;
            Eval(sc, e, m) == if rc.val != 0 then Eval(sc, e.thn, rc.mem) else Eval(sc, e.els, rc.mem)
  {
  }

  lemma {:induction false} TernRuns(prog: seq<Item>, sc: Scope, e: Expr, n: nat, c: Conf, m: SMem, lo: nat, hi: nat)
      returns (k: nat, d: Conf)
    requires e.Tern?
    requires Ready(prog, sc, c, m, lo, hi, Depth(e))
    requires CodeAt(prog, c.pc, GenExpr(sc.env, e, n).code)
    requires TypeOf(Cc, sc.env, e).Some? && Eval(sc, e, m).Some?
    ensures Run(prog, c, k) == Some(d) && d.pc == c.pc + |GenExpr(sc.env, e, n).code|
    ensures Yields(c.st, m, Eval(sc, e, m).value, d.st, lo, hi)
    decreases e, 1, 0
  {
    hide X86.Step, Run, Rep, Kept, UniqueLabels, CodeAt, Find;
    hide GenExpr, GenAddr, GenLogical, GenCond, Eval, EvalAddr, TypeOf, AddrType, Depth, DepthAddr;
    TernUnfold(sc, e, n, m);
    var oc := GenCond(sc.env, e.cond, n, n + 2);
    var ot := GenExpr(sc.env, e.thn, oc.next);
    var of := GenExpr(sc.env, e.els, ot.next);
    var rc := Eval(sc, e.cond, m).value;
    var pT := c.pc + |oc.code|;
    var pM := pT + |ot.code|;
    var pE := pM + 2 + |of.code|;
    TernLayout(prog, c.pc, oc.code, ot.code, of.code, n, n + 1);
    var j1, d1 := CondRuns(prog, sc, e.cond, n, n + 2, c, m, lo, hi);
    if rc.val != 0 {
      NeutralReady(c.st, m, rc.mem, d1.st, lo, hi);
      var j2, d2 := ExprRuns(prog, sc, e.thn, oc.next, d1, rc.mem, lo, hi);
      RunCat(prog, c, j1, d1, j2);
      RunJmp(prog, c, j1 + j2, d2);
      RunLab(prog, c, j1 + j2 + 1, Conf(pE, d2.st));
      NeutralThen(c.st, m, rc.mem, d1.st, Eval(sc, e.thn, rc.mem).value, d2.st, lo, hi);
      k, d := j1 + j2 + 2, Conf(pE + 1, d2.st);
    } else {
      RunLab(prog, c, j1, d1);
      var d2 := Conf(pM + 2, d1.st);
      NeutralReady(c.st, m, rc.mem, d1.st, lo, hi);
      var j3, d3 := ExprRuns(prog, sc, e.els, ot.next, d2, rc.mem, lo, hi);
      RunCat(prog, c, j1 + 1, d2, j3);
      RunLab(prog, c, j1 + 1 + j3, d3);
      NeutralThen(c.st, m, rc.mem, d1.st, Eval(sc, e.els, rc.mem).value, d3.st, lo, hi);
      k, d := j1 + j3 + 2, Conf(pE + 1, d3.st);
    }
  }

  /** A pushed word tested and dropped leaves the stack as it was. */
  lemma TestedNeutral(s: State, m: SMem, r: Res, s1: State, t: State, lo: nat, hi: nat)
    requires Rep(s, m, lo, hi) && Yields(s, m, r, s1, lo, hi)
    requires t.esp == s1.esp + 4 && t.ebp == s1.ebp && t.mem == s1.mem
    ensures Neutral(s, m, r.mem, t, lo, hi)
  {
  }

  /** Evaluate a non-logical condition, pop it and set the zero flag. */
  lemma {:induction false} TestRuns(prog: seq<Item>, sc: Scope, e: Expr, n: nat, c: Conf, m: SMem, lo: nat, hi: nat)
      returns (k: nat, d: Conf)
    requires !IsLogicExpr(e)
    requires Ready(prog, sc, c, m, lo, hi, Depth(e))
    requires CodeAt(prog, c.pc, GenExpr(sc.env, e, n).code + Code(TestTop))
    requires TypeOf(Cc, sc.env, e).Some? && Eval(sc, e, m).Some?
    ensures Run(prog, c, k) == Some(d) && d.pc == c.pc + |GenExpr(sc.env, e, n).code| + 2
    ensures Neutral(c.st, m, Eval(sc, e, m).value.mem, d.st, lo, hi)
    ensures d.st.flags.Some? && (d.st.flags.value.zf <==> Eval(sc, e, m).value.val == 0)
    decreases e, 2, 0
  {
    hide X86.Step, Run, Exec, ExecAll, Pushed, Kept, UniqueLabels, CodeAt, InferType, CommonType, BinSem, BinType;
    var o := GenExpr(sc.env, e, n);
    CodeAtCat(prog, c.pc, o.code, Code(TestTop));
    var j, d1 := ExprRuns(prog, sc, e, n, c, m, lo, hi);
    var r := Eval(sc, e, m).value;
    var t := TestTopRuns(d1.st, r.val);
    Finish(prog, c, j, d1, TestTop, t);
    TestedNeutral(c.st, m, r, d1.st, t, lo, hi);
    k, d := j + 2, Conf(d1.pc + 2, t);
  }

  lemma NeutralTwice(s: State, m: SMem, m1: SMem, s1: State, m2: SMem, t: State, lo: nat, hi: nat)
    requires Neutral(s, m, m1, s1, lo, hi) && Neutral(s1, m1, m2, t, lo, hi)
    ensures Neutral(s, m, m2, t, lo, hi)
  {
  }

  /** `gen_logical` reaches the label of the outcome with the stack unchanged. */
  lemma {:induction false} LogicalRuns(prog: seq<Item>, sc: Scope, e: Expr, lt: nat, lf: nat, n: nat,
                                       c: Conf, m: SMem, lo: nat, hi: nat)
      returns (k: nat, d: Conf)
    requires Ready(prog, sc, c, m, lo, hi, Depth(e))
    requires CodeAt(prog, c.pc, GenLogical(sc.env, e, lt, lf, n).code)
    requires TypeOf(Cc, sc.env, e).Some? && Eval(sc, e, m).Some?
    ensures Run(prog, c, k) == Some(d)
    ensures d.pc == Find(prog, if Eval(sc, e, m).value.val != 0 then lt else lf)
    ensures Neutral(c.st, m, Eval(sc, e, m).value.mem, d.st, lo, hi)
    decreases e, 2
  {
    hide X86.Step, Run, Rep, Kept, Find, UniqueLabels, CodeAt, BinSem, BinType, InferType, CommonType;
    if IsLogicExpr(e) {
      k, d := ShortCircuitRuns(prog, sc, e, lt, lf, n, c, m, lo, hi);
    } else {
      var o := GenExpr(sc.env, e, n);
      var jumps := [Jz(lf), Jmp(lt)];
      CodeAtCat(prog, c.pc, o.code + Code(TestTop), jumps);
      var j1, d1 := TestRuns(prog, sc, e, n, c, m, lo, hi);
      InProgram(prog, d1.pc, jumps);
      CodeAtItem(prog, d1.pc, jumps, 0);
      CodeAtItem(prog, d1.pc, jumps, 1);
      RunJz(prog, c, j1, d1);
      if Eval(sc, e, m).value.val != 0 {
        RunJmp(prog, c, j1 + 1, Conf(d1.pc + 1, d1.st));
        k, d := j1 + 2, Conf(Find(prog, lt), d1.st);
      } else {
        k, d := j1 + 1, Conf(Find(prog, lf), d1.st);
      }
    }
  }

  lemma InProgram(prog: seq<Item>, i: nat, c: seq<Item>)
    requires CodeAt(prog, i, c)
    ensures i + |c| <= |prog|
  {
  }

  lemma LogicUnfold(sc: Scope, e: Expr, lt: nat, lf: nat, n: nat, m: SMem)
    requires IsLogicExpr(e) && sc.rule == Cc && TypeOf(Cc, sc.env, e).Some? && Eval(sc, e, m).Some?
    ensures var ol := if e.bop.LogAnd? then GenLogical(sc.env, e.lhs, n, lf, n + 1) else GenLogical(sc.env, e.lhs, lt, n, n + 1);
            var or := GenLogical(sc.env, e.rhs, lt, lf, ol.next);
            GenLogical(sc.env, e, lt, lf, n).code == ol.code + [Lab(n)] + or.code
    ensures TypeOf(Cc, sc.env, e.lhs).Some? && TypeOf(Cc, sc.env, e.rhs).Some?
    ensures Depth(e) >= Depth(e.lhs) && Depth(e) >= Depth(e.rhs)
    ensures Eval(sc, e.lhs, m).Some?
    ensures var ra := Eval(sc, e.lhs, m).value;
            if (ra.val != 0) != e.bop.LogAnd? then Eval(sc, e, m).value == Res(Truth(ra.val != 0), ra.mem)
            else Eval(sc, e.rhs, ra.mem).Some? &&
                 Eval(sc, e, m).value == Res(Truth(Eval(sc, e.rhs, ra.mem).value.val != 0), Eval(sc, e.rhs, ra.mem).value.mem)
  {
  }

  lemma {:induction false} ShortCircuitRuns(prog: seq<Item>, sc: Scope, e: Expr, lt: nat, lf: nat, n: nat,
                                            c: Conf, m: SMem, lo: nat, hi: nat)
      returns (k: nat, d: Conf)
    requires IsLogicExpr(e)
    requires Ready(prog, sc, c, m, lo, hi, Depth(e))
    requires CodeAt(prog, c.pc, GenLogical(sc.env, e, lt, lf, n).code)
    requires TypeOf(Cc, sc.env, e).Some? && Eval(sc, e, m).Some?
    ensures Run(prog, c, k) == Some(d)
    ensures d.pc == Find(prog, if Eval(sc, e, m).value.val != 0 then lt else lf)
    ensures Neutral(c.st, m, Eval(sc, e, m).value.mem, d.st, lo, hi)
    decreases e, 1, 0
  {
    hide X86.Step, Run, Rep, Kept, Find, UniqueLabels, CodeAt;
    hide GenExpr, GenAddr, GenLogical, GenCond, Eval, EvalAddr, TypeOf, AddrType, Depth, DepthAddr;
    LogicUnfold(sc, e, lt, lf, n, m);
    var ol := if e.bop.LogAnd? then GenLogical(sc.env, e.lhs, n, lf, n + 1) else GenLogical(sc.env, e.lhs, lt, n, n + 1);
    var or := GenLogical(sc.env, e.rhs, lt, lf, ol.next);
    var ra := Eval(sc, e.lhs, m).value;
    var shorted := (ra.val != 0) != e.bop.LogAnd?;
    var pMid := c.pc + |ol.code|;
    CodeAtCat(prog, c.pc, ol.code + [Lab(n)], or.code);
    CodeAtCat(prog, c.pc, ol.code, [Lab(n)]);
    InProgram(prog, pMid, [Lab(n)]);
    CodeAtItem(prog, pMid, [Lab(n)], 0);
    FindUnique(prog, n, pMid);
    var j1, d1;
    if e.bop.LogAnd? {
      j1, d1 := LogicalRuns(prog, sc, e.lhs, n, lf, n + 1, c, m, lo, hi);
    } else {
      j1, d1 := LogicalRuns(prog, sc, e.lhs, lt, n, n + 1, c, m, lo, hi);
    }
    if !shorted {
      RunLab(prog, c, j1, d1);
      var d2 := Conf(pMid + 1, d1.st);
      NeutralReady(c.st, m, ra.mem, d1.st, lo, hi);
      var j3, d3 := LogicalRuns(prog, sc, e.rhs, lt, lf, ol.next, d2, ra.mem, lo, hi);
      RunCat(prog, c, j1 + 1, d2, j3);
      NeutralTwice(c.st, m, ra.mem, d1.st, Eval(sc, e.rhs, ra.mem).value.mem, d3.st, lo, hi);
      k, d := j1 + 1 + j3, d3;
    } else {
      k, d := j1, d1;
    }
  }

  lemma NeutralReady(s: State, m: SMem, m1: SMem, t: State, lo: nat, hi: nat)
    requires Neutral(s, m, m1, t, lo, hi)
    ensures Rep(t, m1, lo, hi) && t.esp == s.esp && t.ebp == s.ebp
  {
  }

  /** `gen_cond` falls through on true and jumps on false, the stack unchanged. */
  lemma {:induction false} CondRuns(prog: seq<Item>, sc: Scope, e: Expr, lf: nat, n: nat,
                                    c: Conf, m: SMem, lo: nat, hi: nat)
      returns (k: nat, d: Conf)
    requires Ready(prog, sc, c, m, lo, hi, Depth(e))
    requires CodeAt(prog, c.pc, GenCond(sc.env, e, lf, n).code)
    requires TypeOf(Cc, sc.env, e).Some? && Eval(sc, e, m).Some?
    ensures Run(prog, c, k) == Some(d)
    ensures d.pc == if Eval(sc, e, m).value.val != 0 then c.pc + |GenCond(sc.env, e, lf, n).code| else Find(prog, lf)
    ensures Neutral(c.st, m, Eval(sc, e, m).value.mem, d.st, lo, hi)
    decreases e, 4
  {
    hide X86.Step, Run, Kept, Find, UniqueLabels, CodeAt, BinSem, BinType, InferType, CommonType;
    if IsLogicExpr(e) {
      var o := GenLogical(sc.env, e, n, lf, n + 1);
      CodeAtCat(prog, c.pc, o.code, [Lab(n)]);
      InProgram(prog, c.pc + |o.code|, [Lab(n)]);
      CodeAtItem(prog, c.pc + |o.code|, [Lab(n)], 0);
      FindUnique(prog, n, c.pc + |o.code|);
      k, d := LogicalRuns(prog, sc, e, n, lf, n + 1, c, m, lo, hi);
      if Eval(sc, e, m).value.val != 0 {
        RunLab(prog, c, k, d);
        k, d := k + 1, Conf(d.pc + 1, d.st);
      }
    } else {
      var o := GenExpr(sc.env, e, n);
      CodeAtCat(prog, c.pc, o.code + Code(TestTop), [Jz(lf)]);
      var j1, d1 := TestRuns(prog, sc, e, n, c, m, lo, hi);
      InProgram(prog, d1.pc, [Jz(lf)]);
      CodeAtItem(prog, d1.pc, [Jz(lf)], 0);
      RunJz(prog, c, j1, d1);
      k, d := j1 + 1, Conf(if d1.st.flags.value.zf then Find(prog, lf) else d1.pc + 1, d1.st);
    }
  }

  lemma PushedOne(s: State, m: SMem, v: Word, t: State, lo: nat, hi: nat)
    requires Rep(s, m, lo, hi) && lo + 4 <= s.esp && Push(s, v) == Some(t)
    ensures Yields(s, m, Res(v, m), t, lo, hi)
  {
  }

  lemma BoolLayout(prog: seq<Item>, pc: nat, code: seq<Item>, n: nat, l: nat)
    requires UniqueLabels(prog)
    requires CodeAt(prog, pc, code + [Lab(n), I(PushImm(1)), Jmp(l), Lab(n + 1), I(PushImm(0)), Lab(l)])
    ensures var p := pc + |code|;
            && CodeAt(prog, pc, code) && p + 6 <= |prog|
            && prog[p] == Lab(n) && prog[p + 1] == I(PushImm(1)) && prog[p + 2] == Jmp(l)
            && prog[p + 3] == Lab(n + 1) && prog[p + 4] == I(PushImm(0)) && prog[p + 5] == Lab(l)
            && Find(prog, n) == p && Find(prog, n + 1) == p + 3 && Find(prog, l) == p + 5
  {
    var tail := [Lab(n), I(PushImm(1)), Jmp(l), Lab(n + 1), I(PushImm(0)), Lab(l)];
    var p := pc + |code|;
    hide Find, UniqueLabels, CodeAt;
    CodeAtCat(prog, pc, code, tail);
    InProgram(prog, p, tail);
    forall i | 0 <= i < 6 ensures prog[p + i] == tail[i] { CodeAtItem(prog, p, tail, i); }
    assert prog[p + 0] == tail[0] && prog[p + 1] == tail[1] && prog[p + 2] == tail[2];
    assert prog[p + 3] == tail[3] && prog[p + 4] == tail[4] && prog[p + 5] == tail[5];
    FindUnique(prog, n, p);
    FindUnique(prog, n + 1, p + 3);
    FindUnique(prog, l, p + 5);
  }

  lemma LogicValueUnfold(sc: Scope, e: Expr, n: nat)
    requires IsLogicExpr(e)
    ensures var o := GenLogical(sc.env, e, n, n + 1, n + 2);
            GenExpr(sc.env, e, n).code
            == o.code + [Lab(n), I(PushImm(1)), Jmp(o.next), Lab(n + 1), I(PushImm(0)), Lab(o.next)]
  {
    hide GenLogical;
  }

  lemma {:induction false} LogicValueRuns(prog: seq<Item>, sc: Scope, e: Expr, n: nat, c: Conf, m: SMem, lo: nat, hi: nat)
      returns (k: nat, d: Conf)
    requires IsLogicExpr(e)
    requires Ready(prog, sc, c, m, lo, hi, Depth(e))
    requires CodeAt(prog, c.pc, GenExpr(sc.env, e, n).code)
    requires TypeOf(Cc, sc.env, e).Some? && Eval(sc, e, m).Some?
    ensures Run(prog, c, k) == Some(d) && d.pc == c.pc + |GenExpr(sc.env, e, n).code|
    ensures Yields(c.st, m, Eval(sc, e, m).value, d.st, lo, hi)
    decreases e, 3, 0
  {
    hide X86.Step, Run, Rep, Kept, Find, UniqueLabels, CodeAt, Push;
    LogicValueUnfold(sc, e, n);
    hide GenExpr, GenLogical, TypeOf, Eval, Depth;
    var o := GenLogical(sc.env, e, n, n + 1, n + 2);
    var tail := [Lab(n), I(PushImm(1)), Jmp(o.next), Lab(n + 1), I(PushImm(0)), Lab(o.next)];
    var p := c.pc + |o.code|;
    BoolLayout(prog, c.pc, o.code, n, o.next);
    var j, d0 := LogicalRuns(prog, sc, e, n, n + 1, n + 2, c, m, lo, hi);
    var r := Eval(sc, e, m).value;
    RunLab(prog, c, j, d0);
    var d1 := Conf(d0.pc + 1, d0.st);
    NeutralReady(c.st, m, r.mem, d0.st, lo, hi);
    var t := PushFits(d0.st, r.mem, r.val, lo, hi);
    NeutralThen(c.st, m, r.mem, d0.st, r, t, lo, hi);
    RunPush(prog, c, j + 1, d1, r.val, t);
    var d2 := Conf(d1.pc + 1, t);
    if r.val != 0 {
      RunJmp(prog, c, j + 2, d2);
      RunLab(prog, c, j + 3, Conf(p + 5, t));
      k, d := j + 4, Conf(p + 6, t);
    } else {
      RunLab(prog, c, j + 2, d2);
      k, d := j + 3, Conf(p + 6, t);
    }
  }

  lemma PushFits(s: State, m: SMem, v: Word, lo: nat, hi: nat) returns (t: State)
    requires Rep(s, m, lo, hi) && lo + 4 <= s.esp
    ensures Push(s, v) == Some(t) && Yields(s, m, Res(v, m), t, lo, hi)
  {
    t := Push(s, v).value;
    PushedOne(s, m, v, t, lo, hi);
  }
}
