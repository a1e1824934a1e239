/** A call between compiled functions, with one-word arguments: arguments are
    pushed from the last to the first, each evaluated as it is pushed; the callee
    finds parameter k eight bytes plus k words above its frame pointer; the caller
    drops the arguments and pushes the result.
 */
module CcCall {
  import opened Options
  import opened Word32
  import opened CcAst
  import opened CcSource
  import opened X86
  import opened CcGen
  import opened CcTails
  import opened CcExprProof
  import opened CcStmt
  import opened CcStmtProof
  import opened CcLabels
  import opened CcFunction

  /** Code for the arguments, the last one first. */
  function GenArgs(env: Env, args: seq<Expr>, n: nat): (o: Out)
    ensures o.next >= n
  {
    if args == [] then Out([], n)
    else
      var rest := GenArgs(env, args[1..], n);
      var first := GenExpr(env, args[0], rest.next);
      Out(rest.code + first.code, first.next)
  }

  /** After the call: drop the arguments, push the result. */
  function CallTail(argc: nat): seq<Instr> {
    (if argc > 0 then [AddEspImm(Wrap(4 * argc))] else []) + [PushEax]
  }

  datatype Vals = Vals(vals: seq<Word>, mem: SMem)

  /** The arguments' values, evaluated from the last to the first. */
  function EvalArgs(sc: Scope, args: seq<Expr>, m: SMem): (r: Option<Vals>)
    ensures r.Some? ==> |r.value.vals| == |args|
  {
    if args == [] then Some(Vals([], m))
    else
      match EvalArgs(sc, args[1..], m)
      case None => None
      case Some(rest) =>
        match Eval(sc, args[0], rest.mem)
        case None => None
        case Some(r) => Some(Vals([r.val] + rest.vals, r.mem))
  }

  function DepthArgs(args: seq<Expr>): nat {
    if args == [] then 0 else Max(DepthArgs(args[1..]), |args| - 1 + Depth(args[0]))
  }

  predicate TypedArgs(env: Env, args: seq<Expr>) { forall i :: 0 <= i < |args| ==> TypeOf(Cc, env, args[i]).Some? }

  /** All values on the stack, the first on top. */
  ghost predicate ArgsPushed(s: State, m: SMem, r: Vals, t: State, lo: nat, hi: nat) {
    && r.mem.Keys == m.Keys && t.ebp == s.ebp && t.esp == s.esp - 4 * |r.vals|
    && Rep(t, r.mem, lo, hi) && Kept(s, t, m, lo)
    && forall k :: 0 <= k < |r.vals| ==> Rd(t.mem, Wrap(t.esp + 4 * k)) == r.vals[k]
  }

  lemma ArgPushed(s: State, m: SMem, rest: Vals, t: State, r: Res, u: State, lo: nat, hi: nat)
    requires Rep(s, m, lo, hi) && ArgsPushed(s, m, rest, t, lo, hi) && Yields(t, rest.mem, r, u, lo, hi)
    ensures ArgsPushed(s, m, Vals([r.val] + rest.vals, r.mem), u, lo, hi)
  {
    hide Wrap;
    var all := [r.val] + rest.vals;
    forall k | 0 <= k < |all| ensures Rd(u.mem, Wrap(u.esp + 4 * k)) == all[k] {
      WordFits(u.esp + 4 * k);
      if k > 0 {
        assert Wrap(t.esp + 4 * (k - 1)) == t.esp + 4 * (k - 1);
        var a: Word := t.esp + 4 * (k - 1);
        assert a !in rest.mem;
        assert Rd(u.mem, a) == Rd(t.mem, a);
        assert all[k] == rest.vals[k - 1];
      }
    }
  }

  lemma WordFits(x: int)
    requires 0 <= x
    ensures x < TWO32 ==> Wrap(x) == x
  {
  }

  /** The emitted pushes leave every argument in its slot. */
  lemma {:induction false} ArgsRun(prog: seq<Item>, sc: Scope, args: seq<Expr>, n: nat, c: Conf, m: SMem, lo: nat, hi: nat)
      returns (k: nat, d: Conf)
    requires Ready(prog, sc, c, m, lo, hi, DepthArgs(args))
    requires CodeAt(prog, c.pc, GenArgs(sc.env, args, n).code)
    requires TypedArgs(sc.env, args) && EvalArgs(sc, args, m).Some?
    ensures Run(prog, c, k) == Some(d) && d.pc == c.pc + |GenArgs(sc.env, args, n).code|
    ensures ArgsPushed(c.st, m, EvalArgs(sc, args, m).value, d.st, lo, hi)
    decreases |args|
  {
    hide X86.Step, Run, Kept, UniqueLabels, CodeAt, GenExpr, Eval, TypeOf, Depth;
    if args == [] {
      KeptSame(c.st, m, lo);
      RunZero(prog, c);
      k, d := 0, c;
    } else {
      var rest := GenArgs(sc.env, args[1..], n);
      var first := GenExpr(sc.env, args[0], rest.next);
      CodeAtCat(prog, c.pc, rest.code, first.code);
      assert TypedArgs(sc.env, args[1..]);
      var j1, d1 := ArgsRun(prog, sc, args[1..], n, c, m, lo, hi);
      var r := EvalArgs(sc, args[1..], m).value;
      var j2, d2 := ExprRuns(prog, sc, args[0], rest.next, d1, r.mem, lo, hi);
      RunCat(prog, c, j1, d1, j2);
      ArgPushed(c.st, m, r, d1.st, Eval(sc, args[0], r.mem).value, d2.st, lo, hi);
      k, d := j1 + j2, d2;
    }
  }

  lemma RunZero(prog: seq<Item>, c: Conf)
    ensures Run(prog, c, 0) == Some(c)
  {
  }

  // ----- parameters -----

  /** Objects of the callee: the caller's, and one word per parameter. */
  function Bind(m: SMem, base: nat, vs: seq<Word>): SMem
    requires base + 4 * |vs| <= TWO32
    decreases |vs|
  {
    if vs == [] then m else Bind(m, base + 4, vs[1..])[base := vs[0]]
  }

  lemma {:induction false} BindHas(m: SMem, base: nat, vs: seq<Word>, k: nat)
    requires base + 4 * |vs| <= TWO32 && k < |vs|
    ensures base + 4 * k in Bind(m, base, vs) && Bind(m, base, vs)[base + 4 * k] == vs[k]
    decreases |vs|
  {
    if k > 0 { BindHas(m, base + 4, vs[1..], k - 1); }
  }

  lemma {:induction false} BindOld(m: SMem, base: nat, vs: seq<Word>, a: Word)
    requires base + 4 * |vs| <= TWO32 && !(base <= a < base + 4 * |vs|)
    ensures a in Bind(m, base, vs) <==> a in m
    ensures a in m ==> Bind(m, base, vs)[a] == m[a]
    decreases |vs|
  {
    if vs != [] { BindOld(m, base + 4, vs[1..], a); }
  }

  /** Where an object in the parameters' range comes from. */
  lemma {:induction false} BindFrom(m: SMem, base: nat, vs: seq<Word>, a: Word) returns (k: nat)
    requires base + 4 * |vs| <= TWO32 && a in Bind(m, base, vs) && a !in m
    ensures k < |vs| && a == base + 4 * k
    decreases |vs|
  {
    if a == base {
      k := 0;
    } else {
      k := BindFrom(m, base + 4, vs[1..], a);
      k := k + 1;
    }
  }

  predicate OneWord(ps: seq<(string, Ty)>) { forall i :: 0 <= i < |ps| ==> !ps[i].1.TRec? }

  /** One-word parameters sit one word apart. */
  lemma {:induction false} ParamOffset(records: seq<Record>, ps: seq<(string, Ty)>, off: int, k: nat)
    requires OneWord(ps) && k < |ps|
    ensures ParamSyms(records, ps, off)[k] == Sym(ps[k].0, ps[k].1, Local(off + 4 * k))
    decreases |ps|
  {
    if k > 0 { ParamOffset(records, ps[1..], off + 4, k - 1); }
  }

  /** What a call needs of the callee and of the stack below the caller. */
  ghost predicate Callable(prog: seq<Item>, f: FunDef, nf: nat, pf: nat, esp: int, argc: nat, lo: nat) {
    && CodeAt(prog, pf, GenFun(f.cx, f.body, nf, f.intRet).code)
    && f.cx.off == 0 && AcceptsScoped(f)
    && lo + 4 * StmtDepth(f.body) + FrameSize(f.cx, f.body) <= esp - 4 * argc - 8
  }

  predicate AcceptsScoped(f: FunDef) { Accepts(f.cx, f.body, false, false) && ScopeSafe(f.body) }

  /** Words of the frame that are no selector slot: the callee's locals, holding
      whatever the stack holds. */
  function FrameWords(f: FunDef, mem: map<Word, Word>, frame: int): SMem {
    map a: Word | frame - FrameSize(f.cx, f.body) <= a < frame && Aligned(a) && (a - frame) !in Temps(f.cx, f.body) :: Rd(mem, a)
  }

  /** Objects of the callee when the return address has been pushed: the caller's,
      the parameters, its own locals. */
  function CalleeMem(f: FunDef, s1: State, a: Vals): SMem
    requires s1.esp + 4 + 4 * |a.vals| <= TWO32
  {
    FrameWords(f, s1.mem, s1.esp - 4) + Bind(a.mem, s1.esp + 4, a.vals)
  }

  lemma CallEnters(f: FunDef, s: State, m: SMem, ra: Word, s1: State, vs: seq<Word>, lo: nat, hi: nat)
    requires Rep(s, m, lo, hi) && f.cx.off == 0
    requires s.esp + 4 * |vs| <= hi && forall k :: 0 <= k < |vs| ==> Rd(s.mem, Wrap(s.esp + 4 * k)) == vs[k]
    requires lo + 4 * StmtDepth(f.body) + FrameSize(f.cx, f.body) <= s.esp - 8
    requires Push(s, ra) == Some(s1)
    ensures Called(f, s1, CalleeMem(f, s1, Vals(vs, m)), lo)
  {
    hide Wrap, StmtDepth, Temps, CtxAfter, Bind;
    TempsInFrame(f.cx, f.body);
    var m2 := Bind(m, s.esp, vs);
    var frame := s1.esp - 4;
    AlignedSum(s.esp, 4);
    forall a | a in m2 ensures Aligned(a) && Rd(s1.mem, a) == m2[a] && (a < lo || a >= s.esp) {
      if a in m {
        BindOld(m, s.esp, vs, a);
      } else {
        var k := BindFrom(m, s.esp, vs, a);
        BindHas(m, s.esp, vs, k);
        WordFits(a);
        AlignedSum(s.esp, 4 * k);
      }
    }
  }

  /** The objects of the caller after the call. */
  function Restrict(m: SMem, keys: set<Word>): SMem { map a | a in m && a in keys :: m[a] }

  lemma CallLeaves(f: FunDef, s: State, m: SMem, args: Vals, s0: State, ra: Word, s1: State, fn: Fun, r: Result, t: State, lo: nat, hi: nat)
      returns (s3: State, u: State)
    requires Rep(s, m, lo, hi) && ArgsPushed(s, m, args, s0, lo, hi) && s0.esp >= lo + 8 && Push(s0, ra) == Some(s1)
    requires s0.esp + 4 * |args.vals| <= TWO32 && lo + FrameSize(f.cx, f.body) <= s1.esp - 4
    requires Defined(r) && Returns(f, s1, CalleeMem(f, s1, args), r, fn, lo, t)
    ensures Pop(t) == Some((ra, s3)) && ExecAll(CallTail(|args.vals|), s3) == Some(u)
    ensures Yields(s, m, Res(CallValue(fn, r, t.eax), Restrict(r.mem, m.Keys)), u, lo, hi)
  {
    hide Bind, ExecAll, CallTail, FrameWords;
    var out := Restrict(r.mem, m.Keys);
    AlignedSum(s0.esp, 4);
    s3 := t.(esp := s0.esp);
    assert Wrap(t.esp + 4) == s0.esp;
    u := Dropped(s3, |args.vals|, s.esp);
    LeavesObjects(f, s, m, args, s0, s1, r, t, u, lo, hi);
    LeavesRest(f, s, m, args, s0, s1, fn, r, t, u, lo, hi);
    assert Rd(u.mem, u.esp) == t.eax;
  }

  lemma LeavesObjects(f: FunDef, s: State, m: SMem, args: Vals, s0: State, s1: State, r: Result, t: State, u: State, lo: nat, hi: nat)
    requires Rep(s, m, lo, hi) && ArgsPushed(s, m, args, s0, lo, hi) && s0.esp >= lo + 8 && s1.esp == s0.esp - 4
    requires s0.esp + 4 * |args.vals| <= TWO32
    requires Defined(r) && r.mem.Keys == CalleeMem(f, s1, args).Keys
    requires forall a :: a in r.mem ==> Rd(t.mem, a) == r.mem[a]
    requires u.esp == s.esp - 4 && u.mem == t.mem[s.esp - 4 := t.eax] && lo <= u.esp
    ensures Rep(u, Restrict(r.mem, m.Keys), lo, hi) && Restrict(r.mem, m.Keys).Keys == m.Keys
  {
    hide Bind, FrameWords;
    AlignedSum(s.esp, 4);
    forall a | a in m ensures a in r.mem && Aligned(a) && (a < lo || a >= hi) && Rd(u.mem, a) == r.mem[a] {
      assert a in args.mem;
      BindOld(args.mem, s0.esp, args.vals, a);
    }
    assert Restrict(r.mem, m.Keys).Keys == m.Keys;
  }

  lemma LeavesRest(f: FunDef, s: State, m: SMem, args: Vals, s0: State, s1: State, fn: Fun, r: Result, t: State, u: State, lo: nat, hi: nat)
    requires Rep(s, m, lo, hi) && ArgsPushed(s, m, args, s0, lo, hi) && s0.esp >= lo + 8
    requires s1.esp == s0.esp - 4 && (forall a: Word :: a >= s0.esp || a < lo ==> Rd(s1.mem, a) == Rd(s0.mem, a))
    requires s0.esp + 4 * |args.vals| <= TWO32 && s1.ebp == s0.ebp
    requires Defined(r) && Returns(f, s1, CalleeMem(f, s1, args), r, fn, lo, t)
    requires u.ebp == t.ebp && u.mem == t.mem[s.esp - 4 := t.eax] && lo <= s.esp - 4
    requires lo + FrameSize(f.cx, f.body) <= s1.esp - 4
    ensures Kept(s, u, m, lo)
  {
    hide Bind;
    forall a: Word | a !in m && !(lo <= a < s.esp) ensures Rd(u.mem, a) == Rd(s.mem, a) {
      BindOld(args.mem, s0.esp, args.vals, a);
      assert a !in FrameWords(f, s1.mem, s1.esp - 4);
      assert Rd(t.mem, a) == Rd(s1.mem, a);
      assert Rd(s1.mem, a) == Rd(s0.mem, a);
      assert Rd(s0.mem, a) == Rd(s.mem, a);
    }
  }

  lemma Dropped(s: State, argc: nat, esp: Word) returns (u: State)
    requires s.esp + 4 * argc == esp && Aligned(s.esp) && esp >= 4
    ensures ExecAll(CallTail(argc), s) == Some(u)
    ensures u.esp == esp - 4 && u.ebp == s.ebp && u.mem == s.mem[esp - 4 := s.eax]
  {
    var s1 := if argc > 0 then s.(esp := esp, flags := None) else s;
    AlignedSum(s.esp, 4 * argc);
    u := s1.(esp := esp - 4, mem := s.mem[esp - 4 := s.eax]);
    assert Exec(PushEax, s1) == Some(u);
    assert argc > 0 ==> Exec(AddEspImm(Wrap(4 * argc)), s) == Some(s1);
    hide ExecAll, Exec, Wrap, Aligned;
    Exec1(PushEax, s1);
    if argc > 0 {
      assert CallTail(argc) == [AddEspImm(Wrap(4 * argc)), PushEax];
      Exec2(AddEspImm(Wrap(4 * argc)), PushEax, s);
    } else {
      assert CallTail(argc) == [PushEax];
    }
  }

  /** Inside the callee, parameter `k` reads as argument `k`. */
  lemma ParamReads(fn: Fun, globals: seq<Sym>, records: seq<Record>, ps: seq<(string, Ty)>, m: SMem, vs: seq<Word>, k: nat)
    requires |vs| == |ps| && OneWord(ps) && k < |ps| && Scalar(ps[k].1) && fn.frame + 8 + 4 * |vs| <= TWO32
    requires forall h :: k < h < |ps| ==> ps[h].0 != ps[k].0
    ensures var cx := Ctx(Env(ParamSyms(records, ps, 8), globals, records), 0);
            var m2 := Bind(m, fn.frame + 8, vs);
            Eval(ScopeOf(fn, cx), Var(ps[k].0), m2) == Some(Res(vs[k], m2))
  {
    hide Bind;
    BindHas(m, fn.frame + 8, vs, k);
    var ss := ParamSyms(records, ps, 8);
    forall h | 0 <= h < |ps| ensures ss[h] == Sym(ps[h].0, ps[h].1, Local(8 + 4 * h)) { ParamOffset(records, ps, 8, h); }
    LastNamed(ss, k, |ss|);
    assert ss[..|ss|] == ss;
    WordFits(fn.frame + (8 + 4 * k));
  }

  lemma {:induction false} LastNamed(ss: seq<Sym>, k: nat, n: nat)
    requires k < n <= |ss| && forall h :: k < h < n ==> ss[h].name != ss[k].name
    ensures FindLast(ss[..n], ss[k].name) == Some(ss[k])
    decreases n
  {
    if k < n - 1 {
      LastNamed(ss, k, n - 1);
      assert ss[..n][..n - 1] == ss[..n - 1];
    }
  }

  /** How the callee's source ends when called in machine state `s1`. */
  function CalleeEnds(s1: State, a: Vals, f: FunDef, fuel: nat): Result
    requires 4 <= s1.esp && s1.esp + 4 + 4 * |a.vals| <= TWO32
  {
    Execute(Fun(s1.esp - 4, f.intRet), f.cx, f.body, CalleeMem(f, s1, a), fuel)
  }

  /** What a call pushes: the result, or for a function without one whatever eax
      holds. */
  function CallValue(fn: Fun, r: Result, eax: Word): Word {
    match ResultOf(fn, r) case Some(v) => v case None => eax
  }

  /** A call is an expression.  The argument code and the call bring control to the
      callee in state `s1`; if the callee's source comes to an end there, the
      callee's `ret` finds the return address, and after the cleanup one slot has
      been pushed: it holds what the callee's source returns, the caller's objects
      are as the callee's source leaves them, and the rest of the stack is
      untouched. */
  lemma CallRuns(prog: seq<Item>, sc: Scope, args: seq<Expr>, n: nat, f: FunDef, nf: nat, pf: nat, ra: Word,
                 c: Conf, m: SMem, lo: nat, hi: nat, fuel: nat)
      returns (j: nat, d: Conf, s1: State, k: nat, e: Conf, s3: State, u: State)
    requires Ready(prog, sc, c, m, lo, hi, DepthArgs(args))
    requires CodeAt(prog, c.pc, GenArgs(sc.env, args, n).code)
    requires TypedArgs(sc.env, args) && EvalArgs(sc, args, m).Some?
    requires 4 * |args| + 8 <= c.st.esp && lo + 4 * |args| + 8 <= c.st.esp && Callable(prog, f, nf, pf, c.st.esp, |args|, lo)
    ensures Run(prog, c, j) == Some(d) && d.pc == c.pc + |GenArgs(sc.env, args, n).code|
    ensures Push(d.st, ra) == Some(s1) && s1.esp == c.st.esp - 4 * |args| - 4
    ensures var a := EvalArgs(sc, args, m).value;
            var r := CalleeEnds(s1, a, f, fuel);
            Defined(r) ==>
              && Run(prog, Conf(pf, s1), k) == Some(e)
              && e.pc < |prog| && prog[e.pc] == I(Ret) && Pop(e.st) == Some((ra, s3))
              && ExecAll(CallTail(|args|), s3) == Some(u)
              && Yields(c.st, m, Res(CallValue(Fun(s1.esp - 4, f.intRet), r, e.st.eax), Restrict(r.mem, m.Keys)), u, lo, hi)
  {
    hide Run, CodeAt, GenFun, Execute, Accepts, ScopeSafe, StmtDepth, CtxAfter, Returns, Bind, ExecAll, CallTail, Called, UniqueLabels;
    hide GenArgs, EvalArgs, TypedArgs, DepthArgs, Rep, Kept, CalleeMem;
    j, d := ArgsRun(prog, sc, args, n, c, m, lo, hi);
    var a := EvalArgs(sc, args, m).value;
    StackAligned(d.st, a.mem, lo, hi);
    StackAligned(c.st, m, lo, hi);
    s1 := Push(d.st, ra).value;
    CallEnters(f, d.st, a.mem, ra, s1, a.vals, lo, hi);
    var r := CalleeEnds(s1, a, f, fuel);
    k, e, s3, u := 0, d, s1, s1;
    if Defined(r) {
      k, e := FunRuns(prog, f, nf, Conf(pf, s1), CalleeMem(f, s1, a), lo, fuel);
      s3, u := CallLeaves(f, c.st, m, a, d.st, ra, s1, Fun(s1.esp - 4, f.intRet), r, e.st, lo, hi);
    }
  }

  // ----- a callee with a local -----

  /** `int f(void) { int x = 1; return x; }` */
  function LocalCallee(): FunDef {
    FunDef(Ctx(Env([], [], []), 0), Block([Decl("x", TInt, Some(Num(1, false))), Return(Some(Var("x")))]), true)
  }

  /** Called anywhere it returns 1. */
  lemma LocalCalled(s1: State, m: SMem, fuel: nat)
    requires Aligned(s1.esp) && 8 <= s1.esp && s1.esp + 4 <= TWO32
    ensures var r := CalleeEnds(s1, Vals([], m), LocalCallee(), fuel);
            r.Returned? && r.val == Some(1)
  {
    var f := LocalCallee();
    var fn := Fun(s1.esp - 4, true);
    var m0 := CalleeMem(f, s1, Vals([], m));
    var x: Word := s1.esp - 8;
    LocalFrame();
    AlignedSum(s1.esp, 8);
    assert x in m0;
    hide CalleeMem, Execute;
    LocalBody(fn, m0, x, fuel);
  }

  lemma LocalFrame()
    ensures var f := LocalCallee(); Temps(f.cx, f.body) == {} && FrameSize(f.cx, f.body) == 4
  {
    var f := LocalCallee();
    assert f.body.body[1..] == [f.body.body[1]] && f.body.body[1..][1..] == [];
  }

  lemma LocalBody(fn: Fun, m: SMem, x: Word, fuel: nat)
    requires fn.frame >= 4 && x == fn.frame - 4 && x in m
    ensures Execute(fn, LocalCallee().cx, LocalCallee().body, m, fuel) == Returned(Some(1), m[x := 1])
  {
    var f := LocalCallee();
    var cx1 := AddLocal(f.cx, "x", TInt);
    assert cx1 == Ctx(Env([Sym("x", TInt, Local(-4))], [], []), -4);
    var decl, ret := f.body.body[0], f.body.body[1];
    assert f.body.body[1..] == [ret];
    LocalStored(fn, cx1, x, m);
    hide Eval;
    assert Execute(fn, f.cx, decl, m, fuel) == Fall(m[x := 1]);
    assert Execute(fn, cx1, ret, m[x := 1], fuel) == Returned(Some(1), m[x := 1]);
    assert ScopeAfter(f.cx, decl) == cx1;
    hide Execute;
    assert ExecuteAll(fn, cx1, [ret], m[x := 1], fuel) == Returned(Some(1), m[x := 1]);
    assert ExecuteAll(fn, f.cx, f.body.body, m, fuel) == Returned(Some(1), m[x := 1]);
    BlockIs(fn, f.cx, f.body.body, m, fuel);
  }

  lemma BlockIs(fn: Fun, cx: Ctx, ss: seq<Stmt>, m: SMem, fuel: nat)
    ensures Execute(fn, cx, Block(ss), m, fuel) == ExecuteAll(fn, cx, ss, m, fuel)
  {
    hide ExecuteAll;
  }

  lemma LocalStored(fn: Fun, cx: Ctx, x: Word, m: SMem)
    requires cx == Ctx(Env([Sym("x", TInt, Local(-4))], [], []), -4) && fn.frame >= 4 && x == fn.frame - 4 && x in m
    ensures Eval(ScopeOf(fn, cx), Assign(Var("x"), Num(1, false)), m) == Some(Res(1, m[x := 1]))
    ensures Eval(ScopeOf(fn, cx), Var("x"), m[x := 1]) == Some(Res(1, m[x := 1]))
  {
    assert Lookup(cx.env, "x") == Some(Sym("x", TInt, Local(-4)));
  }

  lemma StackAligned(s: State, m: SMem, lo: nat, hi: nat)
    requires Rep(s, m, lo, hi)
    ensures Aligned(s.esp) && lo <= s.esp <= hi < TWO32
  {
  }
}
