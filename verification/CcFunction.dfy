/** A compiled function, from its entry point to its `ret`. */
module CcFunction {
  import opened Options
  import opened Word32
  import opened CcAst
  import opened CcSource
  import opened X86
  import opened CcGen
  import opened CcTails
  import opened CcExprProof
  import opened CcStmt
  import opened CcStmtProof
  import opened CcLabels

  // ----- selector slots lie inside the patched frame -----

  /** Slots are handed out downward and word-aligned. */
  ghost predicate InFrame(ts: set<int>, lo: int, hi: int) { forall t :: t in ts ==> lo <= t < hi && t % 4 == 0 }

  lemma FrameUnion(a: set<int>, b: set<int>, lo: int, mid: int, hi: int)
    requires InFrame(a, mid, hi) && InFrame(b, lo, mid) && lo <= mid <= hi
    ensures InFrame(a + b, lo, hi)
  {
  }

  lemma {:induction false} TempsInFrame(cx: Ctx, s: Stmt)
    ensures CtxAfter(cx, s).off <= cx.off && (cx.off % 4 == 0 ==> CtxAfter(cx, s).off % 4 == 0)
    ensures InFrame(Temps(cx, s), CtxAfter(cx, s).off, cx.off)
    decreases s, 1
  {
    FrameNone(CtxAfter(cx, s).off, cx.off);
    hide InFrame;
    match s
    case Block(ss) => TempsInFrameAll(cx, ss);
    case If(_, t, f) =>
      var c1 := CtxAfter(cx, t);
      TempsInFrame(cx, t);
      FrameNone(c1.off, c1.off);
      if f.Some? { TempsInFrame(c1, f.value); }
      FrameUnion(Temps(cx, t), if f.Some? then Temps(c1, f.value) else {}, CtxAfter(cx, s).off, c1.off, cx.off);
    case While(_, b) => TempsInFrame(cx, b);
    case Do(b, _) => TempsInFrame(cx, b);
    case For(i, _, _, b) =>
      if i.Some? {
        var c1 := CtxAfter(cx, i.value);
        TempsInFrame(cx, i.value);
        TempsInFrame(c1, b);
        FrameUnion(Temps(cx, i.value), Temps(c1, b), CtxAfter(cx, s).off, c1.off, cx.off);
      } else {
        TempsInFrame(cx, b);
      }
    case Switch(_, items) =>
      var c1 := cx.(off := TempSlot(cx));
      TempsInFrameItems(c1, items);
      FrameOne(cx);
      FrameUnion({TempSlot(cx)}, TempsItems(c1, items), CtxAfter(cx, s).off, c1.off, cx.off);
    case _ =>
  }

  lemma FrameNone(lo: int, hi: int)
    ensures InFrame({}, lo, hi)
  {
  }

  lemma FrameOne(cx: Ctx)
    ensures InFrame({TempSlot(cx)}, TempSlot(cx), cx.off) && TempSlot(cx) <= cx.off && TempSlot(cx) % 4 == 0
  {
  }

  lemma {:induction false} TempsInFrameAll(cx: Ctx, ss: seq<Stmt>)
    ensures CtxAfterAll(cx, ss).off <= cx.off && (cx.off % 4 == 0 ==> CtxAfterAll(cx, ss).off % 4 == 0)
    ensures InFrame(TempsAll(cx, ss), CtxAfterAll(cx, ss).off, cx.off)
    decreases ss, 0
  {
    if ss != [] {
      var c1 := CtxAfter(cx, ss[0]);
      TempsInFrame(cx, ss[0]);
      TempsInFrameAll(c1, ss[1..]);
      FrameUnion(Temps(cx, ss[0]), TempsAll(c1, ss[1..]), CtxAfterAll(cx, ss).off, c1.off, cx.off);
    }
  }

  lemma {:induction false} TempsInFrameItem(cx: Ctx, it: SwItem)
    ensures CtxAfterItem(cx, it).off <= cx.off && (cx.off % 4 == 0 ==> CtxAfterItem(cx, it).off % 4 == 0)
    ensures InFrame(TempsItem(cx, it), CtxAfterItem(cx, it).off, cx.off)
    decreases it, 1
  {
    match it
    case Body(s) => TempsInFrame(cx, s);
    case _ =>
  }

  lemma {:induction false} TempsInFrameItems(cx: Ctx, items: seq<SwItem>)
    ensures CtxAfterItems(cx, items).off <= cx.off && (cx.off % 4 == 0 ==> CtxAfterItems(cx, items).off % 4 == 0)
    ensures InFrame(TempsItems(cx, items), CtxAfterItems(cx, items).off, cx.off)
    decreases items, 0
  {
    if items != [] {
      var c1 := CtxAfterItem(cx, items[0]);
      TempsInFrameItem(cx, items[0]);
      TempsInFrameItems(c1, items[1..]);
      FrameUnion(TempsItem(cx, items[0]), TempsItems(c1, items[1..]), CtxAfterItems(cx, items).off, c1.off, cx.off);
    }
  }

  // ----- the function -----

  /** Bytes of locals and selector slots. */
  function FrameSize(cx: Ctx, body: Stmt): int { -CtxAfter(cx, body).off }

  /** A call has just been made: esp points at the return address, and below it
      there is room for the saved ebp, the frame and the deepest expression.
      Objects avoid that room, the return address and the selector slots. */
  ghost predicate Called(f: FunDef, s: State, m: SMem, lo: nat) {
    var frame := s.esp - 4;
    && Aligned(s.esp) && s.esp >= 4 && f.cx.off == 0
    && lo + 4 * StmtDepth(f.body) + FrameSize(f.cx, f.body) <= frame
    && (forall a :: a in m ==> Aligned(a) && Rd(s.mem, a) == m[a])
    && (forall a :: a in m ==> a < lo || a >= frame - FrameSize(f.cx, f.body))
    && frame !in m && s.esp !in m
    && (forall t :: t in Temps(f.cx, f.body) ==> (frame + t) !in m)
  }

  /** The value eax must hold when the body ends with result `r`. */
  function ResultOf(fn: Fun, r: Result): Option<Word> {
    match r case Returned(v, _) => v case _ => ZeroRet(fn)
  }

  lemma PrologueRuns(prog: seq<Item>, c: Conf, size: Word) returns (d: Conf)
    requires CodeAt(prog, c.pc, [I(PushEbp), I(MovEbpEsp), I(SubEspImm(size))])
    requires Aligned(c.st.esp) && c.st.esp >= 4 + size
    ensures Run(prog, c, 3) == Some(d) && d.pc == c.pc + 3
    ensures d.st.ebp == c.st.esp - 4 && d.st.esp == c.st.esp - 4 - size
    ensures d.st.mem == c.st.mem[c.st.esp - 4 := c.st.ebp]
  {
    hide CodeAt;
    var code := [I(PushEbp), I(MovEbpEsp), I(SubEspImm(size))];
    InProgram(prog, c.pc, code);
    CodeAtItem(prog, c.pc, code, 0);
    CodeAtItem(prog, c.pc, code, 1);
    CodeAtItem(prog, c.pc, code, 2);
    assert Run(prog, c, 0) == Some(c);
    hide Run;
    var s1 := X86.Exec(PushEbp, c.st).value;
    RunInstr(prog, c, 0, c, PushEbp, s1);
    var s2 := s1.(ebp := s1.esp);
    RunInstr(prog, c, 1, Conf(c.pc + 1, s1), MovEbpEsp, s2);
    var s3 := s2.(esp := s2.esp - size, flags := None);
    RunInstr(prog, c, 2, Conf(c.pc + 2, s2), SubEspImm(size), s3);
    d := Conf(c.pc + 3, s3);
  }

  /** `leave` undoes the prologue. */
  lemma LeaveRuns(prog: seq<Item>, c: Conf, k: nat, d: Conf, e: Word) returns (d': Conf)
    requires Run(prog, c, k) == Some(d) && d.pc + 1 < |prog| && prog[d.pc].Lab? && prog[d.pc + 1] == I(Leave)
    requires Aligned(d.st.ebp) && d.st.ebp + 4 == e
    ensures Run(prog, c, k + 2) == Some(d') && d'.pc == d.pc + 2
    ensures d'.st == d.st.(esp := e, ebp := Rd(d.st.mem, d.st.ebp))
  {
    hide Run;
    RunLab(prog, c, k, d);
    var t := d.st.(esp := e, ebp := Rd(d.st.mem, d.st.ebp));
    RunInstr(prog, c, k + 1, Conf(d.pc + 1, d.st), Leave, t);
    d' := Conf(d.pc + 2, t);
  }

  /** The state at `ret`. */
  ghost predicate Returns(f: FunDef, s: State, m: SMem, r: Result, fn: Fun, lo: nat, t: State)
    requires Defined(r)
  {
    && t.esp == s.esp && t.ebp == s.ebp && Rd(t.mem, t.esp) == Rd(s.mem, s.esp)
    && (ResultOf(fn, r).Some? ==> t.eax == ResultOf(fn, r).value)
    && r.mem.Keys == m.Keys && (forall a :: a in r.mem ==> Rd(t.mem, a) == r.mem[a])
    && forall a: Word :: a !in m && (a < lo || a >= s.esp) ==> Rd(t.mem, a) == Rd(s.mem, a)
  }

  /** Whatever follows the body reaches the epilogue with the result in eax. */
  lemma {:induction false} BodyRuns(w: Site, f: FunDef, n: nat, c: Conf, m: SMem, fuel: nat, pEpi: nat)
      returns (k: nat, d: Conf)
    requires Begin(w, c, m, StmtDepth(f.body), Temps(f.cx, f.body)) && w.fn.intRet == f.intRet
    requires Accepts(f.cx, f.body, false, false) && ScopeSafe(f.body)
    requires var body := GenStmt(f.cx, f.body, n + 1, Jumps(None, None, n), f.intRet).code;
             && CodeAt(w.prog, c.pc, body)
             && CodeAt(w.prog, c.pc + |body|, (if f.intRet then [I(MovEaxImm(0))] else []) + [Jmp(n)])
    requires Find(w.prog, n) == pEpi && Defined(Execute(w.fn, f.cx, f.body, m, fuel))
    ensures var r := Execute(w.fn, f.cx, f.body, m, fuel);
            && Run(w.prog, c, k) == Some(d) && d.pc == pEpi && Settled(w, c.st, m, r.mem, d.st)
            && (ResultOf(w.fn, r).Some? ==> d.st.eax == ResultOf(w.fn, r).value)
  {
    hide Run, Settled, Begin, CodeAt, UniqueLabels, Find, GenStmt, Execute, Accepts, ScopeSafe, StmtDepth, Temps;
    var j := Jumps(None, None, n);
    var r := Execute(w.fn, f.cx, f.body, m, fuel);
    k, d := StmtRuns(w, f.cx, f.body, n + 1, j, c, m, fuel);
    if r.Fall? {
      SettledBegin(w, c, m, StmtDepth(f.body), Temps(f.cx, f.body), r.mem, d);
      BeginLess(w, d, r.mem, StmtDepth(f.body), Temps(f.cx, f.body), 0, {});
      var k2, d2 := BareReturnRuns(w, j, d, r.mem);
      RunCat(w.prog, c, k, d, k2);
      SettledTwice(w, c.st, m, d.st, r.mem, d2.st, r.mem);
      k, d := k + k2, d2;
    }
  }

  lemma AlignedSum(a: int, b: int)
    requires Aligned(a) && Aligned(b)
    ensures Aligned(a + b) && Aligned(a - b)
  {
  }

  lemma EntryRep(w: Site, f: FunDef, s: State, m: SMem, c: Conf, size: int)
    requires Called(f, s, m, w.lo) && size == FrameSize(f.cx, f.body) && size >= 0 && Aligned(size)
    requires w.fn.frame == s.esp - 4 && w.hi == w.fn.frame - size
    requires c.st.esp == w.hi && c.st.mem == s.mem[w.fn.frame := s.ebp]
    ensures Rep(c.st, m, w.lo, w.hi)
  {
    hide StmtDepth, Temps, CtxAfter;
    AlignedSum(s.esp, 4);
    AlignedSum(w.fn.frame, size);
  }

  lemma EntryBegins(w: Site, f: FunDef, s: State, m: SMem, c: Conf)
    requires UniqueLabels(w.prog) && Called(f, s, m, w.lo)
    requires w.fn.frame == s.esp - 4 && w.hi == w.fn.frame - FrameSize(f.cx, f.body)
    requires c.st.esp == w.hi && c.st.ebp == w.fn.frame && c.st.mem == s.mem[w.fn.frame := s.ebp]
    ensures Begin(w, c, m, StmtDepth(f.body), Temps(f.cx, f.body))
  {
    hide UniqueLabels, StmtDepth, Temps, CtxAfter, Wrap, Rep;
    TempsInFrame(f.cx, f.body);
    var size := FrameSize(f.cx, f.body);
    EntryRep(w, f, s, m, c, size);
    forall t | t in Temps(f.cx, f.body) ensures Hidden(w, m, t) {
      AlignedSum(w.fn.frame, t);
    }
  }

  lemma ExitReturns(w: Site, f: FunDef, s: State, m: SMem, r: Result, c: Conf, d: Conf, t: State)
    requires Called(f, s, m, w.lo) && Defined(r)
    requires w.fn.frame == s.esp - 4 && w.hi == w.fn.frame - FrameSize(f.cx, f.body)
    requires c.st.ebp == w.fn.frame && c.st.mem == s.mem[w.fn.frame := s.ebp]
    requires Settled(w, c.st, m, r.mem, d.st)
    requires t == d.st.(esp := s.esp, ebp := Rd(d.st.mem, d.st.ebp))
    requires ResultOf(w.fn, r).Some? ==> d.st.eax == ResultOf(w.fn, r).value
    ensures Returns(f, s, m, r, w.fn, w.lo, t)
  {
    hide StmtDepth, Temps, CtxAfter;
    TempsInFrame(f.cx, f.body);
    var frame := w.fn.frame;
    assert Rd(d.st.mem, frame) == Rd(c.st.mem, frame) == s.ebp;
    assert Rd(d.st.mem, s.esp) == Rd(c.st.mem, s.esp) == Rd(s.mem, s.esp);
    forall a: Word | a !in m && (a < w.lo || a >= s.esp) ensures Rd(t.mem, a) == Rd(s.mem, a) {
      assert Rd(d.st.mem, a) == Rd(c.st.mem, a);
    }
  }

  /** The code of a function: prologue, body, default return, epilogue. */
  lemma FunLayout(prog: seq<Item>, p: nat, f: FunDef, n: nat) returns (pEpi: nat)
    requires UniqueLabels(prog) && CodeAt(prog, p, GenFun(f.cx, f.body, n, f.intRet).code)
    requires FrameSize(f.cx, f.body) >= 0
    ensures var body := GenStmt(f.cx, f.body, n + 1, Jumps(None, None, n), f.intRet).code;
            var size := Wrap(FrameSize(f.cx, f.body));
            && CodeAt(prog, p, [I(PushEbp), I(MovEbpEsp), I(SubEspImm(size))]) && CodeAt(prog, p + 3, body)
            && CodeAt(prog, p + 3 + |body|, (if f.intRet then [I(MovEaxImm(0))] else []) + [Jmp(n)])
    ensures Find(prog, n) == pEpi && pEpi + 2 < |prog| && prog[pEpi] == Lab(n) && prog[pEpi + 1] == I(Leave) && prog[pEpi + 2] == I(Ret)
    ensures pEpi + 3 == p + |GenFun(f.cx, f.body, n, f.intRet).code|
  {
    hide UniqueLabels, CodeAt, Find, GenStmt, CtxAfter;
    var body := GenStmt(f.cx, f.body, n + 1, Jumps(None, None, n), f.intRet).code;
    var pro := [I(PushEbp), I(MovEbpEsp), I(SubEspImm(Wrap(FrameSize(f.cx, f.body))))];
    var zero := if f.intRet then [I(MovEaxImm(0))] else [];
    var z := [Lab(n), I(Leave), I(Ret)];
    assert GenFun(f.cx, f.body, n, f.intRet).code == pro + body + zero + [Jmp(n), Lab(n), I(Leave), I(Ret)];
    assert pro + body + zero + [Jmp(n), Lab(n), I(Leave), I(Ret)] == pro + body + (zero + [Jmp(n)]) + [] + [] + z;
    SixPieces(prog, p, pro, body, zero + [Jmp(n)], [], [], z);
    pEpi := p + 3 + |body| + |zero| + 1;
    InProgram(prog, pEpi, z);
    LabelAt(prog, pEpi, z, 0);
    CodeAtItem(prog, pEpi, z, 1);
    CodeAtItem(prog, pEpi, z, 2);
  }

  /** From the entry of a function to its `ret`: the result is in eax, objects
      are as the source leaves them, stack, frame pointer and return address are
      the caller's, and nothing else outside the callee's stack has changed. */
  lemma {:induction false} FunRuns(prog: seq<Item>, f: FunDef, n: nat, c: Conf, m: SMem, lo: nat, fuel: nat)
      returns (k: nat, d: Conf)
    requires UniqueLabels(prog) && CodeAt(prog, c.pc, GenFun(f.cx, f.body, n, f.intRet).code)
    requires Called(f, c.st, m, lo) && Accepts(f.cx, f.body, false, false) && ScopeSafe(f.body)
    requires Defined(Execute(Fun(c.st.esp - 4, f.intRet), f.cx, f.body, m, fuel))
    ensures Run(prog, c, k) == Some(d)
    ensures d.pc < |prog| && prog[d.pc] == I(Ret) && d.pc + 1 == c.pc + |GenFun(f.cx, f.body, n, f.intRet).code|
    ensures var fn := Fun(c.st.esp - 4, f.intRet);
            Returns(f, c.st, m, Execute(fn, f.cx, f.body, m, fuel), fn, lo, d.st)
  {
    hide Run, Settled, Begin, CodeAt, UniqueLabels, Find, GenStmt, GenFun, Execute, Accepts, ScopeSafe, StmtDepth, Temps, CtxAfter, Returns;
    var fn := Fun(c.st.esp - 4, f.intRet);
    var r := Execute(fn, f.cx, f.body, m, fuel);
    var size := FrameSize(f.cx, f.body);
    TempsInFrame(f.cx, f.body);
    var w := Site(prog, fn, lo, fn.frame - size);
    var pEpi := FunLayout(prog, c.pc, f, n);
    var d1 := PrologueRuns(prog, c, size);
    EntryBegins(w, f, c.st, m, d1);
    var k2, d2 := BodyRuns(w, f, n, d1, m, fuel, pEpi);
    RunCat(prog, c, 3, d1, k2);
    SettledFrame(w, d1.st, m, r.mem, d2.st);
    var d3 := LeaveRuns(prog, c, 3 + k2, d2, c.st.esp);
    ExitReturns(w, f, c.st, m, r, d1, d2, d3.st);
    k, d := 3 + k2 + 2, d3;
  }

  lemma {:induction false} RunPart(prog: seq<Item>, c: Conf, k: nat, n: nat)
    requires Run(prog, c, k).Some? && n <= k
    ensures Run(prog, c, n).Some?
    decreases n
  {
    hide Step;
    if n > 0 { RunPart(prog, Step(prog, c).value, k - 1, n - 1); }
  }

  /** The source of the body goes on for ever. */
  ghost predicate Diverges(fn: Fun, cx: Ctx, body: Stmt, m: SMem) { forall fuel: nat :: Execute(fn, cx, body, m, fuel).NoFuel? }

  /** A function whose body goes on for ever never returns and never stops: its code
      runs for any number of steps. */
  lemma FunDiverges(prog: seq<Item>, f: FunDef, n: nat, c: Conf, m: SMem, lo: nat, steps: nat)
    requires UniqueLabels(prog) && CodeAt(prog, c.pc, GenFun(f.cx, f.body, n, f.intRet).code)
    requires Called(f, c.st, m, lo) && Accepts(f.cx, f.body, false, false) && ScopeSafe(f.body)
    requires Diverges(Fun(c.st.esp - 4, f.intRet), f.cx, f.body, m)
    ensures Run(prog, c, steps).Some?
  {
    hide Run, Settled, Begin, CodeAt, UniqueLabels, Find, GenStmt, GenFun, Execute, Accepts, ScopeSafe, StmtDepth, Temps, CtxAfter;
    var fn := Fun(c.st.esp - 4, f.intRet);
    assert Execute(fn, f.cx, f.body, m, steps).NoFuel?;
    var size := FrameSize(f.cx, f.body);
    TempsInFrame(f.cx, f.body);
    var w := Site(prog, fn, lo, fn.frame - size);
    var pEpi := FunLayout(prog, c.pc, f, n);
    var d1 := PrologueRuns(prog, c, size);
    EntryBegins(w, f, c.st, m, d1);
    var k2, d2 := StmtRuns(w, f.cx, f.body, n + 1, Jumps(None, None, n), d1, m, steps);
    RunCat(prog, c, 3, d1, k2);
    RunPart(prog, c, 3 + k2, steps);
  }

  lemma SettledFrame(w: Site, s: State, m: SMem, m': SMem, t: State)
    requires Settled(w, s, m, m', t)
    ensures t.ebp == s.ebp
  {
  }
}
