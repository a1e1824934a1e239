/** The constant folder against the generated code.

    The folder works on signed 32-bit integers and knows no types; generated
    code divides, shifts right and compares as unsigned when an operand's type
    is.  A folded expression can be unsigned only through the unchosen arm of a
    `?:`, whose type still counts.
 */
module CcFold {
  import opened Options
  import opened Word32
  import opened CcAst
  import opened CcConst
  import opened CcSource
  import opened X86
  import opened CcGen
  import opened CcTails
  import opened CcExprProof

  /** Operators with different signed and unsigned instructions. */
  predicate Sensitive(op: BinOp) {
    op.Div? || op.Mod? || op.Shr? || op.Lt? || op.Le? || op.Gt? || op.Ge?
  }

  predicate Arith(t: Ty) { t.TInt? || t.TUInt? }

  /** No operator that is carried out is both sensitive and unsigned. */
  predicate FoldGuard(env: Env, e: Expr) {
    match e
    case Un(_, a) => FoldGuard(env, a)
    case Tern(c, t, f) => FoldGuard(env, c) && (match Fold(c) case Some(x) => FoldGuard(env, if x != 0 then t else f) case None => true)
    case Bin(op, l, r) =>
      && FoldGuard(env, l)
      && (match Fold(l)
          case None => true
          case Some(a) =>
            (op.LogAnd? && a == 0) || (op.LogOr? && a != 0)
            || (FoldGuard(env, r) && (Sensitive(op) ==> !ValueType(env, l).TUInt? && !ValueType(env, r).TUInt?)))
    case _ => true
  }

  predicate InRange(v: int) { -TWO31 <= v < TWO31 }

  // ----- types of folded expressions -----

  lemma CommonArith(a: Ty, b: Ty)
    requires Arith(a) || Arith(b)
    ensures Arith(CommonType(a, b))
  {
  }

  lemma {:induction false} FoldInfers(env: Env, e: Expr)
    requires Fold(e).Some? && InferType(env, e).Some?
    ensures Arith(InferType(env, e).value)
  {
    if e.Tern? {
      hide CommonType;
      var chosen := if Fold(e.cond).value != 0 then e.thn else e.els;
      FoldInfers(env, chosen);
      CommonArith(InferType(env, e.thn).value, InferType(env, e.els).value);
    }
  }

  /** A folded expression is an integer, never a pointer. */
  lemma {:induction false} FoldArith(env: Env, e: Expr)
    requires Fold(e).Some? && TypeOf(Cc, env, e).Some?
    ensures Arith(TypeOf(Cc, env, e).value)
  {
    match e
    case Num(_, _) =>
    case Un(_, a) => FoldArith(env, a);
    case Tern(c, t, f) =>
      hide CommonType;
      var chosen := if Fold(c).value != 0 then t else f;
      FoldInfers(env, chosen);
      CommonArith(InferType(env, t).value, InferType(env, f).value);
    case Bin(op, l, r) =>
      FoldArith(env, l);
      if !IsLogic(op) { FoldArith(env, r); }
  }

  // ----- values -----

  lemma WrapTimes(x: int, p: int)
    ensures Wrap(Wrap(x) * p) == Wrap(x * p)
  {
    assert x == Wrap(x) + (x / TWO32) * TWO32;
    assert x * p == Wrap(x) * p + ((x / TWO32) * p) * TWO32;
    WrapShift(Wrap(x) * p, (x / TWO32) * p);
  }

  lemma FoldUnSem(op: UnOp, a: int)
    requires InRange(a)
    ensures InRange(FoldUn(op, a)) && Wrap(FoldUn(op, a)) == UnSem(op, Wrap(a))
  {
    SignedWrap(a);
  }

  lemma TimesGrows(p: int, x: int)
    requires p >= 1
    ensures x >= 0 ==> p * x >= x
    ensures x <= 0 ==> p * x <= x
  {
  }

  lemma ShrRange(a: int, p: int)
    requires InRange(a) && p >= 1
    ensures InRange(a / p)
  {
    var q, r := a / p, a % p;
    assert a == p * q + r;
    TimesGrows(p, q);
    TimesGrows(p, q + 1);
    assert p * (q + 1) == p * q + p;
  }

  lemma DivRange(a: int, b: int)
    requires InRange(a) && b != 0 && TruncDiv(a, b) < TWO31
    ensures InRange(TruncDiv(a, b)) && InRange(TruncMod(a, b))
  {
    TruncBound(a, b);
    var m, d := if a >= 0 then a else -a, if b > 0 then b else -b;
    QuotRest(m, d);
    var q := m / d;
    assert b * TruncDiv(a, b) == if a >= 0 then d * q else -(d * q) by {
      assert b == d || b == -d;
      assert TruncDiv(a, b) == q || TruncDiv(a, b) == -q;
      Signs(d, q);
    }
  }

  lemma QuotRest(m: int, d: int)
    requires m >= 0 && d >= 1
    ensures 0 <= m - d * (m / d) <= m
  {
    assert m == d * (m / d) + m % d;
    TimesGrows(d, m / d);
  }

  lemma Signs(d: int, q: int)
    ensures (-d) * (-q) == d * q && (-d) * q == -(d * q) && d * (-q) == -(d * q)
  {
  }

  /** Signed arithmetic on folded values gives the folded result. */
  lemma FoldBinSigned(op: BinOp, a: int, b: int)
    requires !IsLogic(op) && InRange(a) && InRange(b) && FoldBin(op, a, b).Some?
    ensures InRange(FoldBin(op, a, b).value)
    ensures ArithSem(op, false, Wrap(a), Wrap(b)) == Some(Wrap(FoldBin(op, a, b).value))
  {
    SignedWrap(a);
    SignedWrap(b);
    match op
    case Add => WrapSigned(Wrap(a + b));
    case Sub => WrapSigned(Wrap(a - b));
    case Mul => WrapSigned(Wrap(a * b));
    case Div => DivRange(a, b);
    case Mod => DivRange(a, b);
    case Shl => WrapSigned(Wrap(a * Pow2(b)));
    case Shr => ShrRange(a, Pow2(b));
    case BitAnd => WrapSigned(WBits(BAnd, Wrap(a), Wrap(b)));
    case BitOr => WrapSigned(WBits(BOr, Wrap(a), Wrap(b)));
    case BitXor => WrapSigned(WBits(BXor, Wrap(a), Wrap(b)));
    case Lt | Le | Gt | Ge | Eq | Ne =>
  }

  /** The other operators do not depend on signedness. */
  lemma SignsAgree(op: BinOp, a: Word, b: Word)
    requires !IsLogic(op) && !Sensitive(op)
    ensures ArithSem(op, true, a, b) == ArithSem(op, false, a, b)
  {
    var i, j := if a < TWO31 then 0 else 1, if b < TWO31 then 0 else 1;
    assert Signed(a) == a - i * TWO32 && Signed(b) == b - j * TWO32;
    match op
    case Add => WrapShift(Signed(a) + Signed(b), i + j);
    case Sub => WrapShift(Signed(a) - Signed(b), i - j);
    case Mul => WrapMulSigned(a, b);
    case Shl => WrapSigned(a); WrapTimes(Signed(a), Pow2(b % 32));
      if b < 32 { assert b % 32 == b; }
    case BitAnd | BitOr | BitXor | Eq | Ne =>
  }

  /** What one operator computes on folded operands of integer type. */
  lemma FoldBinSem(env: Env, op: BinOp, lt: Ty, rt: Ty, a: int, b: int)
    requires !IsLogic(op) && InRange(a) && InRange(b) && FoldBin(op, a, b).Some? && Arith(lt) && Arith(rt)
    requires Sensitive(op) ==> !lt.TUInt? && !rt.TUInt?
    ensures InRange(FoldBin(op, a, b).value)
    ensures BinSem(Cc, env, op, lt, rt, Wrap(a), Wrap(b)) == Some(Wrap(FoldBin(op, a, b).value))
  {
    hide ArithSem, FoldBin;
    FoldBinSigned(op, a, b);
    if !Sensitive(op) { SignsAgree(op, Wrap(a), Wrap(b)); }
  }

  /** Code for the operator agrees with the folder on every pair of values
      exactly when it is not both sensitive and unsigned. */
  lemma OperatorAgrees(env: Env, op: BinOp, lt: Ty, rt: Ty)
    requires !IsLogic(op) && Arith(lt) && Arith(rt)
    ensures (forall a, b :: InRange(a) && InRange(b) && FoldBin(op, a, b).Some?
                       ==> BinSem(Cc, env, op, lt, rt, Wrap(a), Wrap(b)) == Some(Wrap(FoldBin(op, a, b).value)))
        <==> !(Sensitive(op) && (lt.TUInt? || rt.TUInt?))
  {
    hide ArithSem, FoldBin, BinSem;
    if Sensitive(op) && (lt.TUInt? || rt.TUInt?) {
      var w := UnsignedDiffers(env, op, lt, rt);
    } else {
      forall a, b | InRange(a) && InRange(b) && FoldBin(op, a, b).Some?
        ensures BinSem(Cc, env, op, lt, rt, Wrap(a), Wrap(b)) == Some(Wrap(FoldBin(op, a, b).value))
      {
        FoldBinSem(env, op, lt, rt, a, b);
      }
    }
  }

  lemma UnsignedDiffers(env: Env, op: BinOp, lt: Ty, rt: Ty) returns (w: (int, int))
    requires Sensitive(op) && Arith(lt) && Arith(rt) && (lt.TUInt? || rt.TUInt?)
    ensures InRange(w.0) && InRange(w.1) && FoldBin(op, w.0, w.1).Some?
    ensures BinSem(Cc, env, op, lt, rt, Wrap(w.0), Wrap(w.1)) != Some(Wrap(FoldBin(op, w.0, w.1).value))
  {
    w := UnsignedWitness(op);
    hide FoldBin, ArithSem;
    assert BinSem(Cc, env, op, lt, rt, Wrap(w.0), Wrap(w.1)) == ArithSem(op, true, Wrap(w.0), Wrap(w.1));
  }

  lemma UnsignedWitness(op: BinOp) returns (w: (int, int))
    requires Sensitive(op)
    ensures InRange(w.0) && InRange(w.1) && FoldBin(op, w.0, w.1).Some?
    ensures ArithSem(op, true, Wrap(w.0), Wrap(w.1)) != Some(Wrap(FoldBin(op, w.0, w.1).value))
  {
    assert Pow2(1) == 2;
    if op.Div? {
      w := (-2, 2);
    } else if op.Mod? {
      w := (-2, 3);
    } else if op.Shr? {
      w := (-2, 1);
    } else {
      w := (-1, 0);
    }
  }

  // ----- whole expressions -----

  /** Evaluating a folded expression gives the folded value and leaves memory
      alone: operands the folder skips are not evaluated either. */
  lemma {:induction false} FoldEvals(sc: Scope, e: Expr, m: SMem)
    requires sc.rule == Cc && Fold(e).Some? && TypeOf(Cc, sc.env, e).Some? && FoldGuard(sc.env, e)
    ensures InRange(Fold(e).value) && Eval(sc, e, m) == Some(Res(Wrap(Fold(e).value), m))
    decreases e, 1
  {
    hide BinSem, CommonType, InferType, UnSem, FoldUn, FoldBin, Wrap;
    match e
    case Num(v, _) => WrapSigned(v);
    case Un(op, a) =>
      FoldEvals(sc, a, m);
      FoldUnSem(op, Fold(a).value);
    case Tern(c, t, f) =>
      FoldEvals(sc, c, m);
      ZeroWrap(Fold(c).value);
      FoldEvals(sc, if Fold(c).value != 0 then t else f, m);
    case Bin(op, l, r) => FoldEvalsBin(sc, e, m);
  }

  lemma ZeroWrap(v: int)
    requires InRange(v)
    ensures Wrap(v) == 0 <==> v == 0
    ensures Wrap(1) == 1 && Wrap(0) == 0
  {
  }

  lemma {:induction false} FoldEvalsBin(sc: Scope, e: Expr, m: SMem)
    requires e.Bin? && sc.rule == Cc && Fold(e).Some? && TypeOf(Cc, sc.env, e).Some? && FoldGuard(sc.env, e)
    ensures InRange(Fold(e).value) && Eval(sc, e, m) == Some(Res(Wrap(Fold(e).value), m))
    decreases e, 0
  {
    hide CommonType, InferType, BinType;
    var op, l, r := e.bop, e.lhs, e.rhs;
    FoldEvals(sc, l, m);
    ZeroWrap(Fold(l).value);
    if !((op.LogAnd? && Fold(l).value == 0) || (op.LogOr? && Fold(l).value != 0)) {
      FoldEvals(sc, r, m);
      ZeroWrap(Fold(r).value);
      if !IsLogic(op) {
        hide BinSem, FoldBin, Wrap;
        FoldArith(sc.env, l);
        FoldArith(sc.env, r);
        FoldBinSem(sc.env, op, ValueType(sc.env, l), ValueType(sc.env, r), Fold(l).value, Fold(r).value);
      }
    }
  }

  /** The code of a folded expression pushes the folded value and changes no
      object.  For one operator the guard is exact (OperatorAgrees); for a whole
      expression it is not necessary, since a later operator can cancel a
      disagreement: `((1 ? -1 : u) < 0) * 0` is 0 either way. */
  lemma FoldedRuns(prog: seq<Item>, sc: Scope, e: Expr, n: nat, c: Conf, m: SMem, lo: nat, hi: nat) returns (k: nat, d: Conf)
    requires Ready(prog, sc, c, m, lo, hi, Depth(e)) && CodeAt(prog, c.pc, GenExpr(sc.env, e, n).code)
    requires EvalConst(e).Some? && TypeOf(Cc, sc.env, e).Some? && FoldGuard(sc.env, e)
    ensures Run(prog, c, k) == Some(d) && d.pc == c.pc + |GenExpr(sc.env, e, n).code|
    ensures Yields(c.st, m, Res(EvalConst(e).value, m), d.st, lo, hi)
  {
    hide Run, Yields, CodeAt, GenExpr, TypeOf, Eval, Fold, FoldGuard, Depth;
    FoldEvals(sc, e, m);
    k, d := ExprRuns(prog, sc, e, n, c, m, lo, hi);
  }

  lemma UnchosenTern(sc: Scope, m: SMem)
    requires sc.rule == Cc && sc.env == Env([Sym("u", TUInt, Local(-4))], [], [])
    ensures var t := Tern(Num(1, false), Un(Neg, Num(1, false)), Var("u"));
            TypeOf(Cc, sc.env, t) == Some(TUInt) && Eval(sc, t, m) == Some(Res(TWO32 - 1, m)) && Fold(t) == Some(-1)
  {
    hide Size, BinSem, BinType, FieldOf;
    var u := Var("u");
    assert Lookup(sc.env, "u") == Some(Sym("u", TUInt, Local(-4)));
    assert InferType(sc.env, u) == Some(TUInt) && InferType(sc.env, Un(Neg, Num(1, false))) == Some(TInt);
    assert TypeOf(Cc, sc.env, u) == Some(TUInt);
  }

  /** `(1 ? -1 : u) < 0` folds to 1, but with `u` unsigned the code gives 0. */
  lemma UnchosenArmCounts(sc: Scope, m: SMem)
    requires sc.rule == Cc && sc.env == Env([Sym("u", TUInt, Local(-4))], [], [])
    ensures var e := Bin(Lt, Tern(Num(1, false), Un(Neg, Num(1, false)), Var("u")), Num(0, false));
            && TypeOf(Cc, sc.env, e).Some? && EvalConst(e) == Some(1)
            && Eval(sc, e, m) == Some(Res(0, m)) && !FoldGuard(sc.env, e)
  {
    hide Size, FieldOf, InferType, CommonType, EvalAddr, AddrType;
    UnchosenTern(sc, m);
  }
}
