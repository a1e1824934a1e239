/** How far the compiler's own typing is C's, and what its desugaring of the
    step and compound-assignment operators means.
 */
module CcMeaning {
  import opened Options
  import opened Word32
  import opened CcAst
  import opened CcSource
  import opened X86
  import opened CcGen
  import opened CcTails
  import opened CcExprProof

  // ----- typing -----

  predicate IsOp(e: Expr) { e.Assign? || e.Un? || e.Bin? }

  /** The operand the guess for an operator looks at: the leftmost one below a row
      of operators. */
  function Leftmost(e: Expr): Expr {
    match e
    case Assign(l, _) => Leftmost(l)
    case Un(_, a) => Leftmost(a)
    case Bin(_, l, _) => Leftmost(l)
    case _ => e
  }

  predicate LeftUnsigned(env: Env, e: Expr) { TypeOf(C11, env, Leftmost(e)) == Some(TUInt) }

  predicate IsArray(env: Env, e: Expr) { AddrType(C11, env, e).Some? && AddrType(C11, env, e).value.TArray? }

  /** Arms with a guess at all: what is dereferenced, indexed or selected from is
      never an operator's result, and `*` and `->` are not applied to an array. */
  predicate Guessable(env: Env, e: Expr) {
    match e
    case Num(_, _) | Var(_) => true
    case AddrOf(x) => Guessable(env, x)
    case Deref(p) => Guessable(env, p) && !IsOp(p) && !IsArray(env, p)
    case Index(a, _) => Guessable(env, a) && !IsOp(a)
    case Member(r, _, arrow) => Guessable(env, r) && !IsOp(r) && (arrow ==> !IsArray(env, r))
    case Assign(l, _) => Guessable(env, l)
    case Un(_, a) => Guessable(env, a)
    case Bin(_, l, _) => Guessable(env, l)
    case Tern(_, t, f) => Guessable(env, t) && Guessable(env, f)
  }

  /** Both arms must have a guess.  Where C makes the result a pointer, both must be
      pointers no operator computed, and a `void *` must come first; elsewhere the
      result must be unsigned just when a leftmost operand is. */
  predicate ArmsConform(env: Env, t: Expr, f: Expr) {
    && Guessable(env, t) && Guessable(env, f)
    && (match (TypeOf(C11, env, t), TypeOf(C11, env, f))
        case (Some(tt), Some(tf)) =>
          var ta, tb := Decay(tt), Decay(tf);
          if ta.TPtr? || tb.TPtr? then ta.TPtr? && tb.TPtr? && !IsOp(t) && !IsOp(f) && (ta == tb || ta.base.TVoid?)
          else (ta.TUInt? || tb.TUInt?) <==> (LeftUnsigned(env, t) || LeftUnsigned(env, f))
        case _ => false)
  }

  /** One node: no unsigned constant, no arms guessed wrong, no shift whose count
      alone is unsigned, no literal zero divisor. */
  predicate NodeConforms(env: Env, e: Expr) {
    match e
    case Num(_, u) => !u
    case Tern(_, t, f) => ArmsConform(env, t, f)
    case Bin(op, l, r) =>
      && (IsShift(op) ==>
            (match (TypeOf(C11, env, l), TypeOf(C11, env, r))
             case (Some(lt), Some(rt)) => lt.TUInt? || !rt.TUInt?
             case _ => false))
      && (op.Div? || op.Mod? ==> !(r.Num? && r.v == 0))
    case _ => true
  }

  function Parts(e: Expr): seq<Expr> {
    match e
    case Num(_, _) | Var(_) => []
    case AddrOf(x) => [x]
    case Deref(p) => [p]
    case Index(a, i) => [a, i]
    case Member(r, _, _) => [r]
    case Assign(l, r) => [l, r]
    case Tern(c, t, f) => [c, t, f]
    case Un(_, a) => [a]
    case Bin(_, l, r) => [l, r]
  }

  lemma PartsSmaller(e: Expr)
    ensures forall i :: 0 <= i < |Parts(e)| ==> Parts(e)[i] < e
  {
  }

  /** Every node conforms. */
  predicate Conforms(env: Env, e: Expr)
    decreases e
  {
    PartsSmaller(e);
    NodeConforms(env, e) && forall i :: 0 <= i < |Parts(e)| ==> Conforms(env, Parts(e)[i])
  }

  /** The compiler's types are C's here and everywhere below. */
  predicate TypesAgree(env: Env, e: Expr)
    decreases e
  {
    PartsSmaller(e);
    && TypeOf(Cc, env, e) == TypeOf(C11, env, e) && AddrType(Cc, env, e) == AddrType(C11, env, e)
    && forall i :: 0 <= i < |Parts(e)| ==> TypesAgree(env, Parts(e)[i])
  }

  lemma PartsOf(env: Env, e: Expr)
    ensures Conforms(env, e) ==> forall i :: 0 <= i < |Parts(e)| ==> Conforms(env, Parts(e)[i])
    ensures TypesAgree(env, e) ==> forall i :: 0 <= i < |Parts(e)| ==> TypesAgree(env, Parts(e)[i])
  {
  }

  /** Typed, as C or as an lvalue, at every part. */
  predicate Typable(env: Env, e: Expr)
    decreases e
  {
    PartsSmaller(e);
    && (TypeOf(C11, env, e).Some? || AddrType(C11, env, e).Some?)
    && forall i :: 0 <= i < |Parts(e)| ==> Typable(env, Parts(e)[i])
  }

  /** What the guess is: an operator counts as unsigned or signed after its
      leftmost operand, anything else has its declared type. */
  predicate GuessIs(env: Env, e: Expr) {
    && (InferType(env, e).Some? <==> Guessable(env, e))
    && (Guessable(env, e) ==>
          InferType(env, e) == if IsOp(e) then Some(if LeftUnsigned(env, e) then TUInt else TInt)
                               else if AddrType(C11, env, e).Some? then AddrType(C11, env, e)
                               else TypeOf(C11, env, e))
  }

  lemma {:induction false} Guesses(env: Env, e: Expr)
    requires Typable(env, e) && TypesAgree(env, e)
    ensures GuessIs(env, e)
  {
    TypableParts(env, e);
    PartsOf(env, e);
    PartsListed(e);
    AgreeHere(env, e);
    hide Typable, TypesAgree, Lookup, FieldOf, CondType, BinType;
    match e
    case Num(_, _) =>
    case Var(_) =>
    case AddrOf(x) => Guesses(env, Parts(e)[0]);
    case Deref(p) => Guesses(env, Parts(e)[0]);
    case Index(a, _) => Guesses(env, Parts(e)[0]);
    case Member(r, _, _) => Guesses(env, Parts(e)[0]);
    case Assign(_, _) | Un(_, _) | Bin(_, _, _) =>
      Guesses(env, Parts(e)[0]);
      OperatorGuess(env, e, Parts(e)[0]);
    case Tern(_, t, f) =>
      Guesses(env, Parts(e)[1]);
      Guesses(env, Parts(e)[2]);
  }

  lemma OperatorGuess(env: Env, e: Expr, l: Expr)
    requires IsOp(e) && l == Parts(e)[0] && GuessIs(env, l)
    requires TypeOf(C11, env, e).Some?
    ensures GuessIs(env, e)
  {
    assert Leftmost(e) == Leftmost(l);
    LoadedType(env, l);
    if !IsOp(l) { assert Leftmost(l) == l; }
    if e.Assign? { assert !IsOp(l); }
  }

  /** At one node, given that the parts' types agree. */
  lemma NodeAgrees(env: Env, e: Expr)
    requires Typable(env, e) && forall i :: 0 <= i < |Parts(e)| ==> TypesAgree(env, Parts(e)[i])
    ensures NodeConforms(env, e) <==> TypeOf(Cc, env, e) == TypeOf(C11, env, e) && AddrType(Cc, env, e) == AddrType(C11, env, e)
  {
    TypableParts(env, e);
    PartsListed(e);
    forall i | 0 <= i < |Parts(e)|
      ensures TypeOf(Cc, env, Parts(e)[i]) == TypeOf(C11, env, Parts(e)[i]) && AddrType(Cc, env, Parts(e)[i]) == AddrType(C11, env, Parts(e)[i])
    {
      AgreeHere(env, Parts(e)[i]);
    }
    if e.Tern? { TernAgrees(env, e); }
    hide InferType, CommonType, Size, FieldOf, TypesAgree, Typable, ArmsConform, IsNull, CondType;
    if e.Bin? { BinNode(env, e); }
    hide BinType;
  }

  lemma BinNode(env: Env, e: Expr)
    requires e.Bin? && TypeOf(C11, env, e).Some?
    requires TypeOf(Cc, env, e.lhs) == TypeOf(C11, env, e.lhs) && TypeOf(Cc, env, e.rhs) == TypeOf(C11, env, e.rhs)
    ensures NodeConforms(env, e) <==> TypeOf(Cc, env, e) == TypeOf(C11, env, e)
  {
    hide AddrType, InferType;
  }

  lemma TernAgrees(env: Env, e: Expr)
    requires e.Tern? && Typable(env, e) && forall i :: 0 <= i < |Parts(e)| ==> TypesAgree(env, Parts(e)[i])
    ensures ArmsConform(env, e.thn, e.els) <==> TypeOf(Cc, env, e) == TypeOf(C11, env, e)
  {
    assert AddrType(C11, env, e) == None;
    hide InferType, AddrType, Guessable, IsNull, LeftUnsigned, Leftmost, FieldOf;
    TypableParts(env, e);
    PartsListed(e);
    var t, f := Parts(e)[1], Parts(e)[2];
    AgreeHere(env, Parts(e)[0]);
    AgreeHere(env, t);
    AgreeHere(env, f);
    Guesses(env, t);
    Guesses(env, f);
    assert TypeOf(C11, env, e).Some?;
    ArmGuess(env, t);
    ArmGuess(env, f);
    hide Typable, TypesAgree, GuessIs, IsOp;
  }

  /** The guess for an arm with a value. */
  lemma ArmGuess(env: Env, e: Expr)
    requires GuessIs(env, e) && TypeOf(C11, env, e).Some?
    ensures InferType(env, e).Some? <==> Guessable(env, e)
    ensures Guessable(env, e) ==>
      var it, t := InferType(env, e).value, Decay(TypeOf(C11, env, e).value);
      && !it.TRec?
      && (if IsOp(e) then it == if LeftUnsigned(env, e) then TUInt else TInt
          else Decay(it) == t && (LeftUnsigned(env, e) <==> t.TUInt?))
  {
    LoadedType(env, e);
    hide InferType, Guessable;
  }

  /** The value of an lvalue has its type, arrays turned into pointers. */
  lemma LoadedType(env: Env, e: Expr)
    ensures AddrType(C11, env, e).Some? ==>
      var t := AddrType(C11, env, e).value;
      && (TypeOf(C11, env, e).Some? ==> Decay(t) == Decay(TypeOf(C11, env, e).value))
      && (Scalar(t) ==> TypeOf(C11, env, e) == Some(t))
  {
  }

  /** The compiler's types are C's throughout exactly when every node conforms. */
  lemma {:induction false} ConformsExactly(env: Env, e: Expr)
    requires Typable(env, e)
    ensures Conforms(env, e) <==> TypesAgree(env, e)
    decreases e
  {
    PartsSmaller(e);
    PartsOf(env, e);
    forall i | 0 <= i < |Parts(e)| ensures Conforms(env, Parts(e)[i]) <==> TypesAgree(env, Parts(e)[i]) {
      ConformsExactly(env, Parts(e)[i]);
    }
    if forall i :: 0 <= i < |Parts(e)| ==> TypesAgree(env, Parts(e)[i]) { NodeAgrees(env, e); }
  }

  lemma TypableParts(env: Env, e: Expr)
    requires Typable(env, e)
    ensures forall i :: 0 <= i < |Parts(e)| ==> Typable(env, Parts(e)[i])
    ensures TypeOf(C11, env, e).Some? || AddrType(C11, env, e).Some?
  {
  }

  lemma AgreeHere(env: Env, e: Expr)
    requires TypesAgree(env, e)
    ensures TypeOf(Cc, env, e) == TypeOf(C11, env, e) && AddrType(Cc, env, e) == AddrType(C11, env, e)
  {
  }

  /** Where the types agree an operator computes the same. */
  lemma BinAgrees(env: Env, op: BinOp, lt: Ty, rt: Ty, a: Word, b: Word)
    requires !IsLogic(op) && BinType(C11, op, lt, rt).Some? && BinType(Cc, op, lt, rt) == BinType(C11, op, lt, rt)
    ensures BinSem(Cc, env, op, lt, rt, a, b) == BinSem(C11, env, op, lt, rt, a, b)
  {
    hide Size, ArithSem;
  }

  /** Both rules give `e` one value and one address, from any memory. */
  ghost predicate Same(env: Env, frame: Word, e: Expr) {
    forall m :: Eval(Scope(Cc, env, frame), e, m) == Eval(Scope(C11, env, frame), e, m)
             && EvalAddr(Scope(Cc, env, frame), e, m) == EvalAddr(Scope(C11, env, frame), e, m)
  }

  lemma AddrSame(env: Env, frame: Word, e: Expr, m: SMem)
    requires forall i :: 0 <= i < |Parts(e)| ==> TypesAgree(env, Parts(e)[i]) && Same(env, frame, Parts(e)[i])
    requires AddrType(Cc, env, e) == AddrType(C11, env, e)
    ensures EvalAddr(Scope(Cc, env, frame), e, m) == EvalAddr(Scope(C11, env, frame), e, m)
  {
    hide InferType, CommonType, Size, FieldOf, Lookup, AddrOfSym, TypeOf, AddrType;
    PartsListed(e);
    if e.Member? { AgreeHere(env, Parts(e)[0]); }
    hide TypesAgree;
  }

  lemma BinSame(env: Env, frame: Word, e: Expr, m: SMem)
    requires e.Bin? && Typable(env, e) && TypesAgree(env, e)
    requires Same(env, frame, e.lhs) && Same(env, frame, e.rhs)
    ensures Eval(Scope(Cc, env, frame), e, m) == Eval(Scope(C11, env, frame), e, m)
  {
    OperandTypes(env, e);
    hide TypesAgree, Typable, Conforms, InferType, CommonType, Size, TypeOf, AddrType, FieldOf, BinType, BinSem;
    var op, l, r := e.bop, e.lhs, e.rhs;
    if !IsLogic(op) {
      OperandsAgree(env, e);
      forall a, b | true
        ensures BinSem(Cc, env, op, ValueType(env, l), ValueType(env, r), a, b) == BinSem(C11, env, op, ValueType(env, l), ValueType(env, r), a, b)
      {
        BinAgrees(env, op, ValueType(env, l), ValueType(env, r), a, b);
      }
    }
  }

  /** An expression the compiler types as C does means what C says. */
  lemma {:induction false} MeaningAgrees(env: Env, frame: Word, e: Expr)
    requires Typable(env, e) && TypesAgree(env, e)
    ensures Same(env, frame, e)
    decreases e
  {
    PartsSmaller(e);
    PartsOf(env, e);
    TypableParts(env, e);
    AgreeHere(env, e);
    hide TypesAgree, Typable, Conforms, InferType, CommonType, Size, BinSem, TypeOf, AddrType, FieldOf, BinType, EvalAddr;
    forall i | 0 <= i < |Parts(e)| ensures Same(env, frame, Parts(e)[i]) {
      MeaningAgrees(env, frame, Parts(e)[i]);
    }
    PartsListed(e);
    forall m | true
      ensures Eval(Scope(Cc, env, frame), e, m) == Eval(Scope(C11, env, frame), e, m)
      ensures EvalAddr(Scope(Cc, env, frame), e, m) == EvalAddr(Scope(C11, env, frame), e, m)
    {
      AddrSame(env, frame, e, m);
      if e.Bin? { BinSame(env, frame, e, m); }
    }
  }

  lemma OperandTypes(env: Env, e: Expr)
    requires e.Bin? && TypesAgree(env, e)
    ensures TypeOf(Cc, env, e.lhs) == TypeOf(C11, env, e.lhs) && TypeOf(Cc, env, e.rhs) == TypeOf(C11, env, e.rhs)
  {
    PartsListed(e);
    PartsOf(env, e);
    assert TypesAgree(env, Parts(e)[0]) && TypesAgree(env, Parts(e)[1]);
  }

  lemma PartsListed(e: Expr)
    ensures |Parts(e)| > 0 ==> Parts(e)[0] == match e
            case AddrOf(x) => x case Deref(p) => p case Index(a, _) => a case Member(r, _, _) => r
            case Assign(l, _) => l case Tern(c, _, _) => c case Un(_, a) => a case Bin(_, l, _) => l case _ => e
    ensures |Parts(e)| > 1 ==> Parts(e)[1] == match e
            case Index(_, i) => i case Assign(_, r) => r case Tern(_, t, _) => t case Bin(_, _, r) => r case _ => e
    ensures |Parts(e)| > 2 ==> Parts(e)[2] == if e.Tern? then e.els else e
  {
  }

  lemma OperandsAgree(env: Env, e: Expr)
    requires e.Bin? && !IsLogic(e.bop) && Typable(env, e) && TypesAgree(env, e)
    ensures var lt, rt := ValueType(env, e.lhs), ValueType(env, e.rhs);
            && BinType(C11, e.bop, lt, rt).Some? && BinType(Cc, e.bop, lt, rt) == BinType(C11, e.bop, lt, rt)
            && TypeOf(Cc, env, e.lhs).Some? && TypeOf(Cc, env, e.rhs).Some?
            && TypeOf(C11, env, e.lhs) == TypeOf(Cc, env, e.lhs) && TypeOf(C11, env, e.rhs) == TypeOf(Cc, env, e.rhs)
  {
    PartsListed(e);
    PartsOf(env, e);
    assert TypesAgree(env, Parts(e)[0]) && TypesAgree(env, Parts(e)[1]);
    AgreeHere(env, e);
    AgreeHere(env, e.lhs);
    AgreeHere(env, e.rhs);
    TypableParts(env, e);
    hide TypesAgree, Typable, BinType, InferType, CommonType;
  }

  /** The code of an expression whose `?:` and shifts conform computes C's value. */
  lemma ConformingRuns(prog: seq<Item>, sc: Scope, e: Expr, n: nat, c: Conf, m: SMem, lo: nat, hi: nat) returns (k: nat, d: Conf)
    requires Ready(prog, sc, c, m, lo, hi, Depth(e)) && CodeAt(prog, c.pc, GenExpr(sc.env, e, n).code)
    requires Typable(sc.env, e) && Conforms(sc.env, e)
    requires TypeOf(C11, sc.env, e).Some? && Eval(Scope(C11, sc.env, sc.frame), e, m).Some?
    ensures Run(prog, c, k) == Some(d) && d.pc == c.pc + |GenExpr(sc.env, e, n).code|
    ensures Yields(c.st, m, Eval(Scope(C11, sc.env, sc.frame), e, m).value, d.st, lo, hi)
  {
    hide Run, Yields, CodeAt, GenExpr, TypeOf, AddrType, Eval, Conforms, TypesAgree, Typable, Depth;
    ConformsExactly(sc.env, e);
    AgreeHere(sc.env, e);
    MeaningAgrees(sc.env, sc.frame, e);
    assert sc == Scope(Cc, sc.env, sc.frame);
    k, d := ExprRuns(prog, sc, e, n, c, m, lo, hi);
  }

  // ----- where it is not C's -----

  /** `-1 >> u` with `u` unsigned: shifted in zeros, where C keeps the sign. */
  lemma UnsignedCountShifts(sc: Scope, m: SMem)
    requires sc.env == Env([Sym("u", TUInt, Local(-4))], [], []) && sc.frame >= 4 && m == map[sc.frame - 4 := 1]
    ensures var e := Bin(Shr, Un(Neg, Num(1, false)), Var("u"));
            Eval(sc, e, m) == Some(Res(if sc.rule.Cc? then 0x7FFF_FFFF else 0xFFFF_FFFF, m))
  {
    hide FieldOf, ArithSem;
    var l, r := Un(Neg, Num(1, false)), Var("u");
    assert Lookup(sc.env, "u") == Some(Sym("u", TUInt, Local(-4)));
    assert Eval(sc, r, m) == Some(Res(1, m)) && TypeOf(sc.rule, sc.env, r) == Some(TUInt);
    hide Lookup, AddrType, EvalAddr;
    NumEval(sc, 1, m);
    assert Eval(sc, l, m) == Some(Res(0xFFFF_FFFF, m)) && TypeOf(sc.rule, sc.env, l) == Some(TInt);
    hide Eval, TypeOf;
    BinEval(sc, Shr, l, r, m);
    ShiftedOnes();
  }

  lemma ShiftedOnes()
    ensures ArithSem(Shr, true, 0xFFFF_FFFF, 1) == Some(0x7FFF_FFFF) && ArithSem(Shr, false, 0xFFFF_FFFF, 1) == Some(0xFFFF_FFFF)
  {
    assert Pow2(1) == 2;
  }

  /** `(1 ? p + 1 : p) + 1` with `p` a pointer to words: the guess takes the
      pointer sum for an `int`, so the last 1 is one byte. */
  lemma PointerArmGuessed(frame: Word, m: SMem)
    requires frame >= 4 && m == map[frame - 4 := 100]
    ensures var env := Env([Sym("p", TPtr(TInt), Local(-4))], [], []);
            var e := Bin(Add, Tern(Num(1, false), Bin(Add, Var("p"), Num(1, false)), Var("p")), Num(1, false));
            && Eval(Scope(Cc, env, frame), e, m) == Some(Res(105, m))
            && Eval(Scope(C11, env, frame), e, m) == Some(Res(108, m))
  {
    hide TypeOf, Eval, EvalAddr, AddrType, InferType, Lookup, FieldOf, WBits;
    var env := Env([Sym("p", TPtr(TInt), Local(-4))], [], []);
    var arm := Tern(Num(1, false), Bin(Add, Var("p"), Num(1, false)), Var("p"));
    PointerArm(Scope(Cc, env, frame), m);
    PointerArm(Scope(C11, env, frame), m);
    BinEval(Scope(Cc, env, frame), Add, arm, Num(1, false), m);
    BinEval(Scope(C11, env, frame), Add, arm, Num(1, false), m);
    NumEval(Scope(Cc, env, frame), 1, m);
    NumEval(Scope(C11, env, frame), 1, m);
    assert Size(env, TInt) == 4;
  }

  lemma NumEval(sc: Scope, v: Word, m: SMem)
    ensures Eval(sc, Num(v, false), m) == Some(Res(v, m)) && TypeOf(sc.rule, sc.env, Num(v, false)) == Some(TInt)
  {
  }

  lemma PointerArm(sc: Scope, m: SMem)
    requires sc.env == Env([Sym("p", TPtr(TInt), Local(-4))], [], [])
    requires sc.frame >= 4 && m == map[sc.frame - 4 := 100]
    ensures var t := Tern(Num(1, false), Bin(Add, Var("p"), Num(1, false)), Var("p"));
            Eval(sc, t, m) == Some(Res(104, m)) && TypeOf(sc.rule, sc.env, t) == Some(if sc.rule.Cc? then TInt else TPtr(TInt))
  {
    hide FieldOf, ArithSem, WBits, IsNull;
    var p := Var("p");
    assert Lookup(sc.env, "p") == Some(Sym("p", TPtr(TInt), Local(-4)));
    assert Eval(sc, p, m) == Some(Res(100, m)) && TypeOf(sc.rule, sc.env, p) == Some(TPtr(TInt));
    assert InferType(sc.env, p) == Some(TPtr(TInt));
    hide EvalAddr, AddrType, Lookup;
    BinEval(sc, Add, p, Num(1, false), m);
    NumEval(sc, 1, m);
    assert Eval(sc, Bin(Add, p, Num(1, false)), m) == Some(Res(104, m));
    assert TypeOf(sc.rule, sc.env, Bin(Add, p, Num(1, false))) == Some(TPtr(TInt));
    hide BinSem, BinType;
  }

  /** `0xFFFFFFFF > 0`: compared as signed. */
  lemma UnsignedConstantSigned(sc: Scope, m: SMem)
    ensures Eval(sc, Bin(Gt, Num(0xFFFF_FFFF, true), Num(0, false)), m) == Some(Res(if sc.rule.Cc? then 0 else 1, m))
  {
    hide EvalAddr, AddrType;
    assert TypeOf(sc.rule, sc.env, Num(0xFFFF_FFFF, true)) == Some(if sc.rule.Cc? then TInt else TUInt);
  }

  /** `(1 ? p : 0) + 1`: the null pointer makes the compiler's guess an `int`. */
  lemma NullArmGuessed(frame: Word, m: SMem)
    requires frame >= 4 && m == map[frame - 4 := 100]
    ensures var env := Env([Sym("p", TPtr(TInt), Local(-4))], [], []);
            var e := Bin(Add, Tern(Num(1, false), Var("p"), Num(0, false)), Num(1, false));
            && Eval(Scope(Cc, env, frame), e, m) == Some(Res(101, m))
            && Eval(Scope(C11, env, frame), e, m) == Some(Res(104, m))
  {
    hide TypeOf, Eval, EvalAddr, AddrType, InferType, Lookup, FieldOf, WBits;
    var env := Env([Sym("p", TPtr(TInt), Local(-4))], [], []);
    var arm := Tern(Num(1, false), Var("p"), Num(0, false));
    forall r: Rule | true
      ensures Eval(Scope(r, env, frame), Bin(Add, arm, Num(1, false)), m) == Some(Res(if r.Cc? then 101 else 104, m))
    {
      NullArm(Scope(r, env, frame), m);
      BinEval(Scope(r, env, frame), Add, arm, Num(1, false), m);
      NumEval(Scope(r, env, frame), 1, m);
    }
  }

  lemma NullArm(sc: Scope, m: SMem)
    requires sc.env == Env([Sym("p", TPtr(TInt), Local(-4))], [], [])
    requires sc.frame >= 4 && m == map[sc.frame - 4 := 100]
    ensures var t := Tern(Num(1, false), Var("p"), Num(0, false));
            Eval(sc, t, m) == Some(Res(100, m)) && TypeOf(sc.rule, sc.env, t) == Some(if sc.rule.Cc? then TInt else TPtr(TInt))
  {
    hide FieldOf, ArithSem, WBits;
    var p := Var("p");
    assert Lookup(sc.env, "p") == Some(Sym("p", TPtr(TInt), Local(-4)));
    assert Eval(sc, p, m) == Some(Res(100, m)) && TypeOf(sc.rule, sc.env, p) == Some(TPtr(TInt));
    NumEval(sc, 1, m);
    NumEval(sc, 0, m);
    assert InferType(sc.env, p) == Some(TPtr(TInt)) && IsNull(Num(0, false));
    hide EvalAddr, AddrType, Lookup;
  }

  /** `0 && 1 / 0` is 0 in C; the compiler refuses it. */
  lemma DeadDivisionRefused(env: Env, frame: Word, m: SMem)
    ensures var e := Bin(LogAnd, Num(0, false), Bin(Div, Num(1, false), Num(0, false)));
            && TypeOf(Cc, env, e) == None
            && TypeOf(C11, env, e) == Some(TInt) && Eval(Scope(C11, env, frame), e, m) == Some(Res(0, m))
  {
    var d := Bin(Div, Num(1, false), Num(0, false));
    assert TypeOf(Cc, env, d) == None && TypeOf(C11, env, d) == Some(TInt);
  }

  // ----- ++, -- and op= -----

  /** No assignment inside. */
  predicate Pure(e: Expr)
    decreases e
  {
    PartsSmaller(e);
    !e.Assign? && forall i :: 0 <= i < |Parts(e)| ==> Pure(Parts(e)[i])
  }

  ghost predicate KeepsMem(sc: Scope, e: Expr) {
    forall m :: (Eval(sc, e, m).Some? ==> Eval(sc, e, m).value.mem == m)
             && (EvalAddr(sc, e, m).Some? ==> EvalAddr(sc, e, m).value.mem == m)
  }

  /** An assignment-free expression leaves memory alone. */
  lemma {:induction false} PureKeeps(sc: Scope, e: Expr)
    requires Pure(e)
    ensures KeepsMem(sc, e)
    decreases e
  {
    PartsSmaller(e);
    PartsListed(e);
    forall i | 0 <= i < |Parts(e)| ensures KeepsMem(sc, Parts(e)[i]) { PureKeeps(sc, Parts(e)[i]); }
    assert !e.Assign?;
    hide Pure, TypeOf, AddrType, BinSem, Size, FieldOf, MemberOffset, Lookup, UnSem;
    assert forall m :: EvalAddr(sc, e, m).Some? ==> EvalAddr(sc, e, m).value.mem == m;
    assert forall m :: Eval(sc, e, m).Some? ==> Eval(sc, e, m).value.mem == m by { hide EvalAddr; }
  }

  /** `lv op= e` as C means it: the address once, the old value, the operand, the
      store.  `post` picks the value before the update as the result. */
  function Update(sc: Scope, lv: Expr, op: BinOp, e: Expr, post: bool, m: SMem): Option<Res>
    requires !IsLogic(op)
  {
    match (EvalAddr(sc, lv, m), AddrType(sc.rule, sc.env, lv), TypeOf(sc.rule, sc.env, e))
    case (Some(ra), Some(t), Some(u)) =>
      if ra.val !in ra.mem then None
      else
        var before := ra.mem[ra.val];
        (match Eval(sc, e, ra.mem)
         case None => None
         case Some(re) =>
           match BinSem(sc.rule, sc.env, op, t, Decay(u), before, re.val)
           case None => None
           case Some(v) =>
             if ra.val in re.mem then Some(Res(if post then before else v, re.mem[ra.val := v])) else None)
    case _ => None
  }

  predicate IsLvalue(e: Expr) { e.Var? || e.Deref? || e.Index? || e.Member? }

  lemma LoadOf(sc: Scope, lv: Expr, m: SMem)
    requires Pure(lv) && IsLvalue(lv) && AddrType(sc.rule, sc.env, lv).Some? && Scalar(AddrType(sc.rule, sc.env, lv).value)
    ensures TypeOf(sc.rule, sc.env, lv) == AddrType(sc.rule, sc.env, lv)
    ensures match EvalAddr(sc, lv, m)
            case Some(ra) => ra.mem == m && Eval(sc, lv, m) == Load(m, ra.val)
            case None => Eval(sc, lv, m) == None
  {
    PureKeeps(sc, lv);
  }

  /** `lv op= e` computes the address twice; without an assignment in `lv` that
      cannot be told from once. */
  lemma OpAssignMeans(sc: Scope, lv: Expr, op: BinOp, e: Expr, m: SMem)
    requires Pure(lv) && !IsLogic(op) && TypeOf(sc.rule, sc.env, OpAssign(lv, op, e)).Some?
    ensures Eval(sc, OpAssign(lv, op, e), m) == Update(sc, lv, op, e, false, m)
  {
    hide Pure, BinSem, Size, EvalAddr, AddrType, BinType;
    assert AddrType(sc.rule, sc.env, lv).Some? ==> IsLvalue(lv) by { LvalueOnly(sc, lv); }
    LoadOf(sc, lv, m);
    var t := AddrType(sc.rule, sc.env, lv).value;
    assert Decay(t) == t;
    AssignEval(sc, lv, Bin(op, lv, e), m);
    BinEval(sc, op, lv, e, m);
  }

  lemma LvalueOnly(sc: Scope, lv: Expr)
    ensures AddrType(sc.rule, sc.env, lv).Some? ==> IsLvalue(lv)
  {
  }

  lemma AssignEval(sc: Scope, l: Expr, r: Expr, m: SMem)
    ensures Eval(sc, Assign(l, r), m) ==
      match EvalAddr(sc, l, m)
       case Some(ra) =>
         (match Eval(sc, r, ra.mem)
          case Some(rv) => (if ra.val in rv.mem then Some(Res(rv.val, rv.mem[ra.val := rv.val])) else None)
          case None => None)
       case None => None
  {
  }

  lemma BinEval(sc: Scope, op: BinOp, l: Expr, r: Expr, m: SMem)
    requires !IsLogic(op)
    ensures Eval(sc, Bin(op, l, r), m) ==
      match Eval(sc, l, m)
      case None => None
      case Some(ra) =>
        match (Eval(sc, r, ra.mem), TypeOf(sc.rule, sc.env, l), TypeOf(sc.rule, sc.env, r))
        case (Some(rb), Some(lt), Some(rt)) =>
          (match BinSem(sc.rule, sc.env, op, Decay(lt), Decay(rt), ra.val, rb.val)
           case Some(v) => Some(Res(v, rb.mem))
           case None => None)
        case _ => None
  {
    hide BinSem;
  }

  /** One step back undoes one step. */
  lemma StepBack(rule: Rule, env: Env, op: BinOp, t: Ty, a: Word)
    requires (op.Add? || op.Sub?) && Scalar(t)
    ensures var v := BinSem(rule, env, op, t, TInt, a, 1);
            v.Some? && BinSem(rule, env, if op.Add? then Sub else Add, t, TInt, v.value, 1) == Some(a)
  {
    hide Size, ArithSem, Wrap, Signed, Scale;
    if t.TPtr? {
      StepWord(a, Scale(Size(env, t.base)));
      WrapWord(a);
    } else {
      StepArith(op, IsUnsigned(rule, op, t, TInt), a);
    }
  }

  lemma WrapWord(a: Word)
    ensures Wrap(a) == a
  {
  }

  lemma StepArith(op: BinOp, u: bool, a: Word)
    requires op.Add? || op.Sub?
    ensures var v := ArithSem(op, u, a, 1);
            v.Some? && ArithSem(if op.Add? then Sub else Add, u, v.value, 1) == Some(a)
  {
    WrapSigned(a);
    StepWord(if u then a else Signed(a), 1);
  }

  lemma StepWord(x: int, s: int)
    ensures Wrap(Signed(Wrap(x + s)) - s) == Wrap(x) && Wrap(Signed(Wrap(x - s)) + s) == Wrap(x)
    ensures Wrap(Wrap(x + s) - s) == Wrap(x) && Wrap(Wrap(x - s) + s) == Wrap(x)
  {
    SignedShift(x + s, -s);
    SignedShift(x - s, s);
    WrapAdd(x + s, -s);
    WrapAdd(x - s, s);
  }

  lemma SignedShift(x: int, y: int)
    ensures Wrap(Signed(Wrap(x)) + y) == Wrap(x + y)
  {
    var w := Wrap(x);
    WrapAdd(x, y);
    var i := if w < TWO31 then 0 else 1;
    assert Signed(w) == w - i * TWO32;
    WrapShift(w + y, -i);
  }

  /** `lv++` and `lv--` yield the value before the update. */
  lemma PostStepMeans(sc: Scope, lv: Expr, op: BinOp, m: SMem)
    requires Pure(lv) && (op.Add? || op.Sub?) && TypeOf(sc.rule, sc.env, PreStep(lv, op)).Some?
    ensures Eval(sc, PreStep(lv, op), m) == Update(sc, lv, op, Num(1, false), false, m)
    ensures Eval(sc, PostStep(lv, op), m) == Update(sc, lv, op, Num(1, false), true, m)
  {
    hide Pure, BinSem, Size, EvalAddr, AddrType, BinType;
    OpAssignMeans(sc, lv, op, Num(1, false), m);
    BinEval(sc, if op.Add? then Sub else Add, PreStep(lv, op), Num(1, false), m);
    var t := AddrType(sc.rule, sc.env, lv).value;
    assert Scalar(t) && TypeOf(sc.rule, sc.env, PreStep(lv, op)) == Some(t);
    match EvalAddr(sc, lv, m)
    case None =>
    case Some(ra) =>
      if ra.val in ra.mem { StepBack(sc.rule, sc.env, op, t, ra.mem[ra.val]); }
  }

  /** `++p` where `p` holds a small address. */
  lemma BumpPointer(sc: Scope, m: SMem)
    requires sc.env == Env([Sym("p", TPtr(TInt), Local(-4))], [], []) && sc.frame >= 4
    requires var a := sc.frame - 4; a in m && m[a] < 200
    ensures var a := sc.frame - 4; Eval(sc, PreStep(Var("p"), Add), m) == Some(Res(m[a] + 4, m[a := m[a] + 4]))
    ensures TypeOf(sc.rule, sc.env, PreStep(Var("p"), Add)) == Some(TPtr(TInt))
  {
    hide FieldOf, ArithSem, InferType;
    var p := Var("p");
    assert Lookup(sc.env, "p") == Some(Sym("p", TPtr(TInt), Local(-4)));
    assert Eval(sc, p, m) == Some(Res(m[sc.frame - 4], m)) && TypeOf(sc.rule, sc.env, p) == Some(TPtr(TInt));
    assert EvalAddr(sc, p, m) == Some(Res(sc.frame - 4, m)) && AddrType(sc.rule, sc.env, p) == Some(TPtr(TInt));
    AssignEval(sc, p, Bin(Add, p, Num(1, false)), m);
    BinEval(sc, Add, p, Num(1, false), m);
    NumEval(sc, 1, m);
  }

  /** `(*++p)++` moves `p` twice. */
  lemma StepTwice(sc: Scope, m: SMem)
    requires sc.env == Env([Sym("p", TPtr(TInt), Local(-4))], [], []) && sc.frame - 4 > 108
    requires m == map[sc.frame - 4 := 100, 104 := 7, 108 := 9]
    ensures var lv, a := Deref(PreStep(Var("p"), Add)), sc.frame - 4;
            && !Pure(lv)
            && Eval(sc, PreStep(lv, Add), m) == Some(Res(10, m[a := 104][a := 108][104 := 10]))
            && Update(sc, lv, Add, Num(1, false), false, m) == Some(Res(8, m[a := 104][104 := 8]))
  {
    hide Eval, EvalAddr, TypeOf, AddrType, InferType, Size, FieldOf, Lookup, WBits;
    var pp := PreStep(Var("p"), Add);
    var lv := Deref(pp);
    var a: Word := sc.frame - 4;
    assert Parts(lv)[0] == pp;
    hide Pure;
    BumpPointer(sc, m);
    BumpPointer(sc, m[a := 104]);
    StepTwiceParts(sc, pp, m, m[a := 104], m[a := 104][a := 108]);
    AssignEval(sc, lv, Bin(Add, lv, Num(1, false)), m);
    BinEval(sc, Add, lv, Num(1, false), m[a := 104]);
    NumEval(sc, 1, m[a := 104]);
    NumEval(sc, 1, m[a := 104][a := 108]);
  }

  lemma StepTwiceParts(sc: Scope, pp: Expr, m: SMem, m1: SMem, m2: SMem)
    requires TypeOf(sc.rule, sc.env, pp) == Some(TPtr(TInt))
    requires Eval(sc, pp, m) == Some(Res(104, m1)) && Eval(sc, pp, m1) == Some(Res(108, m2))
    requires 104 in m1 && 108 in m2
    ensures var lv := Deref(pp);
            && AddrType(sc.rule, sc.env, lv) == Some(TInt) && TypeOf(sc.rule, sc.env, lv) == Some(TInt)
            && EvalAddr(sc, lv, m) == Some(Res(104, m1)) && Eval(sc, lv, m1) == Some(Res(m2[108], m2))
  {
    hide InferType, Size, FieldOf;
    assert EvalAddr(sc, Deref(pp), m1) == Some(Res(108, m2));
  }
}
