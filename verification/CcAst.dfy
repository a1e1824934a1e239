/** Syntax and typing of the C fragment the compiler is proved on: 32-bit scalars,
    pointers, arrays and records reached through members.

    `Rule` chooses between the compiler's own typing decisions and those of
    ISO C11; the two differ at unsigned constants, at the conditional operator, at
    shifts and at a literal zero divisor.  Where an expression breaks a constraint
    of the standard (a product of pointers, say) the C11 rule follows the compiler.
 */
module CcAst {
  import opened Options
  import opened Word32

  datatype Ty = TInt | TUInt | TVoid | TChar | TPtr(base: Ty) | TArray(base: Ty, len: nat) | TRec(tag: nat)

  datatype Field = Field(name: string, offset: nat, ty: Ty)
  datatype Record = Record(size: nat, fields: seq<Field>)

  /** Where a symbol lives: `offset` bytes from ebp, or at a link-time address. */
  datatype Place = Local(offset: int) | Global(addr: Word)
  datatype Sym = Sym(name: string, ty: Ty, place: Place)
  datatype Env = Env(locals: seq<Sym>, globals: seq<Sym>, records: seq<Record>)

  datatype UnOp = Neg | LogNot | BitNot
  datatype BinOp = Add | Sub | Mul | Div | Mod | Shl | Shr | BitAnd | BitOr | BitXor
                 | Lt | Le | Gt | Ge | Eq | Ne | LogAnd | LogOr

  /** `uns`: C gives the constant an unsigned type, be it for its suffix, for a
      hexadecimal value of 2^31 or more, or because it stands for a `sizeof`.  The
      compiler keeps only the value. */
  datatype Expr =
    | Num(v: Word, uns: bool)
    | Var(name: string)
    | AddrOf(lv: Expr)
    | Deref(ptr: Expr)
    | Index(arr: Expr, idx: Expr)
    | Member(rec: Expr, field: string, arrow: bool)
    | Assign(dst: Expr, src: Expr)
    | Tern(cond: Expr, thn: Expr, els: Expr)
    | Un(uop: UnOp, arg: Expr)
    | Bin(bop: BinOp, lhs: Expr, rhs: Expr)

  datatype Rule = Cc | C11

  // ----- lookup -----

  /** The innermost declaration wins: the search runs backwards. */
  function FindLast(ss: seq<Sym>, name: string): Option<Sym> {
    if ss == [] then None
    else if ss[|ss| - 1].name == name then Some(ss[|ss| - 1])
    else FindLast(ss[..|ss| - 1], name)
  }

  function FindFirst(ss: seq<Sym>, name: string): Option<Sym> {
    if ss == [] then None
    else if ss[0].name == name then Some(ss[0])
    else FindFirst(ss[1..], name)
  }

  function Lookup(env: Env, name: string): Option<Sym> {
    match FindLast(env.locals, name)
    case Some(s) => Some(s)
    case None => FindFirst(env.globals, name)
  }

  function FindField(fs: seq<Field>, name: string): Option<Field> {
    if fs == [] then None
    else if fs[0].name == name then Some(fs[0])
    else FindField(fs[1..], name)
  }

  // ----- types -----

  function Size(env: Env, t: Ty): nat {
    match t
    case TInt | TUInt | TPtr(_) => 4
    case TVoid => 0
    case TChar => 1
    case TArray(b, n) => Size(env, b) * n
    case TRec(tag) => if tag < |env.records| then env.records[tag].size else 0
  }

  /** Types whose values are one 32-bit word. */
  predicate Scalar(t: Ty) { t.TInt? || t.TUInt? || t.TPtr? }

  function Decay(t: Ty): Ty { if t.TArray? then TPtr(t.base) else t }

  /** `ternary_common_type`. */
  function CommonType(a: Ty, b: Ty): Ty {
    var ta, tb := Decay(a), Decay(b);
    if ta.TPtr? && tb.TPtr? then ta
    else if ta.TUInt? || tb.TUInt? then TUInt
    else TInt
  }

  function FieldOf(env: Env, t: Ty, name: string): Option<Field> {
    if t.TRec? && t.tag < |env.records| then FindField(env.records[t.tag].fields, name) else None
  }

  /** `infer_type`: the guess used only for the two arms of `?:`.  A binary,
      unary or assignment node is judged by its left operand alone, and a
      pointer there counts as `int`.  None is the compiler giving up. */
  function InferType(env: Env, e: Expr): Option<Ty> {
    match e
    case Num(_, _) => Some(TInt)
    case Var(x) => (match Lookup(env, x) case Some(s) => Some(s.ty) case None => None)
    case AddrOf(x) => (match InferType(env, x) case Some(t) => Some(TPtr(t)) case None => None)
    case Deref(x) =>
      (match InferType(env, x) case Some(t) => (if t.TPtr? then Some(t.base) else None) case None => None)
    case Index(a, _) =>
      (match InferType(env, a)
       case Some(t) => (if Decay(t).TPtr? then Some(Decay(t).base) else None)
       case None => None)
    case Member(r, f, _) =>
      (match InferType(env, r)
       case Some(t) =>
         (match FieldOf(env, if t.TPtr? then t.base else t, f) case Some(fd) => Some(fd.ty) case None => None)
       case None => None)
    case Assign(l, _) => InferLeft(InferType(env, l))
    case Un(_, a) => InferLeft(InferType(env, a))
    case Bin(_, l, _) => InferLeft(InferType(env, l))
    case Tern(_, t, f) =>
      (match (InferType(env, t), InferType(env, f))
       case (Some(a), Some(b)) => Some(CommonType(a, b))
       case _ => None)
  }

  function InferLeft(t: Option<Ty>): Option<Ty> {
    match t case Some(u) => Some(if u.TUInt? then TUInt else TInt) case None => None
  }

  predicate IsCmp(op: BinOp) { op.Lt? || op.Le? || op.Gt? || op.Ge? || op.Eq? || op.Ne? }
  predicate IsBitLike(op: BinOp) { op.BitAnd? || op.BitOr? || op.BitXor? || op.Shl? || op.Shr? || op.Mod? }
  predicate IsShift(op: BinOp) { op.Shl? || op.Shr? }
  predicate IsLogic(op: BinOp) { op.LogAnd? || op.LogOr? }

  // ----- arithmetic on words -----

  function Truth(b: bool): Word { if b then 1 else 0 }

  /** The integer a word stands for in an operation of the given signedness. */
  function Val(u: bool, w: Word): int { if u then w else Signed(w) }

  function UnSem(op: UnOp, a: Word): Word {
    match op
    case Neg => Wrap(-Signed(a))
    case LogNot => Truth(a == 0)
    case BitNot => Wrap(-Signed(a) - 1)
  }

  predicate Compare(op: BinOp, x: int, y: int)
    requires IsCmp(op)
  {
    match op
    case Lt => x < y
    case Le => x <= y
    case Gt => x > y
    case Ge => x >= y
    case Eq => x == y
    case Ne => x != y
  }

  /** Quotient and remainder are defined together: a remainder whose quotient
      overflows is undefined too (section 6.5.5 of ISO C11). */
  predicate Divides(u: bool, a: Word, b: Word) {
    b != 0 && (u || TruncDiv(Signed(a), Signed(b)) < TWO31)
  }

  /** Arithmetic on integers of the given signedness. */
  function ArithSem(op: BinOp, u: bool, a: Word, b: Word): Option<Word>
    requires !IsLogic(op)
  {
    var x, y := Val(u, a), Val(u, b);
    match op
    case Add => Some(Wrap(x + y))
    case Sub => Some(Wrap(x - y))
    case Mul => Some(Wrap(x * y))
    case Div => if Divides(u, a, b) then Some(Wrap(TruncDiv(x, y))) else None
    case Mod => if Divides(u, a, b) then Some(Wrap(TruncMod(x, y))) else None
    case Shl => if b < 32 then Some(Wrap(x * Pow2(b))) else None
    case Shr => if b < 32 then Some(Wrap(x / Pow2(b))) else None
    case BitAnd => Some(WBits(BAnd, a, b))
    case BitOr => Some(WBits(BOr, a, b))
    case BitXor => Some(WBits(BXor, a, b))
    case Lt | Le | Gt | Ge | Eq | Ne => Some(Truth(Compare(op, x, y)))
    case LogAnd | LogOr => None
  }

  // ----- constants -----

  /** Built from constants alone. */
  predicate ConstForm(e: Expr) {
    match e
    case Num(_, _) => true
    case Un(_, a) => ConstForm(a)
    case Bin(_, l, r) => ConstForm(l) && ConstForm(r)
    case Tern(c, t, f) => ConstForm(c) && ConstForm(t) && ConstForm(f)
    case _ => false
  }

  /** Is a constant expression of unsigned type? */
  predicate ConstUns(e: Expr) {
    match e
    case Num(_, u) => u
    case Un(op, a) => !op.LogNot? && ConstUns(a)
    case Bin(op, l, r) => !IsLogic(op) && !IsCmp(op) && (ConstUns(l) || (!IsShift(op) && ConstUns(r)))
    case Tern(_, t, f) => ConstUns(t) || ConstUns(f)
    case _ => false
  }

  function ConstVal(e: Expr): Option<Word> {
    match e
    case Num(v, _) => Some(v)
    case Un(op, a) => (match ConstVal(a) case Some(x) => Some(UnSem(op, x)) case None => None)
    case Tern(c, t, f) =>
      (match ConstVal(c) case Some(x) => (if x != 0 then ConstVal(t) else ConstVal(f)) case None => None)
    case Bin(op, l, r) =>
      (match ConstVal(l)
       case None => None
       case Some(x) =>
         if op.LogAnd? && x == 0 then Some(0)
         else if op.LogOr? && x != 0 then Some(1)
         else match ConstVal(r)
           case None => None
           case Some(y) =>
             if IsLogic(op) then Some(Truth(y != 0))
             else ArithSem(op, ConstUns(l) || (!IsShift(op) && ConstUns(r)), x, y))
    case _ => None
  }

  /** A null pointer constant: an integer constant expression of value 0 (section
      6.3.2.3 of ISO C11). */
  predicate IsNull(e: Expr) { ConstForm(e) && ConstVal(e) == Some(0) }

  /** The type of `?:` (section 6.5.15 of ISO C11); None where its constraints are
      broken. */
  function CondType(t: Expr, f: Expr, tt: Ty, tf: Ty): Option<Ty> {
    var ta, tb := Decay(tt), Decay(tf);
    if ta.TPtr? && tb.TPtr? then
      if ta == tb then Some(ta)
      else if ta.base.TVoid? || tb.base.TVoid? then Some(TPtr(TVoid))
      else None
    else if ta.TPtr? then (if IsNull(f) then Some(ta) else None)
    else if tb.TPtr? then (if IsNull(t) then Some(tb) else None)
    else Some(if ta.TUInt? || tb.TUInt? then TUInt else TInt)
  }

  /** Does the operator work on unsigned readings?  C11 (section 6.5.7) types a
      shift by its left operand; the compiler looks at both. */
  predicate IsUnsigned(rule: Rule, op: BinOp, lt: Ty, rt: Ty) {
    if rule.C11? && IsShift(op) then lt.TUInt?
    else lt.TUInt? || rt.TUInt? || lt.TPtr? || rt.TPtr?
  }

  /** Result type of a non-logical binary operator on decayed operand types. */
  function BinType(rule: Rule, op: BinOp, lt: Ty, rt: Ty): Option<Ty>
    requires !IsLogic(op)
  {
    var arith := if IsUnsigned(rule, op, lt, rt) then TUInt else TInt;
    if IsBitLike(op) then (if lt.TPtr? || rt.TPtr? then None else Some(arith))
    else if IsCmp(op) then Some(TInt)
    else if (op.Add? || op.Sub?) && lt.TPtr? && !rt.TPtr? then Some(lt)
    else if op.Add? && rt.TPtr? && !lt.TPtr? then Some(rt)
    else if op.Sub? && lt.TPtr? && rt.TPtr? then Some(TInt)
    else Some(arith)
  }

  /** Type of the value an lvalue of type `t` yields: its word, or its address
      when `t` is an array.  Record values are outside the fragment. */
  function LoadType(t: Ty, keepArray: bool): Option<Ty> {
    if t.TArray? then Some(if keepArray then t else TPtr(t.base))
    else if Scalar(t) then Some(t)
    else None
  }

  /** Type returned by `gen_addr`. */
  function AddrType(rule: Rule, env: Env, e: Expr): Option<Ty>
    decreases e, 0
  {
    match e
    case Var(x) => (match Lookup(env, x) case Some(s) => Some(s.ty) case None => None)
    case Deref(p) => PtrBase(TypeOf(rule, env, p))
    case Index(a, i) =>
      (match TypeOf(rule, env, i) case Some(_) => PtrBase(TypeOf(rule, env, a)) case None => None)
    case Member(r, f, arrow) =>
      (match if arrow then PtrBase(TypeOf(rule, env, r)) else AddrType(rule, env, r)
       case Some(t) => (match FieldOf(env, t, f) case Some(fd) => Some(fd.ty) case None => None)
       case None => None)
    case _ => None
  }

  function PtrBase(t: Option<Ty>): Option<Ty> {
    match t
    case Some(u) => (if Decay(u).TPtr? then Some(Decay(u).base) else None)
    case None => None
  }

  /** Type returned by `gen_expr`; None where the compiler stops with an error
      or the expression is outside the fragment. */
  function TypeOf(rule: Rule, env: Env, e: Expr): (t: Option<Ty>)
    ensures t.Some? ==> Scalar(Decay(t.value))
    decreases e, 1
  {
    match e
    case Num(_, u) => Some(if rule.C11? && u then TUInt else TInt)
    case Var(_) | Index(_, _) | Member(_, _, _) =>
      (match AddrType(rule, env, e) case Some(t) => LoadType(t, false) case None => None)
    case Deref(_) =>
      (match AddrType(rule, env, e) case Some(t) => LoadType(t, true) case None => None)
    case AddrOf(x) => (match AddrType(rule, env, x) case Some(t) => Some(TPtr(t)) case None => None)
    case Assign(l, r) =>
      (match (AddrType(rule, env, l), TypeOf(rule, env, r))
       case (Some(t), Some(_)) => (if Scalar(t) then Some(t) else None)
       case _ => None)
    case Tern(c, t, f) =>
      (match (TypeOf(rule, env, c), TypeOf(rule, env, t), TypeOf(rule, env, f))
       case (Some(_), Some(tt), Some(tf)) =>
         (if rule.C11? then CondType(t, f, tt, tf)
          else match (InferType(env, t), InferType(env, f))
            case (Some(it), Some(jt)) => (if it.TRec? || jt.TRec? then None else Some(CommonType(it, jt)))
            case _ => None)
       case _ => None)
    case Un(op, a) =>
      (match TypeOf(rule, env, a)
       case Some(t) => Some(if !op.LogNot? && t.TUInt? then TUInt else TInt)
       case None => None)
    case Bin(op, l, r) =>
      (match (TypeOf(rule, env, l), TypeOf(rule, env, r))
       case (Some(lt), Some(rt)) =>
         (if IsLogic(op) then Some(TInt)
          else if rule.Cc? && (op.Div? || op.Mod?) && r.Num? && r.v == 0 then None
          else BinType(rule, op, Decay(lt), Decay(rt)))
       case _ => None)
  }

  // ----- the parser's desugaring of ++, -- and op= -----

  /** `node_step`: ++lv and --lv. */
  function PreStep(lv: Expr, op: BinOp): Expr { Assign(lv, Bin(op, lv, Num(1, false))) }
  function PostStep(lv: Expr, op: BinOp): Expr
    requires op.Add? || op.Sub?
  {
    Bin(if op.Add? then Sub else Add, PreStep(lv, op), Num(1, false))
  }
  function OpAssign(lv: Expr, op: BinOp, e: Expr): Expr { Assign(lv, Bin(op, lv, e)) }
}
