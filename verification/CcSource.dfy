/** Meaning of expressions, independent of any machine.

    Memory is a finite map from word addresses to words: the objects of the
    program.  An access outside it, a zero divisor, an overflowing quotient and
    a shift count of 32 or more are undefined behaviour and give None.
 */
module CcSource {
  import opened Options
  import opened Word32
  import opened CcAst

  type SMem = map<Word, Word>

  /** `frame` is the address ebp holds while the function runs. */
  datatype Scope = Scope(rule: Rule, env: Env, frame: Word)

  datatype Res = Res(val: Word, mem: SMem)

  function AddrOfSym(frame: Word, s: Sym): Word {
    match s.place case Local(o) => Wrap(frame + o) case Global(a) => a
  }

  /** Pointer arithmetic moves by whole elements of `size` bytes; an element of
      size 0 or 1 leaves the count as it is. */
  function Scale(size: nat): nat { if size > 1 then size else 1 }

  /** Binary operators on decayed operand types, logical ones excepted. */
  function BinSem(rule: Rule, env: Env, op: BinOp, lt: Ty, rt: Ty, a: Word, b: Word): Option<Word>
    requires !IsLogic(op)
  {
    if (op.Add? || op.Sub?) && lt.TPtr? && !rt.TPtr? then
      var d := b * Scale(Size(env, lt.base));
      Some(Wrap(if op.Add? then a + d else a - d))
    else if op.Add? && rt.TPtr? && !lt.TPtr? then
      Some(Wrap(a * Scale(Size(env, rt.base)) + b))
    else if op.Sub? && lt.TPtr? && rt.TPtr? then
      var size := Wrap(Size(env, lt.base));
      var d := Wrap(a - b);
      if Size(env, lt.base) <= 1 then Some(d)
      else if Divides(false, d, size) then Some(Wrap(TruncDiv(Signed(d), Signed(size))))
      else None
    else ArithSem(op, IsUnsigned(rule, op, lt, rt), a, b)
  }

  function Load(m: SMem, a: Word): Option<Res> {
    if a in m then Some(Res(m[a], m)) else None
  }

  /** The address an lvalue designates, and memory after computing it. */
  function EvalAddr(sc: Scope, e: Expr, m: SMem): Option<Res>
    decreases e, 0
  {
    match e
    case Var(x) =>
      (match Lookup(sc.env, x) case Some(s) => Some(Res(AddrOfSym(sc.frame, s), m)) case None => None)
    case Deref(p) => Eval(sc, p, m)
    case Index(a, i) =>
      (match (Eval(sc, a, m), AddrType(sc.rule, sc.env, e))
       case (Some(ra), Some(t)) =>
         (match Eval(sc, i, ra.mem)
          case Some(ri) => Some(Res(Wrap(ra.val + ri.val * Scale(Size(sc.env, t))), ri.mem))
          case None => None)
       case _ => None)
    case Member(r, f, arrow) =>
      (match (if arrow then Eval(sc, r, m) else EvalAddr(sc, r, m), MemberOffset(sc, r, f, arrow))
       case (Some(ra), Some(o)) => Some(Res(Wrap(ra.val + o), ra.mem))
       case _ => None)
    case _ => None
  }

  function MemberOffset(sc: Scope, r: Expr, f: string, arrow: bool): Option<nat> {
    match if arrow then PtrBase(TypeOf(sc.rule, sc.env, r)) else AddrType(sc.rule, sc.env, r)
    case Some(t) => (match FieldOf(sc.env, t, f) case Some(fd) => Some(fd.offset) case None => None)
    case None => None
  }

  /** Value of an expression and memory after it; operands left to right, the
      right operand of && and || and the unchosen arm of ?: not at all. */
  function Eval(sc: Scope, e: Expr, m: SMem): Option<Res>
    decreases e, 1
  {
    match e
    case Num(v, _) => Some(Res(v, m))
    case Var(_) | Deref(_) | Index(_, _) | Member(_, _, _) =>
      (match (EvalAddr(sc, e, m), AddrType(sc.rule, sc.env, e))
       case (Some(ra), Some(t)) => (if t.TArray? then Some(ra) else Load(ra.mem, ra.val))
       case _ => None)
    case AddrOf(x) => EvalAddr(sc, x, m)
    case Assign(l, r) =>
      (match EvalAddr(sc, l, m)
       case Some(ra) =>
         (match Eval(sc, r, ra.mem)
          case Some(rv) => (if ra.val in rv.mem then Some(Res(rv.val, rv.mem[ra.val := rv.val])) else None)
          case None => None)
       case None => None)
    case Tern(c, t, f) =>
      (match Eval(sc, c, m)
       case Some(rc) => if rc.val != 0 then Eval(sc, t, rc.mem) else Eval(sc, f, rc.mem)
       case None => None)
    case Un(op, a) =>
      (match Eval(sc, a, m) case Some(ra) => Some(Res(UnSem(op, ra.val), ra.mem)) case None => None)
    case Bin(op, l, r) =>
      (match Eval(sc, l, m)
       case Some(ra) =>
         if op.LogAnd? && ra.val == 0 then Some(Res(0, ra.mem))
         else if op.LogOr? && ra.val != 0 then Some(Res(1, ra.mem))
         else
           (match (Eval(sc, r, ra.mem), TypeOf(sc.rule, sc.env, l), TypeOf(sc.rule, sc.env, r))
            case (Some(rb), Some(lt), Some(rt)) =>
              (if IsLogic(op) then Some(Res(Truth(rb.val != 0), rb.mem))
               else match BinSem(sc.rule, sc.env, op, Decay(lt), Decay(rt), ra.val, rb.val)
                 case Some(v) => Some(Res(v, rb.mem))
                 case None => None)
            case _ => None)
       case None => None)
  }
}
