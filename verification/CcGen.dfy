/** What the code generator appends, as a function of the tree and of the next
    free label: `gen_expr`, `gen_addr`, `gen_logical` and `gen_cond`.
 */
module CcGen {
  import opened Options
  import opened Word32
  import opened CcAst
  import opened X86

  datatype Out = Out(code: seq<Item>, next: nat)

  function Code(ins: seq<Instr>): (c: seq<Item>)
    ensures |c| == |ins|
    ensures forall k :: 0 <= k < |ins| ==> c[k] == I(ins[k])
  {
    seq(|ins|, k requires 0 <= k < |ins| => I(ins[k]))
  }

  function LoadAddr(s: Sym): seq<Instr> {
    match s.place
    case Local(o) => [LeaEaxEbp(Wrap(o)), PushEax]
    case Global(a) => [MovEaxGlob(a), PushEax]
  }

  const LoadFrom: seq<Instr> := [PopEax, LoadEaxEax, PushEax]
  const StoreTo: seq<Instr> := [PopEax, PopEbx, StoreEbxEax, PushEax]
  const TestTop: seq<Instr> := [PopEax, CmpEaxZero]

  function UnTail(op: UnOp): seq<Instr> {
    match op
    case Neg => [PopEax, NegEax, PushEax]
    case LogNot => [PopEax, CmpEaxZero, SetAl(CE), MovzxEaxAl, PushEax]
    case BitNot => [PopEax, NotEax, PushEax]
  }

  function CmpCond(op: BinOp, u: bool): Cond
    requires IsCmp(op)
  {
    match op
    case Lt => if u then CB else CL
    case Le => if u then CBE else CLE
    case Gt => if u then CA else CG
    case Ge => if u then CAE else CGE
    case Eq => CE
    case Ne => CNE
  }

  /** The instructions between the two pops and the final push. */
  function ArithCore(op: BinOp, u: bool): seq<Instr>
    requires !IsLogic(op)
  {
    match op
    case Add => [AluEaxEbx(AAdd)]
    case Sub => [AluEaxEbx(ASub)]
    case Mul => [ImulEaxEbx]
    case Div => if u then [XorEdxEdx, DivEbx] else [Cdq, IdivEbx]
    case Mod => if u then [XorEdxEdx, DivEbx, MovEaxEdx] else [Cdq, IdivEbx, MovEaxEdx]
    case Shl => [MovEcxEbx, ShlEaxCl]
    case Shr => if u then [MovEcxEbx, ShrEaxCl] else [MovEcxEbx, SarEaxCl]
    case BitAnd => [AluEaxEbx(AAnd)]
    case BitOr => [AluEaxEbx(AOr)]
    case BitXor => [AluEaxEbx(AXor)]
    case Lt | Le | Gt | Ge | Eq | Ne => [CmpEaxEbx, SetAl(CmpCond(op, u)), MovzxEaxAl]
    case LogAnd | LogOr => []
  }

  /** `pop eax; imul eax, eax, size; push eax` when the element is wider than a byte. */
  function ScaleTop(size: nat): seq<Instr> {
    if size > 1 then [PopEax, ImulEaxImm(Wrap(size)), PushEax] else []
  }

  const PopTwo: seq<Instr> := [PopEbx, PopEax]

  /** Everything after both operands of a non-logical operator are pushed. */
  function BinTail(env: Env, op: BinOp, lt: Ty, rt: Ty): seq<Instr>
    requires !IsLogic(op)
  {
    if (op.Add? || op.Sub?) && lt.TPtr? && !rt.TPtr? then
      ScaleTop(Size(env, lt.base)) + PopTwo + [AluEaxEbx(if op.Add? then AAdd else ASub), PushEax]
    else if op.Add? && rt.TPtr? && !lt.TPtr? then
      var size := Size(env, rt.base);
      PopTwo + (if size > 1 then [ImulEaxImm(Wrap(size))] else []) + [AluEaxEbx(AAdd), PushEax]
    else if op.Sub? && lt.TPtr? && rt.TPtr? then
      var size := Size(env, lt.base);
      PopTwo + [AluEaxEbx(ASub)] + (if size > 1 then [MovEcxImm(Wrap(size)), Cdq, IdivEcx] else []) + [PushEax]
    else
      PopTwo + ArithCore(op, IsUnsigned(Cc, op, lt, rt)) + [PushEax]
  }

  /** `gen_addr`'s indexing and member tails. */
  function IndexTail(size: nat): seq<Instr> {
    ScaleTop(size) + PopTwo + [AluEaxEbx(AAdd), PushEax]
  }

  function MemberTail(offset: nat): seq<Instr> {
    [PopEax] + (if offset != 0 then [AddEaxImm(Wrap(offset))] else []) + [PushEax]
  }

  function OffsetOf(env: Env, r: Expr, f: string, arrow: bool): nat {
    match if arrow then PtrBase(TypeOf(Cc, env, r)) else AddrType(Cc, env, r)
    case Some(t) => (match FieldOf(env, t, f) case Some(fd) => fd.offset case None => 0)
    case None => 0
  }

  /** Element or object type of an lvalue; `int` where the compiler has stopped. */
  function LvalueType(env: Env, e: Expr): Ty {
    match AddrType(Cc, env, e) case Some(t) => t case None => TInt
  }

  function ValueType(env: Env, e: Expr): Ty {
    match TypeOf(Cc, env, e) case Some(t) => Decay(t) case None => TInt
  }

  predicate IsLogicExpr(e: Expr) { e.Bin? && IsLogic(e.bop) }

  function GenAddr(env: Env, e: Expr, n: nat): (o: Out)
    ensures o.next >= n
    decreases e, 0
  {
    match e
    case Var(x) =>
      Out(match Lookup(env, x) case Some(s) => Code(LoadAddr(s)) case None => [], n)
    case Deref(p) => GenExpr(env, p, n)
    case Index(a, i) =>
      var oa := GenExpr(env, a, n);
      var oi := GenExpr(env, i, oa.next);
      Out(oa.code + oi.code + Code(IndexTail(Size(env, LvalueType(env, e)))), oi.next)
    case Member(r, f, arrow) =>
      var o := if arrow then GenExpr(env, r, n) else GenAddr(env, r, n);
      Out(o.code + Code(MemberTail(OffsetOf(env, r, f, arrow))), o.next)
    case _ => Out([], n)
  }

  function GenExpr(env: Env, e: Expr, n: nat): (o: Out)
    ensures o.next >= n
    decreases e, if IsLogicExpr(e) then 3 else 1
  {
    match e
    case Num(v, _) => Out([I(PushImm(v))], n)
    case Var(_) | Deref(_) | Index(_, _) | Member(_, _, _) =>
      var o := GenAddr(env, e, n);
      if LvalueType(env, e).TArray? then o else Out(o.code + Code(LoadFrom), o.next)
    case AddrOf(x) => GenAddr(env, x, n)
    case Assign(l, r) =>
      var ol := GenAddr(env, l, n);
      var or := GenExpr(env, r, ol.next);
      Out(ol.code + or.code + Code(StoreTo), or.next)
    case Tern(c, t, f) =>
      var lFalse, lEnd := n, n + 1;
      var oc := GenCond(env, c, lFalse, n + 2);
      var ot := GenExpr(env, t, oc.next);
      var of := GenExpr(env, f, ot.next);
      Out(oc.code + ot.code + [Jmp(lEnd), Lab(lFalse)] + of.code + [Lab(lEnd)], of.next)
    case Un(op, a) =>
      var o := GenExpr(env, a, n);
      Out(o.code + Code(UnTail(op)), o.next)
    case Bin(op, l, r) =>
      if IsLogic(op) then
        var lTrue, lFalse := n, n + 1;
        var o := GenLogical(env, e, lTrue, lFalse, n + 2);
        var lEnd := o.next;
        Out(o.code + [Lab(lTrue), I(PushImm(1)), Jmp(lEnd), Lab(lFalse), I(PushImm(0)), Lab(lEnd)], lEnd + 1)
      else
        var ol := GenExpr(env, l, n);
        var or := GenExpr(env, r, ol.next);
        Out(ol.code + or.code + Code(BinTail(env, op, ValueType(env, l), ValueType(env, r))), or.next)
  }

  /** Jumps to `lt` when `e` is true and to `lf` when it is false. */
  function GenLogical(env: Env, e: Expr, lt: nat, lf: nat, n: nat): (o: Out)
    ensures o.next >= n
    decreases e, 2
  {
    if IsLogicExpr(e) then
      var mid := n;
      var ol := if e.bop.LogAnd? then GenLogical(env, e.lhs, mid, lf, n + 1) else GenLogical(env, e.lhs, lt, mid, n + 1);
      var or := GenLogical(env, e.rhs, lt, lf, ol.next);
      Out(ol.code + [Lab(mid)] + or.code, or.next)
    else
      var o := GenExpr(env, e, n);
      Out(o.code + Code(TestTop) + [Jz(lf), Jmp(lt)], o.next)
  }

  /** Falls through when `e` is true and jumps to `lf` when it is false. */
  function GenCond(env: Env, e: Expr, lf: nat, n: nat): (o: Out)
    ensures o.next >= n
    decreases e, 4
  {
    if IsLogicExpr(e) then
      var o := GenLogical(env, e, n, lf, n + 1);
      Out(o.code + [Lab(n)], o.next)
    else
      var o := GenExpr(env, e, n);
      Out(o.code + Code(TestTop) + [Jz(lf)], o.next)
  }
}
