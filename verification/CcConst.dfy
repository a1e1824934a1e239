/** `eval_const`: the constant folder. */
module CcConst {
  import opened Options
  import opened Word32
  import opened CcAst

  function FoldUn(op: UnOp, a: int): int {
    match op
    case Neg => Signed(Wrap(-a))
    case LogNot => if a == 0 then 1 else 0
    case BitNot => -a - 1
  }

  function Flag(b: bool): int { if b then 1 else 0 }

  /** The folder computes in the compiler's own 32-bit `int`; None where it
      reports failure or where that computation is itself undefined. */
  function FoldBin(op: BinOp, a: int, b: int): Option<int> {
    match op
    case Add => Some(Signed(Wrap(a + b)))
    case Sub => Some(Signed(Wrap(a - b)))
    case Mul => Some(Signed(Wrap(a * b)))
    case Div => if b == 0 || TruncDiv(a, b) >= TWO31 then None else Some(TruncDiv(a, b))
    case Mod => if b == 0 || TruncDiv(a, b) >= TWO31 then None else Some(TruncMod(a, b))
    case Shl => if 0 <= b < 32 then Some(Signed(Wrap(a * Pow2(b)))) else None
    case Shr => if 0 <= b < 32 then Some(a / Pow2(b)) else None
    case BitAnd => Some(Signed(WBits(BAnd, Wrap(a), Wrap(b))))
    case BitOr => Some(Signed(WBits(BOr, Wrap(a), Wrap(b))))
    case BitXor => Some(Signed(WBits(BXor, Wrap(a), Wrap(b))))
    case Lt => Some(Flag(a < b))
    case Le => Some(Flag(a <= b))
    case Gt => Some(Flag(a > b))
    case Ge => Some(Flag(a >= b))
    case Eq => Some(Flag(a == b))
    case Ne => Some(Flag(a != b))
    case LogAnd => Some(Flag(a != 0 && b != 0))
    case LogOr => Some(Flag(a != 0 || b != 0))
  }

  function Fold(e: Expr): Option<int> {
    match e
    case Num(v, _) => Some(Signed(v))
    case Un(op, a) => (match Fold(a) case Some(x) => Some(FoldUn(op, x)) case None => None)
    case Tern(c, t, f) => (match Fold(c) case Some(x) => (if x != 0 then Fold(t) else Fold(f)) case None => None)
    case Bin(op, l, r) =>
      (match Fold(l)
       case None => None
       case Some(a) =>
         if op.LogAnd? && a == 0 then Some(0)
         else if op.LogOr? && a != 0 then Some(1)
         else match Fold(r) case Some(b) => FoldBin(op, a, b) case None => None)
    case _ => None
  }

  function EvalConst(e: Expr): Option<Word> {
    match Fold(e) case Some(x) => Some(Wrap(x)) case None => None
  }
}
