/** The part of the x86 the compiler's output uses (Intel SDM Vol. 2), one
    datatype constructor per encoding.

    Flags hold a value only after a comparison: every other ALU instruction
    leaves them unspecified, and a conditional that reads unspecified flags is
    stuck, as are a divide error and a misaligned access.
 */
module X86 {
  import opened Options
  import opened Word32

  datatype Alu = AAdd | ASub | AAnd | AOr | AXor
  datatype Cond = CE | CNE | CB | CBE | CA | CAE | CL | CLE | CG | CGE

  datatype Instr =
    | PushImm(v: Word) | PushEax | PushEbp | PopEax | PopEbx
    | MovEaxImm(v: Word) | MovEcxImm(v: Word) | MovEaxGlob(g: Word)
    | LeaEaxEbp(d: Word) | LoadEaxEax | StoreEbxEax | LoadEaxEbp(d: Word) | StoreEbpEax(d: Word)
    | AluEaxEbx(alu: Alu) | AddEaxImm(v: Word) | AddEspImm(v: Word) | SubEspImm(v: Word)
    | ImulEaxImm(v: Word) | ImulEaxEbx
    | MovEcxEbx | MovEaxEdx | MovEbpEsp
    | ShlEaxCl | ShrEaxCl | SarEaxCl
    | XorEdxEdx | Cdq | DivEbx | IdivEbx | IdivEcx
    | NegEax | NotEax
    | CmpEaxEbx | CmpEaxZero | CmpEaxImm(v: Word) | SetAl(cc: Cond) | MovzxEaxAl
    | Leave | Ret

  datatype Flags = Flags(zf: bool, sf: bool, cf: bool, of: bool)

  type Mem = map<Word, Word>

  datatype State = State(eax: Word, ebx: Word, ecx: Word, edx: Word, esp: Word, ebp: Word,
                         flags: Option<Flags>, mem: Mem)

  function Rd(m: Mem, a: Word): Word { if a in m then m[a] else 0 }

  predicate Aligned(a: int) { a % 4 == 0 }

  /** `cmp a, b`: the flags of a - b. */
  function CmpFlags(a: Word, b: Word): Flags {
    var d := Wrap(a - b);
    Flags(d == 0, d >= TWO31, a < b,
          (a >= TWO31) != (b >= TWO31) && (d >= TWO31) != (a >= TWO31))
  }

  predicate Holds(c: Cond, f: Flags) {
    match c
    case CE => f.zf
    case CNE => !f.zf
    case CB => f.cf
    case CBE => f.cf || f.zf
    case CA => !f.cf && !f.zf
    case CAE => !f.cf
    case CL => f.sf != f.of
    case CLE => f.zf || f.sf != f.of
    case CG => !f.zf && f.sf == f.of
    case CGE => f.sf == f.of
  }

  function AluSem(op: Alu, a: Word, b: Word): Word {
    match op
    case AAdd => Wrap(a + b)
    case ASub => Wrap(a - b)
    case AAnd => WBits(BAnd, a, b)
    case AOr => WBits(BOr, a, b)
    case AXor => WBits(BXor, a, b)
  }

  function Push(s: State, v: Word): Option<State> {
    if s.esp >= 4 && Aligned(s.esp)
    then Some(s.(esp := s.esp - 4, mem := s.mem[s.esp - 4 := v]))
    else None
  }

  /** The word on top of the stack and the state without it. */
  function Pop(s: State): Option<(Word, State)> {
    if Aligned(s.esp) then Some((Rd(s.mem, s.esp), s.(esp := Wrap(s.esp + 4)))) else None
  }

  /** Unsigned divide of edx:eax. */
  function DivStep(s: State, b: Word): Option<State> {
    if b == 0 then None
    else
      var n := s.edx * TWO32 + s.eax;
      if n / b >= TWO32 then None
      else Some(s.(eax := n / b, edx := n % b, flags := None))
  }

  /** Signed divide of edx:eax, truncating toward zero. */
  function IdivStep(s: State, b: Word): Option<State> {
    if b == 0 then None
    else
      var n := Signed(s.edx) * TWO32 + s.eax;
      var q := TruncDiv(n, Signed(b));
      if q < -TWO31 || q >= TWO31 then None
      else Some(s.(eax := Wrap(q), edx := Wrap(TruncMod(n, Signed(b))), flags := None))
  }

  /** One instruction, the program counter aside.  `Ret` ends a run. */
  function Exec(i: Instr, s: State): Option<State> {
    match i
    case PushImm(v) => Push(s, v)
    case PushEax => Push(s, s.eax)
    case PushEbp => Push(s, s.ebp)
    case PopEax => (match Pop(s) case Some(p) => Some(p.1.(eax := p.0)) case None => None)
    case PopEbx => (match Pop(s) case Some(p) => Some(p.1.(ebx := p.0)) case None => None)
    case MovEaxImm(v) => Some(s.(eax := v))
    case MovEcxImm(v) => Some(s.(ecx := v))
    case MovEaxGlob(g) => Some(s.(eax := g))
    case LeaEaxEbp(d) => Some(s.(eax := Wrap(s.ebp + d)))
    case LoadEaxEax => if Aligned(s.eax) then Some(s.(eax := Rd(s.mem, s.eax))) else None
    case StoreEbxEax => if Aligned(s.ebx) then Some(s.(mem := s.mem[s.ebx := s.eax])) else None
    case LoadEaxEbp(d) =>
      var a := Wrap(s.ebp + d);
      if Aligned(a) then Some(s.(eax := Rd(s.mem, a))) else None
    case StoreEbpEax(d) =>
      var a := Wrap(s.ebp + d);
      if Aligned(a) then Some(s.(mem := s.mem[a := s.eax])) else None
    case AluEaxEbx(op) => Some(s.(eax := AluSem(op, s.eax, s.ebx), flags := None))
    case AddEaxImm(v) => Some(s.(eax := Wrap(s.eax + v), flags := None))
    case AddEspImm(v) => Some(s.(esp := Wrap(s.esp + v), flags := None))
    case SubEspImm(v) => Some(s.(esp := Wrap(s.esp - v), flags := None))
    case ImulEaxImm(v) => Some(s.(eax := Wrap(s.eax * v), flags := None))
    case ImulEaxEbx => Some(s.(eax := Wrap(s.eax * s.ebx), flags := None))
    case MovEcxEbx => Some(s.(ecx := s.ebx))
    case MovEaxEdx => Some(s.(eax := s.edx))
    case MovEbpEsp => Some(s.(ebp := s.esp))
    case ShlEaxCl => Some(s.(eax := Wrap(s.eax * Pow2(s.ecx % 32)), flags := None))
    case ShrEaxCl => Some(s.(eax := Wrap(s.eax / Pow2(s.ecx % 32)), flags := None))
    case SarEaxCl => Some(s.(eax := Wrap(Signed(s.eax) / Pow2(s.ecx % 32)), flags := None))
    case XorEdxEdx => Some(s.(edx := 0, flags := None))
    case Cdq => Some(s.(edx := if s.eax >= TWO31 then TWO32 - 1 else 0))
    case DivEbx => DivStep(s, s.ebx)
    case IdivEbx => IdivStep(s, s.ebx)
    case IdivEcx => IdivStep(s, s.ecx)
    case NegEax => Some(s.(eax := Wrap(0 - s.eax), flags := None))
    case NotEax => Some(s.(eax := TWO32 - 1 - s.eax))
    case CmpEaxEbx => Some(s.(flags := Some(CmpFlags(s.eax, s.ebx))))
    case CmpEaxZero => Some(s.(flags := Some(CmpFlags(s.eax, 0))))
    case CmpEaxImm(v) => Some(s.(flags := Some(CmpFlags(s.eax, v))))
    case SetAl(c) =>
      (match s.flags
       case Some(f) => Some(s.(eax := s.eax - s.eax % 256 + if Holds(c, f) then 1 else 0))
       case None => None)
    case MovzxEaxAl => Some(s.(eax := s.eax % 256))
    case Leave =>
      (match Pop(s.(esp := s.ebp)) case Some(p) => Some(p.1.(ebp := p.0)) case None => None)
    case Ret => None
  }

  // ----- code with symbolic labels -----

  /** One entry of the generated code: an instruction, a label definition, or a
      jump whose distance is filled in once every label has a position. */
  datatype Item = I(i: Instr) | Lab(l: nat) | Jmp(l: nat) | Jz(l: nat)

  datatype Conf = Conf(pc: nat, st: State)

  /** Position of a label; the end of the code if it is missing. */
  function Find(prog: seq<Item>, l: nat): (k: nat)
    ensures k <= |prog|
    ensures k < |prog| ==> prog[k] == Lab(l)
  {
    if prog == [] then 0 else if prog[0] == Lab(l) then 0 else 1 + Find(prog[1..], l)
  }

  function Step(prog: seq<Item>, c: Conf): Option<Conf> {
    if c.pc >= |prog| then None
    else
      match prog[c.pc]
      case I(i) => (match Exec(i, c.st) case Some(s) => Some(Conf(c.pc + 1, s)) case None => None)
      case Lab(_) => Some(c.(pc := c.pc + 1))
      case Jmp(l) => Some(c.(pc := Find(prog, l)))
      case Jz(l) =>
        (match c.st.flags
         case Some(f) => Some(c.(pc := if f.zf then Find(prog, l) else c.pc + 1))
         case None => None)
  }

  function Run(prog: seq<Item>, c: Conf, n: nat): Option<Conf>
    decreases n
  {
    if n == 0 then Some(c)
    else match Step(prog, c) case Some(d) => Run(prog, d, n - 1) case None => None
  }

  ghost predicate UniqueLabels(prog: seq<Item>) {
    forall i, j :: 0 <= i < j < |prog| && prog[i].Lab? && prog[j].Lab? ==> prog[i].l != prog[j].l
  }
}
