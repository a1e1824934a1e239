/** Every instruction form the assembler knows, as the bytes it emits.
 */
module AsInsn {
  import opened Options
  import opened Word32
  import opened AsModrm

  datatype Mnem =
    | Alu(op: nat, digit: nat) | Mov | Ext(op: nat) | Lea | Test | Xchg | Push | Pop | IncDec(dec: bool)
    | Unary(digit: nat) | Imul | Shift(digit: nat) | Jmp | Call | Jcc(cc: nat) | SetCc(cc: nat) | Cmov(cc: nat)
    | Plain(op: nat) | Int

  /** Entries of the instruction tables. */
  predicate Known(m: Mnem) {
    match m
    case Alu(b, d) => d < 8 && b == 8 * d
    case Ext(op) => op == 0xB6 || op == 0xB7 || op == 0xBE || op == 0xBF
    case Unary(d) => d < 8
    case Shift(d) => d < 8
    case Jcc(c) => c < 16
    case SetCc(c) => c < 16
    case Cmov(c) => c < 16
    case Plain(op) => op < 256
    case _ => true
  }

  predicate IsAcc(o: Operand) { o.Reg? && o.reg == 0 }
  predicate IsAbs(o: Operand) { o.Mem? && o.base.None? && o.index.None? }

  /** The displacement or immediate of any operand; zero for a register. */
  function ValueOf(o: Operand): Value {
    match o case Reg(_, _) => Value(0, false) case Imm(v) => v case Mem(_, _, _, d) => d
  }

  function Imm8(o: Operand): seq<Byte> { [Low(ValueOf(o).val)] }
  function Imm32(o: Operand): seq<Byte> { Bytes4(Wrap(ValueOf(o).val)) }
  function ImmFor(size: nat, o: Operand): seq<Byte> { if size == 1 then Imm8(o) else Imm32(o) }

  /** Opcode bytes, then the operand, then the rest. */
  function Form(op: seq<Byte>, reg: nat, o: Operand, tail: seq<Byte>): Option<seq<Byte>>
    requires reg < 8 && Parsed(o)
  {
    match EmitModrm(reg, o) case Some(b) => Some(op + b + tail) case None => None
  }

  /** `emit_rel32` after `op`, for an instruction at `start`. */
  function Branch(op: seq<Byte>, target: Value, pass: nat, start: int): seq<Byte> {
    op + Bytes4(if pass == 2 then Wrap(target.val - (start + |op| + 4)) else 0)
  }

  function Wide(size: nat, narrow: Byte): Byte
    requires narrow < 255
  {
    if size == 1 then narrow else narrow + 1
  }

  /** `asm_insn`; None where it reports an error. */
  function Encode(m: Mnem, ops: seq<Operand>, size: nat, pass: nat, start: int): Option<seq<Byte>>
    requires Known(m) && forall i :: 0 <= i < |ops| ==> Parsed(ops[i])
  {
    assert |ops| > 0 ==> Parsed(ops[0]);
    assert |ops| > 1 ==> Parsed(ops[1]);
    match m
    case Alu(base, digit) => if |ops| != 2 then None else EncodeAlu(base, digit, ops[0], ops[1], size)
    case Mov => if |ops| != 2 then None else EncodeMov(ops[0], ops[1], size)
    case Ext(op) => if |ops| != 2 || !ops[1].Reg? then None else Form([0x0F, op], ops[1].reg, ops[0], [])
    case Lea => if |ops| != 2 || !ops[0].Mem? || !ops[1].Reg? then None else Form([0x8D], ops[1].reg, ops[0], [])
    case Test => if |ops| != 2 then None else EncodeTest(ops[0], ops[1], size)
    case Xchg => if |ops| != 2 then None else EncodeXchg(ops[0], ops[1], size)
    case Push =>
      if |ops| != 1 then None
      else if ops[0].Reg? then Some([0x50 + ops[0].reg])
      else if ops[0].Imm? then (if Fits8(ops[0].imm) then Some([0x6A] + Imm8(ops[0])) else Some([0x68] + Imm32(ops[0])))
      else Form([0xFF], 6, ops[0], [])
    case Pop =>
      if |ops| != 1 then None else if ops[0].Reg? then Some([0x58 + ops[0].reg]) else Form([0x8F], 0, ops[0], [])
    case IncDec(dec) =>
      if |ops| != 1 then None
      else if ops[0].Reg? && size == 4 then Some([(if dec then 0x48 else 0x40) + ops[0].reg])
      else Form([Wide(size, 0xFE)], if dec then 1 else 0, ops[0], [])
    case Unary(digit) => if |ops| != 1 then None else Form([Wide(size, 0xF6)], digit, ops[0], [])
    case Imul => EncodeImul(ops)
    case Shift(digit) => EncodeShift(digit, ops, size)
    case Jmp => if |ops| != 1 then None else if IsAbs(ops[0]) then Some(Branch([0xE9], ops[0].disp, pass, start)) else Form([0xFF], 4, ops[0], [])
    case Call => if |ops| != 1 then None else if IsAbs(ops[0]) then Some(Branch([0xE8], ops[0].disp, pass, start)) else Form([0xFF], 2, ops[0], [])
    case Jcc(cc) => if |ops| != 1 then None else Some(Branch([0x0F, 0x80 + cc], ValueOf(ops[0]), pass, start))
    case SetCc(cc) => if |ops| != 1 then None else Form([0x0F, 0x90 + cc], 0, ops[0], [])
    case Cmov(cc) => if |ops| != 2 || !ops[1].Reg? then None else Form([0x0F, 0x40 + cc], ops[1].reg, ops[0], [])
    case Plain(op) => Some([op])
    case Int => if |ops| != 1 || !ops[0].Imm? then None else Some([0xCD] + Imm8(ops[0]))
  }

  function EncodeAlu(base: nat, digit: nat, a: Operand, b: Operand, size: nat): Option<seq<Byte>>
    requires digit < 8 && base == 8 * digit && Parsed(a) && Parsed(b)
  {
    if a.Imm? then
      if size == 1 then (if IsAcc(b) then Some([base + 4] + Imm8(a)) else Form([0x80], digit, b, Imm8(a)))
      else if Fits8(a.imm) then Form([0x83], digit, b, Imm8(a))
      else if IsAcc(b) then Some([base + 5] + Imm32(a))
      else Form([0x81], digit, b, Imm32(a))
    else if a.Reg? then Form([Wide(size, base)], a.reg, b, [])
    else if b.Reg? then Form([Wide(size, base + 2)], b.reg, a, [])
    else None
  }

  function EncodeMov(a: Operand, b: Operand, size: nat): Option<seq<Byte>>
    requires Parsed(a) && Parsed(b)
  {
    if IsAbs(a) && IsAcc(b) then Some([Wide(size, 0xA0)] + Imm32(a))
    else if IsAcc(a) && IsAbs(b) then Some([Wide(size, 0xA2)] + Imm32(b))
    else if a.Imm? then
      if b.Reg? then Some([(if size == 1 then 0xB0 else 0xB8) + b.reg] + ImmFor(size, a))
      else Form([Wide(size, 0xC6)], 0, b, ImmFor(size, a))
    else if a.Reg? then Form([Wide(size, 0x88)], a.reg, b, [])
    else if b.Reg? then Form([Wide(size, 0x8A)], b.reg, a, [])
    else None
  }

  function EncodeTest(a: Operand, b: Operand, size: nat): Option<seq<Byte>>
    requires Parsed(a) && Parsed(b)
  {
    if a.Imm? then
      if IsAcc(b) then Some([Wide(size, 0xA8)] + ImmFor(size, a)) else Form([Wide(size, 0xF6)], 0, b, ImmFor(size, a))
    else if a.Reg? then Form([Wide(size, 0x84)], a.reg, b, [])
    else if b.Reg? then Form([Wide(size, 0x84)], b.reg, a, [])
    else None
  }

  function EncodeXchg(a: Operand, b: Operand, size: nat): Option<seq<Byte>>
    requires Parsed(a) && Parsed(b)
  {
    if size == 4 && a.Reg? && b.Reg? && (a.reg == 0 || b.reg == 0) then Some([0x90 + if a.reg == 0 then b.reg else a.reg])
    else if a.Reg? then Form([0x87], a.reg, b, [])
    else if b.Reg? then Form([0x87], b.reg, a, [])
    else None
  }

  function EncodeImul(ops: seq<Operand>): Option<seq<Byte>>
    requires forall i :: 0 <= i < |ops| ==> Parsed(ops[i])
  {
    assert |ops| > 1 ==> Parsed(ops[1]);
    assert |ops| > 2 ==> Parsed(ops[2]);
    if |ops| == 1 then Form([0xF7], 5, ops[0], [])
    else if |ops| == 2 && ops[1].Reg? then Form([0x0F, 0xAF], ops[1].reg, ops[0], [])
    else if |ops| == 3 && ops[0].Imm? && ops[2].Reg? then
      if Fits8(ops[0].imm) then Form([0x6B], ops[2].reg, ops[1], Imm8(ops[0])) else Form([0x69], ops[2].reg, ops[1], Imm32(ops[0]))
    else None
  }

  function EncodeShift(digit: nat, ops: seq<Operand>, size: nat): Option<seq<Byte>>
    requires digit < 8 && forall i :: 0 <= i < |ops| ==> Parsed(ops[i])
  {
    if |ops| == 1 then Form([Wide(size, 0xD0)], digit, ops[0], [])
    else if |ops| == 2 && ops[0].Imm? then
      if !ops[0].imm.hasSym && ops[0].imm.val == 1 then Form([Wide(size, 0xD0)], digit, ops[1], [])
      else Form([Wide(size, 0xC0)], digit, ops[1], Imm8(ops[0]))
    else if |ops| == 2 && ops[0].Reg? && ops[0].reg == 1 && ops[0].size == 1 then Form([Wide(size, 0xD2)], digit, ops[1], [])
    else None
  }

  // ----- sizes do not depend on symbol values -----

  ghost predicate SameForms(ops: seq<Operand>, qs: seq<Operand>) {
    |ops| == |qs| && forall i :: 0 <= i < |ops| ==> Parsed(ops[i]) && Parsed(qs[i]) && SameForm(ops[i], qs[i])
  }

  /** Both rejected, or both accepted with the same length. */
  predicate SameSize(a: Option<seq<Byte>>, b: Option<seq<Byte>>) { a.Some? == b.Some? && (a.Some? ==> |a.value| == |b.value|) }

  lemma FormSize(op: seq<Byte>, reg: nat, o: Operand, q: Operand, t: seq<Byte>, u: seq<Byte>)
    requires reg < 8 && Parsed(o) && Parsed(q) && SameForm(o, q) && |t| == |u|
    ensures SameSize(Form(op, reg, o, t), Form(op, reg, q, u))
  {
    ModrmLength(reg, o, q);
    hide EmitModrm;
  }

  lemma ImmSizes(o: Operand)
    ensures |Imm8(o)| == 1 && |Imm32(o)| == 4
  {
  }

  /** However the operands' symbols change value between passes, an instruction
      keeps its length, and keeps being accepted or rejected. */
  lemma EncodeSize(m: Mnem, ops: seq<Operand>, qs: seq<Operand>, size: nat, p: nat, q: nat, x: int, y: int)
    requires Known(m) && SameForms(ops, qs)
    ensures SameSize(Encode(m, ops, size, p, x), Encode(m, qs, size, q, y))
  {
    hide Form, Bytes4, Wrap, Low, EncodeAlu, EncodeMov, EncodeTest, EncodeXchg, EncodeImul, EncodeShift;
    match m
    case Alu(base, digit) => if |ops| == 2 { AluSize(base, digit, ops[0], ops[1], qs[0], qs[1], size); }
    case Mov => if |ops| == 2 { MovSize(ops[0], ops[1], qs[0], qs[1], size); }
    case Ext(op) => if |ops| == 2 && ops[1].Reg? { FormSize([0x0F, op], ops[1].reg, ops[0], qs[0], [], []); }
    case Lea => if |ops| == 2 && ops[1].Reg? { FormSize([0x8D], ops[1].reg, ops[0], qs[0], [], []); }
    case Test => if |ops| == 2 { TestSize(ops[0], ops[1], qs[0], qs[1], size); }
    case Xchg => if |ops| == 2 { XchgSize(ops[0], ops[1], qs[0], qs[1], size); }
    case Push => if |ops| == 1 { FormSize([0xFF], 6, ops[0], qs[0], [], []); }
    case Pop => if |ops| == 1 { FormSize([0x8F], 0, ops[0], qs[0], [], []); }
    case IncDec(dec) => if |ops| == 1 { FormSize([Wide(size, 0xFE)], if dec then 1 else 0, ops[0], qs[0], [], []); }
    case Unary(digit) => if |ops| == 1 { FormSize([Wide(size, 0xF6)], digit, ops[0], qs[0], [], []); }
    case Imul => ImulSize(ops, qs);
    case Shift(digit) => ShiftSize(digit, ops, qs, size);
    case Jmp => if |ops| == 1 { FormSize([0xFF], 4, ops[0], qs[0], [], []); }
    case Call => if |ops| == 1 { FormSize([0xFF], 2, ops[0], qs[0], [], []); }
    case Jcc(cc) =>
    case SetCc(cc) => if |ops| == 1 { FormSize([0x0F, 0x90 + cc], 0, ops[0], qs[0], [], []); }
    case Cmov(cc) => if |ops| == 2 && ops[1].Reg? { FormSize([0x0F, 0x40 + cc], ops[1].reg, ops[0], qs[0], [], []); }
    case Plain(_) =>
    case Int =>
  }

  lemma AluSize(base: nat, digit: nat, a: Operand, b: Operand, c: Operand, d: Operand, size: nat)
    requires digit < 8 && base == 8 * digit && Parsed(a) && Parsed(b) && Parsed(c) && Parsed(d) && SameForm(a, c) && SameForm(b, d)
    ensures SameSize(EncodeAlu(base, digit, a, b, size), EncodeAlu(base, digit, c, d, size))
  {
    hide Form, Imm8, Imm32;
    ImmSizes(a);
    ImmSizes(c);
    if a.Imm? {
      FormSize([0x80], digit, b, d, Imm8(a), Imm8(c));
      FormSize([0x83], digit, b, d, Imm8(a), Imm8(c));
      FormSize([0x81], digit, b, d, Imm32(a), Imm32(c));
    } else if a.Reg? {
      FormSize([Wide(size, base)], a.reg, b, d, [], []);
    } else if b.Reg? {
      FormSize([Wide(size, base + 2)], b.reg, a, c, [], []);
    }
  }

  lemma MovSize(a: Operand, b: Operand, c: Operand, d: Operand, size: nat)
    requires Parsed(a) && Parsed(b) && Parsed(c) && Parsed(d) && SameForm(a, c) && SameForm(b, d)
    ensures SameSize(EncodeMov(a, b, size), EncodeMov(c, d, size))
  {
    hide Form, Imm8, Imm32;
    ImmSizes(a);
    ImmSizes(c);
    ImmSizes(b);
    ImmSizes(d);
    if a.Imm? {
      FormSize([Wide(size, 0xC6)], 0, b, d, ImmFor(size, a), ImmFor(size, c));
    } else if a.Reg? {
      FormSize([Wide(size, 0x88)], a.reg, b, d, [], []);
    } else if b.Reg? {
      FormSize([Wide(size, 0x8A)], b.reg, a, c, [], []);
    }
  }

  lemma TestSize(a: Operand, b: Operand, c: Operand, d: Operand, size: nat)
    requires Parsed(a) && Parsed(b) && Parsed(c) && Parsed(d) && SameForm(a, c) && SameForm(b, d)
    ensures SameSize(EncodeTest(a, b, size), EncodeTest(c, d, size))
  {
    hide Form, Imm8, Imm32;
    ImmSizes(a);
    ImmSizes(c);
    if a.Imm? {
      FormSize([Wide(size, 0xF6)], 0, b, d, ImmFor(size, a), ImmFor(size, c));
    } else if a.Reg? {
      FormSize([Wide(size, 0x84)], a.reg, b, d, [], []);
    } else if b.Reg? {
      FormSize([Wide(size, 0x84)], b.reg, a, c, [], []);
    }
  }

  lemma XchgSize(a: Operand, b: Operand, c: Operand, d: Operand, size: nat)
    requires Parsed(a) && Parsed(b) && Parsed(c) && Parsed(d) && SameForm(a, c) && SameForm(b, d)
    ensures SameSize(EncodeXchg(a, b, size), EncodeXchg(c, d, size))
  {
    hide Form;
    if a.Reg? { FormSize([0x87], a.reg, b, d, [], []); }
    if b.Reg? { FormSize([0x87], b.reg, a, c, [], []); }
  }

  lemma ImulSize(ops: seq<Operand>, qs: seq<Operand>)
    requires SameForms(ops, qs)
    ensures SameSize(EncodeImul(ops), EncodeImul(qs))
  {
    hide Form, Imm8, Imm32;
    if |ops| == 1 { FormSize([0xF7], 5, ops[0], qs[0], [], []); }
    if |ops| == 2 && ops[1].Reg? { FormSize([0x0F, 0xAF], ops[1].reg, ops[0], qs[0], [], []); }
    if |ops| == 3 && ops[2].Reg? {
      ImmSizes(ops[0]);
      ImmSizes(qs[0]);
      FormSize([0x6B], ops[2].reg, ops[1], qs[1], Imm8(ops[0]), Imm8(qs[0]));
      FormSize([0x69], ops[2].reg, ops[1], qs[1], Imm32(ops[0]), Imm32(qs[0]));
    }
  }

  lemma ShiftSize(digit: nat, ops: seq<Operand>, qs: seq<Operand>, size: nat)
    requires digit < 8 && SameForms(ops, qs)
    ensures SameSize(EncodeShift(digit, ops, size), EncodeShift(digit, qs, size))
  {
    hide Form, Imm8;
    if |ops| == 1 { FormSize([Wide(size, 0xD0)], digit, ops[0], qs[0], [], []); }
    if |ops| == 2 {
      ImmSizes(ops[0]);
      ImmSizes(qs[0]);
      FormSize([Wide(size, 0xD0)], digit, ops[1], qs[1], [], []);
      FormSize([Wide(size, 0xC0)], digit, ops[1], qs[1], Imm8(ops[0]), Imm8(qs[0]));
      FormSize([Wide(size, 0xD2)], digit, ops[1], qs[1], [], []);
    }
  }

  // ----- branches -----

  predicate IsBranch(m: Mnem, ops: seq<Operand>) { |ops| == 1 && ((m.Jcc? && m.cc < 16) || ((m.Jmp? || m.Call?) && IsAbs(ops[0]))) }

  /** The last four bytes of a branch, counted from its end, reach the target. */
  lemma BranchReaches(m: Mnem, ops: seq<Operand>, size: nat, start: int)
    requires IsBranch(m, ops) && Known(m) && Parsed(ops[0])
    ensures var b := Encode(m, ops, size, 2, start);
            && b.Some? && |b.value| >= 5
            && Wrap(start + |b.value| + ReadWord(b.value, |b.value| - 4)) == Wrap(ValueOf(ops[0]).val)
  {
    hide Bytes4, ReadWord;
    var b := Encode(m, ops, size, 2, start).value;
    var op := b[..|b| - 4];
    var v := ValueOf(ops[0]).val - (start + |op| + 4);
    assert b == op + Bytes4(Wrap(v));
    TailWord(op, Wrap(v));
    WrapAdd(v, start + |b|);
  }

  lemma TailWord(op: seq<Byte>, v: Word)
    ensures ReadWord(op + Bytes4(v), |op|) == v
  {
    ReadBytes4(v);
    var s := op + Bytes4(v);
    assert s[|op|] == Bytes4(v)[0] && s[|op| + 1] == Bytes4(v)[1] && s[|op| + 2] == Bytes4(v)[2] && s[|op| + 3] == Bytes4(v)[3];
  }
}
