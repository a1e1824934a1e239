/** The byte layer: instruction encodings, patched jump distances, and a
    decoder.  Running the bytes is running the labelled code.
 */
module CcBytes {
  import opened Options
  import opened Word32
  import opened X86

  /** Encodings as the generator emits them (Intel SDM Vol. 2, chapters 3-5). */
  function Enc(i: Instr): (b: seq<Byte>)
    ensures |b| > 0
  {
    match i
    case PushImm(v) => [0x68] + Bytes4(v)
    case PushEax => [0x50]
    case PushEbp => [0x55]
    case PopEax => [0x58]
    case PopEbx => [0x5B]
    case MovEaxImm(v) => [0xB8] + Bytes4(v)
    case MovEcxImm(v) => [0xB9] + Bytes4(v)
    case MovEaxGlob(g) => [0xB8] + Bytes4(g)
    case LeaEaxEbp(d) => [0x8D, 0x85] + Bytes4(d)
    case LoadEaxEax => [0x8B, 0x00]
    case StoreEbxEax => [0x89, 0x03]
    case LoadEaxEbp(d) => [0x8B, 0x85] + Bytes4(d)
    case StoreEbpEax(d) => [0x89, 0x85] + Bytes4(d)
    case AluEaxEbx(op) =>
      [match op case AAdd => 0x01 case ASub => 0x29 case AAnd => 0x21 case AOr => 0x09 case AXor => 0x31, 0xD8]
    case AddEaxImm(v) => [0x05] + Bytes4(v)
    case AddEspImm(v) => [0x81, 0xC4] + Bytes4(v)
    case SubEspImm(v) => [0x81, 0xEC] + Bytes4(v)
    case ImulEaxImm(v) => [0x69, 0xC0] + Bytes4(v)
    case ImulEaxEbx => [0x0F, 0xAF, 0xC3]
    case MovEcxEbx => [0x89, 0xD9]
    case MovEaxEdx => [0x89, 0xD0]
    case MovEbpEsp => [0x89, 0xE5]
    case ShlEaxCl => [0xD3, 0xE0]
    case ShrEaxCl => [0xD3, 0xE8]
    case SarEaxCl => [0xD3, 0xF8]
    case XorEdxEdx => [0x31, 0xD2]
    case Cdq => [0x99]
    case DivEbx => [0xF7, 0xF3]
    case IdivEbx => [0xF7, 0xFB]
    case IdivEcx => [0xF7, 0xF9]
    case NegEax => [0xF7, 0xD8]
    case NotEax => [0xF7, 0xD0]
    case CmpEaxEbx => [0x39, 0xD8]
    case CmpEaxZero => [0x83, 0xF8, 0x00]
    case CmpEaxImm(v) => [0x3D] + Bytes4(v)
    case SetAl(c) => [0x0F, CondByte(c), 0xC0]
    case MovzxEaxAl => [0x0F, 0xB6, 0xC0]
    case Leave => [0xC9]
    case Ret => [0xC3]
  }

  function CondByte(c: Cond): Byte {
    match c
    case CB => 0x92
    case CAE => 0x93
    case CE => 0x94
    case CNE => 0x95
    case CBE => 0x96
    case CA => 0x97
    case CL => 0x9C
    case CGE => 0x9D
    case CLE => 0x9E
    case CG => 0x9F
  }

  /** What the decoder finds: an instruction, or a jump with its distance. */
  datatype Dec = DI(i: Instr) | DJmp(rel: Word) | DJz(rel: Word) | Bad

  function CondOf(b: Byte): Option<Cond> {
    if b == 0x92 then Some(CB) else if b == 0x93 then Some(CAE) else if b == 0x94 then Some(CE)
    else if b == 0x95 then Some(CNE) else if b == 0x96 then Some(CBE) else if b == 0x97 then Some(CA)
    else if b == 0x9C then Some(CL) else if b == 0x9D then Some(CGE) else if b == 0x9E then Some(CLE)
    else if b == 0x9F then Some(CG) else None
  }

  /** One-byte opcodes without operands. */
  function Decode1(b: Byte): Option<Instr> {
    if b == 0x50 then Some(PushEax) else if b == 0x55 then Some(PushEbp) else if b == 0x58 then Some(PopEax)
    else if b == 0x5B then Some(PopEbx) else if b == 0x99 then Some(Cdq) else if b == 0xC9 then Some(Leave)
    else if b == 0xC3 then Some(Ret) else None
  }

  /** One-byte opcodes with an imm32. */
  function DecodeImm(b: Byte, v: Word): Option<Instr> {
    if b == 0x68 then Some(PushImm(v)) else if b == 0xB8 then Some(MovEaxImm(v)) else if b == 0xB9 then Some(MovEcxImm(v))
    else if b == 0x05 then Some(AddEaxImm(v)) else if b == 0x3D then Some(CmpEaxImm(v)) else None
  }

  /** Opcode and ModRM byte, no displacement. */
  function Decode2(b: Byte, r: Byte): Option<Instr> {
    if b == 0x8B && r == 0x00 then Some(LoadEaxEax)
    else if b == 0x89 then
      (if r == 0x03 then Some(StoreEbxEax) else if r == 0xD9 then Some(MovEcxEbx) else if r == 0xD0 then Some(MovEaxEdx)
       else if r == 0xE5 then Some(MovEbpEsp) else None)
    else if b == 0x31 && r == 0xD2 then Some(XorEdxEdx)
    else if r == 0xD8 && b == 0x01 then Some(AluEaxEbx(AAdd))
    else if r == 0xD8 && b == 0x29 then Some(AluEaxEbx(ASub))
    else if r == 0xD8 && b == 0x21 then Some(AluEaxEbx(AAnd))
    else if r == 0xD8 && b == 0x09 then Some(AluEaxEbx(AOr))
    else if r == 0xD8 && b == 0x31 then Some(AluEaxEbx(AXor))
    else if r == 0xD8 && b == 0x39 then Some(CmpEaxEbx)
    else if b == 0xD3 then
      (if r == 0xE0 then Some(ShlEaxCl) else if r == 0xE8 then Some(ShrEaxCl) else if r == 0xF8 then Some(SarEaxCl) else None)
    else if b == 0xF7 then
      (if r == 0xF3 then Some(DivEbx) else if r == 0xFB then Some(IdivEbx) else if r == 0xF9 then Some(IdivEcx)
       else if r == 0xD8 then Some(NegEax) else if r == 0xD0 then Some(NotEax) else None)
    else None
  }

  /** Opcode, ModRM byte, and a 32-bit displacement or immediate. */
  function DecodeDisp(b: Byte, r: Byte, v: Word): Option<Instr> {
    if b == 0x8D && r == 0x85 then Some(LeaEaxEbp(v))
    else if b == 0x8B && r == 0x85 then Some(LoadEaxEbp(v))
    else if b == 0x89 && r == 0x85 then Some(StoreEbpEax(v))
    else if b == 0x81 && r == 0xC4 then Some(AddEspImm(v))
    else if b == 0x81 && r == 0xEC then Some(SubEspImm(v))
    else if b == 0x69 && r == 0xC0 then Some(ImulEaxImm(v))
    else None
  }

  /** Three-byte forms; `83 /7 ib` sign-extends its byte. */
  function Decode3(b: Byte, x: Byte, y: Byte): Option<Instr> {
    if b == 0x83 && x == 0xF8 then Some(CmpEaxImm(Wrap(if y < 128 then y else y - 256)))
    else if b == 0x0F && x == 0xAF && y == 0xC3 then Some(ImulEaxEbx)
    else if b == 0x0F && x == 0xB6 && y == 0xC0 then Some(MovzxEaxAl)
    else if b == 0x0F && y == 0xC0 then (match CondOf(x) case Some(c) => Some(SetAl(c)) case None => None)
    else None
  }

  /** Decode the instruction at `p` and its length. */
  function Decode(s: seq<Byte>, p: nat): (Dec, nat)
    requires p < |s|
  {
    var b := s[p];
    if Decode1(b).Some? then (DI(Decode1(b).value), 1)
    else if p + 5 <= |s| && DecodeImm(b, ReadWord(s, p + 1)).Some? then (DI(DecodeImm(b, ReadWord(s, p + 1)).value), 5)
    else if p + 5 <= |s| && b == 0xE9 then (DJmp(ReadWord(s, p + 1)), 5)
    else if p + 2 <= |s| && Decode2(b, s[p + 1]).Some? then (DI(Decode2(b, s[p + 1]).value), 2)
    else if p + 3 <= |s| && Decode3(b, s[p + 1], s[p + 2]).Some? then (DI(Decode3(b, s[p + 1], s[p + 2]).value), 3)
    else if p + 6 <= |s| && b == 0x0F && s[p + 1] == 0x84 then (DJz(ReadWord(s, p + 2)), 6)
    else if p + 6 <= |s| && DecodeDisp(b, s[p + 1], ReadWord(s, p + 2)).Some? then
      (DI(DecodeDisp(b, s[p + 1], ReadWord(s, p + 2)).value), 6)
    else (Bad, 1)
  }

  /** Two instructions with one encoding each have one meaning. */
  function Norm(i: Instr): Instr {
    match i
    case MovEaxGlob(g) => MovEaxImm(g)
    case CmpEaxZero => CmpEaxImm(0)
    case _ => i
  }

  lemma NormExec(i: Instr, s: State)
    ensures Exec(Norm(i), s) == Exec(i, s)
  {
  }

  lemma WordAt(s: seq<Byte>, p: nat, v: Word)
    requires HasAt(s, p, Bytes4(v))
    ensures ReadWord(s, p) == v
  {
    ReadBytes4(v);
    assert s[p + 0] == Bytes4(v)[0] && s[p + 1] == Bytes4(v)[1] && s[p + 2] == Bytes4(v)[2] && s[p + 3] == Bytes4(v)[3];
  }

  lemma HasTail(s: seq<Byte>, p: nat, a: seq<Byte>, b: seq<Byte>)
    requires HasAt(s, p, a + b)
    ensures HasAt(s, p, a) && HasAt(s, p + |a|, b)
  {
    forall i | 0 <= i < |b| ensures s[p + |a| + i] == b[i] {
      assert s[p + (|a| + i)] == (a + b)[|a| + i];
    }
    forall i | 0 <= i < |a| ensures s[p + i] == a[i] {
      assert s[p + i] == (a + b)[i];
    }
  }

  lemma ImmForm(i: Instr, s: seq<Byte>, p: nat, op: Byte, v: Word)
    requires Enc(i) == [op] + Bytes4(v) && HasAt(s, p, Enc(i)) && DecodeImm(op, v) == Some(Norm(i))
    ensures Decode(s, p) == (DI(Norm(i)), |Enc(i)|)
  {
    hide Bytes4, ReadWord, Enc;
    HasTail(s, p, [op], Bytes4(v));
    WordAt(s, p + 1, v);
    assert s[p + 0] == [op][0];
    assert p + 5 <= |s|;
    hide HasAt;
  }

  lemma DispForm(i: Instr, s: seq<Byte>, p: nat, op: Byte, r: Byte, v: Word)
    requires Enc(i) == [op, r] + Bytes4(v) && HasAt(s, p, Enc(i)) && DecodeDisp(op, r, v) == Some(Norm(i))
    requires r != 0xD8
    ensures Decode(s, p) == (DI(Norm(i)), |Enc(i)|)
  {
    hide Bytes4, ReadWord, Enc;
    HasTail(s, p, [op, r], Bytes4(v));
    WordAt(s, p + 2, v);
    assert s[p + 0] == [op, r][0] && s[p + 1] == [op, r][1];
    assert p + 6 <= |s|;
    hide HasAt;
  }

  /** Decoding an emitted instruction gives it back. */
  lemma DecodeEnc(i: Instr, s: seq<Byte>, p: nat)
    requires HasAt(s, p, Enc(i))
    ensures Decode(s, p) == (DI(Norm(i)), |Enc(i)|)
  {
    match i
    case PushImm(v) => ImmForm(i, s, p, 0x68, v);
    case MovEaxImm(v) => ImmForm(i, s, p, 0xB8, v);
    case MovEcxImm(v) => ImmForm(i, s, p, 0xB9, v);
    case MovEaxGlob(v) => ImmForm(i, s, p, 0xB8, v);
    case AddEaxImm(v) => ImmForm(i, s, p, 0x05, v);
    case CmpEaxImm(v) => ImmForm(i, s, p, 0x3D, v);
    case LeaEaxEbp(v) => DispForm(i, s, p, 0x8D, 0x85, v);
    case LoadEaxEbp(v) => DispForm(i, s, p, 0x8B, 0x85, v);
    case StoreEbpEax(v) => DispForm(i, s, p, 0x89, 0x85, v);
    case AddEspImm(v) => DispForm(i, s, p, 0x81, 0xC4, v);
    case SubEspImm(v) => DispForm(i, s, p, 0x81, 0xEC, v);
    case ImulEaxImm(v) => DispForm(i, s, p, 0x69, 0xC0, v);
    case _ => ShortForm(i, s, p);
  }

  lemma ShortForm(i: Instr, s: seq<Byte>, p: nat)
    requires |Enc(i)| <= 3 && HasAt(s, p, Enc(i))
    ensures Decode(s, p) == (DI(Norm(i)), |Enc(i)|)
  {
    var b := Enc(i);
    assert s[p + 0] == b[0];
    if |b| >= 2 { assert s[p + 1] == b[1]; }
    if |b| >= 3 { assert s[p + 2] == b[2]; }
  }

  // ----- layout -----

  function ItemSize(it: Item): nat {
    match it
    case I(i) => |Enc(i)|
    case Lab(_) => 0
    case Jmp(_) => 5
    case Jz(_) => 6
  }

  /** Byte position of item `k`. */
  function Offset(prog: seq<Item>, k: nat): nat
    requires k <= |prog|
  {
    if k == 0 then 0 else Offset(prog, k - 1) + ItemSize(prog[k - 1])
  }

  lemma OffsetNext(prog: seq<Item>, k: nat)
    requires k < |prog|
    ensures Offset(prog, k + 1) == Offset(prog, k) + ItemSize(prog[k])
  {
  }

  lemma {:induction false} OffsetMono(prog: seq<Item>, j: nat, k: nat)
    requires j <= k <= |prog|
    ensures Offset(prog, j) <= Offset(prog, k)
    decreases k - j
  {
    if j < k { OffsetMono(prog, j, k - 1); }
  }

  /** Distance stored in the jump at `k`: target minus the end of the jump. */
  function Rel(prog: seq<Item>, k: nat): Word
    requires k < |prog| && (prog[k].Jmp? || prog[k].Jz?)
  {
    Wrap(Offset(prog, Find(prog, prog[k].l)) - Offset(prog, k + 1))
  }

  function ItemBytes(prog: seq<Item>, k: nat): (b: seq<Byte>)
    requires k < |prog|
    ensures |b| == ItemSize(prog[k])
  {
    match prog[k]
    case I(i) => Enc(i)
    case Lab(_) => []
    case Jmp(_) => [0xE9] + Bytes4(Rel(prog, k))
    case Jz(_) => [0x0F, 0x84] + Bytes4(Rel(prog, k))
  }

  /** The image: every item in place with its final jump distance. */
  ghost predicate IsImage(s: seq<Byte>, prog: seq<Item>) {
    && |s| == Offset(prog, |prog|)
    && forall k :: 0 <= k < |prog| ==> HasAt(s, Offset(prog, k), ItemBytes(prog, k))
  }

  // ----- running bytes -----

  datatype BConf = BConf(pc: int, st: State)

  function BStep(s: seq<Byte>, c: BConf): Option<BConf> {
    if !(0 <= c.pc < |s|) then None
    else
      var (d, len) := Decode(s, c.pc);
      match d
      case DI(i) => (match Exec(i, c.st) case Some(t) => Some(BConf(c.pc + len, t)) case None => None)
      case DJmp(rel) => Some(c.(pc := c.pc + len + Signed(rel)))
      case DJz(rel) =>
        (match c.st.flags
         case Some(f) => Some(c.(pc := c.pc + len + if f.zf then Signed(rel) else 0))
         case None => None)
      case Bad => None
  }

  function BRun(s: seq<Byte>, c: BConf, n: nat): Option<BConf>
    decreases n
  {
    if n == 0 then Some(c)
    else match BStep(s, c) case Some(d) => BRun(s, d, n - 1) case None => None
  }

  function ToBytes(prog: seq<Item>, c: Conf): BConf
    requires c.pc <= |prog|
  {
    BConf(Offset(prog, c.pc), c.st)
  }

  /** A patched rel32 decodes to its label. */
  lemma RelReaches(prog: seq<Item>, k: nat)
    requires k < |prog| && (prog[k].Jmp? || prog[k].Jz?) && Offset(prog, |prog|) < TWO31
    ensures Offset(prog, k + 1) + Signed(Rel(prog, k)) == Offset(prog, Find(prog, prog[k].l))
  {
    hide Offset, ItemSize, Find, Wrap, Signed;
    var t := Find(prog, prog[k].l);
    OffsetMono(prog, k + 1, |prog|);
    OffsetMono(prog, t, |prog|);
    SignedWrap(Offset(prog, t) - Offset(prog, k + 1));
  }

  lemma DecodeJump(s: seq<Byte>, prog: seq<Item>, k: nat)
    requires IsImage(s, prog) && k < |prog| && (prog[k].Jmp? || prog[k].Jz?)
    ensures Offset(prog, k) < |s|
    ensures Decode(s, Offset(prog, k)) ==
            (if prog[k].Jmp? then DJmp(Rel(prog, k)) else DJz(Rel(prog, k)), ItemSize(prog[k]))
  {
    hide Bytes4, ReadWord, Enc, Offset, Rel;
    var p := Offset(prog, k);
    assert HasAt(s, p, ItemBytes(prog, k));
    var op := if prog[k].Jmp? then [0xE9] else [0x0F, 0x84];
    HasTail(s, p, op, Bytes4(Rel(prog, k)));
    WordAt(s, p + |op|, Rel(prog, k));
    assert s[p + 0] == op[0];
    if prog[k].Jz? { assert s[p + 1] == op[1]; }
    assert p + |op| + 4 <= |s|;
    hide HasAt, IsImage;
  }

  lemma BRunOne(s: seq<Byte>, c: BConf)
    ensures BRun(s, c, 1) == BStep(s, c)
  {
    match BStep(s, c)
    case None =>
    case Some(d) => assert BRun(s, d, 0) == Some(d);
  }

  /** Decoding at an instruction item. */
  lemma DecodeInstr(s: seq<Byte>, prog: seq<Item>, k: nat)
    requires IsImage(s, prog) && k < |prog| && prog[k].I?
    ensures Offset(prog, k) < |s|
    ensures Decode(s, Offset(prog, k)) == (DI(Norm(prog[k].i)), ItemSize(prog[k]))
  {
    hide Decode, Enc, Offset;
    assert HasAt(s, Offset(prog, k), ItemBytes(prog, k));
    DecodeEnc(prog[k].i, s, Offset(prog, k));
  }

  lemma StepInstr(s: seq<Byte>, prog: seq<Item>, c: Conf, d: Conf)
    requires IsImage(s, prog) && Step(prog, c) == Some(d) && prog[c.pc].I?
    ensures d.pc <= |prog| && BStep(s, ToBytes(prog, c)) == Some(ToBytes(prog, d))
  {
    hide IsImage, Decode, Enc, Exec;
    DecodeInstr(s, prog, c.pc);
    NormExec(prog[c.pc].i, c.st);
  }

  /** Decoding at a jump, with the place it leads to. */
  lemma JumpFacts(s: seq<Byte>, prog: seq<Item>, k: nat) returns (rel: Word)
    requires IsImage(s, prog) && |s| < TWO31 && k < |prog| && (prog[k].Jmp? || prog[k].Jz?)
    ensures Offset(prog, k) < |s|
    ensures Decode(s, Offset(prog, k)) == (if prog[k].Jmp? then DJmp(rel) else DJz(rel), ItemSize(prog[k]))
    ensures Offset(prog, k) + ItemSize(prog[k]) + Signed(rel) == Offset(prog, Find(prog, prog[k].l))
    ensures Offset(prog, k) + ItemSize(prog[k]) == Offset(prog, k + 1)
  {
    hide Decode, Enc, Find, Offset, ItemSize, Signed;
    rel := Rel(prog, k);
    DecodeJump(s, prog, k);
    RelReaches(prog, k);
    OffsetNext(prog, k);
  }

  lemma StepJump(s: seq<Byte>, prog: seq<Item>, c: Conf, d: Conf)
    requires IsImage(s, prog) && |s| < TWO31 && Step(prog, c) == Some(d) && (prog[c.pc].Jmp? || prog[c.pc].Jz?)
    ensures d.pc <= |prog| && BStep(s, ToBytes(prog, c)) == Some(ToBytes(prog, d))
  {
    hide IsImage, Decode, Enc, Exec, Find, Offset, ItemSize, Signed;
    var rel := JumpFacts(s, prog, c.pc);
    if prog[c.pc].Jmp? {
      assert d == Conf(Find(prog, prog[c.pc].l), c.st);
    } else {
      assert d == Conf(if c.st.flags.value.zf then Find(prog, prog[c.pc].l) else c.pc + 1, c.st);
    }
  }

  /** One labelled step is one byte-level step, or none for a label. */
  lemma StepBytes(s: seq<Byte>, prog: seq<Item>, c: Conf, d: Conf) returns (n: nat)
    requires IsImage(s, prog) && |s| < TWO31 && Step(prog, c) == Some(d)
    ensures d.pc <= |prog| && n <= 1 && BRun(s, ToBytes(prog, c), n) == Some(ToBytes(prog, d))
    ensures c.pc < |prog| && (n == 0 ==> d.pc == c.pc + 1)
  {
    hide IsImage, Decode, Enc, Exec, Find, BStep;
    BRunOne(s, ToBytes(prog, c));
    if prog[c.pc].Lab? {
      n := 0;
    } else {
      n := 1;
      if prog[c.pc].I? { StepInstr(s, prog, c, d); } else { StepJump(s, prog, c, d); }
    }
  }

  lemma {:induction false} BRunCat(s: seq<Byte>, c: BConf, j: nat, d: BConf, k: nat)
    requires BRun(s, c, j) == Some(d)
    ensures BRun(s, c, j + k) == BRun(s, d, k)
    decreases j
  {
    hide BStep;
    if j > 0 { BRunCat(s, BStep(s, c).value, j - 1, d, k); }
  }

  /** The patched bytes run as the labelled code does; labels are no instructions,
      but between two of the latter there are at most all the labels. */
  lemma {:induction false} RunBytes(s: seq<Byte>, prog: seq<Item>, c: Conf, k: nat, d: Conf) returns (n: nat)
    requires IsImage(s, prog) && |s| < TWO31 && c.pc <= |prog| && Run(prog, c, k) == Some(d)
    ensures d.pc <= |prog| && BRun(s, ToBytes(prog, c), n) == Some(ToBytes(prog, d))
    ensures k + c.pc <= n * (|prog| + 1) + d.pc
    decreases k
  {
    hide IsImage, Step, BStep, Offset;
    if k == 0 {
      n := 0;
    } else {
      var c1 := Step(prog, c).value;
      var n1 := StepBytes(s, prog, c, c1);
      var n2 := RunBytes(s, prog, c1, k - 1, d);
      BRunCat(s, ToBytes(prog, c), n1, ToBytes(prog, c1), n2);
      n := n1 + n2;
      assert n * (|prog| + 1) == n1 * (|prog| + 1) + n2 * (|prog| + 1);
    }
  }
}
