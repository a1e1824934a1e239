/** Operand encoding of the assembler: the ModRM byte, the SIB byte and the
    displacement, and the processor's own reading of them (section 2.1.5 of
    Intel SDM Vol. 2A).
 */
module AsModrm {
  import opened Options
  import opened Word32

  /** An expression's value and whether a symbol took part. */
  datatype Value = Value(val: int, hasSym: bool)

  /** Registers are numbered as encoded; base and index may be absent. */
  datatype Operand =
    | Reg(reg: nat, size: nat)
    | Imm(imm: Value)
    | Mem(base: Option<nat>, index: Option<nat>, scale: int, disp: Value)

  /** What the parser produces: register numbers below 8, no esp index. */
  predicate Parsed(o: Operand) {
    match o
    case Reg(r, s) => r < 8 && (s == 1 || s == 2 || s == 4)
    case Imm(v) => -TWO31 <= v.val < TWO31
    case Mem(b, i, _, d) =>
      (b.Some? ==> b.value < 8) && (i.Some? ==> i.value < 8 && i.value != 4) && -TWO31 <= d.val < TWO31
  }

  function ScaleBits(s: int): Option<nat> {
    if s == 1 then Some(0) else if s == 2 then Some(1) else if s == 4 then Some(2) else if s == 8 then Some(3) else None
  }

  function Low(v: int): Byte { v % 256 }

  predicate Fits8(v: Value) { !v.hasSym && -128 <= v.val <= 127 }

  /** A byte of three fields of 2, 3 and 3 bits. */
  function Fields(a: nat, b: nat, c: nat): Byte
    requires a < 4 && b < 8 && c < 8
  {
    64 * a + 8 * b + c
  }

  /** The addressing mode for a displacement on a base register. */
  function Mode(base: nat, d: Value): (m: nat)
    ensures m < 3
  {
    if d.hasSym then 2
    else if d.val == 0 && base != 5 then 0
    else if -128 <= d.val <= 127 then 1
    else 2
  }

  function DispBytes(mode: nat, v: int): seq<Byte> {
    if mode == 1 then [Low(v)] else if mode == 2 then Bytes4(Wrap(v)) else []
  }

  /** `emit_modrm`; None where it reports an error. */
  function EmitModrm(reg: nat, o: Operand): Option<seq<Byte>>
    requires reg < 8 && Parsed(o)
  {
    match o
    case Reg(r, _) => Some([Fields(3, reg, r)])
    case Imm(_) => None
    case Mem(None, None, _, d) => Some([Fields(0, reg, 5)] + Bytes4(Wrap(d.val)))
    case Mem(None, Some(i), s, d) =>
      (match ScaleBits(s)
       case None => None
       case Some(sb) => Some([Fields(0, reg, 4), Fields(sb, i, 5)] + Bytes4(Wrap(d.val))))
    case Mem(Some(b), i, s, d) =>
      var mode := Mode(b, d);
      if i.Some? || b == 4 then
        (match ScaleBits(s)
         case None => None
         case Some(sb) =>
           Some([Fields(mode, reg, 4), Fields(sb, if i.Some? then i.value else 4, b)] + DispBytes(mode, d.val)))
      else Some([Fields(mode, reg, b)] + DispBytes(mode, d.val))
  }

  // ----- what the processor reads -----

  /** A register, or base + index * scale + displacement. */
  datatype Place = InReg(reg: nat) | At(base: Option<nat>, index: Option<nat>, scale: nat, disp: Word)

  datatype Decoded = Decoded(reg: nat, place: Place, len: nat)

  function Field2(b: Byte): nat { b / 64 }
  function Field3(b: Byte): nat { b / 8 % 8 }
  function Field4(b: Byte): nat { b % 8 }

  function SignExtend(b: Byte): Word { if b < 128 then b else b + (TWO32 - 256) }

  /** Displacement of the given mode at `p`, and its length. */
  function ReadDisp(s: seq<Byte>, p: nat, mode: nat): Option<(Word, nat)> {
    if mode == 1 then (if p < |s| then Some((SignExtend(s[p]), 1)) else None)
    else if mode == 2 then (if p + 4 <= |s| then Some((ReadWord(s, p), 4)) else None)
    else Some((0, 0))
  }

  /** Table 2-3: the SIB byte.  Index 4 means none; base 5 with mode 0 means a
      32-bit displacement instead of a base. */
  function DecodeSib(s: seq<Byte>, p: nat, mode: nat): Option<(Place, nat)>
    requires p < |s|
  {
    var b := s[p];
    var scale := Pow2(Field2(b));
    var index := if Field3(b) == 4 then None else Some(Field3(b));
    var noBase := Field4(b) == 5 && mode == 0;
    match ReadDisp(s, p + 1, if noBase then 2 else mode)
    case None => None
    case Some(d) => Some((At(if noBase then None else Some(Field4(b)), index, scale, d.0), 1 + d.1))
  }

  /** Table 2-2: the ModRM byte. */
  function Decode(s: seq<Byte>, p: nat): Option<Decoded> {
    if p >= |s| then None
    else
      var mode, reg, rm := Field2(s[p]), Field3(s[p]), Field4(s[p]);
      if mode == 3 then Some(Decoded(reg, InReg(rm), 1))
      else if rm == 4 then
        (if p + 1 >= |s| then None
         else match DecodeSib(s, p + 1, mode)
           case None => None
           case Some(r) => Some(Decoded(reg, r.0, 1 + r.1)))
      else if rm == 5 && mode == 0 then
        (match ReadDisp(s, p + 1, 2) case None => None case Some(d) => Some(Decoded(reg, At(None, None, 1, d.0), 1 + d.1)))
      else
        (match ReadDisp(s, p + 1, mode) case None => None case Some(d) => Some(Decoded(reg, At(Some(rm), None, 1, d.0), 1 + d.1)))
  }

  type Regs = s: seq<Word> | |s| == 8 witness [0, 0, 0, 0, 0, 0, 0, 0]

  /** Address the operand means. */
  function Address(o: Operand, r: Regs): Word
    requires o.Mem? && Parsed(o)
  {
    Wrap((if o.base.Some? then r[o.base.value] else 0) + (if o.index.Some? then r[o.index.value] * o.scale else 0) + o.disp.val)
  }

  /** Address the processor forms. */
  function Effective(p: Place, r: Regs): Word
    requires p.At? && (p.base.Some? ==> p.base.value < 8) && (p.index.Some? ==> p.index.value < 8)
  {
    Wrap((if p.base.Some? then r[p.base.value] else 0) + (if p.index.Some? then r[p.index.value] * p.scale else 0) + p.disp)
  }

  /** The decoded place is the operand's, whatever the registers hold. */
  ghost predicate Same(o: Operand, p: Place)
    requires Parsed(o)
  {
    match o
    case Reg(r, _) => p == InReg(r)
    case Imm(_) => false
    case Mem(_, _, _, _) =>
      && p.At? && (p.base.Some? ==> p.base.value < 8) && (p.index.Some? ==> p.index.value < 8)
      && forall r: Regs :: Effective(p, r) == Address(o, r)
  }

  lemma Octal(y: nat, c: nat)
    requires c < 8
    ensures (8 * y + c) / 8 == y && (8 * y + c) % 8 == c
  {
  }

  lemma FieldsRead(a: nat, b: nat, c: nat)
    requires a < 4 && b < 8 && c < 8
    ensures var x := Fields(a, b, c); Field2(x) == a && Field3(x) == b && Field4(x) == c
  {
    var x: int := Fields(a, b, c);
    Octal(8 * a + b, c);
    Octal(a, b);
    assert x == 8 * (8 * a + b) + c;
    assert x / 64 == x / 8 / 8;
  }

  lemma ScalePow(s: int)
    ensures ScaleBits(s).Some? ==> ScaleBits(s).value < 4 && Pow2(ScaleBits(s).value) == s
  {
    assert Pow2(0) == 1 && Pow2(1) == 2 && Pow2(2) == 4 && Pow2(3) == 8;
  }

  lemma HasParts(s: seq<Byte>, p: nat, a: seq<Byte>, b: seq<Byte>)
    requires HasAt(s, p, a + b)
    ensures HasAt(s, p, a) && HasAt(s, p + |a|, b)
  {
    forall i | 0 <= i < |a| ensures s[p + i] == a[i] { assert (a + b)[i] == a[i]; }
    forall i | 0 <= i < |b| ensures s[p + |a| + i] == b[i] { assert s[p + (|a| + i)] == (a + b)[|a| + i]; }
  }

  /** Reading back a displacement. */
  lemma DispRead(s: seq<Byte>, p: nat, mode: nat, v: int)
    requires mode < 3 && HasAt(s, p, DispBytes(mode, v)) && (mode == 0 ==> v == 0) && (mode == 1 ==> -128 <= v <= 127)
    requires -TWO31 <= v < TWO31
    ensures ReadDisp(s, p, mode) == Some((Wrap(v), |DispBytes(mode, v)|))
  {
    var b := DispBytes(mode, v);
    if mode == 1 {
      assert s[p + 0] == b[0];
    } else if mode == 2 {
      assert s[p + 0] == b[0] && s[p + 1] == b[1] && s[p + 2] == b[2] && s[p + 3] == b[3];
      ReadBytes4(Wrap(v));
    }
  }

  /** Only the value modulo 2^32 of each term matters to the address. */
  lemma SumWraps(x: int, v: int)
    ensures Wrap(x + Wrap(v)) == Wrap(x + v)
  {
    WrapAdd(v, x);
  }

  /** Every operand the encoder accepts is read back by the processor with the
      same register field, the same length and the same meaning. */
  lemma RoundTrip(reg: nat, o: Operand, s: seq<Byte>, p: nat)
    requires reg < 8 && Parsed(o) && EmitModrm(reg, o).Some? && HasAt(s, p, EmitModrm(reg, o).value)
    ensures var d := Decode(s, p);
            && d.Some? && d.value.reg == reg && d.value.len == |EmitModrm(reg, o).value| && Same(o, d.value.place)
  {
    hide Bytes4, ReadWord, Wrap, Pow2, DispBytes, ReadDisp;
    match o
    case Reg(r, _) =>
      FieldsRead(3, reg, r);
      assert s[p + 0] == EmitModrm(reg, o).value[0];
    case Imm(_) =>
    case Mem(None, None, _, d) => AbsoluteTrip(reg, o, s, p);
    case Mem(None, Some(_), _, _) => IndexTrip(reg, o, s, p);
    case Mem(Some(b), i, _, _) => if i.Some? || b == 4 { SibTrip(reg, o, s, p); } else { BaseTrip(reg, o, s, p); }
  }

  /** Decoding without a SIB byte. */
  lemma DecodePlain(s: seq<Byte>, p: nat, mode: nat, reg: nat, rm: nat, dm: nat, w: Word, n: nat)
    requires p < |s| && mode < 3 && reg < 8 && rm < 8 && rm != 4 && s[p] == Fields(mode, reg, rm)
    requires dm == (if rm == 5 && mode == 0 then 2 else mode) && ReadDisp(s, p + 1, dm) == Some((w, n))
    ensures Decode(s, p) == Some(Decoded(reg, At(if rm == 5 && mode == 0 then None else Some(rm), None, 1, w), 1 + n))
  {
    FieldsRead(mode, reg, rm);
    hide Fields, Field2, Field3, Field4, ReadDisp;
  }

  /** Decoding with a SIB byte. */
  lemma DecodeScaled(s: seq<Byte>, p: nat, mode: nat, reg: nat, sb: nat, idx: nat, b: nat, dm: nat, w: Word, n: nat)
    requires p + 1 < |s| && mode < 3 && reg < 8 && sb < 4 && idx < 8 && b < 8
    requires s[p] == Fields(mode, reg, 4) && s[p + 1] == Fields(sb, idx, b)
    requires dm == (if b == 5 && mode == 0 then 2 else mode) && ReadDisp(s, p + 2, dm) == Some((w, n))
    ensures Decode(s, p) == Some(Decoded(reg, At(if b == 5 && mode == 0 then None else Some(b), if idx == 4 then None else Some(idx), Pow2(sb), w), 2 + n))
  {
    FieldsRead(mode, reg, 4);
    FieldsRead(sb, idx, b);
    hide Fields, Field2, Field3, Field4, ReadDisp;
  }

  lemma AbsoluteTrip(reg: nat, o: Operand, s: seq<Byte>, p: nat)
    requires reg < 8 && Parsed(o) && o.Mem? && o.base.None? && o.index.None? && HasAt(s, p, EmitModrm(reg, o).value)
    ensures var d := Decode(s, p);
            && d.Some? && d.value.reg == reg && d.value.len == |EmitModrm(reg, o).value| && Same(o, d.value.place)
  {
    hide Bytes4, ReadWord, Pow2, ReadDisp, Decode, Fields, DecodeSib;
    var head := [Fields(0, reg, 5)];
    var w := Wrap(o.disp.val);
    assert DispBytes(2, o.disp.val) == Bytes4(w);
    HasParts(s, p, head, DispBytes(2, o.disp.val));
    assert s[p + 0] == head[0];
    DispRead(s, p + 1, 2, o.disp.val);
    DecodePlain(s, p, 0, reg, 5, 2, w, 4);
    SumWraps(0, o.disp.val);
    hide HasAt, Wrap;
  }

  lemma IndexTrip(reg: nat, o: Operand, s: seq<Byte>, p: nat)
    requires reg < 8 && Parsed(o) && o.Mem? && o.base.None? && o.index.Some? && EmitModrm(reg, o).Some?
    requires HasAt(s, p, EmitModrm(reg, o).value)
    ensures var d := Decode(s, p);
            && d.Some? && d.value.reg == reg && d.value.len == |EmitModrm(reg, o).value| && Same(o, d.value.place)
  {
    hide Bytes4, ReadWord, Pow2, ReadDisp, Decode, Fields, DecodeSib;
    ScalePow(o.scale);
    var sb, i, w := ScaleBits(o.scale).value, o.index.value, Wrap(o.disp.val);
    var head := [Fields(0, reg, 4), Fields(sb, i, 5)];
    assert DispBytes(2, o.disp.val) == Bytes4(w);
    HasParts(s, p, head, DispBytes(2, o.disp.val));
    assert s[p + 0] == head[0] && s[p + 1] == head[1];
    DispRead(s, p + 2, 2, o.disp.val);
    DecodeScaled(s, p, 0, reg, sb, i, 5, 2, w, 4);
    SameSum(o, At(None, Some(i), o.scale, w));
    hide HasAt, Wrap, ScaleBits, Same;
  }

  /** Base and scaled index alike, displacement modulo 2^32. */
  lemma SameSum(o: Operand, pl: Place)
    requires o.Mem? && Parsed(o) && pl.At? && pl.base == o.base && pl.index == o.index && pl.disp == Wrap(o.disp.val)
    requires o.index.Some? ==> pl.scale == o.scale
    ensures Same(o, pl)
  {
    forall r: Regs | true ensures Effective(pl, r) == Address(o, r) {
      SumWraps((if o.base.Some? then r[o.base.value] else 0) + (if o.index.Some? then r[o.index.value] * o.scale else 0), o.disp.val);
    }
  }

  lemma ModeDisp(b: nat, d: Value)
    ensures Mode(b, d) == 0 ==> d.val == 0 && b != 5
    ensures Mode(b, d) == 1 ==> -128 <= d.val <= 127
  {
  }

  lemma BaseTrip(reg: nat, o: Operand, s: seq<Byte>, p: nat)
    requires reg < 8 && Parsed(o) && o.Mem? && o.base.Some? && o.base.value != 4 && o.index.None?
    requires HasAt(s, p, EmitModrm(reg, o).value)
    ensures var d := Decode(s, p);
            && d.Some? && d.value.reg == reg && d.value.len == |EmitModrm(reg, o).value| && Same(o, d.value.place)
  {
    hide Bytes4, ReadWord, Pow2, ReadDisp, DispBytes, Decode, Fields;
    var b, w := o.base.value, Wrap(o.disp.val);
    var mode := Mode(b, o.disp);
    ModeDisp(b, o.disp);
    var head := [Fields(mode, reg, b)];
    HasParts(s, p, head, DispBytes(mode, o.disp.val));
    assert s[p + 0] == head[0];
    hide Mode;
    DispRead(s, p + 1, mode, o.disp.val);
    DecodePlain(s, p, mode, reg, b, mode, w, |DispBytes(mode, o.disp.val)|);
    SameSum(o, At(Some(b), None, 1, w));
  }

  lemma SibTrip(reg: nat, o: Operand, s: seq<Byte>, p: nat)
    requires reg < 8 && Parsed(o) && o.Mem? && o.base.Some? && (o.base.value == 4 || o.index.Some?) && EmitModrm(reg, o).Some?
    requires HasAt(s, p, EmitModrm(reg, o).value)
    ensures var d := Decode(s, p);
            && d.Some? && d.value.reg == reg && d.value.len == |EmitModrm(reg, o).value| && Same(o, d.value.place)
  {
    hide Bytes4, ReadWord, Pow2, ReadDisp, DispBytes, Decode, Fields;
    ScalePow(o.scale);
    var b, sb, w := o.base.value, ScaleBits(o.scale).value, Wrap(o.disp.val);
    var idx := if o.index.Some? then o.index.value else 4;
    var mode := Mode(b, o.disp);
    ModeDisp(b, o.disp);
    var head := [Fields(mode, reg, 4), Fields(sb, idx, b)];
    HasParts(s, p, head, DispBytes(mode, o.disp.val));
    assert s[p + 0] == head[0] && s[p + 1] == head[1];
    hide Mode;
    DispRead(s, p + 2, mode, o.disp.val);
    DecodeScaled(s, p, mode, reg, sb, idx, b, mode, w, |DispBytes(mode, o.disp.val)|);
    SameSum(o, At(Some(b), o.index, o.scale, w));
  }

  /** Operands that differ only in the value of a symbol. */
  predicate SameShape(v: Value, w: Value) { v.hasSym == w.hasSym && (!v.hasSym ==> v.val == w.val) }

  predicate SameForm(o: Operand, q: Operand) {
    match (o, q)
    case (Reg(a, b), Reg(c, d)) => a == c && b == d
    case (Imm(v), Imm(w)) => SameShape(v, w)
    case (Mem(a, b, c, v), Mem(d, e, f, w)) => a == d && b == e && c == f && SameShape(v, w)
    case _ => false
  }

  /** Their encodings have the same length. */
  lemma ModrmLength(reg: nat, o: Operand, q: Operand)
    requires reg < 8 && Parsed(o) && Parsed(q) && SameForm(o, q)
    ensures EmitModrm(reg, o).Some? <==> EmitModrm(reg, q).Some?
    ensures EmitModrm(reg, o).Some? ==> |EmitModrm(reg, o).value| == |EmitModrm(reg, q).value|
  {
  }
}
