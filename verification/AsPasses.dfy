/** The assembler's passes: sizes first, then bytes, twice.
 */
module AsPasses {
  import opened Options
  import opened Word32
  import opened AsModrm
  import opened AsInsn

  datatype Sec = Text | Data | Bss

  datatype Ex = Num(v: int) | Dot | Name(name: string) | Neg(e: Ex) | Plus(a: Ex, b: Ex) | Minus(a: Ex, b: Ex)

  /** Operands as written. */
  datatype Arg = AReg(reg: nat, size: nat) | AImm(e: Ex) | AMem(base: Option<nat>, index: Option<nat>, scale: int, disp: Ex)

  datatype Stmt =
    | Label(name: string)
    | Section(sec: Sec)
    | Items(width: nat, vals: seq<Ex>)
    | Ascii(bytes: seq<Byte>)
    | Space(count: Ex, fill: Option<Ex>)
    | Align(align: Ex, power: bool)
    | Equ(name: string, val: Ex)
    | Insn(m: Mnem, args: seq<Arg>, size: nat)

  datatype Sym = Sym(sec: Sec, offset: int, addr: int, isAbs: bool)
  type Syms = map<string, Sym>

  datatype Bases = Bases(text: int, data: int, bss: int)

  datatype State = State(sec: Sec, text: seq<Byte>, data: seq<Byte>, bss: int, syms: Syms)

  // ----- expressions -----

  function Int32(x: int): int { Signed(Wrap(x)) }

  function HasSym(e: Ex): bool {
    match e
    case Num(_) => false
    case Dot => true
    case Name(_) => true
    case Neg(a) => HasSym(a)
    case Plus(a, b) => HasSym(a) || HasSym(b)
    case Minus(a, b) => HasSym(a) || HasSym(b)
  }

  /** `parse_expr` at address `here`; None for a symbol pass 2 does not know. */
  function Eval(pass: nat, syms: Syms, here: int, e: Ex): (r: Option<int>)
    ensures r.Some? ==> -TWO31 <= r.value < TWO31
  {
    match e
    case Num(v) => Some(Int32(v))
    case Dot => Some(Int32(here))
    case Name(n) => if pass != 2 then Some(0) else if n in syms then Some(Int32(syms[n].addr)) else None
    case Neg(a) => (match Eval(pass, syms, here, a) case Some(x) => Some(Int32(-x)) case None => None)
    case Plus(a, b) =>
      (match (Eval(pass, syms, here, a), Eval(pass, syms, here, b)) case (Some(x), Some(y)) => Some(Int32(x + y)) case _ => None)
    case Minus(a, b) =>
      (match (Eval(pass, syms, here, a), Eval(pass, syms, here, b)) case (Some(x), Some(y)) => Some(Int32(x - y)) case _ => None)
  }

  /** Without a symbol the value is the same everywhere. */
  lemma {:induction false} ConstEval(e: Ex, p: nat, s: Syms, h: int, q: nat, t: Syms, g: int)
    requires !HasSym(e)
    ensures Eval(p, s, h, e) == Eval(q, t, g, e) && Eval(p, s, h, e).Some?
  {
    hide Int32;
    match e
    case Num(_) =>
    case Neg(a) => ConstEval(a, p, s, h, q, t, g);
    case Plus(a, b) => ConstEval(a, p, s, h, q, t, g); ConstEval(b, p, s, h, q, t, g);
    case Minus(a, b) => ConstEval(a, p, s, h, q, t, g); ConstEval(b, p, s, h, q, t, g);
  }

  predicate ArgOk(a: Arg) {
    match a
    case AReg(r, s) => r < 8 && (s == 1 || s == 2 || s == 4)
    case AImm(_) => true
    case AMem(b, i, _, _) => (b.Some? ==> b.value < 8) && (i.Some? ==> i.value < 8 && i.value != 4)
  }

  function EvalArg(pass: nat, syms: Syms, here: int, a: Arg): (r: Option<Operand>)
    ensures r.Some? && ArgOk(a) ==> Parsed(r.value)
  {
    match a
    case AReg(r, s) => Some(Reg(r, s))
    case AImm(e) => (match Eval(pass, syms, here, e) case Some(v) => Some(Imm(Value(v, HasSym(e)))) case None => None)
    case AMem(b, i, s, e) => (match Eval(pass, syms, here, e) case Some(v) => Some(Mem(b, i, s, Value(v, HasSym(e)))) case None => None)
  }

  predicate ArgsOk(args: seq<Arg>) { forall i :: 0 <= i < |args| ==> ArgOk(args[i]) }

  function EvalArgs(pass: nat, syms: Syms, here: int, args: seq<Arg>): (r: Option<seq<Operand>>)
    ensures r.Some? ==> |r.value| == |args|
    ensures r.Some? ==> forall i :: 0 <= i < |args| ==> EvalArg(pass, syms, here, args[i]) == Some(r.value[i])
  {
    if args == [] then Some([])
    else
      match (EvalArg(pass, syms, here, args[0]), EvalArgs(pass, syms, here, args[1..]))
      case (Some(o), Some(os)) => Some([o] + os)
      case _ => None
  }

  lemma ArgForm(a: Arg, p: nat, s: Syms, h: int, q: nat, t: Syms, g: int)
    requires ArgOk(a) && EvalArg(p, s, h, a).Some? && EvalArg(q, t, g, a).Some?
    ensures SameForm(EvalArg(p, s, h, a).value, EvalArg(q, t, g, a).value)
  {
    if a.AImm? && !HasSym(a.e) { ConstEval(a.e, p, s, h, q, t, g); }
    if a.AMem? && !HasSym(a.disp) { ConstEval(a.disp, p, s, h, q, t, g); }
  }

  lemma ArgForms(args: seq<Arg>, p: nat, s: Syms, h: int, q: nat, t: Syms, g: int)
    requires ArgsOk(args) && EvalArgs(p, s, h, args).Some? && EvalArgs(q, t, g, args).Some?
    ensures SameForms(EvalArgs(p, s, h, args).value, EvalArgs(q, t, g, args).value)
  {
    hide EvalArgs, SameForm;
    var os, qs := EvalArgs(p, s, h, args).value, EvalArgs(q, t, g, args).value;
    forall i | 0 <= i < |args| ensures Parsed(os[i]) && Parsed(qs[i]) && SameForm(os[i], qs[i]) {
      assert EvalArg(p, s, h, args[i]) == Some(os[i]) && EvalArg(q, t, g, args[i]) == Some(qs[i]);
      ArgForm(args[i], p, s, h, q, t, g);
    }
  }

  // ----- statements -----

  predicate StmtOk(x: Stmt) { x.Insn? ==> Known(x.m) && ArgsOk(x.args) }

  function Len(st: State, sec: Sec): int { match sec case Text => |st.text| case Data => |st.data| case Bss => st.bss }
  function BaseOf(b: Bases, sec: Sec): int { match sec case Text => b.text case Data => b.data case Bss => b.bss }

  /** `cur_addr`. */
  function Here(b: Bases, st: State): int { BaseOf(b, st.sec) + Len(st, st.sec) }

  /** Bytes can go to the text and the data section only. */
  function Emit(st: State, bytes: seq<Byte>): Option<State> {
    match st.sec
    case Text => Some(st.(text := st.text + bytes))
    case Data => Some(st.(data := st.data + bytes))
    case Bss => if bytes == [] then Some(st) else None
  }

  function Narrow(width: nat, v: int): seq<Byte> {
    if width == 1 then [Low(v)] else if width == 4 then Bytes4(Wrap(v)) else [Low(v), Low(v / 256)]
  }

  /** Each value is evaluated where it will be stored. */
  function EmitItems(pass: nat, b: Bases, st: State, width: nat, vals: seq<Ex>): Option<State>
    decreases |vals|
  {
    if vals == [] then Some(st)
    else
      match Eval(pass, st.syms, Here(b, st), vals[0])
      case None => None
      case Some(v) =>
        match Emit(st, Narrow(width, v))
        case None => None
        case Some(t) => EmitItems(pass, b, t, width, vals[1..])
  }

  function Repeat(v: Byte, n: int): seq<Byte> { seq(if n > 0 then n else 0, _ => v) }

  /** `.p2align` doubles 1 that often; 31 times or more leaves no alignment. */
  function AlignTo(power: bool, v: int): int {
    if !power then v else if v <= 0 then 1 else if v < 31 then Pow2(v) else 0
  }

  function Padding(len: int, align: int): (n: int)
    ensures n >= 0
  {
    if align <= 1 then 0 else (-len) % align
  }

  function Pad(st: State, n: int): Option<State> {
    if st.sec.Bss? then Some(st.(bss := st.bss + n)) else Emit(st, Repeat(if st.sec.Text? then 0x90 else 0, n))
  }

  /** One statement; None where an error is reported. */
  function Step(pass: nat, b: Bases, st: State, x: Stmt): Option<State>
    requires StmtOk(x)
  {
    match x
    case Label(n) =>
      if pass != 1 then Some(st)
      else if n in st.syms then None
      else Some(st.(syms := st.syms[n := Sym(st.sec, Len(st, st.sec), 0, false)]))
    case Section(s) => Some(st.(sec := s))
    case Items(w, vs) => EmitItems(pass, b, st, w, vs)
    case Ascii(bs) => Emit(st, bs)
    case Space(n, f) =>
      if HasSym(n) then None
      else
        (match (Eval(pass, st.syms, Here(b, st), n), match f case Some(e) => Eval(pass, st.syms, Here(b, st), e) case None => Some(0))
         case (Some(c), Some(v)) =>
           (if st.sec.Bss? then Some(st.(bss := st.bss + c)) else Emit(st, Repeat(Low(v), c)))
         case _ => None)
    case Align(e, p) =>
      (match Eval(pass, st.syms, Here(b, st), e)
       case Some(v) => Pad(st, Padding(Len(st, st.sec), AlignTo(p, v)))
       case None => None)
    case Equ(n, e) =>
      (match Eval(pass, st.syms, Here(b, st), e)
       case Some(v) => Some(st.(syms := st.syms[n := if n in st.syms then st.syms[n].(addr := v, isAbs := true) else Sym(Text, 0, v, true)]))
       case None => None)
    case Insn(m, args, size) =>
      (match EvalArgs(pass, st.syms, Here(b, st), args)
       case None => None
       case Some(ops) =>
         match Encode(m, ops, size, pass, Here(b, st))
         case None => None
         case Some(bs) => Emit(st, bs))
  }

  predicate AllOk(ss: seq<Stmt>) { forall i :: 0 <= i < |ss| ==> StmtOk(ss[i]) }

  function Run(pass: nat, b: Bases, st: State, ss: seq<Stmt>): Option<State>
    requires AllOk(ss)
    decreases |ss|
  {
    if ss == [] then Some(st)
    else
      match Run(pass, b, st, ss[..|ss| - 1])
      case None => None
      case Some(t) => Step(pass, b, t, ss[|ss| - 1])
  }

  // ----- the driver -----

  function Fresh(syms: Syms): State { State(Text, [], [], 0, syms) }

  const NoBases := Bases(0, 0, 0)

  /** Section bases after pass 1. */
  function FinalBases(r: State): Bases { Bases(84, 84 + |r.text|, 84 + |r.text| + |r.data|) }

  /** Addresses of everything but `.equ` symbols. */
  function Settle(b: Bases, syms: Syms): Syms {
    map n | n in syms :: if syms[n].isAbs then syms[n] else syms[n].(addr := BaseOf(b, syms[n].sec) + syms[n].offset)
  }

  /** The results of the three runs of an accepted program. */
  ghost predicate Assembles(ss: seq<Stmt>, r1: State, ra: State, rb: State) {
    && AllOk(ss)
    && Run(1, NoBases, Fresh(map[]), ss) == Some(r1)
    && Run(2, FinalBases(r1), Fresh(Settle(FinalBases(r1), r1.syms)), ss) == Some(ra)
    && Run(2, FinalBases(r1), Fresh(ra.syms), ss) == Some(rb)
  }

  // ----- what a run accepts -----

  /** In pass 2 an expression has a value if its names are defined, whatever their
      values. */
  lemma {:induction false} EvalSome(e: Ex, s: Syms, t: Syms, h: int, g: int)
    requires s.Keys == t.Keys
    ensures Eval(2, s, h, e).Some? <==> Eval(2, t, g, e).Some?
  {
    hide Int32;
    match e
    case Num(_) =>
    case Dot =>
    case Name(n) => assert n in s <==> n in s.Keys;
    case Neg(a) => EvalSome(a, s, t, h, g);
    case Plus(a, b) => EvalSome(a, s, t, h, g); EvalSome(b, s, t, h, g);
    case Minus(a, b) => EvalSome(a, s, t, h, g); EvalSome(b, s, t, h, g);
  }

  lemma ArgSome(a: Arg, s: Syms, t: Syms, h: int, g: int)
    requires s.Keys == t.Keys
    ensures EvalArg(2, s, h, a).Some? <==> EvalArg(2, t, g, a).Some?
  {
    hide Eval;
    match a
    case AReg(_, _) =>
    case AImm(e) => EvalSome(e, s, t, h, g);
    case AMem(_, _, _, e) => EvalSome(e, s, t, h, g);
  }

  lemma {:induction false} ArgsSome(args: seq<Arg>, s: Syms, t: Syms, h: int, g: int)
    requires s.Keys == t.Keys
    ensures EvalArgs(2, s, h, args).Some? <==> EvalArgs(2, t, g, args).Some?
  {
    hide EvalArg;
    if args != [] {
      ArgSome(args[0], s, t, h, g);
      ArgsSome(args[1..], s, t, h, g);
    }
  }

  /** Same section, same names. */
  ghost predicate SameNames(s: State, t: State) { s.sec == t.sec && s.syms.Keys == t.syms.Keys }

  lemma EmitSome(s: State, t: State, a: seq<Byte>, b: seq<Byte>)
    requires SameNames(s, t) && (a == [] <==> b == [])
    ensures Emit(s, a).Some? <==> Emit(t, b).Some?
    ensures Emit(s, a).Some? ==> SameNames(Emit(s, a).value, Emit(t, b).value)
  {
  }

  lemma {:induction false} ItemsSome(b: Bases, c: Bases, s: State, t: State, w: nat, vs: seq<Ex>)
    requires SameNames(s, t)
    ensures EmitItems(2, b, s, w, vs).Some? <==> EmitItems(2, c, t, w, vs).Some?
    ensures EmitItems(2, b, s, w, vs).Some? ==> SameNames(EmitItems(2, b, s, w, vs).value, EmitItems(2, c, t, w, vs).value)
    decreases |vs|
  {
    hide Eval, Emit, Here;
    if vs != [] {
      EvalSome(vs[0], s.syms, t.syms, Here(b, s), Here(c, t));
      var x, y := Eval(2, s.syms, Here(b, s), vs[0]), Eval(2, t.syms, Here(c, t), vs[0]);
      if x.Some? {
        var p, q := Narrow(w, x.value), Narrow(w, y.value);
        EmitSome(s, t, p, q);
        if Emit(s, p).Some? { ItemsSome(b, c, Emit(s, p).value, Emit(t, q).value, w, vs[1..]); }
      }
    }
  }

  lemma InsnSome(b: Bases, c: Bases, s: State, t: State, x: Stmt)
    requires SameNames(s, t) && x.Insn? && StmtOk(x)
    ensures Step(2, b, s, x).Some? <==> Step(2, c, t, x).Some?
    ensures Step(2, b, s, x).Some? ==> SameNames(Step(2, b, s, x).value, Step(2, c, t, x).value)
  {
    ArgsSome(x.args, s.syms, t.syms, Here(b, s), Here(c, t));
    var os, qs := EvalArgs(2, s.syms, Here(b, s), x.args), EvalArgs(2, t.syms, Here(c, t), x.args);
    if os.Some? {
      ArgForms(x.args, 2, s.syms, Here(b, s), 2, t.syms, Here(c, t));
      hide Encode, EvalArgs, Emit;
      EncodeSize(x.m, os.value, qs.value, x.size, 2, 2, Here(b, s), Here(c, t));
      var p, q := Encode(x.m, os.value, x.size, 2, Here(b, s)), Encode(x.m, qs.value, x.size, 2, Here(c, t));
      if p.Some? { EmitSome(s, t, p.value, q.value); }
    }
  }

  lemma StepAccepts(b: Bases, c: Bases, s: State, t: State, x: Stmt)
    requires SameNames(s, t) && StmtOk(x)
    ensures Step(2, b, s, x).Some? <==> Step(2, c, t, x).Some?
    ensures Step(2, b, s, x).Some? ==> SameNames(Step(2, b, s, x).value, Step(2, c, t, x).value)
  {
    hide Eval, Encode, EvalArgs, Here;
    match x
    case Label(_) =>
    case Section(_) =>
    case Items(w, vs) => ItemsSome(b, c, s, t, w, vs);
    case Ascii(bs) => EmitSome(s, t, bs, bs);
    case Space(n, f) =>
      EvalSome(n, s.syms, t.syms, Here(b, s), Here(c, t));
      if !HasSym(n) { ConstEval(n, 2, s.syms, Here(b, s), 2, t.syms, Here(c, t)); }
      if f.Some? { EvalSome(f.value, s.syms, t.syms, Here(b, s), Here(c, t)); }
    case Align(e, _) =>
      EvalSome(e, s.syms, t.syms, Here(b, s), Here(c, t));
      hide Padding, AlignTo;
    case Equ(_, e) => EvalSome(e, s.syms, t.syms, Here(b, s), Here(c, t));
    case Insn(_, _, _) => InsnSome(b, c, s, t, x);
  }

  /** What pass 2 accepts depends on which names are defined, not on their values:
      the middle run, whose diagnostics the driver drops, is accepted exactly when
      the last one is. */
  lemma {:induction false} RunAccepts(b: Bases, c: Bases, s: State, t: State, ss: seq<Stmt>)
    requires SameNames(s, t) && AllOk(ss)
    ensures Run(2, b, s, ss).Some? <==> Run(2, c, t, ss).Some?
    ensures Run(2, b, s, ss).Some? ==> SameNames(Run(2, b, s, ss).value, Run(2, c, t, ss).value)
    decreases |ss|
  {
    hide Step, SameNames;
    if ss != [] {
      var n := |ss| - 1;
      RunAccepts(b, c, s, t, ss[..n]);
      if Run(2, b, s, ss[..n]).Some? {
        StepAccepts(b, c, Run(2, b, s, ss[..n]).value, Run(2, c, t, ss[..n]).value, ss[n]);
      }
    }
  }

  /** None of the three runs reports an error. */
  ghost predicate Accepted(ss: seq<Stmt>)
    requires AllOk(ss)
  {
    var r1 := Run(1, NoBases, Fresh(map[]), ss);
    r1.Some?
    && (var b := FinalBases(r1.value);
        var ra := Run(2, b, Fresh(Settle(b, r1.value.syms)), ss);
        ra.Some? && Run(2, b, Fresh(ra.value.syms), ss).Some?)
  }

  // ----- the passes agree -----

  /** Same section, same section lengths. */
  predicate SameLayout(s: State, t: State) { s.sec == t.sec && |s.text| == |t.text| && |s.data| == |t.data| && s.bss == t.bss }

  predicate ConstantAlign(x: Stmt) { x.Align? ==> !HasSym(x.align) }

  lemma EmitLayout(s: State, t: State, a: seq<Byte>, b: seq<Byte>)
    requires SameLayout(s, t) && |a| == |b| && Emit(s, a).Some?
    ensures Emit(t, b).Some? && SameLayout(Emit(s, a).value, Emit(t, b).value)
  {
  }

  lemma {:induction false} ItemsLayout(p: nat, q: nat, b: Bases, c: Bases, s: State, t: State, w: nat, vs: seq<Ex>)
    requires SameLayout(s, t) && EmitItems(p, b, s, w, vs).Some? && EmitItems(q, c, t, w, vs).Some?
    ensures SameLayout(EmitItems(p, b, s, w, vs).value, EmitItems(q, c, t, w, vs).value)
    decreases |vs|
  {
    if vs != [] {
      var x, y := Eval(p, s.syms, Here(b, s), vs[0]).value, Eval(q, t.syms, Here(c, t), vs[0]).value;
      EmitLayout(s, t, Narrow(w, x), Narrow(w, y));
      ItemsLayout(p, q, b, c, Emit(s, Narrow(w, x)).value, Emit(t, Narrow(w, y)).value, w, vs[1..]);
    }
  }

  lemma SpaceLayout(p: nat, q: nat, b: Bases, c: Bases, s: State, t: State, x: Stmt)
    requires SameLayout(s, t) && x.Space? && Step(p, b, s, x).Some? && Step(q, c, t, x).Some?
    ensures SameLayout(Step(p, b, s, x).value, Step(q, c, t, x).value)
  {
    ConstEval(x.count, p, s.syms, Here(b, s), q, t.syms, Here(c, t));
    hide Eval, Here;
  }

  lemma AlignLayout(p: nat, q: nat, b: Bases, c: Bases, s: State, t: State, x: Stmt)
    requires SameLayout(s, t) && x.Align? && ConstantAlign(x) && Step(p, b, s, x).Some? && Step(q, c, t, x).Some?
    ensures SameLayout(Step(p, b, s, x).value, Step(q, c, t, x).value)
  {
    ConstEval(x.align, p, s.syms, Here(b, s), q, t.syms, Here(c, t));
    hide Eval, Here, Padding, AlignTo;
  }

  lemma InsnLayout(p: nat, q: nat, b: Bases, c: Bases, s: State, t: State, x: Stmt)
    requires SameLayout(s, t) && x.Insn? && StmtOk(x) && Step(p, b, s, x).Some? && Step(q, c, t, x).Some?
    ensures SameLayout(Step(p, b, s, x).value, Step(q, c, t, x).value)
  {
    ArgForms(x.args, p, s.syms, Here(b, s), q, t.syms, Here(c, t));
    var os, qs := EvalArgs(p, s.syms, Here(b, s), x.args).value, EvalArgs(q, t.syms, Here(c, t), x.args).value;
    hide Encode, EvalArgs;
    EncodeSize(x.m, os, qs, x.size, p, q, Here(b, s), Here(c, t));
    EmitLayout(s, t, Encode(x.m, os, x.size, p, Here(b, s)).value, Encode(x.m, qs, x.size, q, Here(c, t)).value);
  }

  /** One statement moves both runs on by the same amounts. */
  lemma StepLayout(p: nat, q: nat, b: Bases, c: Bases, s: State, t: State, x: Stmt)
    requires SameLayout(s, t) && StmtOk(x) && ConstantAlign(x) && Step(p, b, s, x).Some? && Step(q, c, t, x).Some?
    ensures SameLayout(Step(p, b, s, x).value, Step(q, c, t, x).value)
  {
    match x
    case Label(_) =>
    case Section(_) =>
    case Items(w, vs) => ItemsLayout(p, q, b, c, s, t, w, vs);
    case Ascii(bs) => EmitLayout(s, t, bs, bs);
    case Space(_, _) => SpaceLayout(p, q, b, c, s, t, x);
    case Align(_, _) => AlignLayout(p, q, b, c, s, t, x);
    case Equ(_, _) =>
    case Insn(_, _, _) => InsnLayout(p, q, b, c, s, t, x);
  }

  ghost predicate ConstantAligns(ss: seq<Stmt>) { forall i :: 0 <= i < |ss| ==> ConstantAlign(ss[i]) }

  lemma {:induction false} RunLayout(p: nat, q: nat, b: Bases, c: Bases, s: State, t: State, ss: seq<Stmt>)
    requires SameLayout(s, t) && AllOk(ss) && ConstantAligns(ss) && Run(p, b, s, ss).Some? && Run(q, c, t, ss).Some?
    ensures SameLayout(Run(p, b, s, ss).value, Run(q, c, t, ss).value)
    decreases |ss|
  {
    hide Step, SameLayout;
    if ss != [] {
      var n := |ss| - 1;
      RunLayout(p, q, b, c, s, t, ss[..n]);
      StepLayout(p, q, b, c, Run(p, b, s, ss[..n]).value, Run(q, c, t, ss[..n]).value, ss[n]);
    }
  }

  /** An accepted run was accepted at every statement. */
  lemma {:induction false} RunPrefix(p: nat, b: Bases, s: State, ss: seq<Stmt>, k: nat)
    requires AllOk(ss) && Run(p, b, s, ss).Some? && k <= |ss|
    ensures AllOk(ss[..k]) && Run(p, b, s, ss[..k]).Some?
    decreases |ss|
  {
    hide Step;
    if k < |ss| {
      RunPrefix(p, b, s, ss[..|ss| - 1], k);
      assert ss[..|ss| - 1][..k] == ss[..k];
    } else {
      assert ss[..k] == ss;
    }
  }

  /** The state in which statement `k` is reached. */
  function Reach(p: nat, b: Bases, s: State, ss: seq<Stmt>, k: nat): State
    requires AllOk(ss) && Run(p, b, s, ss).Some? && k <= |ss|
  {
    RunPrefix(p, b, s, ss, k);
    Run(p, b, s, ss[..k]).value
  }

  lemma ReachNext(p: nat, b: Bases, s: State, ss: seq<Stmt>, k: nat)
    requires AllOk(ss) && Run(p, b, s, ss).Some? && k < |ss|
    ensures Step(p, b, Reach(p, b, s, ss, k), ss[k]) == Some(Reach(p, b, s, ss, k + 1))
  {
    hide Step;
    RunPrefix(p, b, s, ss, k + 1);
    assert ss[..k + 1][..k] == ss[..k] && ss[..k + 1][k] == ss[k];
  }

  /** In all three runs every statement starts at the same place. */
  lemma PassesAgree(ss: seq<Stmt>, r1: State, ra: State, rb: State, k: nat)
    requires Assembles(ss, r1, ra, rb) && ConstantAligns(ss) && k <= |ss|
    ensures var b := FinalBases(r1);
            var s1 := Reach(1, NoBases, Fresh(map[]), ss, k);
            && SameLayout(s1, Reach(2, b, Fresh(Settle(b, r1.syms)), ss, k))
            && SameLayout(s1, Reach(2, b, Fresh(ra.syms), ss, k))
  {
    hide Run, Settle;
    var b := FinalBases(r1);
    RunPrefix(1, NoBases, Fresh(map[]), ss, k);
    RunPrefix(2, b, Fresh(Settle(b, r1.syms)), ss, k);
    RunPrefix(2, b, Fresh(ra.syms), ss, k);
    assert ConstantAligns(ss[..k]);
    RunLayout(1, 2, NoBases, b, Fresh(map[]), Fresh(Settle(b, r1.syms)), ss[..k]);
    RunLayout(1, 2, NoBases, b, Fresh(map[]), Fresh(ra.syms), ss[..k]);
  }

  /** A symbolic alignment breaks the agreement.  The program
      `.ascii "A"; .align x; l: .equ x, 4` is accepted: pass 1 pads with x = 0 and
      puts `l` at 85, the later runs pad with x = 4 and the bytes of `l` go to 88. */
  lemma SymbolicAlign() returns (r1: State, ra: State, rb: State)
    ensures Assembles(Misaligned(), r1, ra, rb)
    ensures "l" in rb.syms && rb.syms["l"].addr == 85 && 84 + |rb.text| == 88
  {
    r1 := MisalignedRun(1, NoBases, map[], 0);
    var b := FinalBases(r1);
    var settled := Settle(b, r1.syms);
    assert settled["x"].addr == 4 && settled["l"].addr == 85;
    ra := MisalignedRun(2, b, settled, 4);
    rb := MisalignedRun(2, b, ra.syms, 4);
    hide Run, Settle;
  }

  function Misaligned(): (ss: seq<Stmt>)
    ensures AllOk(ss)
  {
    [Ascii([65]), Align(Name("x"), false), Label("l"), Equ("x", Num(4))]
  }

  lemma RunSnoc(p: nat, b: Bases, s: State, ss: seq<Stmt>, x: Stmt)
    requires AllOk(ss) && StmtOk(x)
    ensures AllOk(ss + [x])
    ensures Run(p, b, s, ss + [x]) == match Run(p, b, s, ss) case None => None case Some(t) => Step(p, b, t, x)
  {
    hide Step;
    assert (ss + [x])[..|ss|] == ss;
  }

  lemma MisalignedRun(p: nat, b: Bases, syms: Syms, v: int) returns (r: State)
    requires Eval(p, syms, b.text + 1, Name("x")) == Some(v) && (v == 0 || v == 4)
    requires (p == 1 && syms == map[]) || (p == 2 && "x" in syms)
    ensures Run(p, b, Fresh(syms), Misaligned()) == Some(r) && r.data == [] && |r.text| == if v == 4 then 4 else 1
    ensures r.syms == if p == 1 then map["l" := Sym(Text, |r.text|, 0, false), "x" := Sym(Text, 0, 4, true)]
                      else syms["x" := syms["x"].(addr := 4, isAbs := true)]
  {
    var ss := Misaligned();
    var s0 := Fresh(syms);
    var s1 := s0.(text := [65]);
    var s2 := s1.(text := [65] + Repeat(0x90, if v == 4 then 3 else 0));
    var s3 := if p == 1 then s2.(syms := map["l" := Sym(Text, |s2.text|, 0, false)]) else s2;
    r := s3.(syms := s3.syms["x" := if p == 1 then Sym(Text, 0, 4, true) else syms["x"].(addr := 4, isAbs := true)]);
    assert Step(p, b, s0, ss[0]) == Some(s1) by { assert [] + [65] == [65]; }
    assert Step(p, b, s1, ss[1]) == Some(s2) by { assert Padding(1, 4) == 3; hide Eval; }
    assert Step(p, b, s2, ss[2]) == Some(s3);
    assert Step(p, b, s3, ss[3]) == Some(r);
    hide Step;
    assert Run(p, b, s0, []) == Some(s0);
    hide Run;
    RunSnoc(p, b, s0, [], ss[0]);
    RunSnoc(p, b, s0, [ss[0]], ss[1]);
    RunSnoc(p, b, s0, [ss[0], ss[1]], ss[2]);
    RunSnoc(p, b, s0, [ss[0], ss[1], ss[2]], ss[3]);
    assert [] + [ss[0]] == [ss[0]] && [ss[0]] + [ss[1]] == [ss[0], ss[1]] && [ss[0], ss[1]] + [ss[2]] == [ss[0], ss[1], ss[2]]
        && [ss[0], ss[1], ss[2]] + [ss[3]] == ss;
  }

  // ----- labels -----

  ghost predicate Defines(ss: seq<Stmt>, n: string) { exists i :: 0 <= i < |ss| && ss[i].Equ? && ss[i].name == n }

  lemma ItemsSyms(p: nat, b: Bases, s: State, w: nat, vs: seq<Ex>)
    requires EmitItems(p, b, s, w, vs).Some?
    ensures EmitItems(p, b, s, w, vs).value.syms == s.syms
    decreases |vs|
  {
    if vs != [] {
      var x := Eval(p, s.syms, Here(b, s), vs[0]).value;
      ItemsSyms(p, b, Emit(s, Narrow(w, x)).value, w, vs[1..]);
    }
  }

  /** Only a label in pass 1 and `.equ` touch the symbol table. */
  lemma StepSyms(p: nat, b: Bases, s: State, x: Stmt)
    requires StmtOk(x) && Step(p, b, s, x).Some? && !x.Equ? && (x.Label? ==> p != 1)
    ensures Step(p, b, s, x).value.syms == s.syms
  {
    hide Encode, EvalArgs, Eval;
    if x.Items? { ItemsSyms(p, b, s, x.width, x.vals); }
  }

  /** A symbol keeps its entry while nothing redefines it; `.equ` makes it
      absolute for good. */
  lemma {:induction false} SymKept(p: nat, b: Bases, s: State, ss: seq<Stmt>, n: string)
    requires AllOk(ss) && Run(p, b, s, ss).Some? && n in s.syms
    ensures var t := Run(p, b, s, ss).value;
            n in t.syms && (if Defines(ss, n) then t.syms[n].isAbs else t.syms[n] == s.syms[n])
    ensures s.syms[n].isAbs ==> Run(p, b, s, ss).value.syms[n].isAbs
    decreases |ss|
  {
    if ss != [] {
      var k := |ss| - 1;
      var x := ss[k];
      SymKept(p, b, s, ss[..k], n);
      assert Defines(ss, n) <==> Defines(ss[..k], n) || (x.Equ? && x.name == n);
      var t := Run(p, b, s, ss[..k]).value;
      hide Run, Defines;
      if !x.Equ? && (x.Label? ==> p != 1) { StepSyms(p, b, t, x); }
    }
  }

  lemma {:induction false} RunFrom(p: nat, b: Bases, s: State, ss: seq<Stmt>, k: nat)
    requires AllOk(ss) && Run(p, b, s, ss).Some? && k <= |ss|
    ensures AllOk(ss[k..]) && Run(p, b, Reach(p, b, s, ss, k), ss[k..]) == Run(p, b, s, ss)
    decreases |ss|
  {
    hide Step;
    if k == |ss| {
      assert ss[..k] == ss && ss[k..] == [];
    } else {
      var n := |ss| - 1;
      RunPrefix(p, b, s, ss, n);
      RunFrom(p, b, s, ss[..n], k);
      assert ss[..n][..k] == ss[..k] && ss[..n][k..] == ss[k..][..n - k] && ss[k..][n - k] == ss[n];
    }
  }

  /** Every label that no `.equ` redefines has the address its bytes get. */
  lemma LabelLands(ss: seq<Stmt>, r1: State, ra: State, rb: State, k: nat)
    requires Assembles(ss, r1, ra, rb) && ConstantAligns(ss) && k < |ss| && ss[k].Label? && !Defines(ss, ss[k].name)
    ensures var n := ss[k].name;
            && n in rb.syms && !rb.syms[n].isAbs
            && rb.syms[n].addr == Here(FinalBases(r1), Reach(2, FinalBases(r1), Fresh(ra.syms), ss, k))
  {
    var n, b := ss[k].name, FinalBases(r1);
    var s0 := Fresh(map[]);
    var at, next := Reach(1, NoBases, s0, ss, k), Reach(1, NoBases, s0, ss, k + 1);
    ReachNext(1, NoBases, s0, ss, k);
    RunFrom(1, NoBases, s0, ss, k + 1);
    assert !Defines(ss[k + 1..], n);
    SymKept(1, NoBases, next, ss[k + 1..], n);
    assert r1.syms[n] == Sym(at.sec, Len(at, at.sec), 0, false);
    SymKept(2, b, Fresh(Settle(b, r1.syms)), ss, n);
    SymKept(2, b, Fresh(ra.syms), ss, n);
    hide Run, Defines;
    PassesAgree(ss, r1, ra, rb, k);
  }

  // ----- .equ settles -----

  function Names(e: Ex): set<string> {
    match e
    case Num(_) => {}
    case Dot => {}
    case Name(n) => {n}
    case Neg(a) => Names(a)
    case Plus(a, b) => Names(a) + Names(b)
    case Minus(a, b) => Names(a) + Names(b)
  }

  /** Each `.equ` name is defined once, from names no later `.equ` defines. */
  ghost predicate Forward(ss: seq<Stmt>) {
    forall i, j :: 0 <= i < |ss| && 0 <= j < |ss| && ss[i].Equ? && ss[j].Equ? ==>
      (i != j ==> ss[i].name != ss[j].name) && (i <= j ==> ss[j].name !in Names(ss[i].val))
  }

  /** Evaluation looks only at the names in the expression. */
  lemma {:induction false} EvalNames(p: nat, s: Syms, t: Syms, h: int, e: Ex)
    requires forall n :: n in Names(e) ==> (n in s <==> n in t) && (n in s ==> s[n].addr == t[n].addr)
    ensures Eval(p, s, h, e) == Eval(p, t, h, e)
  {
    hide Int32;
    match e
    case Num(_) =>
    case Dot =>
    case Name(n) => assert n in Names(e);
    case Neg(a) => EvalNames(p, s, t, h, a);
    case Plus(a, b) => EvalNames(p, s, t, h, a); EvalNames(p, s, t, h, b);
    case Minus(a, b) => EvalNames(p, s, t, h, a); EvalNames(p, s, t, h, b);
  }

  /** In pass 2 a name that is no `.equ` of the rest is what it will be. */
  lemma {:induction false} SettledFrom(b: Bases, s: State, ss: seq<Stmt>, n: string)
    requires AllOk(ss) && Run(2, b, s, ss).Some? && !Defines(ss, n)
    ensures var t := Run(2, b, s, ss).value; (n in s.syms <==> n in t.syms) && (n in s.syms ==> t.syms[n] == s.syms[n])
    decreases |ss|
  {
    if ss != [] {
      var k := |ss| - 1;
      var x := ss[k];
      assert forall i :: 0 <= i < k ==> ss[..k][i] == ss[i];
      SettledFrom(b, s, ss[..k], n);
      var t := Run(2, b, s, ss[..k]).value;
      hide Run;
      if !x.Equ? { StepSyms(2, b, t, x); } else { assert x.name != n; }
    }
  }

  /** Nothing changes in the last run: at every statement, even before a `.equ`
      line, every symbol already has its final value. */
  lemma {:induction false} SymbolsSettled(ss: seq<Stmt>, r1: State, ra: State, rb: State, k: nat)
    requires Assembles(ss, r1, ra, rb) && ConstantAligns(ss) && Forward(ss) && k <= |ss|
    ensures Reach(2, FinalBases(r1), Fresh(ra.syms), ss, k).syms == ra.syms
    decreases k
  {
    var b := FinalBases(r1);
    if k > 0 {
      var x := ss[k - 1];
      SymbolsSettled(ss, r1, ra, rb, k - 1);
      ReachNext(2, b, Fresh(ra.syms), ss, k - 1);
      var st := Reach(2, b, Fresh(ra.syms), ss, k - 1);
      hide Run;
      if x.Equ? {
        EquSame(ss, r1, ra, rb, k - 1);
      } else {
        StepSyms(2, b, st, x);
      }
    } else {
      assert ss[..0] == [];
    }
  }

  /** A `.equ` gets the value it got in the run before. */
  lemma EquSame(ss: seq<Stmt>, r1: State, ra: State, rb: State, k: nat)
    requires Assembles(ss, r1, ra, rb) && ConstantAligns(ss) && Forward(ss) && k < |ss| && ss[k].Equ?
    requires Reach(2, FinalBases(r1), Fresh(ra.syms), ss, k).syms == ra.syms
    ensures Reach(2, FinalBases(r1), Fresh(ra.syms), ss, k + 1).syms == ra.syms
  {
    var b := FinalBases(r1);
    var x := ss[k];
    var f := Fresh(Settle(b, r1.syms));
    var sa, sb := Reach(2, b, f, ss, k), Reach(2, b, Fresh(ra.syms), ss, k);
    var na := Reach(2, b, f, ss, k + 1);
    ReachNext(2, b, f, ss, k);
    ReachNext(2, b, Fresh(ra.syms), ss, k);
    PassesAgree(ss, r1, ra, rb, k);
    RunFrom(2, b, f, ss, k);
    RunFrom(2, b, f, ss, k + 1);
    assert !Defines(ss[k + 1..], x.name);
    SettledFrom(b, na, ss[k + 1..], x.name);
    forall n | n in Names(x.val) ensures (n in sa.syms <==> n in ra.syms) && (n in sa.syms ==> sa.syms[n] == ra.syms[n]) {
      assert !Defines(ss[k..], n);
      SettledFrom(b, sa, ss[k..], n);
    }
    hide Run, Defines, Forward, Assembles;
    EvalNames(2, sa.syms, ra.syms, Here(b, sa), x.val);
    assert Here(b, sa) == Here(b, sb);
    hide Eval;
  }

  // ----- branches -----

  /** Text only grows. */
  lemma {:induction false} TextGrows(p: nat, b: Bases, s: State, ss: seq<Stmt>)
    requires AllOk(ss) && Run(p, b, s, ss).Some?
    ensures s.text <= Run(p, b, s, ss).value.text
    decreases |ss|
  {
    if ss != [] {
      var k := |ss| - 1;
      TextGrows(p, b, s, ss[..k]);
      var t := Run(p, b, s, ss[..k]).value;
      hide Run;
      StepGrows(p, b, t, ss[k]);
    }
  }

  lemma StepGrows(p: nat, b: Bases, s: State, x: Stmt)
    requires StmtOk(x) && Step(p, b, s, x).Some?
    ensures s.text <= Step(p, b, s, x).value.text
  {
    hide Encode, EvalArgs, Eval;
    if x.Items? { ItemsGrow(p, b, s, x.width, x.vals); }
  }

  lemma ItemsGrow(p: nat, b: Bases, s: State, w: nat, vs: seq<Ex>)
    requires EmitItems(p, b, s, w, vs).Some?
    ensures s.text <= EmitItems(p, b, s, w, vs).value.text
    decreases |vs|
  {
    if vs != [] {
      var x := Eval(p, s.syms, Here(b, s), vs[0]).value;
      ItemsGrow(p, b, Emit(s, Narrow(w, x)).value, w, vs[1..]);
    }
  }

  /** A branch as written: a condition, or `jmp`/`call` to an absolute operand. */
  predicate BranchStmt(x: Stmt) {
    x.Insn? && |x.args| == 1 && (x.m.Jcc? || ((x.m.Jmp? || x.m.Call?) && x.args[0].AMem? && x.args[0].base.None? && x.args[0].index.None?))
  }

  function TargetOf(a: Arg): Ex { match a case AReg(_, _) => Num(0) case AImm(e) => e case AMem(_, _, _, e) => e }

  /** In the final text every branch's distance, from the end of its own bytes,
      leads to the value of its target. */
  lemma BranchLands(ss: seq<Stmt>, r1: State, ra: State, rb: State, k: nat)
    requires Assembles(ss, r1, ra, rb) && ConstantAligns(ss) && k < |ss| && BranchStmt(ss[k])
    requires Reach(2, FinalBases(r1), Fresh(ra.syms), ss, k).sec == Text
    ensures var b := FinalBases(r1);
            var st, next := Reach(2, b, Fresh(ra.syms), ss, k), Reach(2, b, Fresh(ra.syms), ss, k + 1);
            var v := Eval(2, st.syms, Here(b, st), TargetOf(ss[k].args[0]));
            && 4 <= |next.text| <= |rb.text| && v.Some?
            && Wrap(b.text + |next.text| + ReadWord(rb.text, |next.text| - 4)) == Wrap(v.value)
  {
    var b, x := FinalBases(r1), ss[k];
    var st, next := Reach(2, b, Fresh(ra.syms), ss, k), Reach(2, b, Fresh(ra.syms), ss, k + 1);
    ReachNext(2, b, Fresh(ra.syms), ss, k);
    RunFrom(2, b, Fresh(ra.syms), ss, k + 1);
    TextGrows(2, b, next, ss[k + 1..]);
    hide Run;
    assert StmtOk(x) && Step(2, b, st, x) == Some(next);
    hide Eval, Assembles, ConstantAligns, Reach;
    var ops := EvalArgs(2, st.syms, Here(b, st), x.args).value;
    assert EvalArg(2, st.syms, Here(b, st), x.args[0]) == Some(ops[0]);
    assert ArgOk(x.args[0]) && Parsed(ops[0]);
    BranchReaches(x.m, ops, x.size, Here(b, st));
    var bytes := Encode(x.m, ops, x.size, 2, Here(b, st)).value;
    assert next.text == st.text + bytes;
    hide Encode, EvalArgs, Step, ReadWord, Wrap;
    SameTail(rb.text, st.text, bytes, next.text);
    NumZero(st.syms, Here(b, st));
  }

  lemma NumZero(syms: Syms, here: int)
    ensures Eval(2, syms, here, Num(0)) == Some(0)
  {
  }

  lemma SameTail(whole: seq<Byte>, front: seq<Byte>, bytes: seq<Byte>, next: seq<Byte>)
    requires next == front + bytes && next <= whole && |bytes| >= 4
    ensures ReadWord(whole, |next| - 4) == ReadWord(bytes, |bytes| - 4)
  {
    assert forall i :: 0 <= i < |bytes| ==> next[|front| + i] == bytes[i];
  }
}
