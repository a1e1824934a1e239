/** What each straight-line tail of the generator does to the stack. */
module CcTails {
  import opened Options
  import opened Word32
  import opened CcAst
  import opened CcSource
  import opened X86
  import opened CcGen

  function ExecAll(ins: seq<Instr>, s: State): Option<State> {
    if ins == [] then Some(s)
    else match Exec(ins[0], s) case Some(t) => ExecAll(ins[1..], t) case None => None
  }

  lemma {:induction false} ExecCat(a: seq<Instr>, b: seq<Instr>, s: State)
    ensures ExecAll(a + b, s) ==
            match ExecAll(a, s) case Some(t) => ExecAll(b, t) case None => None
  {
    if a == [] {
      assert a + b == b;
    } else {
      assert (a + b)[1..] == a[1..] + b;
      match Exec(a[0], s)
      case None =>
      case Some(t) => ExecCat(a[1..], b, t);
    }
  }

  lemma Exec1(i: Instr, s: State)
    ensures ExecAll([i], s) == Exec(i, s)
  {
  }

  lemma Exec2(i: Instr, j: Instr, s: State)
    ensures ExecAll([i, j], s) == match Exec(i, s) case Some(t) => Exec(j, t) case None => None
  {
    assert [i, j][1..] == [j];
    match Exec(i, s)
    case None =>
    case Some(t) => Exec1(j, t);
  }

  lemma Exec3(i: Instr, j: Instr, k: Instr, s: State)
    ensures ExecAll([i, j, k], s) == match Exec(i, s) case Some(t) => ExecAll([j, k], t) case None => None
  {
    assert [i, j, k][1..] == [j, k];
  }

  /** `s` with the top `k` words gone and `v` pushed: registers other than esp
      and ebp, and the memory below the new top, are scratch. */
  ghost predicate Pushed(s: State, k: nat, v: Word, t: State) {
    && s.esp + 4 * k < TWO32
    && t.esp == s.esp + 4 * k - 4
    && t.ebp == s.ebp
    && Rd(t.mem, t.esp) == v
    && forall a: Word :: (a < s.esp && a < t.esp) || a >= s.esp + 4 * k ==> Rd(t.mem, a) == Rd(s.mem, a)
  }

  /** The two operands of a binary operator are on top of the stack. */
  ghost predicate Top2(s: State, a: Word, b: Word) {
    && Aligned(s.esp) && s.esp + 8 < TWO32
    && Rd(s.mem, s.esp) == b && Rd(s.mem, s.esp + 4) == a
  }

  ghost predicate Top1(s: State, a: Word) {
    && Aligned(s.esp) && s.esp + 4 < TWO32 && Rd(s.mem, s.esp) == a
  }

  /** Only eax, the scratch registers and the flags may have changed. */
  ghost predicate Computed(s: State, v: Word, t: State) {
    t.eax == v && t.esp == s.esp && t.ebp == s.ebp && t.mem == s.mem
  }

  lemma LoadAddrRuns(sy: Sym, s: State) returns (t: State)
    requires Aligned(s.esp) && s.esp >= 4
    ensures ExecAll(LoadAddr(sy), s) == Some(t)
    ensures Pushed(s, 0, AddrOfSym(s.ebp, sy), t)
  {
    var i, j := LoadAddr(sy)[0], PushEax;
    Exec2(i, j, s);
    t := Exec(j, Exec(i, s).value).value;
    if sy.place.Local? {
      WrapAdd(sy.place.offset, s.ebp);
      assert Wrap(s.ebp + Wrap(sy.place.offset)) == Wrap(s.ebp + sy.place.offset);
    }
  }

  lemma LoadFromRuns(s: State, a: Word) returns (t: State)
    requires Top1(s, a) && Aligned(a)
    ensures ExecAll(LoadFrom, s) == Some(t)
    ensures Pushed(s, 1, Rd(s.mem, a), t)
  {
    var s1, s2 := s.(eax := a, esp := s.esp + 4), s.(eax := Rd(s.mem, a), esp := s.esp + 4);
    assert Exec(PopEax, s) == Some(s1) && Exec(LoadEaxEax, s1) == Some(s2);
    t := PushBack(s, s2);
    hide Exec, Aligned, Pushed, Rd;
    Exec3(PopEax, LoadEaxEax, PushEax, s);
    Exec2(LoadEaxEax, PushEax, s1);
  }

  /** One operand popped, its result in eax pushed. */
  lemma PushBack(s: State, s2: State) returns (t: State)
    requires Aligned(s.esp) && s.esp + 4 < TWO32
    requires s2.esp == s.esp + 4 && s2.ebp == s.ebp && s2.mem == s.mem
    ensures Exec(PushEax, s2) == Some(t)
    ensures Pushed(s, 1, s2.eax, t)
  {
    t := s2.(esp := s.esp, mem := s.mem[s.esp := s2.eax]);
  }

  lemma StoreToRuns(s: State, a: Word, v: Word) returns (t: State)
    requires Top2(s, a, v) && Aligned(a)
    requires a < s.esp || a >= s.esp + 8
    ensures ExecAll(StoreTo, s) == Some(t)
    ensures t.esp == s.esp + 4 && t.ebp == s.ebp && Rd(t.mem, t.esp) == v
    ensures Rd(t.mem, a) == v
    ensures forall x: Word :: x != a && (x < s.esp || x >= s.esp + 8) ==> Rd(t.mem, x) == Rd(s.mem, x)
  {
    var pops, rest := [PopEax, PopEbx], [StoreEbxEax, PushEax];
    var s2 := s.(eax := v, ebx := a, esp := s.esp + 8);
    assert ExecAll(pops, s) == Some(s2) by { Exec2(PopEax, PopEbx, s); }
    t := s2.(esp := s.esp + 4, mem := s.mem[a := v][s.esp + 4 := v]);
    assert ExecAll(rest, s2) == Some(t) by { Exec2(StoreEbxEax, PushEax, s2); }
    assert StoreTo == pops + rest;
    ExecCat(pops, rest, s);
  }

  lemma TestTopRuns(s: State, v: Word) returns (t: State)
    requires Top1(s, v)
    ensures ExecAll(TestTop, s) == Some(t)
    ensures t.esp == s.esp + 4 && t.ebp == s.ebp && t.mem == s.mem
    ensures t.flags.Some? && (t.flags.value.zf <==> v == 0)
  {
    Exec2(PopEax, CmpEaxZero, s);
    t := Exec(CmpEaxZero, Exec(PopEax, s).value).value;
  }

  lemma LowBit(x: Word, b: Word)
    requires b <= 1
    ensures (x - x % 256 + b) % 256 == b
  {
  }

  /** `setcc al; movzx eax, al` turns a condition into 0 or 1. */
  lemma SetRuns(c: Cond, s: State) returns (t: State)
    requires s.flags.Some?
    ensures ExecAll([SetAl(c), MovzxEaxAl], s) == Some(t)
    ensures Computed(s, Truth(Holds(c, s.flags.value)), t)
  {
    Exec2(SetAl(c), MovzxEaxAl, s);
    LowBit(s.eax, Truth(Holds(c, s.flags.value)));
    t := Exec(MovzxEaxAl, Exec(SetAl(c), s).value).value;
  }

  lemma LogNotRuns(s: State, a: Word) returns (t: State)
    requires Top1(s, a)
    ensures ExecAll(UnTail(LogNot), s) == Some(t)
    ensures Pushed(s, 1, UnSem(LogNot, a), t)
  {
    var bool01 := [SetAl(CE), MovzxEaxAl];
    var s2 := TestTopRuns(s, a);
    var s4 := SetRuns(CE, s2);
    assert UnTail(LogNot) == TestTop + (bool01 + [PushEax]);
    ExecCat(TestTop, bool01 + [PushEax], s);
    ExecCat(bool01, [PushEax], s2);
    Exec1(PushEax, s4);
    t := Exec(PushEax, s4).value;
  }

  lemma NegWords(a: Word)
    ensures Wrap(0 - a) == UnSem(Neg, a)
    ensures TWO32 - 1 - a == UnSem(BitNot, a)
  {
    if a >= TWO31 {
      WrapShift(0 - a, 1);
      WrapShift(0 - a - 1, 1);
    }
  }

  lemma UnTailRuns(op: UnOp, s: State, a: Word) returns (t: State)
    requires Top1(s, a)
    ensures ExecAll(UnTail(op), s) == Some(t)
    ensures Pushed(s, 1, UnSem(op, a), t)
  {
    if op.LogNot? {
      t := LogNotRuns(s, a);
    } else {
      var i := if op.Neg? then NegEax else NotEax;
      var s1 := Exec(PopEax, s).value;
      Exec3(PopEax, i, PushEax, s);
      Exec2(i, PushEax, s1);
      NegWords(a);
      t := Exec(PushEax, Exec(i, s1).value).value;
    }
  }

  // ----- arithmetic on eax and ebx -----

  /** The flags of `cmp` decide every comparison, signed and unsigned. */
  lemma FlagsDecide(op: BinOp, u: bool, a: Word, b: Word)
    requires IsCmp(op)
    ensures Holds(CmpCond(op, u), CmpFlags(a, b)) <==> Compare(op, Val(u, a), Val(u, b))
  {
    var d := Wrap(a - b);
    assert d == if a >= b then a - b else a - b + TWO32;
  }

  lemma CompareRuns(op: BinOp, u: bool, s: State) returns (t: State)
    requires IsCmp(op)
    ensures ExecAll(ArithCore(op, u), s) == Some(t)
    ensures Computed(s, Truth(Compare(op, Val(u, s.eax), Val(u, s.ebx))), t)
  {
    var c := CmpCond(op, u);
    FlagsDecide(op, u, s.eax, s.ebx);
    Exec3(CmpEaxEbx, SetAl(c), MovzxEaxAl, s);
    t := SetRuns(c, Exec(CmpEaxEbx, s).value);
  }

  predicate IsSimple(op: BinOp) { op.Add? || op.Sub? || op.Mul? || op.BitAnd? || op.BitOr? || op.BitXor? }

  /** Signed or not, the low 32 bits come out the same. */
  lemma SimpleMath(op: BinOp, u: bool, a: Word, b: Word)
    requires IsSimple(op)
    ensures ArithSem(op, u, a, b)
         == Some(match op case Add => Wrap(a + b) case Sub => Wrap(a - b) case Mul => Wrap(a * b)
                          case BitAnd => WBits(BAnd, a, b) case BitOr => WBits(BOr, a, b) case _ => WBits(BXor, a, b))
  {
    hide Wrap, WBits;
    var i, j := if a < TWO31 then 0 else 1, if b < TWO31 then 0 else 1;
    assert Signed(a) == a - i * TWO32 && Signed(b) == b - j * TWO32;
    if op.Add? {
      WrapShift(a + b, -i - j);
    } else if op.Sub? {
      WrapShift(a - b, j - i);
    } else if op.Mul? {
      WrapMulSigned(a, b);
    }
  }

  lemma SimpleRuns(op: BinOp, u: bool, s: State) returns (t: State)
    requires IsSimple(op)
    ensures ExecAll(ArithCore(op, u), s) == Some(t)
    ensures ArithSem(op, u, s.eax, s.ebx).Some? && Computed(s, ArithSem(op, u, s.eax, s.ebx).value, t)
  {
    hide Wrap, WBits, ArithSem;
    Exec1(ArithCore(op, u)[0], s);
    t := Exec(ArithCore(op, u)[0], s).value;
    SimpleMath(op, u, s.eax, s.ebx);
  }

  lemma ShiftMul(x: int, k: int, p: int)
    ensures Wrap((x - k * TWO32) * p) == Wrap(x * p)
  {
    assert (x - k * TWO32) * p == x * p + (-k * p) * TWO32;
    WrapShift(x * p, -k * p);
  }

  lemma ShiftRuns(op: BinOp, u: bool, s: State) returns (t: State)
    requires IsShift(op) && s.ebx < 32
    ensures ExecAll(ArithCore(op, u), s) == Some(t)
    ensures ArithSem(op, u, s.eax, s.ebx).Some? && Computed(s, ArithSem(op, u, s.eax, s.ebx).value, t)
  {
    var i := ArithCore(op, u)[1];
    Exec2(MovEcxEbx, i, s);
    t := Exec(i, Exec(MovEcxEbx, s).value).value;
    var k := if s.eax < TWO31 then 0 else 1;
    assert Signed(s.eax) == s.eax - k * TWO32;
    ShiftMul(s.eax, k, Pow2(s.ebx));
  }

  /** |a / b| <= |a|, so a 32-bit dividend can overflow only upward. */
  lemma TruncBound(a: int, b: int)
    requires b != 0 && -TWO31 <= a < TWO31
    ensures -TWO31 <= TruncDiv(a, b) <= TWO31
  {
    var m, d := if a >= 0 then a else -a, if b > 0 then b else -b;
    NatDiv(m, d);
  }

  /** `cdq` widens eax to the 64-bit dividend with the same signed value. */
  lemma CdqIdiv(s: State, b: Word, j: Instr) returns (t: State)
    requires (j == IdivEbx && s.ebx == b) || (j == IdivEcx && s.ecx == b)
    requires Divides(false, s.eax, b)
    ensures ExecAll([Cdq, j], s) == Some(t)
    ensures Computed(s, Wrap(TruncDiv(Signed(s.eax), Signed(b))), t)
    ensures t.edx == Wrap(TruncMod(Signed(s.eax), Signed(b)))
  {
    Exec2(Cdq, j, s);
    var s1 := Exec(Cdq, s).value;
    assert Signed(s1.edx) * TWO32 + s1.eax == Signed(s.eax);
    TruncBound(Signed(s.eax), Signed(b));
    t := IdivStep(s1, b).value;
  }

  lemma MulGrows(b: int, q: int)
    requires b >= 1 && q >= 0
    ensures b * q >= q
  {
  }

  lemma DivNonNeg(n: nat, b: nat)
    requires b > 0
    ensures n / b >= 0
  {
  }

  lemma NatDiv(n: nat, b: nat)
    requires b > 0
    ensures 0 <= n / b <= n && n % b == n - b * (n / b)
  {
    DivNonNeg(n, b);
    MulGrows(b, n / b);
    assert n == b * (n / b) + n % b;
  }

  lemma XorDiv(s: State) returns (t: State)
    requires s.ebx != 0
    ensures ExecAll([XorEdxEdx, DivEbx], s) == Some(t)
    ensures Computed(s, s.eax / s.ebx, t) && t.edx == s.eax % s.ebx
  {
    Exec2(XorEdxEdx, DivEbx, s);
    var s1 := Exec(XorEdxEdx, s).value;
    assert s1.edx * TWO32 + s1.eax == s.eax;
    NatDiv(s.eax, s.ebx);
    t := DivStep(s1, s1.ebx).value;
  }

  lemma QuotientRuns(u: bool, s: State) returns (t: State)
    requires Divides(u, s.eax, s.ebx)
    ensures ExecAll(ArithCore(Div, u), s) == Some(t)
    ensures Computed(s, ArithSem(Div, u, s.eax, s.ebx).value, t)
    ensures t.edx == ArithSem(Mod, u, s.eax, s.ebx).value
  {
    hide ExecAll, Wrap, Signed, TruncDiv;
    if u {
      t := XorDiv(s);
      UnsignedQuotient(s.eax, s.ebx);
    } else {
      t := CdqIdiv(s, s.ebx, IdivEbx);
    }
  }

  lemma UnsignedQuotient(a: Word, b: Word)
    requires b != 0
    ensures Wrap(TruncDiv(a, b)) == a / b && Wrap(TruncMod(a, b)) == a % b
  {
    NatDiv(a, b);
  }

  lemma DivRuns(op: BinOp, u: bool, s: State) returns (t: State)
    requires (op.Div? || op.Mod?) && Divides(u, s.eax, s.ebx)
    ensures ExecAll(ArithCore(op, u), s) == Some(t)
    ensures Computed(s, ArithSem(op, u, s.eax, s.ebx).value, t)
  {
    t := QuotientRuns(u, s);
    if op.Mod? {
      assert ArithCore(op, u) == ArithCore(Div, u) + [MovEaxEdx];
      ExecCat(ArithCore(Div, u), [MovEaxEdx], s);
      Exec1(MovEaxEdx, t);
      t := Exec(MovEaxEdx, t).value;
    }
  }

  lemma ArithRuns(op: BinOp, u: bool, s: State) returns (t: State)
    requires !IsLogic(op) && ArithSem(op, u, s.eax, s.ebx).Some?
    ensures ExecAll(ArithCore(op, u), s) == Some(t)
    ensures Computed(s, ArithSem(op, u, s.eax, s.ebx).value, t)
  {
    if IsCmp(op) {
      t := CompareRuns(op, u, s);
    } else if IsShift(op) {
      t := ShiftRuns(op, u, s);
    } else if op.Div? || op.Mod? {
      t := DivRuns(op, u, s);
    } else {
      t := SimpleRuns(op, u, s);
    }
  }

  // ----- binary operators on the stack -----

  /** Pushing eax where two operands were. */
  lemma PushOver(s: State, v: Word, s3: State) returns (t: State)
    requires Aligned(s.esp) && s.esp + 8 < TWO32
    requires s3.eax == v && s3.esp == s.esp + 8 && s3.ebp == s.ebp && s3.mem == s.mem
    ensures Exec(PushEax, s3) == Some(t)
    ensures Pushed(s, 2, v, t)
  {
    t := Exec(PushEax, s3).value;
  }

  lemma PopTwoRuns(s: State, a: Word, b: Word, s2: State)
    requires Top2(s, a, b) && s2 == s.(eax := a, ebx := b, esp := s.esp + 8)
    ensures ExecAll(PopTwo, s) == Some(s2)
  {
    hide ExecAll;
    var s1 := s.(ebx := b, esp := s.esp + 4);
    assert Exec(PopEbx, s) == Some(s1) && Exec(PopEax, s1) == Some(s2);
    hide Exec, Top2;
    Exec2(PopEbx, PopEax, s);
  }

  /** Pop two operands, compute with `core`, push the result. */
  lemma Around(core: seq<Instr>, s: State, a: Word, b: Word, v: Word, s2: State, s3: State) returns (t: State)
    requires Top2(s, a, b)
    requires s2 == s.(eax := a, ebx := b, esp := s.esp + 8)
    requires ExecAll(core, s2) == Some(s3) && Computed(s2, v, s3)
    ensures ExecAll(PopTwo + core + [PushEax], s) == Some(t)
    ensures Pushed(s, 2, v, t)
  {
    PopTwoRuns(s, a, b, s2);
    t := PushOver(s, v, s3);
    hide Exec, Top2, Pushed, Computed;
    ExecCat(PopTwo, core, s);
    ExecCat(PopTwo + core, [PushEax], s);
    Exec1(PushEax, s3);
  }

  /** `ScaleTop` multiplies the word on top by the element size. */
  lemma ScaleTopRuns(size: nat, s: State, a: Word, b: Word) returns (t: State)
    requires Top2(s, a, b)
    ensures ExecAll(ScaleTop(size), s) == Some(t)
    ensures Top2(t, a, Wrap(b * Scale(size)))
    ensures t.esp == s.esp && t.ebp == s.ebp
    ensures forall x: Word :: x < s.esp || x >= s.esp + 8 ==> Rd(t.mem, x) == Rd(s.mem, x)
  {
    if size > 1 {
      var i := ImulEaxImm(Wrap(size));
      Exec3(PopEax, i, PushEax, s);
      var s1 := Exec(PopEax, s).value;
      Exec2(i, PushEax, s1);
      t := Exec(PushEax, Exec(i, s1).value).value;
      WrapMulWrap(b, size);
    } else {
      t := s;
    }
  }

  lemma WrapMulWrap(b: int, k: int)
    ensures Wrap(b * Wrap(k)) == Wrap(b * k)
  {
    var q := k / TWO32;
    assert k == Wrap(k) + q * TWO32;
    assert b * k == b * Wrap(k) + (b * q) * TWO32;
    WrapShift(b * Wrap(k), b * q);
  }

  lemma WrapSub(x: int, y: int)
    ensures Wrap(x - Wrap(y)) == Wrap(x - y)
  {
    assert y == Wrap(y) + (y / TWO32) * TWO32;
    WrapShift(x - y, y / TWO32);
  }

  /** Scaled addition or subtraction: indexing and pointer +/- integer. */
  lemma ScaledRuns(size: nat, sub: bool, s: State, a: Word, b: Word) returns (t: State)
    requires Top2(s, a, b)
    ensures ExecAll(ScaleTop(size) + PopTwo + [AluEaxEbx(if sub then ASub else AAdd), PushEax], s) == Some(t)
    ensures Pushed(s, 2, Wrap(if sub then a - b * Scale(size) else a + b * Scale(size)), t)
  {
    var alu := AluEaxEbx(if sub then ASub else AAdd);
    var d := b * Scale(size);
    var s1 := ScaleTopRuns(size, s, a, b);
    var s2 := s1.(eax := a, ebx := Wrap(d), esp := s1.esp + 8);
    Exec1(alu, s2);
    var s3 := Exec(alu, s2).value;
    WrapAdd(d, a);
    WrapSub(a, d);
    assert s3.eax == Wrap(if sub then a - d else a + d);
    t := Around([alu], s1, a, Wrap(d), s3.eax, s2, s3);
    ExecCat(ScaleTop(size), PopTwo + [alu] + [PushEax], s);
    assert ScaleTop(size) + PopTwo + [alu, PushEax] == ScaleTop(size) + (PopTwo + [alu] + [PushEax]);
  }

  lemma IntPlusPtrRuns(size: nat, s: State, a: Word, b: Word) returns (t: State)
    requires Top2(s, a, b)
    ensures ExecAll(PopTwo + (if size > 1 then [ImulEaxImm(Wrap(size))] else []) + [AluEaxEbx(AAdd), PushEax], s) == Some(t)
    ensures Pushed(s, 2, Wrap(a * Scale(size) + b), t)
  {
    var i, j := ImulEaxImm(Wrap(size)), AluEaxEbx(AAdd);
    var s2 := s.(eax := a, ebx := b, esp := s.esp + 8);
    var core := (if size > 1 then [i] else []) + [j];
    if size > 1 {
      assert core == [i, j];
      Exec2(i, j, s2);
      WrapMulWrap(a, size);
      WrapAdd(a * size, b);
    } else {
      assert core == [j];
      Exec1(j, s2);
    }
    t := Around(core, s, a, b, Wrap(a * Scale(size) + b), s2, ExecAll(core, s2).value);
    assert PopTwo + core + [PushEax] == PopTwo + (if size > 1 then [i] else []) + [j, PushEax];
  }

  lemma PtrDiffRuns(size: nat, s: State, a: Word, b: Word, v: Word) returns (t: State)
    requires Top2(s, a, b)
    requires size > 1 ==> Divides(false, Wrap(a - b), Wrap(size))
    requires v == if size > 1 then Wrap(TruncDiv(Signed(Wrap(a - b)), Signed(Wrap(size)))) else Wrap(a - b)
    ensures ExecAll(PopTwo + [AluEaxEbx(ASub)] + (if size > 1 then [MovEcxImm(Wrap(size)), Cdq, IdivEcx] else []) + [PushEax], s)
         == Some(t)
    ensures Pushed(s, 2, v, t)
  {
    var i, j := AluEaxEbx(ASub), MovEcxImm(Wrap(size));
    var div := if size > 1 then [j, Cdq, IdivEcx] else [];
    var core := [i] + div;
    var s2 := s.(eax := a, ebx := b, esp := s.esp + 8);
    Exec1(i, s2);
    var s3 := Exec(i, s2).value;
    ExecCat([i], div, s2);
    if size > 1 {
      Exec3(j, Cdq, IdivEcx, s3);
      var s4 := Exec(j, s3).value;
      var s5 := CdqIdiv(s4, Wrap(size), IdivEcx);
      t := Around(core, s, a, b, v, s2, s5);
    } else {
      t := Around(core, s, a, b, v, s2, s3);
    }
    assert PopTwo + core + [PushEax] == PopTwo + [i] + div + [PushEax];
  }

  /** The code after two pushed operands computes the operator's meaning. */
  lemma BinTailRuns(env: Env, op: BinOp, lt: Ty, rt: Ty, s: State, a: Word, b: Word) returns (t: State)
    requires !IsLogic(op) && Top2(s, a, b)
    requires BinSem(Cc, env, op, lt, rt, a, b).Some?
    ensures ExecAll(BinTail(env, op, lt, rt), s) == Some(t)
    ensures Pushed(s, 2, BinSem(Cc, env, op, lt, rt, a, b).value, t)
  {
    if (op.Add? || op.Sub?) && lt.TPtr? && !rt.TPtr? {
      t := ScaledRuns(Size(env, lt.base), op.Sub?, s, a, b);
    } else if op.Add? && rt.TPtr? && !lt.TPtr? {
      t := IntPlusPtrRuns(Size(env, rt.base), s, a, b);
    } else if op.Sub? && lt.TPtr? && rt.TPtr? {
      t := PtrDiffRuns(Size(env, lt.base), s, a, b, BinSem(Cc, env, op, lt, rt, a, b).value);
    } else {
      var s2 := s.(eax := a, ebx := b, esp := s.esp + 8);
      var u := IsUnsigned(Cc, op, lt, rt);
      var s3 := ArithRuns(op, u, s2);
      t := Around(ArithCore(op, u), s, a, b, ArithSem(op, u, a, b).value, s2, s3);
    }
  }

  lemma MemberTailRuns(offset: nat, s: State, a: Word) returns (t: State)
    requires Top1(s, a)
    ensures ExecAll(MemberTail(offset), s) == Some(t)
    ensures Pushed(s, 1, Wrap(a + offset), t)
  {
    var i := AddEaxImm(Wrap(offset));
    var s1 := Exec(PopEax, s).value;
    assert s1 == s.(eax := a, esp := s.esp + 4);
    if offset != 0 {
      assert MemberTail(offset) == [PopEax, i, PushEax];
      WrapAdd(offset, a);
      t := PushBack(s, Exec(i, s1).value);
      hide Exec, Aligned, Pushed, Rd, Wrap;
      Exec3(PopEax, i, PushEax, s);
      Exec2(i, PushEax, s1);
    } else {
      assert MemberTail(offset) == [PopEax, PushEax];
      WrapAdd(0, a);
      t := PushBack(s, s1);
      hide Exec, Aligned, Pushed, Rd;
      Exec2(PopEax, PushEax, s);
    }
  }
}
