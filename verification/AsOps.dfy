/** The assembler as it runs: one set of section buffers and one symbol table,
    updated statement by statement over three runs.
 */
module AsOps {
  import opened Options
  import opened Word32
  import opened AsModrm
  import opened AsInsn
  import opened AsPasses

  class Assembler {
    var sec: Sec
    var text: seq<Byte>
    var data: seq<Byte>
    var bss: int
    var syms: Syms
    var pass: nat
    var base: Bases

    constructor ()
      ensures View() == Fresh(map[]) && pass == 0 && base == NoBases
    {
      sec, text, data, bss, syms, pass, base := Text, [], [], 0, map[], 0, NoBases;
    }

    function View(): State
      reads this
    {
      State(sec, text, data, bss, syms)
    }

    /** `emit8`, byte after byte. */
    method EmitAll(bytes: seq<Byte>) returns (ok: bool)
      modifies this`text, this`data
      ensures ok == Emit(old(View()), bytes).Some?
      ensures ok ==> Emit(old(View()), bytes) == Some(View())
    {
      assert text + bytes[..0] == text && data + bytes[..0] == data;
      for k := 0 to |bytes|
        invariant !sec.Bss? || k == 0
        invariant sec.Text? ==> text == old(text) + bytes[..k] && data == old(data)
        invariant sec.Data? ==> data == old(data) + bytes[..k] && text == old(text)
        invariant sec.Bss? ==> text == old(text) && data == old(data)
      {
        if sec == Bss { return false; }
        if sec == Text { text := text + [bytes[k]]; } else { data := data + [bytes[k]]; }
        assert bytes[..k + 1] == bytes[..k] + [bytes[k]];
      }
      assert bytes[..|bytes|] == bytes;
      ok := true;
    }

    /** The padding loop of `.align`. */
    method PadTo(align: int) returns (ok: bool)
      modifies this`text, this`data, this`bss
      ensures ok == Pad(old(View()), Padding(Len(old(View()), sec), align)).Some?
      ensures ok ==> Pad(old(View()), Padding(Len(old(View()), sec), align)) == Some(View())
    {
      if align <= 1 {
        NoPadding(View());
        return true;
      }
      ghost var n := Padding(Len(View(), sec), align);
      ghost var fill: Byte := if sec.Text? then 0x90 else 0;
      ghost var done := 0;
      assert text + Repeat(fill, 0) == text && data + Repeat(fill, 0) == data;
      PadStep(Len(old(View()), sec), align, 0);
      while Len(View(), sec) % align != 0
        invariant 0 <= done <= n && Len(View(), sec) == Len(old(View()), sec) + done
        invariant done < n <==> Len(View(), sec) % align != 0
        invariant sec.Text? ==> text == old(text) + Repeat(fill, done) && data == old(data) && bss == old(bss)
        invariant sec.Data? ==> data == old(data) + Repeat(fill, done) && text == old(text) && bss == old(bss)
        invariant sec.Bss? ==> text == old(text) && data == old(data)
        decreases n - done
      {
        if sec == Bss {
          bss := bss + 1;
        } else if sec == Text {
          text := text + [0x90];
        } else {
          data := data + [0];
        }
        assert Repeat(fill, done) + [fill] == Repeat(fill, done + 1);
        done := done + 1;
        PadStep(Len(old(View()), sec), align, done);
      }
      ok := true;
    }

    /** One statement. */
    method DoStmt(x: Stmt) returns (ok: bool)
      requires StmtOk(x)
      modifies this`sec, this`text, this`data, this`bss, this`syms
      ensures ok == Step(pass, base, old(View()), x).Some?
      ensures ok ==> Step(pass, base, old(View()), x) == Some(View())
    {
      hide Eval, Encode, EvalArgs, Here, Emit;
      ok := true;
      match x
      case Label(n) =>
        if pass == 1 {
          if n in syms { return false; }
          syms := syms[n := Sym(sec, Len(View(), sec), 0, false)];
        }
      case Section(s) => sec := s;
      case Items(w, vs) => ok := DoItems(w, vs);
      case Ascii(bs) => ok := EmitAll(bs);
      case Space(n, f) =>
        if HasSym(n) { return false; }
        var c := Eval(pass, syms, Here(base, View()), n);
        var v := match f case Some(e) => Eval(pass, syms, Here(base, View()), e) case None => Some(0);
        if c.None? || v.None? { return false; }
        if sec == Bss { bss := bss + c.value; } else { ok := EmitAll(Repeat(Low(v.value), c.value)); }
      case Align(e, p) =>
        var v := Eval(pass, syms, Here(base, View()), e);
        if v.None? { return false; }
        ok := PadTo(AlignTo(p, v.value));
      case Equ(n, e) =>
        var v := Eval(pass, syms, Here(base, View()), e);
        if v.None? { return false; }
        syms := syms[n := if n in syms then syms[n].(addr := v.value, isAbs := true) else Sym(Text, 0, v.value, true)];
      case Insn(m, args, size) =>
        var ops := EvalArgs(pass, syms, Here(base, View()), args);
        if ops.None? { return false; }
        ArgsParsed(args, pass, syms, Here(base, View()));
        var bs := Encode(m, ops.value, size, pass, Here(base, View()));
        if bs.None? { return false; }
        ok := EmitAll(bs.value);
    }

    /** `.byte`, `.word`, `.long`. */
    method DoItems(w: nat, vs: seq<Ex>) returns (ok: bool)
      modifies this`text, this`data
      ensures ok == EmitItems(pass, base, old(View()), w, vs).Some?
      ensures ok ==> EmitItems(pass, base, old(View()), w, vs) == Some(View())
    {
      hide Eval, Here, Emit, Narrow;
      assert vs[0..] == vs;
      for k := 0 to |vs|
        invariant EmitItems(pass, base, View(), w, vs[k..]) == EmitItems(pass, base, old(View()), w, vs)
      {
        assert vs[k..][0] == vs[k] && vs[k..][1..] == vs[k + 1..];
        var v := Eval(pass, syms, Here(base, View()), vs[k]);
        if v.None? { return false; }
        ok := EmitAll(Narrow(w, v.value));
        if !ok { return; }
      }
      ok := true;
    }

    /** `run_pass`. */
    method RunPass(which: nat, ss: seq<Stmt>) returns (ok: bool)
      requires AllOk(ss)
      modifies this
      ensures pass == which && base == old(base)
      ensures ok == Run(which, base, Fresh(old(syms)), ss).Some?
      ensures ok ==> Run(which, base, Fresh(old(syms)), ss) == Some(View())
    {
      hide Step;
      pass, sec, text, data, bss := which, Text, [], [], 0;
      ghost var f := View();
      assert ss[..0] == [];
      for k := 0 to |ss|
        invariant pass == which && base == old(base)
        invariant Run(which, base, f, ss[..k]) == Some(View())
      {
        assert ss[..k + 1][..k] == ss[..k];
        ok := DoStmt(ss[k]);
        if !ok {
          if Run(which, base, f, ss).Some? { RunPrefix(which, base, f, ss, k + 1); }
          return;
        }
      }
      assert ss[..|ss|] == ss;
      ok := true;
    }

    /** The driver: size, settle the addresses, emit twice.  The source drops the
        diagnostics of the middle run; by RunAccepts the last run has them too. */
    method Assemble(ss: seq<Stmt>) returns (ok: bool, ghost r1: State, ghost ra: State)
      requires AllOk(ss) && syms == map[] && base == NoBases
      modifies this
      ensures ok <==> Accepted(ss)
      ensures ok ==> Assembles(ss, r1, ra, View())
    {
      hide Run;
      r1, ra := View(), View();
      ok := RunPass(1, ss);
      if !ok { return; }
      r1 := View();
      base := Bases(84, 84 + |text|, 84 + |text| + |data|);
      syms := Settle(base, syms);
      ok := RunPass(2, ss);
      if !ok { return; }
      ra := View();
      ok := RunPass(2, ss);
    }
  }

  lemma NoPadding(st: State)
    ensures Pad(st, 0) == Some(st)
  {
    assert Repeat(if st.sec.Text? then 0x90 else 0, 0) == [];
    assert st.text + [] == st.text && st.data + [] == st.data;
  }

  lemma ModIs(x: int, a: int, q: int, r: int)
    requires a > 0 && x == a * q + r && 0 <= r < a
    ensures x % a == r
  {
    var p, s := x / a, x % a;
    assert x == a * p + s;
    assert a * (q - p) == s - r && a * (p - q) == r - s;
    if q > p { Times(a, q - p); } else if q < p { Times(a, p - q); }
  }

  lemma Times(a: int, k: int)
    requires a > 0 && k >= 1
    ensures a * k >= a
  {
  }

  lemma PadStep(len: int, align: int, done: nat)
    requires align > 1 && done <= Padding(len, align)
    ensures done < Padding(len, align) <==> (len + done) % align != 0
  {
    var k, r := len / align, len % align;
    assert len == align * k + r;
    if r == 0 {
      assert -len == align * (-k) + 0;
      ModIs(-len, align, -k, 0);
    } else {
      assert -len == align * (-k - 1) + (align - r) by { assert align * (-k - 1) == -(align * k) - align; }
      ModIs(-len, align, -k - 1, align - r);
      if done < align - r {
        ModIs(len + done, align, k, r + done);
      } else {
        assert len + done == align * (k + 1) + 0 by { assert align * (k + 1) == align * k + align; }
        ModIs(len + done, align, k + 1, 0);
      }
    }
  }

  lemma ArgsParsed(args: seq<Arg>, p: nat, s: Syms, h: int)
    requires ArgsOk(args) && EvalArgs(p, s, h, args).Some?
    ensures forall i :: 0 <= i < |args| ==> Parsed(EvalArgs(p, s, h, args).value[i])
  {
    hide EvalArgs, Parsed;
    var os := EvalArgs(p, s, h, args).value;
    forall i | 0 <= i < |args| ensures Parsed(os[i]) {
      assert EvalArg(p, s, h, args[i]) == Some(os[i]);
    }
  }
}
