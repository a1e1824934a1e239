/** A translation unit from source to bytes: the compiler's output, run from a
    function's first byte to its `ret`, does what the source does.
 */
module CcUnit {
  import opened Options
  import opened Word32
  import opened Patching
  import opened CcAst
  import opened CcSource
  import opened X86
  import opened CcGen
  import opened CcTails
  import opened CcExprProof
  import opened CcBytes
  import opened CcPatch
  import opened CcStmt
  import opened CcStmtProof
  import opened CcLabels
  import opened CcFunction
  import opened CcClosed
  import opened CcBuffer

  datatype FunSource = FunSource(params: seq<(string, Ty)>, body: Stmt, intRet: bool)

  /** The function as it is compiled: its parameters are its first names. */
  function DefOf(globals: seq<Sym>, records: seq<Record>, d: FunSource): FunDef {
    FunDef(Ctx(Env(ParamSyms(records, d.params, 8), globals, records), 0), d.body, d.intRet)
  }

  function DefsOf(globals: seq<Sym>, records: seq<Record>, ds: seq<FunSource>): (fs: seq<FunDef>)
    ensures |fs| == |ds| && forall i :: 0 <= i < |ds| ==> fs[i] == DefOf(globals, records, ds[i])
  {
    seq(|ds|, i requires 0 <= i < |ds| => DefOf(globals, records, ds[i]))
  }

  predicate AcceptsDef(f: FunDef) { Accepts(f.cx, f.body, false, false) }

  /** Compile every function, then fill in jump distances and addresses.
      None where the compiler stops with an error. */
  method CompileUnit(globals: seq<Sym>, records: seq<Record>, ds: seq<FunSource>) returns (image: Option<seq<Byte>>)
    requires forall i :: 0 <= i < |ds| ==> Grammatical(ds[i].body)
    ensures image.Some? <==> forall i :: 0 <= i < |ds| ==> AcceptsDef(DefOf(globals, records, ds[i]))
    ensures image.Some? ==> IsImage(image.value, GenUnit(DefsOf(globals, records, ds), 0).code)
  {
    hide GenFun, Accepts, IsImage, FixedUpTo, UniqueLabels, Closed, ParamSyms, PatchAll, RawCode, LabelMap, Fixes, Grammatical;
    ghost var fs := DefsOf(globals, records, ds);
    var b := new Buffer(globals, records);
    assert fs[0..] == fs;
    for i := 0 to |ds|
      invariant b.Valid() && b.globals == globals && b.records == records
      invariant GenUnit(fs, 0).code == b.items + GenUnit(fs[i..], b.labelCount).code
      invariant forall h :: 0 <= h < i ==> AcceptsDef(fs[h])
    {
      ghost var w, n := b.items, b.labelCount;
      var ok := b.GenFun(ds[i].params, ds[i].body, ds[i].intRet);
      if !ok {
        assert !AcceptsDef(fs[i]);
        return None;
      }
      assert fs[i..][0] == fs[i] && fs[i..][1..] == fs[i + 1..];
      ghost var o := GenFun(fs[i].cx, fs[i].body, n, fs[i].intRet);
      Cat2(w, o.code, GenUnit(fs[i + 1..], o.next).code);
    }
    assert b.items + [] == b.items;
    b.ApplyFixups();
    b.PatchGlobals();
    UnitLabelsUnique(fs, 0);
    UnitClosed(fs, 0);
    image := Some(b.code);
  }

  /** Where function `i` of a unit starts: item index and first label. */
  function StartOf(fs: seq<FunDef>, n: nat, i: nat): (nat, nat)
    requires i < |fs|
    decreases i
  {
    if i == 0 then (0, n)
    else
      var o := GenFun(fs[0].cx, fs[0].body, n, fs[0].intRet);
      var r := StartOf(fs[1..], o.next, i - 1);
      (|o.code| + r.0, r.1)
  }

  lemma CodeCat(a: seq<Item>, b: seq<Item>, p: nat, c: seq<Item>)
    requires CodeAt(b, p, c)
    ensures CodeAt(a + b, |a| + p, c)
  {
    forall k | 0 <= k < |c| ensures (a + b)[|a| + p + k] == c[k] { assert (a + b)[|a| + (p + k)] == b[p + k]; }
  }

  lemma CodeHead(a: seq<Item>, b: seq<Item>)
    ensures CodeAt(a + b, 0, a)
  {
  }

  lemma {:induction false} FunAt(fs: seq<FunDef>, n: nat, i: nat)
    requires i < |fs|
    ensures var (p, m) := StartOf(fs, n, i);
            CodeAt(GenUnit(fs, n).code, p, GenFun(fs[i].cx, fs[i].body, m, fs[i].intRet).code)
    decreases i
  {
    hide GenFun, CodeAt;
    var o := GenFun(fs[0].cx, fs[0].body, n, fs[0].intRet);
    var rest := GenUnit(fs[1..], o.next).code;
    if i == 0 {
      CodeHead(o.code, rest);
    } else {
      FunAt(fs[1..], o.next, i - 1);
      var (p, m) := StartOf(fs[1..], o.next, i - 1);
      CodeCat(o.code, rest, p, GenFun(fs[i].cx, fs[i].body, m, fs[i].intRet).code);
    }
  }

  /** First byte of function `i`. */
  function Entry(fs: seq<FunDef>, i: nat): nat
    requires i < |fs| && StartOf(fs, 0, i).0 <= |GenUnit(fs, 0).code|
  {
    Offset(GenUnit(fs, 0).code, StartOf(fs, 0, i).0)
  }

  /** Source to bytes: a call to an accepted function whose source has a defined
      outcome runs the image from the function's first byte to a `ret` opcode,
      with the source's result and memory and the caller's stack intact. */
  lemma CompiledRuns(fs: seq<FunDef>, image: seq<Byte>, i: nat, st: State, m: SMem, lo: nat, fuel: nat) returns (k: nat, t: BConf)
    requires IsImage(image, GenUnit(fs, 0).code) && |image| < TWO31 && i < |fs|
    requires Called(fs[i], st, m, lo) && AcceptsDef(fs[i]) && ScopeSafe(fs[i].body)
    requires Defined(Execute(Fun(st.esp - 4, fs[i].intRet), fs[i].cx, fs[i].body, m, fuel))
    ensures StartOf(fs, 0, i).0 <= |GenUnit(fs, 0).code|
    ensures BRun(image, BConf(Entry(fs, i), st), k) == Some(t)
    ensures 0 <= t.pc < |image| && Decode(image, t.pc) == (DI(Ret), 1)
    ensures var fn := Fun(st.esp - 4, fs[i].intRet);
            Returns(fs[i], st, m, Execute(fn, fs[i].cx, fs[i].body, m, fuel), fn, lo, t.st)
  {
    hide GenFun, GenUnit, IsImage, Called, Accepts, ScopeSafe, Execute, Returns, UniqueLabels, Run, BRun, Decode, Offset;
    var prog := GenUnit(fs, 0).code;
    FunAt(fs, 0, i);
    var (p, n) := StartOf(fs, 0, i);
    UnitLabelsUnique(fs, 0);
    InUnit(prog, p, GenFun(fs[i].cx, fs[i].body, n, fs[i].intRet).code);
    hide CodeAt;
    var h, d := FunRuns(prog, fs[i], n, Conf(p, st), m, lo, fuel);
    k := RunBytes(image, prog, Conf(p, st), h, d);
    t := ToBytes(prog, d);
    DecodeInstr(image, prog, d.pc);
  }

  lemma {:induction false} BRunPart(s: seq<Byte>, c: BConf, k: nat, n: nat)
    requires BRun(s, c, k).Some? && n <= k
    ensures BRun(s, c, n).Some?
    decreases n
  {
    hide BStep;
    if n > 0 { BRunPart(s, BStep(s, c).value, k - 1, n - 1); }
  }

  lemma EnoughSteps(steps: nat, size: nat, p: nat, k: nat, q: nat)
    requires steps * (size + 1) + size + p <= k * (size + 1) + q && q <= size
    ensures steps <= k
  {
    assert (steps - k) * (size + 1) <= 0;
  }

  /** And a call whose source goes on for ever runs for ever: the image executes any
      number of instructions without reaching a `ret`. */
  lemma CompiledDiverges(fs: seq<FunDef>, image: seq<Byte>, i: nat, st: State, m: SMem, lo: nat, steps: nat)
    requires IsImage(image, GenUnit(fs, 0).code) && |image| < TWO31 && i < |fs|
    requires Called(fs[i], st, m, lo) && AcceptsDef(fs[i]) && ScopeSafe(fs[i].body)
    requires Diverges(Fun(st.esp - 4, fs[i].intRet), fs[i].cx, fs[i].body, m)
    ensures StartOf(fs, 0, i).0 <= |GenUnit(fs, 0).code|
    ensures BRun(image, BConf(Entry(fs, i), st), steps).Some?
  {
    hide GenFun, GenUnit, IsImage, Called, Accepts, ScopeSafe, Diverges, UniqueLabels, Run, BRun, Decode, Offset;
    var prog := GenUnit(fs, 0).code;
    FunAt(fs, 0, i);
    var (p, n) := StartOf(fs, 0, i);
    UnitLabelsUnique(fs, 0);
    InUnit(prog, p, GenFun(fs[i].cx, fs[i].body, n, fs[i].intRet).code);
    hide CodeAt;
    var h := steps * (|prog| + 1) + |prog|;
    FunDiverges(prog, fs[i], n, Conf(p, st), m, lo, h);
    var d := Run(prog, Conf(p, st), h).value;
    var k := RunBytes(image, prog, Conf(p, st), h, d);
    EnoughSteps(steps, |prog|, p, k, d.pc);
    BRunPart(image, BConf(Entry(fs, i), st), k, steps);
  }

  lemma InUnit(prog: seq<Item>, p: nat, c: seq<Item>)
    requires CodeAt(prog, p, c)
    ensures p <= |prog|
  {
  }
}
