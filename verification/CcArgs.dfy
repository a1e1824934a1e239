/** Argument passing at the level of bytes: scalars and records by value, the
    callee's parameter offsets, the caller's cleanup, and variadic arguments.
 */
module CcArgs {
  import opened Options
  import opened Word32
  import opened CcAst
  import opened CcStmt

  /** Byte memory. */
  type Bytes = map<int, Byte>

  function At(m: Bytes, a: int): Byte { if a in m then m[a] else 0 }

  function WordAt(m: Bytes, a: int): Word { Word4(At(m, a), At(m, a + 1), At(m, a + 2), At(m, a + 3)) }

  /** A word to push, or the address and size of a record to copy. */
  datatype Arg = Scalar(w: Word) | Record(src: int, size: nat)

  function Slot(a: Arg): nat { match a case Scalar(_) => 4 case Record(_, size) => (size + 3) / 4 * 4 }

  /** `rep movsb` with the direction flag clear. */
  function Movsb(m: Bytes, src: int, dst: int, n: nat): Bytes
    decreases n
  {
    if n == 0 then m else Movsb(m[dst := At(m, src)], src + 1, dst + 1, n - 1)
  }

  lemma {:induction false} MovsbCopies(m: Bytes, src: int, dst: int, n: nat)
    requires src + n <= dst || dst + n <= src
    ensures forall b :: At(Movsb(m, src, dst, n), b) == At(m, if dst <= b < dst + n then b - dst + src else b)
    decreases n
  {
    if n > 0 { MovsbCopies(m[dst := At(m, src)], src + 1, dst + 1, n - 1); }
  }

  function StoreWord(m: Bytes, a: int, w: Word): Bytes {
    m[a := Bytes4(w)[0]][a + 1 := Bytes4(w)[1]][a + 2 := Bytes4(w)[2]][a + 3 := Bytes4(w)[3]]
  }

  lemma StoreWordReads(m: Bytes, a: int, w: Word)
    ensures WordAt(StoreWord(m, a, w), a) == w
    ensures forall b :: !(a <= b < a + 4) ==> At(StoreWord(m, a, w), b) == At(m, b)
  {
    ReadBytes4(w);
  }

  /** One push: a word, or a record's bytes at the bottom of its slot. */
  function PushArg(m: Bytes, esp: int, a: Arg): Bytes {
    match a
    case Scalar(w) => StoreWord(m, esp - 4, w)
    case Record(src, size) => Movsb(m, src, esp - Slot(a), size)
  }

  function Total(args: seq<Arg>): nat { if args == [] then 0 else Slot(args[0]) + Total(args[1..]) }

  /** Bytes between the last push and argument `k`. */
  function Pos(args: seq<Arg>, k: nat): nat
    requires k <= |args|
  {
    if k == 0 then 0 else Slot(args[0]) + Pos(args[1..], k - 1)
  }

  lemma {:induction false} PosBounds(args: seq<Arg>, k: nat)
    requires k < |args|
    ensures Pos(args, k) + Slot(args[k]) == Pos(args, k + 1) <= Total(args)
  {
    if k > 0 { PosBounds(args[1..], k - 1); }
  }

  lemma {:induction false} PosEnd(args: seq<Arg>)
    ensures Pos(args, |args|) == Total(args)
  {
    if args != [] { PosEnd(args[1..]); }
  }

  /** All pushes, the last argument first. */
  function PushAll(m: Bytes, esp: int, args: seq<Arg>): Bytes
    decreases |args|
  {
    if args == [] then m
    else PushArg(PushAll(m, esp, args[1..]), esp - Total(args[1..]), args[0])
  }

  /** Records to copy lie outside the argument area. */
  ghost predicate SourcesApart(args: seq<Arg>, lo: int, hi: int) {
    forall k :: 0 <= k < |args| && args[k].Record? ==> args[k].src + args[k].size <= lo || hi <= args[k].src
  }

  /** The slot at `a` holds the argument, as `m0` had it. */
  ghost predicate Holds(m: Bytes, a: int, x: Arg, m0: Bytes) {
    match x
    case Scalar(w) => WordAt(m, a) == w
    case Record(src, size) => forall b :: a <= b < a + size ==> At(m, b) == At(m0, b - a + src)
  }

  /** Two memories agree on `n` bytes from `lo`; on everything but `lo..hi`. */
  ghost predicate SameFrom(m: Bytes, m1: Bytes, lo: int, n: nat) { forall b :: lo <= b < lo + n ==> At(m1, b) == At(m, b) }

  ghost predicate SameOutside(m: Bytes, m1: Bytes, lo: int, hi: int) { forall b :: !(lo <= b < hi) ==> At(m1, b) == At(m, b) }

  lemma Outside(m: Bytes, m1: Bytes, lo: int, hi: int, at: int, n: nat)
    requires SameOutside(m, m1, lo, hi) && (at + n <= lo || hi <= at)
    ensures SameFrom(m, m1, at, n)
  {
  }

  lemma PushArgHolds(m: Bytes, esp: int, x: Arg)
    requires x.Record? ==> x.src + x.size <= esp - Slot(x) || esp <= x.src
    ensures Holds(PushArg(m, esp, x), esp - Slot(x), x, m)
    ensures SameOutside(m, PushArg(m, esp, x), esp - Slot(x), esp)
  {
    hide At, Movsb, StoreWord, WordAt;
    match x
    case Scalar(w) => StoreWordReads(m, esp - 4, w);
    case Record(src, size) =>
      SlotHolds(x);
      hide Slot;
      MovsbCopies(m, src, esp - Slot(x), size);
  }

  lemma SlotHolds(x: Arg)
    ensures x.Record? ==> x.size <= Slot(x)
  {
  }

  lemma PushAllStep(m: Bytes, esp: int, args: seq<Arg>)
    requires args != []
    ensures PushAll(m, esp, args) == PushArg(PushAll(m, esp, args[1..]), esp - Total(args[1..]), args[0])
    ensures Total(args) == Slot(args[0]) + Total(args[1..])
    ensures forall k :: 0 < k <= |args| ==> Pos(args, k) == Slot(args[0]) + Pos(args[1..], k - 1)
  {
  }

  lemma RestApart(args: seq<Arg>, esp: int)
    requires SourcesApart(args, esp - Total(args), esp) && args != []
    ensures SourcesApart(args[1..], esp - Total(args[1..]), esp)
    ensures args[0].Record? ==> args[0].src + args[0].size <= esp - Total(args) || esp <= args[0].src
  {
    assert forall k :: 0 <= k < |args[1..]| ==> args[1..][k] == args[k + 1];
  }

  lemma TotalPos(args: seq<Arg>)
    requires args != []
    ensures Total(args) == Slot(args[0]) + Total(args[1..])
  {
  }

  /** The pushes change nothing outside the argument area. */
  lemma {:induction false} PushAllKeeps(m: Bytes, esp: int, args: seq<Arg>)
    requires SourcesApart(args, esp - Total(args), esp)
    ensures SameOutside(m, PushAll(m, esp, args), esp - Total(args), esp)
    decreases |args|
  {
    hide PushArg, At, SourcesApart, Slot;
    if args != [] {
      RestApart(args, esp);
      PushAllKeeps(m, esp, args[1..]);
      PushArgHolds(PushAll(m, esp, args[1..]), esp - Total(args[1..]), args[0]);
    }
  }

  /** After the pushes each argument is in its own slot. */
  lemma {:induction false} PushAllHolds(m: Bytes, esp: int, args: seq<Arg>, k: nat)
    requires SourcesApart(args, esp - Total(args), esp) && k < |args|
    ensures Holds(PushAll(m, esp, args), esp - Total(args) + Pos(args, k), args[k], m)
    decreases |args|
  {
    hide PushArg, PushAll, At, SourcesApart, Slot, Holds, Total, SameFrom, SameOutside;
    var rest, top := args[1..], esp - Total(args[1..]);
    var m1, m2 := PushAll(m, esp, rest), PushAll(m, esp, args);
    RestApart(args, esp);
    PushAllStep(m, esp, args);
    PushArgHolds(m1, top, args[0]);
    if k == 0 {
      FirstHolds(m, m1, m2, esp, args);
    } else {
      hide Pos;
      PushAllHolds(m, esp, rest, k - 1);
      PosBounds(rest, k - 1);
      var at := top + Pos(rest, k - 1);
      Outside(m1, m2, top - Slot(args[0]), top, at, Slot(rest[k - 1]));
      KeepsHolding(m1, m2, at, rest[k - 1], m);
    }
  }

  lemma KeepsHolding(m: Bytes, m1: Bytes, a: int, x: Arg, m0: Bytes)
    requires Holds(m, a, x, m0) && SameFrom(m, m1, a, Slot(x))
    ensures Holds(m1, a, x, m0)
  {
    hide At;
  }

  /** The first argument is pushed last, when its source is still untouched. */
  lemma FirstHolds(m: Bytes, m1: Bytes, m2: Bytes, esp: int, args: seq<Arg>)
    requires SourcesApart(args, esp - Total(args), esp) && args != []
    requires m1 == PushAll(m, esp, args[1..]) && Holds(m2, esp - Total(args), args[0], m1)
    ensures Holds(m2, esp - Total(args), args[0], m)
  {
    hide PushArg, PushAll, At, SourcesApart, Slot, Holds, Total, SameFrom, SameOutside;
    RestApart(args, esp);
    PushAllKeeps(m, esp, args[1..]);
    TotalPos(args);
    var x := args[0];
    if x.Record? { Outside(m, m1, esp - Total(args[1..]), esp, x.src, x.size); }
    FromSame(m1, m, m2, esp - Total(args), x);
  }

  lemma FromSame(m0: Bytes, m0': Bytes, m: Bytes, a: int, x: Arg)
    requires Holds(m, a, x, m0) && (x.Record? ==> SameFrom(m0', m0, x.src, x.size))
    ensures Holds(m, a, x, m0')
  {
    hide At;
  }

  // ----- the callee's side -----

  /** The caller passes what the prototype asks for; arguments past it are words. */
  ghost predicate Matches(records: seq<Record>, ps: seq<(string, Ty)>, args: seq<Arg>) {
    && |ps| <= |args|
    && (forall k :: 0 <= k < |ps| ==>
          if ps[k].1.TRec? then args[k].Record? && args[k].size == Size(Env([], [], records), ps[k].1) else args[k].Scalar?)
    && forall k :: |ps| <= k < |args| ==> args[k].Scalar?
  }

  lemma {:induction false} ParamPos(records: seq<Record>, ps: seq<(string, Ty)>, args: seq<Arg>, off: int, k: nat)
    requires Matches(records, ps, args) && k < |ps|
    ensures ParamSyms(records, ps, off)[k].place == Local(off + Pos(args, k))
    decreases |ps|
  {
    if k > 0 {
      assert forall h :: 0 <= h < |ps[1..]| ==> ps[1..][h] == ps[h + 1] && args[1..][h] == args[h + 1];
      assert forall h :: |ps[1..]| <= h < |args[1..]| ==> args[1..][h] == args[h + 1];
      ParamPos(records, ps[1..], args[1..], off + ArgSlot(records, ps[0].1), k - 1);
    }
  }

  /** Frame pointer of the callee: the return address and the saved ebp lie
      between it and the arguments. */
  function FrameOf(esp: int, args: seq<Arg>): int { esp - Total(args) - 8 }

  /** The callee finds at each parameter's offset exactly the argument pushed
      for it, and dropping the argument bytes gives the caller its esp back. */
  lemma ParamHolds(records: seq<Record>, ps: seq<(string, Ty)>, m: Bytes, esp: int, args: seq<Arg>, k: nat)
    requires Matches(records, ps, args) && SourcesApart(args, esp - Total(args), esp) && k < |ps|
    ensures ParamSyms(records, ps, 8)[k].place == Local(8 + Pos(args, k))
    ensures Holds(PushAll(m, esp, args), FrameOf(esp, args) + (8 + Pos(args, k)), args[k], m)
    ensures FrameOf(esp, args) + 8 + Total(args) == esp
  {
    assert k < |args|;
    hide PushAll, SourcesApart, Matches, ParamSyms, Holds;
    PushAllHolds(m, esp, args, k);
    ParamPos(records, ps, args, 8, k);
  }

  // ----- variadic arguments -----

  /** `va_start` and `va_arg` move by the size rounded up to a word, at least one. */
  function Step(size: nat): nat { var s := if size < 4 then 4 else size; (s + 3) / 4 * 4 }

  function VaStart(addr: int, size: nat): int { addr + Step(size) }

  /** The word `va_arg` yields and the new pointer. */
  function VaArg(m: Bytes, ap: int): (Word, int) { (WordAt(m, ap), ap + Step(4)) }

  function VaNth(m: Bytes, ap: int, k: nat): (Word, int)
    decreases k
  {
    if k == 0 then VaArg(m, ap) else VaNth(m, VaArg(m, ap).1, k - 1)
  }

  lemma {:induction false} VaNthReads(m: Bytes, ap: int, k: nat)
    ensures VaNth(m, ap, k) == (WordAt(m, ap + 4 * k), ap + 4 * k + 4)
    decreases k
  {
    hide WordAt;
    if k > 0 { VaNthReads(m, ap + 4, k - 1); }
  }

  /** `va_start` finds the first variadic argument exactly when the last named
      parameter is not an empty record. */
  lemma VaStartExact(records: seq<Record>, ps: seq<(string, Ty)>, esp: int, args: seq<Arg>)
    requires Matches(records, ps, args) && ps != [] && (forall k :: 0 <= k < |ps| && !ps[k].1.TRec? ==> !ps[k].1.TArray?)
    ensures var last := ps[|ps| - 1].1;
            var size := Size(Env([], [], records), last);
            var place := ParamSyms(records, ps, 8)[|ps| - 1].place;
            && place.Local?
            && (VaStart(FrameOf(esp, args) + place.offset, size) == FrameOf(esp, args) + 8 + Pos(args, |ps|)
                <==> !(last.TRec? && size == 0))
  {
    var k := |ps| - 1;
    var t, a := ps[k].1, args[k];
    var size := Size(Env([], [], records), t);
    assert if t.TRec? then a.Record? && a.size == size else a.Scalar? && size <= 4;
    ParamPos(records, ps, args, 8, k);
    PosBounds(args, k);
    StepSlot(a, size);
  }

  /** `va_start` steps over a slot, except that an empty one counts as a word. */
  lemma StepSlot(a: Arg, size: nat)
    requires if a.Record? then a.size == size else size <= 4
    ensures Step(size) == Slot(a) <==> !(a.Record? && size == 0)
  {
  }

  /** `f(struct empty e, ...)` called with one variadic argument: `va_start` points
      a word past it. */
  lemma EmptyRecordLast(esp: int)
    ensures var records, ps := [CcAst.Record(0, [])], [("e", TRec(0))];
            var args := [Arg.Record(0, 0), Scalar(7)];
            var place := ParamSyms(records, ps, 8)[0].place;
            && Matches(records, ps, args) && place.Local?
            && VaStart(FrameOf(esp, args) + place.offset, Size(Env([], [], records), TRec(0))) == FrameOf(esp, args) + 8 + Pos(args, 1) + 4
  {
    var args := [Arg.Record(0, 0), Scalar(7)];
    assert args[1..] == [Scalar(7)] && [Scalar(7)][1..] == [];
    assert Slot(args[0]) == 0 && Pos(args, 1) == 0;
  }

  lemma {:induction false} PosWords(args: seq<Arg>, n: nat, k: nat)
    requires n + k <= |args| && forall h :: n <= h < n + k ==> args[h].Scalar?
    ensures Pos(args, n + k) == Pos(args, n) + 4 * k
    decreases k
  {
    if k > 0 {
      PosWords(args, n, k - 1);
      PosBounds(args, n + k - 1);
    }
  }

  lemma Variadic(records: seq<Record>, ps: seq<(string, Ty)>, args: seq<Arg>, k: nat)
    requires Matches(records, ps, args) && |ps| + k < |args|
    ensures args[|ps| + k].Scalar? && forall h :: |ps| <= h < |ps| + k ==> args[h].Scalar?
  {
  }

  /** The k-th `va_arg` of a 4-byte type is the k-th variadic argument. */
  lemma VaArgs(records: seq<Record>, ps: seq<(string, Ty)>, m: Bytes, esp: int, args: seq<Arg>, k: nat)
    requires Matches(records, ps, args) && SourcesApart(args, esp - Total(args), esp) && |ps| + k < |args|
    ensures VaNth(PushAll(m, esp, args), FrameOf(esp, args) + 8 + Pos(args, |ps|), k).0 == args[|ps| + k].w
  {
    hide PushAll, SourcesApart, Matches, WordAt, VaNth, At, Pos, Total, Slot, Size, Word4;
    var ap := FrameOf(esp, args) + 8 + Pos(args, |ps|);
    Variadic(records, ps, args, k);
    PushAllHolds(m, esp, args, |ps| + k);
    PosWords(args, |ps|, k);
    VaNthReads(PushAll(m, esp, args), ap, k);
    assert Holds(PushAll(m, esp, args), esp - Total(args) + Pos(args, |ps| + k), args[|ps| + k], m);
  }
}
