/** Linking object files into one image, wrapping it as an ELF file, and loading
    that file: specification and proofs.
 */
module Linker {
  import opened Options
  import opened Word32
  import opened Patching

  const HEADER := 84
  const MAX_TEXT := 2359296
  const MAX_RODATA := 589824
  const MAX_DATA := 196608

  type Bytes = seq<Byte>

  datatype Sec = Text | Rodata | Data | Bss

  datatype ObjSym = ObjSym(name: string, sec: Sec, value: nat, defined: bool)
  datatype LocReloc = LocReloc(sec: Sec, offset: nat, rel: bool, target: Sec, addend: int)
  datatype SymReloc = SymReloc(sec: Sec, offset: nat, rel: bool, addend: int, name: string)
  datatype Obj = Obj(text: Bytes, rodata: Bytes, data: Bytes, bss: nat, syms: seq<ObjSym>, lrel: seq<LocReloc>, srel: seq<SymReloc>)

  // ----- layout -----

  function Part(o: Obj, s: Sec): Bytes {
    match s case Text => o.text case Rodata => o.rodata case Data => o.data case Bss => []
  }

  function Len(o: Obj, s: Sec): nat { if s.Bss? then o.bss else |Part(o, s)| }

  /** Bytes of the section in the objects before `i`. */
  function Off(objs: seq<Obj>, s: Sec, i: nat): nat
    requires i <= |objs|
  {
    if i == 0 then 0 else Off(objs, s, i - 1) + Len(objs[i - 1], s)
  }

  function Total(objs: seq<Obj>, s: Sec): nat { Off(objs, s, |objs|) }

  /** Sections follow one another after the headers. */
  function Base(objs: seq<Obj>, s: Sec): nat {
    match s
    case Text => HEADER
    case Rodata => HEADER + Total(objs, Text)
    case Data => HEADER + Total(objs, Text) + Total(objs, Rodata)
    case Bss => HEADER + Total(objs, Text) + Total(objs, Rodata) + Total(objs, Data)
  }

  function Address(objs: seq<Obj>, s: Sec, i: nat, v: int): int
    requires i <= |objs|
  {
    Base(objs, s) + Off(objs, s, i) + v
  }

  predicate Fits(objs: seq<Obj>) {
    Total(objs, Text) <= MAX_TEXT && Total(objs, Rodata) <= MAX_RODATA && Total(objs, Data) <= MAX_DATA
  }

  // ----- definitions -----

  datatype Def = Def(name: string, addr: int)

  /** Definitions among the first `k` symbols of object `i`. */
  function DefsIn(objs: seq<Obj>, i: nat, k: nat): seq<Def>
    requires i < |objs| && k <= |objs[i].syms|
  {
    if k == 0 then []
    else
      var s := objs[i].syms[k - 1];
      DefsIn(objs, i, k - 1) + if s.defined then [Def(s.name, Address(objs, s.sec, i, s.value))] else []
  }

  function DefsUpto(objs: seq<Obj>, i: nat): seq<Def>
    requires i <= |objs|
  {
    if i == 0 then [] else DefsUpto(objs, i - 1) + DefsIn(objs, i - 1, |objs[i - 1].syms|)
  }

  function Defs(objs: seq<Obj>): seq<Def> { DefsUpto(objs, |objs|) }

  function LookupDef(ds: seq<Def>, name: string): Option<int> {
    if ds == [] then None
    else match LookupDef(ds[..|ds| - 1], name)
      case Some(a) => Some(a)
      case None => if ds[|ds| - 1].name == name then Some(ds[|ds| - 1].addr) else None
  }

  /** No name is defined twice. */
  ghost predicate Unique(ds: seq<Def>) { forall i, j :: 0 <= i < j < |ds| ==> ds[i].name != ds[j].name }

  /** Every symbol relocation names a definition. */
  ghost predicate Resolved(objs: seq<Obj>) {
    forall i, k :: 0 <= i < |objs| && 0 <= k < |objs[i].srel| ==> LookupDef(Defs(objs), objs[i].srel[k].name).Some?
  }

  // ----- relocation -----

  /** Value for a place at `at`: the target, or its distance from the place's end. */
  function Value(at: int, target: int, rel: bool): Word { Wrap(if rel then target - (at + 4) else target) }

  /** Places are counted from the start of the sections, after the headers. */
  function LocSite(objs: seq<Obj>, i: nat, r: LocReloc): Site
    requires i < |objs|
  {
    var at := Address(objs, r.sec, i, r.offset);
    Site(at - HEADER, Value(at, Address(objs, r.target, i, r.addend), r.rel))
  }

  function SymSite(objs: seq<Obj>, i: nat, r: SymReloc): Site
    requires i < |objs|
  {
    var at := Address(objs, r.sec, i, r.offset);
    var target := match LookupDef(Defs(objs), r.name) case Some(a) => a case None => 0;
    Site(at - HEADER, Value(at, target + r.addend, r.rel))
  }

  function LocSites(objs: seq<Obj>, i: nat, k: nat): (ss: seq<Site>)
    requires i < |objs| && k <= |objs[i].lrel|
    ensures |ss| == k && forall h :: 0 <= h < k ==> ss[h] == LocSite(objs, i, objs[i].lrel[h])
  {
    seq(k, h requires 0 <= h < k => LocSite(objs, i, objs[i].lrel[h]))
  }

  function SymSites(objs: seq<Obj>, i: nat, k: nat): (ss: seq<Site>)
    requires i < |objs| && k <= |objs[i].srel|
    ensures |ss| == k && forall h :: 0 <= h < k ==> ss[h] == SymSite(objs, i, objs[i].srel[h])
  {
    seq(k, h requires 0 <= h < k => SymSite(objs, i, objs[i].srel[h]))
  }

  /** All places in the order they are patched. */
  function SitesUpto(objs: seq<Obj>, i: nat): seq<Site>
    requires i <= |objs|
  {
    if i == 0 then []
    else SitesUpto(objs, i - 1) + LocSites(objs, i - 1, |objs[i - 1].lrel|) + SymSites(objs, i - 1, |objs[i - 1].srel|)
  }

  function Sites(objs: seq<Obj>): seq<Site> { SitesUpto(objs, |objs|) }

  // ----- the image -----

  function Joined(objs: seq<Obj>, s: Sec, i: nat): (b: Bytes)
    requires i <= |objs| && !s.Bss?
    ensures |b| == Off(objs, s, i)
  {
    if i == 0 then [] else Joined(objs, s, i - 1) + Part(objs[i - 1], s)
  }

  /** The sections as copied, before any place is patched. */
  function Raw(objs: seq<Obj>): (b: Bytes)
    ensures |b| == Total(objs, Text) + Total(objs, Rodata) + Total(objs, Data)
  {
    Joined(objs, Text, |objs|) + Joined(objs, Rodata, |objs|) + Joined(objs, Data, |objs|)
  }

  function Image(objs: seq<Obj>): (b: Bytes)
    requires InBounds(Raw(objs), Sites(objs))
    ensures |b| == |Raw(objs)|
  {
    PatchAll(Raw(objs), Sites(objs))
  }

  lemma {:induction false} OffMono(objs: seq<Obj>, s: Sec, i: nat, j: nat)
    requires i <= j <= |objs|
    ensures Off(objs, s, i) <= Off(objs, s, j)
    decreases j - i
  {
    if i < j { OffMono(objs, s, i, j - 1); }
  }

  lemma {:induction false} JoinedAt(objs: seq<Obj>, s: Sec, n: nat, i: nat, k: nat)
    requires i < n <= |objs| && !s.Bss? && k < |Part(objs[i], s)|
    ensures Off(objs, s, i) + k < Off(objs, s, n) && Joined(objs, s, n)[Off(objs, s, i) + k] == Part(objs[i], s)[k]
    decreases n
  {
    hide Part;
    OffMono(objs, s, i + 1, n);
    if i < n - 1 {
      JoinedAt(objs, s, n - 1, i, k);
      OffMono(objs, s, i + 1, n - 1);
    }
  }

  /** Where a byte of an object's section lands. */
  lemma RawAt(objs: seq<Obj>, s: Sec, i: nat, k: nat)
    requires i < |objs| && !s.Bss? && k < |Part(objs[i], s)|
    ensures HEADER <= Address(objs, s, i, k) < HEADER + |Raw(objs)|
    ensures Raw(objs)[Address(objs, s, i, k) - HEADER] == Part(objs[i], s)[k]
  {
    JoinedAt(objs, s, |objs|, i, k);
  }

  // ----- places one by one -----

  lemma {:induction false} LocalAt(objs: seq<Obj>, n: nat, i: nat, k: nat)
    requires i < n <= |objs| && k < |objs[i].lrel|
    ensures |SitesUpto(objs, i)| + k < |SitesUpto(objs, n)|
    ensures SitesUpto(objs, n)[|SitesUpto(objs, i)| + k] == LocSite(objs, i, objs[i].lrel[k])
    decreases n
  {
    hide LocSite, SymSite;
    if i < n - 1 { LocalAt(objs, n - 1, i, k); }
  }

  lemma {:induction false} SymbolAt(objs: seq<Obj>, n: nat, i: nat, k: nat)
    requires i < n <= |objs| && k < |objs[i].srel|
    ensures |SitesUpto(objs, i)| + |objs[i].lrel| + k < |SitesUpto(objs, n)|
    ensures SitesUpto(objs, n)[|SitesUpto(objs, i)| + |objs[i].lrel| + k] == SymSite(objs, i, objs[i].srel[k])
    decreases n
  {
    hide LocSite, SymSite;
    if i < n - 1 { SymbolAt(objs, n - 1, i, k); }
  }

  /** After linking, the place of a local relocation holds its target's address,
      or the distance to it from the end of the place. */
  lemma LocalPatched(objs: seq<Obj>, i: nat, k: nat)
    requires InBounds(Raw(objs), Sites(objs)) && Apart(Sites(objs)) && i < |objs| && k < |objs[i].lrel|
    ensures var r := objs[i].lrel[k];
            var at := Address(objs, r.sec, i, r.offset);
            && at - HEADER + 4 <= |Image(objs)|
            && ReadWord(Image(objs), at - HEADER) == Value(at, Address(objs, r.target, i, r.addend), r.rel)
  {
    hide PatchAll, Raw, ReadWord, Value, Apart, SitesUpto;
    LocalAt(objs, |objs|, i, k);
    PatchReads(Raw(objs), Sites(objs), |SitesUpto(objs, i)| + k);
    assert Sites(objs)[|SitesUpto(objs, i)| + k].pos + 4 <= |Raw(objs)|;
  }

  /** The same for a symbol relocation and the address the symbol is defined at. */
  lemma SymbolPatched(objs: seq<Obj>, i: nat, k: nat)
    requires InBounds(Raw(objs), Sites(objs)) && Apart(Sites(objs)) && Resolved(objs) && i < |objs| && k < |objs[i].srel|
    ensures var r := objs[i].srel[k];
            var at := Address(objs, r.sec, i, r.offset);
            && at - HEADER + 4 <= |Image(objs)| && LookupDef(Defs(objs), r.name).Some?
            && ReadWord(Image(objs), at - HEADER) == Value(at, LookupDef(Defs(objs), r.name).value + r.addend, r.rel)
  {
    hide PatchAll, Raw, ReadWord, Value, Apart, LookupDef, SitesUpto;
    SymbolAt(objs, |objs|, i, k);
    assert LookupDef(Defs(objs), objs[i].srel[k].name).Some?;
    var at := |SitesUpto(objs, i)| + |objs[i].lrel| + k;
    PatchReads(Raw(objs), Sites(objs), at);
    assert Sites(objs)[at].pos + 4 <= |Raw(objs)|;
  }

  /** Every other byte is the object's own. */
  lemma BytesKept(objs: seq<Obj>, s: Sec, i: nat, k: nat)
    requires InBounds(Raw(objs), Sites(objs)) && i < |objs| && !s.Bss? && k < |Part(objs[i], s)|
    requires Outside(Sites(objs), Address(objs, s, i, k) - HEADER)
    ensures HEADER <= Address(objs, s, i, k) < HEADER + |Image(objs)|
    ensures Image(objs)[Address(objs, s, i, k) - HEADER] == Part(objs[i], s)[k]
  {
    RawAt(objs, s, i, k);
    PatchKeeps(Raw(objs), Sites(objs), Address(objs, s, i, k) - HEADER);
    hide PatchAll, Raw;
  }

  /** With unique names a definition's address is the one found. */
  lemma {:induction false} LookupUnique(ds: seq<Def>, k: nat)
    requires Unique(ds) && k < |ds|
    ensures LookupDef(ds, ds[k].name) == Some(ds[k].addr)
    decreases |ds|
  {
    var front := ds[..|ds| - 1];
    if k < |ds| - 1 {
      LookupUnique(front, k);
    } else if LookupDef(front, ds[k].name).Some? {
      var j := LookupWhere(front, ds[k].name);
      assert false;
    }
  }

  lemma {:induction false} LookupWhere(ds: seq<Def>, name: string) returns (k: nat)
    requires LookupDef(ds, name).Some?
    ensures k < |ds| && ds[k].name == name && LookupDef(ds, name) == Some(ds[k].addr)
    decreases |ds|
  {
    var front := ds[..|ds| - 1];
    if LookupDef(front, name).Some? { k := LookupWhere(front, name); } else { k := |ds| - 1; }
  }

  // ----- the executable file -----

  function Half(v: nat): Bytes
    requires v < 65536
  {
    [v % 256, v / 256]
  }

  /** `build_elf`'s two headers: one segment covering the whole file. */
  function Headers(size: Word, bss: Word): (b: Bytes)
    requires size + bss < TWO32
    ensures |b| == HEADER
  {
    [0x7F, 0x45, 0x4C, 0x46, 1, 1, 1, 0, 0, 0, 0, 0, 0, 0, 0, 0]
    + Half(2) + Half(3) + Bytes4(1) + Bytes4(HEADER) + Bytes4(52) + Bytes4(0) + Bytes4(0)
    + Half(52) + Half(32) + Half(1) + Half(0) + Half(0) + Half(0)
    + Bytes4(1) + Bytes4(0) + Bytes4(0) + Bytes4(0) + Bytes4(size) + Bytes4(size + bss) + Bytes4(7) + Bytes4(0x1000)
  }

  const MAX_FILE := 1048576

  /** None when the file would not fit the output buffer. */
  function Elf(image: Bytes, bss: nat): Option<Bytes>
    requires HEADER + |image| + bss < TWO32
  {
    if HEADER + |image| > MAX_FILE then None else Some(Headers(HEADER + |image|, bss) + image)
  }

  function ReadHalf(b: Bytes, at: nat): nat
    requires at + 2 <= |b|
  {
    var lo: nat, hi: nat := b[at], b[at + 1];
    lo + 256 * hi
  }

  lemma {:induction false} HeaderFields(size: Word, bss: Word, image: Bytes)
    requires size + bss < TWO32
    ensures var f := Headers(size, bss) + image;
            && |f| == HEADER + |image|
            && f[0] == 0x7F && f[1] == 0x45 && f[2] == 0x4C && f[3] == 0x46
            && ReadWord(f, 24) == HEADER && ReadWord(f, 28) == 52 && ReadHalf(f, 42) == 32 && ReadHalf(f, 44) == 1
            && ReadWord(f, 52) == 1 && ReadWord(f, 56) == 0 && ReadWord(f, 60) == 0
            && ReadWord(f, 68) == size && ReadWord(f, 72) == size + bss
  {
    hide Bytes4, ReadWord;
    var f := Headers(size, bss) + image;
    FieldIs(f, 24, HEADER);
    FieldIs(f, 28, 52);
    FieldIs(f, 52, 1);
    FieldIs(f, 56, 0);
    FieldIs(f, 60, 0);
    FieldIs(f, 68, size);
    FieldIs(f, 72, size + bss);
  }

  lemma FieldIs(f: Bytes, at: nat, v: Word)
    requires at + 4 <= |f| && f[at..at + 4] == Bytes4(v)
    ensures ReadWord(f, at) == v
  {
    ReadBytes4(v);
    var c := f[at..at + 4];
    assert ReadWord(f, at) == ReadWord(c, 0);
  }

  // ----- the loader -----

  datatype Loaded = Loaded(mem: Bytes, entry: Word)

  /** `memcpy` of a segment's file bytes, then zeros up to its memory size. */
  function PlaceSegment(mem: Bytes, at: nat, bytes: Bytes, size: nat): (r: Bytes)
    requires at + |bytes| <= |mem| && at + size <= |mem|
    ensures |r| == |mem|
  {
    var end := if size > |bytes| then at + size else at + |bytes|;
    mem[..at] + bytes + seq(end - at - |bytes|, _ => 0) + mem[end..]
  }

  /** Where program header `i` is. */
  function HeaderAt(f: Bytes, i: nat): nat
    requires |f| >= 52
  {
    ReadWord(f, 28) + i * ReadHalf(f, 42)
  }

  /** Program header `i`, when it lies in the file and fits in memory. */
  predicate SegmentFits(f: Bytes, i: nat, n: nat)
    requires |f| >= 52
  {
    var ph := HeaderAt(f, i);
    && ph + 32 <= |f|
    && (ReadWord(f, ph) == 1 ==>
          && ReadWord(f, ph + 4) + ReadWord(f, ph + 16) <= |f|
          && ReadWord(f, ph + 8) + ReadWord(f, ph + 16) <= n && ReadWord(f, ph + 8) + ReadWord(f, ph + 20) <= n)
  }

  function LoadSegments(f: Bytes, mem: Bytes, i: nat): (r: Bytes)
    requires |f| >= 52 && i <= ReadHalf(f, 44) && forall k :: i <= k < ReadHalf(f, 44) ==> SegmentFits(f, k, |mem|)
    ensures |r| == |mem|
    decreases ReadHalf(f, 44) - i
  {
    hide HeaderAt, ReadWord, ReadHalf, PlaceSegment;
    if i == ReadHalf(f, 44) then mem
    else
      assert SegmentFits(f, i, |mem|);
      var ph := HeaderAt(f, i);
      if ReadWord(f, ph) != 1 then LoadSegments(f, mem, i + 1)
      else
        var o, at, n := ReadWord(f, ph + 4), ReadWord(f, ph + 8), ReadWord(f, ph + 16);
        LoadSegments(f, PlaceSegment(mem, at, f[o..o + n], ReadWord(f, ph + 20)), i + 1)
  }

  ghost predicate Loadable(f: Bytes, n: nat) {
    |f| >= 52 && forall k :: 0 <= k < ReadHalf(f, 44) ==> SegmentFits(f, k, n)
  }

  /** `exec_user` on cleared memory; None where it refuses the file. */
  function Load(f: Bytes, n: nat): Option<Loaded>
    requires Loadable(f, n)
  {
    if f[0] != 0x7F || f[1] != 0x45 || f[2] != 0x4C || f[3] != 0x46 then None
    else Some(Loaded(LoadSegments(f, seq(n, _ => 0), 0), ReadWord(f, 24)))
  }

  /** Headers and image at the bottom of memory, zeros from there on, and the
      first section byte as entry. */
  function InMemory(image: Bytes, bss: nat, n: nat): (p: Loaded)
    requires HEADER + |image| + bss <= n < TWO32
    ensures |p.mem| == n && p.entry == HEADER
  {
    Loaded(Headers(HEADER + |image|, bss) + image + seq(n - HEADER - |image|, _ => 0), HEADER)
  }

  /** What the loader makes of a file `build_elf` wrote. */
  lemma LoadElf(image: Bytes, bss: nat, n: nat)
    requires HEADER + |image| + bss <= n < TWO32 && Elf(image, bss).Some?
    ensures Loadable(Elf(image, bss).value, n)
    ensures Load(Elf(image, bss).value, n) == Some(InMemory(image, bss, n))
  {
    hide Headers, ReadWord, ReadHalf, LoadSegments, PlaceSegment;
    var f := Elf(image, bss).value;
    HeaderFields(HEADER + |image|, bss, image);
    OneSegment(f, seq(n, _ => 0), |f| + bss);
    PlaceAll(f, n, |f| + bss);
  }

  /** A file that is one segment, placed at 0. */
  lemma OneSegment(f: Bytes, mem: Bytes, size: nat)
    requires |f| >= HEADER && |f| <= size <= |mem|
    requires ReadWord(f, 28) == 52 && ReadHalf(f, 42) == 32 && ReadHalf(f, 44) == 1
    requires ReadWord(f, 52) == 1 && ReadWord(f, 56) == 0 && ReadWord(f, 60) == 0 && ReadWord(f, 68) == |f| && ReadWord(f, 72) == size
    ensures Loadable(f, |mem|) && LoadSegments(f, mem, 0) == PlaceSegment(mem, 0, f, size)
  {
    hide ReadWord, ReadHalf, PlaceSegment;
    assert SegmentFits(f, 0, |mem|);
    assert f[0..0 + |f|] == f;
    assert LoadSegments(f, PlaceSegment(mem, 0, f, size), 1) == PlaceSegment(mem, 0, f, size);
  }

  lemma PlaceAll(f: Bytes, n: nat, size: nat)
    requires |f| <= size <= n
    ensures PlaceSegment(seq(n, _ => 0), 0, f, size) == f + seq(n - |f|, _ => 0)
  {
  }

  /** Section bytes of a loaded program. */
  lemma LoadedByte(image: Bytes, bss: nat, n: nat, a: nat)
    requires HEADER + |image| + bss <= n < TWO32 && HEADER <= a < n
    ensures InMemory(image, bss, n).mem[a] == if a < HEADER + |image| then image[a - HEADER] else 0
  {
    hide Headers;
  }

  // ----- the whole way -----

  /** Linking succeeds exactly when totals fit, no name is defined twice, and
      every symbol relocation names a definition. */
  ghost predicate Links(objs: seq<Obj>) { Fits(objs) && Unique(Defs(objs)) && Resolved(objs) }

  /** Patch sites are inside the sections and do not overlap. */
  ghost predicate WellPlaced(objs: seq<Obj>) { InBounds(Raw(objs), Sites(objs)) && Apart(Sites(objs)) }

  /** The program fits in `n` bytes of memory. */
  predicate Room(objs: seq<Obj>, n: nat) { HEADER + |Raw(objs)| + Total(objs, Bss) <= n < TWO32 }

  /** The linked program in memory. */
  ghost function Program(objs: seq<Obj>, n: nat): Loaded
    requires WellPlaced(objs) && Room(objs, n)
  {
    InMemory(Image(objs), Total(objs, Bss), n)
  }

  lemma ReadShift(m: Bytes, image: Bytes, at: nat)
    requires HEADER <= at && at - HEADER + 4 <= |image| && at + 4 <= |m|
    requires forall a :: at <= a < at + 4 ==> m[a] == image[a - HEADER]
    ensures ReadWord(m, at) == ReadWord(image, at - HEADER)
  {
  }

  lemma ProgramWord(objs: seq<Obj>, n: nat, at: int)
    requires WellPlaced(objs) && Room(objs, n) && HEADER <= at && at - HEADER + 4 <= |Image(objs)|
    ensures at + 4 <= |Program(objs, n).mem| && ReadWord(Program(objs, n).mem, at) == ReadWord(Image(objs), at - HEADER)
  {
    hide Image, Raw, Sites, ReadWord, InMemory;
    forall a | at <= a < at + 4 ensures Program(objs, n).mem[a] == Image(objs)[a - HEADER] {
      LoadedByte(Image(objs), Total(objs, Bss), n, a);
    }
    ReadShift(Program(objs, n).mem, Image(objs), at);
  }

  /** In memory every place of a local relocation holds the right word. */
  lemma LoadedLocal(objs: seq<Obj>, n: nat, i: nat, k: nat)
    requires WellPlaced(objs) && Room(objs, n) && i < |objs| && k < |objs[i].lrel|
    ensures var r := objs[i].lrel[k];
            var at := Address(objs, r.sec, i, r.offset);
            && HEADER <= at && at + 4 <= |Program(objs, n).mem|
            && ReadWord(Program(objs, n).mem, at) == Value(at, Address(objs, r.target, i, r.addend), r.rel)
  {
    LocalPatched(objs, i, k);
    hide Image, Raw, Sites, ReadWord, Value, Program, Total, Off;
    ProgramWord(objs, n, Address(objs, objs[i].lrel[k].sec, i, objs[i].lrel[k].offset));
  }

  /** In memory every place of a symbol relocation holds the right word. */
  lemma LoadedSymbol(objs: seq<Obj>, n: nat, i: nat, k: nat)
    requires WellPlaced(objs) && Resolved(objs) && Room(objs, n) && i < |objs| && k < |objs[i].srel|
    ensures var r := objs[i].srel[k];
            var at := Address(objs, r.sec, i, r.offset);
            && HEADER <= at && at + 4 <= |Program(objs, n).mem| && LookupDef(Defs(objs), r.name).Some?
            && ReadWord(Program(objs, n).mem, at) == Value(at, LookupDef(Defs(objs), r.name).value + r.addend, r.rel)
  {
    SymbolPatched(objs, i, k);
    hide Image, Raw, Sites, ReadWord, Value, Program, Total, Off, LookupDef, Defs;
    ProgramWord(objs, n, Address(objs, objs[i].srel[k].sec, i, objs[i].srel[k].offset));
  }

  /** In memory every other section byte is the object's, and bss is zero. */
  lemma LoadedRest(objs: seq<Obj>, n: nat, s: Sec, i: nat, k: nat)
    requires WellPlaced(objs) && Room(objs, n) && i < |objs| && k < Len(objs[i], s)
    requires !s.Bss? ==> Outside(Sites(objs), Address(objs, s, i, k) - HEADER)
    ensures Address(objs, s, i, k) < |Program(objs, n).mem|
    ensures Program(objs, n).mem[Address(objs, s, i, k)] == if s.Bss? then 0 else Part(objs[i], s)[k]
  {
    var a := Address(objs, s, i, k);
    if s.Bss? { BssAfter(objs, i, k); } else { BytesKept(objs, s, i, k); }
    hide Image, Raw, Sites, Off, InMemory;
    LoadedByte(Image(objs), Total(objs, Bss), n, a);
  }

  lemma BssAfter(objs: seq<Obj>, i: nat, k: nat)
    requires i < |objs| && k < objs[i].bss
    ensures HEADER + |Raw(objs)| <= Address(objs, Bss, i, k) < HEADER + |Raw(objs)| + Total(objs, Bss)
  {
    OffMono(objs, Bss, i + 1, |objs|);
  }

  // ----- the start stub -----

  /** `build_start_obj`. */
  function StartObj(): Obj {
    Obj([0x83, 0xEC, 0x04, 0x66, 0xC7, 0x04, 0x24, 0x7F, 0x03, 0xD9, 0x2C, 0x24, 0x83, 0xC4, 0x04,
         0xE8, 0, 0, 0, 0, 0x89, 0xC3, 0xB8, 6, 0, 0, 0, 0xCD, 0x80, 0xEB, 0xFE],
        [], [], 0, [], [], [SymReloc(Text, 16, true, 0, "main")])
  }

  /** A program starts at the stub's first byte, and the stub's call reaches the
      definition of `main`. */
  lemma StartsAtStub(objs: seq<Obj>, n: nat)
    requires WellPlaced(objs) && Resolved(objs) && Room(objs, n) && objs != [] && objs[0] == StartObj()
    requires Outside(Sites(objs), 0) && Outside(Sites(objs), 15)
    ensures var p := Program(objs, n);
            && p.entry == Address(objs, Text, 0, 0) && p.entry + 20 <= |p.mem|
            && p.mem[p.entry] == 0x83 && p.mem[p.entry + 15] == 0xE8
            && LookupDef(Defs(objs), "main").Some?
            && Wrap(p.entry + 20 + ReadWord(p.mem, p.entry + 16)) == Wrap(LookupDef(Defs(objs), "main").value)
  {
    hide Sites, Total, Off, LookupDef, Defs, WellPlaced, Resolved, Room, Program, ReadWord, Outside, Raw, Image;
    TextStart(objs);
    LoadedRest(objs, n, Text, 0, 0);
    LoadedRest(objs, n, Text, 0, 15);
    LoadedSymbol(objs, n, 0, 0);
    assert StartObj().srel[0] == SymReloc(Text, 16, true, 0, "main");
    WrapAdd(LookupDef(Defs(objs), "main").value - (HEADER + 20), HEADER + 20);
    ProgramEntry(objs, n);
  }

  lemma TextStart(objs: seq<Obj>)
    requires objs != []
    ensures forall v :: Address(objs, Text, 0, v) == HEADER + v
  {
  }

  lemma ProgramEntry(objs: seq<Obj>, n: nat)
    requires WellPlaced(objs) && Room(objs, n)
    ensures Program(objs, n).entry == HEADER
  {
  }
}
