/** `link_objects` and the loader as they run: loops over objects, symbols and
    relocations that patch the section buffers.
 */
module LinkerOps {
  import opened Options
  import opened Word32
  import opened Patching
  import opened Linker

  datatype LinkSym = LinkSym(name: string, addr: int, defined: bool)

  function FindFrom(tab: seq<LinkSym>, name: string, i: nat): (r: Option<nat>)
    ensures r.Some? ==> i <= r.value < |tab| && tab[r.value].name == name
    decreases |tab| - i
  {
    if i >= |tab| then None else if tab[i].name == name then Some(i) else FindFrom(tab, name, i + 1)
  }

  /** What the table knows of a name. */
  function Known(tab: seq<LinkSym>, name: string): Option<int> {
    match FindFrom(tab, name, 0)
    case Some(i) => if tab[i].defined then Some(tab[i].addr) else None
    case None => None
  }

  ghost predicate Agrees(tab: seq<LinkSym>, ds: seq<Def>) { forall name :: Known(tab, name) == LookupDef(ds, name) }

  lemma {:induction false} FindAppend(tab: seq<LinkSym>, s: LinkSym, name: string, i: nat)
    requires i <= |tab|
    ensures FindFrom(tab + [s], name, i) ==
            if FindFrom(tab, name, i).Some? then FindFrom(tab, name, i) else if s.name == name then Some(|tab|) else None
    decreases |tab| - i
  {
    if i < |tab| {
      assert (tab + [s])[i] == tab[i];
      FindAppend(tab, s, name, i + 1);
    }
  }

  lemma {:induction false} FindUpdate(tab: seq<LinkSym>, j: nat, s: LinkSym, name: string, i: nat)
    requires i <= |tab| && j < |tab| && s.name == tab[j].name
    ensures FindFrom(tab[j := s], name, i) == FindFrom(tab, name, i)
    decreases |tab| - i
  {
    if i < |tab| { FindUpdate(tab, j, s, name, i + 1); }
  }

  lemma LookupMore(ds: seq<Def>, d: Def, name: string)
    ensures LookupDef(ds + [d], name) ==
            if LookupDef(ds, name).Some? then LookupDef(ds, name) else if d.name == name then Some(d.addr) else None
  {
    assert (ds + [d])[..|ds|] == ds;
  }

  lemma UniqueMore(ds: seq<Def>, d: Def)
    ensures Unique(ds + [d]) <==> Unique(ds) && LookupDef(ds, d.name) == None
  {
    var all := ds + [d];
    assert forall i :: 0 <= i < |ds| ==> all[i] == ds[i];
    if LookupDef(ds, d.name).Some? {
      var k := LookupWhere(ds, d.name);
      assert all[k].name == all[|ds|].name;
    } else {
      forall i | 0 <= i < |ds| ensures ds[i].name != d.name {
        if ds[i].name == d.name { LookupMember(ds, i); }
      }
    }
  }

  lemma {:induction false} LookupMember(ds: seq<Def>, i: nat)
    requires i < |ds|
    ensures LookupDef(ds, ds[i].name).Some?
    decreases |ds|
  {
    if i < |ds| - 1 { LookupMember(ds[..|ds| - 1], i); }
  }

  lemma UniquePrefix(a: seq<Def>, b: seq<Def>)
    requires Unique(a + b)
    ensures Unique(a)
  {
    assert forall i :: 0 <= i < |a| ==> (a + b)[i] == a[i];
  }

  lemma {:induction false} DefsPrefix(objs: seq<Obj>, i: nat, n: nat) returns (rest: seq<Def>)
    requires i <= n <= |objs|
    ensures DefsUpto(objs, n) == DefsUpto(objs, i) + rest
    decreases n - i
  {
    if i == n {
      rest := [];
    } else {
      rest := DefsPrefix(objs, i, n - 1);
      rest := rest + DefsIn(objs, n - 1, |objs[n - 1].syms|);
    }
  }

  lemma {:induction false} DefsInPrefix(objs: seq<Obj>, i: nat, k: nat, n: nat) returns (rest: seq<Def>)
    requires i < |objs| && k <= n <= |objs[i].syms|
    ensures DefsIn(objs, i, n) == DefsIn(objs, i, k) + rest
    decreases n - k
  {
    if k == n {
      rest := [];
    } else {
      rest := DefsInPrefix(objs, i, k, n - 1);
      var s := objs[i].syms[n - 1];
      rest := rest + if s.defined then [Def(s.name, Address(objs, s.sec, i, s.value))] else [];
    }
  }

  /** Definitions seen so far come first among all. */
  lemma SoFarPrefix(objs: seq<Obj>, i: nat, k: nat)
    requires i < |objs| && k <= |objs[i].syms| && Unique(Defs(objs))
    ensures Unique(DefsUpto(objs, i) + DefsIn(objs, i, k))
  {
    var r1 := DefsPrefix(objs, i + 1, |objs|);
    var r2 := DefsInPrefix(objs, i, k, |objs[i].syms|);
    var a := DefsUpto(objs, i) + DefsIn(objs, i, k);
    assert Defs(objs) == a + (r2 + r1);
    UniquePrefix(a, r2 + r1);
  }

  /** One symbol entered into the table; false on a second definition. */
  method Enter(tab: seq<LinkSym>, s: ObjSym, addr: int, ghost ds: seq<Def>) returns (ok: bool, tab': seq<LinkSym>)
    requires Agrees(tab, ds) && Unique(ds)
    ensures ok <==> !s.defined || LookupDef(ds, s.name) == None
    ensures ok ==> Agrees(tab', ds + if s.defined then [Def(s.name, addr)] else [])
  {
    ok, tab' := true, tab;
    var i := FindName(tab, s.name);
    assert Known(tab, s.name) == LookupDef(ds, s.name);
    hide LookupDef, FindFrom;
    if s.defined {
      forall name | true ensures LookupDef(ds + [Def(s.name, addr)], name) == (if LookupDef(ds, name).Some? then LookupDef(ds, name) else if s.name == name then Some(addr) else None) {
        LookupMore(ds, Def(s.name, addr), name);
      }
      if i >= 0 {
        if tab[i].defined { return false, tab; }
        tab' := tab[i := LinkSym(s.name, addr, true)];
        forall name | true ensures Known(tab', name) == if name == s.name then Some(addr) else Known(tab, name) {
          FindUpdate(tab, i, tab'[i], name, 0);
        }
      } else {
        tab' := tab + [LinkSym(s.name, addr, true)];
        forall name | true ensures Known(tab', name) == if name == s.name then Some(addr) else Known(tab, name) {
          FindAppend(tab, tab'[|tab|], name, 0);
        }
      }
    } else {
      assert ds + [] == ds;
      if i < 0 {
        tab' := tab + [LinkSym(s.name, 0, false)];
        forall name | true ensures Known(tab', name) == Known(tab, name) {
          FindAppend(tab, tab'[|tab|], name, 0);
        }
      }
    }
  }

  /** `link_find`. */
  method FindName(tab: seq<LinkSym>, name: string) returns (i: int)
    ensures FindFrom(tab, name, 0) == if i < 0 then None else Some(i)
    ensures i < |tab|
  {
    for k := 0 to |tab|
      invariant FindFrom(tab, name, 0) == FindFrom(tab, name, k)
    {
      if tab[k].name == name { return k; }
    }
    i := -1;
  }

  /** The first pass over all symbols. */
  method BuildTable(objs: seq<Obj>) returns (ok: bool, tab: seq<LinkSym>)
    ensures ok <==> Unique(Defs(objs))
    ensures ok ==> Agrees(tab, Defs(objs))
  {
    hide Address, LookupDef, FindFrom, Unique, Agrees;
    tab := [];
    EmptyTable();
    for i := 0 to |objs|
      invariant Agrees(tab, DefsUpto(objs, i)) && Unique(DefsUpto(objs, i))
    {
      assert DefsUpto(objs, i) + [] == DefsUpto(objs, i);
      for k := 0 to |objs[i].syms|
        invariant Agrees(tab, DefsUpto(objs, i) + DefsIn(objs, i, k)) && Unique(DefsUpto(objs, i) + DefsIn(objs, i, k))
      {
        var s := objs[i].syms[k];
        ghost var ds := DefsUpto(objs, i) + DefsIn(objs, i, k);
        var addr := Address(objs, s.sec, i, s.value);
        ghost var more := if s.defined then [Def(s.name, addr)] else [];
        assert DefsUpto(objs, i) + DefsIn(objs, i, k + 1) == ds + more;
        assert ds + [] == ds;
        ok, tab := Enter(tab, s, addr, ds);
        if s.defined { UniqueMore(ds, Def(s.name, addr)); }
        if !ok {
          if Unique(Defs(objs)) { SoFarPrefix(objs, i, k + 1); }
          return;
        }
      }
    }
    ok := true;
  }

  lemma EmptyTable()
    ensures Agrees([], []) && Unique([])
  {
  }

  // ----- patching the sections -----

  datatype Sections = Sections(text: Bytes, rodata: Bytes, data: Bytes)

  function All(s: Sections): Bytes { s.text + s.rodata + s.data }

  function SecOf(s: Sections, sec: Sec): Bytes {
    match sec case Text => s.text case Rodata => s.rodata case Data => s.data case Bss => []
  }

  /** Sections of the right lengths that hold the given bytes. */
  ghost predicate Holds(objs: seq<Obj>, s: Sections, b: Bytes) {
    && |s.text| == Total(objs, Text) && |s.rodata| == Total(objs, Rodata) && |s.data| == Total(objs, Data)
    && All(s) == b
  }

  /** Every place lies inside its own object's section. */
  ghost predicate Placed(objs: seq<Obj>) {
    && (forall i, k :: 0 <= i < |objs| && 0 <= k < |objs[i].lrel| ==>
          !objs[i].lrel[k].sec.Bss? && objs[i].lrel[k].offset + 4 <= |Part(objs[i], objs[i].lrel[k].sec)|)
    && (forall i, k :: 0 <= i < |objs| && 0 <= k < |objs[i].srel| ==>
          !objs[i].srel[k].sec.Bss? && objs[i].srel[k].offset + 4 <= |Part(objs[i], objs[i].srel[k].sec)|)
  }

  method PatchSection(objs: seq<Obj>, s: Sections, i: nat, sec: Sec, offset: nat, v: Word, ghost b: Bytes) returns (t: Sections)
    requires Holds(objs, s, b) && i < |objs| && !sec.Bss? && offset + 4 <= |Part(objs[i], sec)|
    ensures HEADER <= Address(objs, sec, i, offset) && Address(objs, sec, i, offset) - HEADER + 4 <= |b|
    ensures Holds(objs, t, Patch4(b, Address(objs, sec, i, offset) - HEADER, v))
  {
    hide Patch4, Off, All;
    OffInside(objs, sec, i, offset);
    var at := Off(objs, sec, i) + offset;
    match sec {
      case Text => t := s.(text := Patch4(s.text, at, v));
      case Rodata => t := s.(rodata := Patch4(s.rodata, at, v));
      case Data => t := s.(data := Patch4(s.data, at, v));
    }
    PatchJoined(s, sec, at, v);
  }

  lemma OffInside(objs: seq<Obj>, sec: Sec, i: nat, offset: nat)
    requires i < |objs| && !sec.Bss? && offset + 4 <= |Part(objs[i], sec)|
    ensures Off(objs, sec, i) + offset + 4 <= Total(objs, sec)
  {
    OffMono(objs, sec, i + 1, |objs|);
  }

  lemma PatchJoined(s: Sections, sec: Sec, at: nat, v: Word)
    requires !sec.Bss? && at + 4 <= |SecOf(s, sec)|
    ensures var base := if sec.Text? then 0 else if sec.Rodata? then |s.text| else |s.text| + |s.rodata|;
            var t := if sec.Text? then s.(text := Patch4(s.text, at, v))
                     else if sec.Rodata? then s.(rodata := Patch4(s.rodata, at, v))
                     else s.(data := Patch4(s.data, at, v));
            base + at + 4 <= |All(s)| && All(t) == Patch4(All(s), base + at, v)
  {
    hide Bytes4, ReadWord;
  }

  /** Sections patched at the first places of a list. */
  ghost predicate Done(objs: seq<Obj>, s: Sections, ss: seq<Site>) {
    InBounds(Raw(objs), ss) && Holds(objs, s, PatchAll(Raw(objs), ss))
  }

  lemma PatchMore(objs: seq<Obj>, ss: seq<Site>, x: Site)
    requires InBounds(Raw(objs), ss) && x.pos + 4 <= |Raw(objs)|
    ensures InBounds(Raw(objs), ss + [x])
    ensures PatchAll(Raw(objs), ss + [x]) == Patch4(PatchAll(Raw(objs), ss), x.pos, x.val)
  {
    hide Raw, Patch4;
    PatchCat(Raw(objs), ss, [x]);
    assert [x][1..] == [];
    var b := PatchAll(Raw(objs), ss);
    assert PatchAll(b, [x]) == PatchAll(Patch4(b, x.pos, x.val), []);
  }

  /** One place patched. */
  method PatchOne(objs: seq<Obj>, s: Sections, i: nat, sec: Sec, offset: nat, x: Site, ghost ss: seq<Site>) returns (t: Sections)
    requires Done(objs, s, ss) && i < |objs| && !sec.Bss? && offset + 4 <= |Part(objs[i], sec)|
    requires x.pos == Address(objs, sec, i, offset) - HEADER
    ensures Done(objs, t, ss + [x])
  {
    hide Raw, Address, Patch4, PatchAll, Holds;
    t := PatchSection(objs, s, i, sec, offset, x.val, PatchAll(Raw(objs), ss));
    PatchMore(objs, ss, x);
  }

  method PatchLocals(objs: seq<Obj>, s: Sections, i: nat, ghost ss: seq<Site>) returns (t: Sections)
    requires Done(objs, s, ss) && i < |objs| && Placed(objs)
    ensures Done(objs, t, ss + LocSites(objs, i, |objs[i].lrel|))
  {
    hide Done;
    t := s;
    assert ss + LocSites(objs, i, 0) == ss;
    for k := 0 to |objs[i].lrel|
      invariant Done(objs, t, ss + LocSites(objs, i, k))
    {
      var r := objs[i].lrel[k];
      SiteInBuffer(objs, i, r.sec, r.offset);
      var x := LocSite(objs, i, r);
      assert LocSites(objs, i, k + 1) == LocSites(objs, i, k) + [x];
      assert ss + LocSites(objs, i, k + 1) == ss + LocSites(objs, i, k) + [x];
      t := PatchOne(objs, t, i, r.sec, r.offset, x, ss + LocSites(objs, i, k));
    }
  }

  lemma SiteInBuffer(objs: seq<Obj>, i: nat, sec: Sec, offset: nat)
    requires i < |objs|
    ensures Address(objs, sec, i, offset) >= HEADER
  {
  }

  /** Symbol places; stops at a name the table does not define. */
  method PatchSymbols(objs: seq<Obj>, s: Sections, i: nat, tab: seq<LinkSym>, ghost ss: seq<Site>) returns (ok: bool, t: Sections)
    requires Done(objs, s, ss) && i < |objs| && Placed(objs) && Agrees(tab, Defs(objs))
    ensures ok <==> forall k :: 0 <= k < |objs[i].srel| ==> LookupDef(Defs(objs), objs[i].srel[k].name).Some?
    ensures ok ==> Done(objs, t, ss + SymSites(objs, i, |objs[i].srel|))
  {
    hide Done, LookupDef, Defs;
    t := s;
    assert ss + SymSites(objs, i, 0) == ss;
    for k := 0 to |objs[i].srel|
      invariant Done(objs, t, ss + SymSites(objs, i, k))
      invariant forall h :: 0 <= h < k ==> LookupDef(Defs(objs), objs[i].srel[h].name).Some?
    {
      var r := objs[i].srel[k];
      var j := FindName(tab, r.name);
      assert Known(tab, r.name) == LookupDef(Defs(objs), r.name);
      if j < 0 || !tab[j].defined { return false, t; }
      SiteInBuffer(objs, i, r.sec, r.offset);
      var at := Address(objs, r.sec, i, r.offset);
      var x := Site(at - HEADER, Value(at, tab[j].addr + r.addend, r.rel));
      assert x == SymSite(objs, i, r);
      assert SymSites(objs, i, k + 1) == SymSites(objs, i, k) + [x];
      assert ss + SymSites(objs, i, k + 1) == ss + SymSites(objs, i, k) + [x];
      t := PatchOne(objs, t, i, r.sec, r.offset, x, ss + SymSites(objs, i, k));
    }
    ok := true;
  }

  /** Copy every object's sections one after another. */
  method CopyAll(objs: seq<Obj>) returns (s: Sections)
    ensures Holds(objs, s, Raw(objs))
  {
    s := Sections([], [], []);
    for i := 0 to |objs|
      invariant s == Sections(Joined(objs, Text, i), Joined(objs, Rodata, i), Joined(objs, Data, i))
    {
      s := Sections(s.text + objs[i].text, s.rodata + objs[i].rodata, s.data + objs[i].data);
    }
  }

  lemma NothingPatched(objs: seq<Obj>, s: Sections)
    requires Holds(objs, s, Raw(objs))
    ensures Done(objs, s, [])
  {
  }

  /** `link_objects`: succeeds exactly when the totals fit, no name is defined
      twice and every symbol relocation names a definition; the sections are then
      the linked image. */
  method LinkObjects(objs: seq<Obj>) returns (ok: bool, s: Sections, bss: nat)
    requires Placed(objs)
    ensures ok <==> Links(objs)
    ensures ok ==> InBounds(Raw(objs), Sites(objs)) && Holds(objs, s, Image(objs)) && bss == Total(objs, Bss)
  {
    hide Defs, Unique, Done, SitesUpto, Holds, LookupDef;
    s, bss := Sections([], [], []), Total(objs, Bss);
    if !Fits(objs) { return false, s, bss; }
    s := CopyAll(objs);
    NothingPatched(objs, s);
    var tab;
    ok, tab := BuildTable(objs);
    if !ok { return; }
    NoSites(objs);
    for i := 0 to |objs|
      invariant Done(objs, s, SitesUpto(objs, i))
      invariant forall h, k :: 0 <= h < i && 0 <= k < |objs[h].srel| ==> LookupDef(Defs(objs), objs[h].srel[k].name).Some?
    {
      SitesNext(objs, i);
      s := PatchLocals(objs, s, i, SitesUpto(objs, i));
      ok, s := PatchSymbols(objs, s, i, tab, SitesUpto(objs, i) + LocSites(objs, i, |objs[i].lrel|));
      if !ok { return; }
    }
    AllDone(objs, s);
    ok := true;
  }

  lemma NoSites(objs: seq<Obj>)
    ensures SitesUpto(objs, 0) == []
  {
  }

  lemma SitesNext(objs: seq<Obj>, i: nat)
    requires i < |objs|
    ensures SitesUpto(objs, i + 1) == SitesUpto(objs, i) + LocSites(objs, i, |objs[i].lrel|) + SymSites(objs, i, |objs[i].srel|)
  {
  }

  lemma AllDone(objs: seq<Obj>, s: Sections)
    requires Done(objs, s, SitesUpto(objs, |objs|))
    ensures InBounds(Raw(objs), Sites(objs)) && Holds(objs, s, Image(objs))
  {
  }

  // ----- the loader -----

  /** `exec_user`'s segment loading into an array of user memory. */
  method LoadProgram(f: Bytes, mem: array<Byte>) returns (entry: Option<Word>)
    requires Loadable(f, mem.Length)
    modifies mem
    ensures match Load(f, mem.Length)
            case Some(p) => entry == Some(p.entry) && mem[..] == p.mem
            case None => entry == None
  {
    if f[0] != 0x7F || f[1] != 0x45 || f[2] != 0x4C || f[3] != 0x46 { return None; }
    Clear(mem);
    ghost var zero := mem[..];
    hide ReadWord, ReadHalf, LoadSegments;
    for i := 0 to ReadHalf(f, 44)
      invariant LoadSegments(f, mem[..], i) == LoadSegments(f, zero, 0)
    {
      LoadStep(f, mem[..], i);
      LoadOne(f, i, mem);
    }
    LoadEnd(f, mem[..]);
    entry := Some(ReadWord(f, 24));
  }

  /** Memory after program header `i` alone. */
  function AfterSegment(f: Bytes, m: Bytes, i: nat): (r: Bytes)
    requires |f| >= 52 && SegmentFits(f, i, |m|)
    ensures |r| == |m|
  {
    var ph := ReadWord(f, 28) + i * ReadHalf(f, 42);
    if ReadWord(f, ph) != 1 then m
    else
      var o, at, n := ReadWord(f, ph + 4), ReadWord(f, ph + 8), ReadWord(f, ph + 16);
      PlaceSegment(m, at, f[o..o + n], ReadWord(f, ph + 20))
  }

  lemma LoadStep(f: Bytes, m: Bytes, i: nat)
    requires Loadable(f, |m|) && i < ReadHalf(f, 44)
    ensures SegmentFits(f, i, |m|) && LoadSegments(f, m, i) == LoadSegments(f, AfterSegment(f, m, i), i + 1)
  {
    hide ReadWord, ReadHalf, PlaceSegment;
    assert SegmentFits(f, i, |m|);
  }

  lemma LoadEnd(f: Bytes, m: Bytes)
    requires Loadable(f, |m|)
    ensures LoadSegments(f, m, ReadHalf(f, 44)) == m
  {
  }

  method LoadOne(f: Bytes, i: nat, mem: array<Byte>)
    requires |f| >= 52 && SegmentFits(f, i, mem.Length)
    modifies mem
    ensures mem[..] == AfterSegment(f, old(mem[..]), i)
  {
    hide ReadWord, ReadHalf, PlaceSegment;
    var ph := ReadWord(f, 28) + i * ReadHalf(f, 42);
    if ReadWord(f, ph) == 1 {
      var o: nat, at: nat, n: nat := ReadWord(f, ph + 4), ReadWord(f, ph + 8), ReadWord(f, ph + 16);
      CopySegment(mem, at, f[o..o + n], ReadWord(f, ph + 20));
    }
  }

  method Clear(mem: array<Byte>)
    modifies mem
    ensures mem[..] == seq(mem.Length, _ => 0)
  {
    for i := 0 to mem.Length
      invariant forall k :: 0 <= k < i ==> mem[k] == 0
    {
      mem[i] := 0;
    }
  }

  method CopySegment(mem: array<Byte>, at: nat, bytes: Bytes, size: nat)
    requires at + |bytes| <= mem.Length && at + size <= mem.Length
    modifies mem
    ensures mem[..] == PlaceSegment(old(mem[..]), at, bytes, size)
  {
    ghost var m0 := mem[..];
    for k := 0 to |bytes|
      invariant forall a :: 0 <= a < mem.Length ==> mem[a] == if at <= a < at + k then bytes[a - at] else m0[a]
    {
      mem[at + k] := bytes[k];
    }
    var end := if size > |bytes| then at + size else at + |bytes|;
    for a := at + |bytes| to end
      invariant forall b :: 0 <= b < mem.Length ==>
        mem[b] == if at <= b < at + |bytes| then bytes[b - at] else if at + |bytes| <= b < a then 0 else m0[b]
    {
      mem[a] := 0;
    }
    assert mem[..] == PlaceSegment(m0, at, bytes, size);
  }
}
