/** From the bytes as emitted, with zeros where a distance or an address is not
    yet known, to the final image.
 */
module CcPatch {
  import opened Options
  import opened Word32
  import opened Patching
  import opened X86
  import opened CcBytes

  /** Bytes appended when the item is emitted. */
  function RawItem(it: Item): (b: seq<Byte>)
    ensures |b| == ItemSize(it)
  {
    match it
    case I(i) => if i.MovEaxGlob? then [0xB8, 0, 0, 0, 0] else Enc(i)
    case Lab(_) => []
    case Jmp(_) => [0xE9, 0, 0, 0, 0]
    case Jz(_) => [0x0F, 0x84, 0, 0, 0, 0]
  }

  function RawCode(items: seq<Item>): (b: seq<Byte>)
    ensures |b| == Offset(items, |items|)
    decreases |items|
  {
    if items == [] then []
    else
      var front := items[..|items| - 1];
      OffsetPrefix(items, |items| - 1, |items| - 1);
      RawCode(front) + RawItem(items[|items| - 1])
  }

  lemma {:induction false} OffsetPrefix(items: seq<Item>, n: nat, k: nat)
    requires k <= n <= |items|
    ensures Offset(items[..n], k) == Offset(items, k)
    decreases k
  {
    if k > 0 { OffsetPrefix(items, n, k - 1); }
  }

  lemma {:induction false} RawAt(items: seq<Item>, k: nat)
    requires k < |items|
    ensures HasAt(RawCode(items), Offset(items, k), RawItem(items[k]))
    decreases |items|
  {
    hide RawItem;
    var n := |items| - 1;
    var front := items[..n];
    OffsetPrefix(items, n, k);
    OffsetPrefix(items, n, n);
    if k < n {
      RawAt(front, k);
    } else {
      assert |RawCode(front)| == Offset(items, n);
    }
  }

  predicate IsJump(it: Item) { it.Jmp? || it.Jz? }
  predicate IsGlob(it: Item) { it.I? && it.i.MovEaxGlob? }

  predicate HasField(it: Item) { IsJump(it) || IsGlob(it) }

  /** Bytes before the 32-bit field. */
  function OpLen(it: Item): nat { if it.Jz? then 2 else 1 }

  /** Indices of the jumps, and of the global addresses, in order. */
  function Picks(items: seq<Item>, jumps: bool): (ks: seq<nat>)
    ensures forall i :: 0 <= i < |ks| ==> ks[i] < |items| && (if jumps then IsJump(items[ks[i]]) else IsGlob(items[ks[i]]))
    ensures forall i, j :: 0 <= i < j < |ks| ==> ks[i] < ks[j]
    decreases |items|
  {
    if items == [] then []
    else
      var n := |items| - 1;
      Picks(items[..n], jumps) + if (if jumps then IsJump(items[n]) else IsGlob(items[n])) then [n] else []
  }

  lemma {:induction false} PicksAll(items: seq<Item>, jumps: bool, k: nat)
    requires k < |items| && if jumps then IsJump(items[k]) else IsGlob(items[k])
    ensures k in Picks(items, jumps)
    decreases |items|
  {
    var n := |items| - 1;
    if k < n {
      PicksAll(items[..n], jumps, k);
      assert items[..n][k] == items[k];
    }
  }

  /** A recorded place: `fixups` name a label, `addr_fix` a global. */
  datatype Fix = Fix(pos: nat, what: nat)

  function FixAt(items: seq<Item>, k: nat): Fix
    requires k < |items| && HasField(items[k])
  {
    Fix(Offset(items, k) + OpLen(items[k]), if IsJump(items[k]) then items[k].l else items[k].i.g)
  }

  function Fixes(items: seq<Item>, jumps: bool): (fs: seq<Fix>)
    ensures |fs| == |Picks(items, jumps)|
    ensures forall i :: 0 <= i < |fs| ==> fs[i] == FixAt(items, Picks(items, jumps)[i])
  {
    var ks := Picks(items, jumps);
    seq(|ks|, i requires 0 <= i < |ks| => FixAt(items, ks[i]))
  }

  /** `labels_pos`, the last definition winning. */
  function LabelMap(items: seq<Item>): map<nat, nat>
    decreases |items|
  {
    if items == [] then map[]
    else
      var n := |items| - 1;
      var front := LabelMap(items[..n]);
      if items[n].Lab? then front[items[n].l := Offset(items, n)] else front
  }

  lemma {:induction false} LabelMapFinds(items: seq<Item>, p: nat)
    requires UniqueLabels(items) && p < |items| && items[p].Lab?
    ensures items[p].l in LabelMap(items) && LabelMap(items)[items[p].l] == Offset(items, p)
    decreases |items|
  {
    var n := |items| - 1;
    if p < n {
      var front := items[..n];
      assert UniqueLabels(front);
      assert front[p] == items[p];
      OffsetPrefix(items, n, p);
      LabelMapFinds(front, p);
      if items[n].Lab? { assert items[p].l != items[n].l; }
    }
  }

  /** What appending one item adds to each table. */
  lemma AppendItem(items: seq<Item>, it: Item)
    ensures RawCode(items + [it]) == RawCode(items) + RawItem(it)
    ensures LabelMap(items + [it]) == if it.Lab? then LabelMap(items)[it.l := |RawCode(items)|] else LabelMap(items)
    ensures Fixes(items + [it], true)
         == Fixes(items, true) + if IsJump(it) then [Fix(|RawCode(items)| + OpLen(it), it.l)] else []
    ensures Fixes(items + [it], false)
         == Fixes(items, false) + if IsGlob(it) then [Fix(|RawCode(items)| + OpLen(it), it.i.g)] else []
  {
    hide RawItem;
    var more := items + [it];
    assert more[..|items|] == items;
    OffsetPrefix(more, |items|, |items|);
    AppendFixes(items, it, true);
    AppendFixes(items, it, false);
  }

  lemma AppendFixes(items: seq<Item>, it: Item, jumps: bool)
    ensures Fixes(items + [it], jumps)
         == Fixes(items, jumps) + if (if jumps then IsJump(it) else IsGlob(it)) then [FixAt(items + [it], |items|)] else []
    ensures Offset(items + [it], |items|) == |RawCode(items)|
  {
    var more := items + [it];
    assert more[..|items|] == items;
    OffsetPrefix(more, |items|, |items|);
    var ks := Picks(items, jumps);
    forall i | 0 <= i < |ks| ensures FixAt(more, ks[i]) == FixAt(items, ks[i]) {
      OffsetPrefix(more, |items|, ks[i]);
    }
  }

  // ----- the final image -----

  /** Word belonging to the field of item `k`. */
  function Final(items: seq<Item>, k: nat): Word
    requires k < |items| && HasField(items[k])
  {
    if IsJump(items[k]) then Rel(items, k) else items[k].i.g
  }

  function SiteAt(items: seq<Item>, k: nat): Site
    requires k < |items| && HasField(items[k])
  {
    Site(Offset(items, k) + OpLen(items[k]), Final(items, k))
  }

  /** Indices of items with a field to fill in. */
  ghost predicate Fields(items: seq<Item>, ks: seq<nat>) {
    forall i :: 0 <= i < |ks| ==> ks[i] < |items| && HasField(items[ks[i]])
  }

  ghost predicate Distinct(ks: seq<nat>) { forall i, j :: 0 <= i < j < |ks| ==> ks[i] != ks[j] }

  ghost function SitesOf(items: seq<Item>, ks: seq<nat>): (ss: seq<Site>)
    requires Fields(items, ks)
    ensures |ss| == |ks| && forall i :: 0 <= i < |ks| ==> ss[i] == SiteAt(items, ks[i])
  {
    seq(|ks|, i requires 0 <= i < |ks| => SiteAt(items, ks[i]))
  }

  /** A place lies inside its own item. */
  lemma SiteInside(items: seq<Item>, k: nat)
    requires k < |items| && HasField(items[k])
    ensures SiteAt(items, k).pos + 4 == Offset(items, k + 1) <= Offset(items, |items|)
  {
    hide Final;
    OffsetMono(items, k + 1, |items|);
  }

  lemma SitesApart(items: seq<Item>, ks: seq<nat>)
    requires Fields(items, ks)
    requires Distinct(ks)
    ensures Apart(SitesOf(items, ks)) && InBounds(RawCode(items), SitesOf(items, ks))
  {
    hide Final, RawCode;
    var ss := SitesOf(items, ks);
    forall i | 0 <= i < |ks| ensures ss[i].pos + 4 <= |RawCode(items)| { SiteInside(items, ks[i]); }
    forall i, j | 0 <= i < j < |ss| ensures ss[i].pos + 4 <= ss[j].pos || ss[j].pos + 4 <= ss[i].pos {
      SiteInside(items, ks[i]);
      SiteInside(items, ks[j]);
      if ks[i] < ks[j] {
        OffsetMono(items, ks[i] + 1, ks[j]);
      } else {
        OffsetMono(items, ks[j] + 1, ks[i]);
      }
    }
  }

  /** A byte of item `k` before its field belongs to no place. */
  lemma OutsideFields(items: seq<Item>, ks: seq<nat>, k: nat, b: nat)
    requires Fields(items, ks)
    requires k < |items| && Offset(items, k) <= b < Offset(items, k + 1)
    requires HasField(items[k]) ==> b < SiteAt(items, k).pos
    ensures Outside(SitesOf(items, ks), b)
  {
    hide Final;
    forall i | 0 <= i < |ks| ensures !(SitesOf(items, ks)[i].pos <= b < SitesOf(items, ks)[i].pos + 4) {
      var h := ks[i];
      SiteInside(items, h);
      if h < k {
        OffsetMono(items, h + 1, k);
      } else if k < h {
        OffsetMono(items, k + 1, h);
      }
    }
  }

  lemma FieldBytes(s: seq<Byte>, p: nat, v: Word)
    requires p + 4 <= |s| && ReadWord(s, p) == v
    ensures HasAt(s, p, Bytes4(v))
  {
    hide Bytes4;
    Bytes4Read(s[p..p + 4]);
    assert ReadWord(s[p..p + 4], 0) == v;
  }

  /** The bytes of an item before its field, or all of them without one. */
  lemma KeptBytes(items: seq<Item>, ks: seq<nat>, s: seq<Byte>, k: nat, n: nat)
    requires Fields(items, ks)
    requires InBounds(RawCode(items), SitesOf(items, ks)) && s == PatchAll(RawCode(items), SitesOf(items, ks))
    requires k < |items| && n <= ItemSize(items[k])
    requires HasField(items[k]) ==> n == OpLen(items[k])
    ensures HasAt(s, Offset(items, k), RawItem(items[k])[..n])
  {
    hide Enc, RawCode, SitesOf, PatchAll, Offset, RawItem, Final;
    var p := Offset(items, k);
    RawAt(items, k);
    OffsetNext(items, k);
    OffsetMono(items, k + 1, |items|);
    forall i | 0 <= i < n ensures s[p + i] == RawItem(items[k])[i] {
      OutsideFields(items, ks, k, p + i);
      PatchKeeps(RawCode(items), SitesOf(items, ks), p + i);
    }
  }

  /** The field of a jump or of a global address. */
  lemma FieldPatched(items: seq<Item>, ks: seq<nat>, s: seq<Byte>, i: nat)
    requires Fields(items, ks)
    requires InBounds(RawCode(items), SitesOf(items, ks)) && s == PatchAll(RawCode(items), SitesOf(items, ks))
    requires Distinct(ks)
    requires i < |ks|
    ensures HasAt(s, Offset(items, ks[i]) + OpLen(items[ks[i]]), Bytes4(Final(items, ks[i])))
  {
    hide RawCode, PatchAll, Offset, Final, Bytes4, Apart, InBounds;
    SitesApart(items, ks);
    PatchReads(RawCode(items), SitesOf(items, ks), i);
    SiteInside(items, ks[i]);
    FieldBytes(s, SiteAt(items, ks[i]).pos, Final(items, ks[i]));
  }

  lemma PlainItem(items: seq<Item>, ks: seq<nat>, s: seq<Byte>, k: nat)
    requires Fields(items, ks)
    requires InBounds(RawCode(items), SitesOf(items, ks)) && s == PatchAll(RawCode(items), SitesOf(items, ks))
    requires k < |items| && !HasField(items[k])
    ensures HasAt(s, Offset(items, k), ItemBytes(items, k))
  {
    hide Enc, RawCode, PatchAll, Offset, SitesOf, Fields, InBounds, HasAt;
    KeptBytes(items, ks, s, k, ItemSize(items[k]));
    assert ItemBytes(items, k) == RawItem(items[k]) == RawItem(items[k])[..ItemSize(items[k])];
  }

  lemma FieldItem(items: seq<Item>, ks: seq<nat>, s: seq<Byte>, i: nat)
    requires Fields(items, ks)
    requires InBounds(RawCode(items), SitesOf(items, ks)) && s == PatchAll(RawCode(items), SitesOf(items, ks))
    requires Distinct(ks) && i < |ks|
    ensures HasAt(s, Offset(items, ks[i]), ItemBytes(items, ks[i]))
  {
    hide Enc, RawCode, PatchAll, Offset, Final, Bytes4, SitesOf, InBounds, HasAt, Distinct, RawItem, ItemBytes;
    var k := ks[i];
    KeptBytes(items, ks, s, k, OpLen(items[k]));
    FieldPatched(items, ks, s, i);
    FieldForm(items, k);
    HasJoin(s, Offset(items, k), RawItem(items[k])[..OpLen(items[k])], Bytes4(Final(items, k)));
  }

  lemma FieldForm(items: seq<Item>, k: nat)
    requires k < |items| && HasField(items[k])
    ensures ItemBytes(items, k) == RawItem(items[k])[..OpLen(items[k])] + Bytes4(Final(items, k))
  {
    hide Bytes4, Rel;
  }

  lemma HasJoin(s: seq<Byte>, p: nat, a: seq<Byte>, b: seq<Byte>)
    requires HasAt(s, p, a) && HasAt(s, p + |a|, b)
    ensures HasAt(s, p, a + b)
  {
    forall i | 0 <= i < |a + b| ensures s[p + i] == (a + b)[i] {
      if i >= |a| { assert s[p + |a| + (i - |a|)] == b[i - |a|]; }
    }
  }

  /** Every jump's label is set somewhere. */
  ghost predicate Closed(items: seq<Item>) {
    forall k :: 0 <= k < |items| && IsJump(items[k]) ==> Find(items, items[k].l) < |items|
  }

  /** Jump distances patched by `apply_fixups`, global addresses by the linker:
      together they make the image. */
  lemma PatchedImage(items: seq<Item>, s: seq<Byte>)
    requires var ks := Picks(items, true) + Picks(items, false);
             Fields(items, ks) && InBounds(RawCode(items), SitesOf(items, ks)) && s == PatchAll(RawCode(items), SitesOf(items, ks))
    ensures IsImage(s, items)
  {
    hide RawCode, SitesOf, PatchAll, ItemBytes, Offset, Picks, HasAt, InBounds, Fields;
    var ks := Picks(items, true) + Picks(items, false);
    PicksDistinct(items);
    forall k | 0 <= k < |items| ensures HasAt(s, Offset(items, k), ItemBytes(items, k)) {
      if HasField(items[k]) {
        var i := PickIndex(items, k);
        FieldItem(items, ks, s, i);
      } else {
        PlainItem(items, ks, s, k);
      }
    }
  }

  lemma PicksDistinct(items: seq<Item>)
    ensures Distinct(Picks(items, true) + Picks(items, false))
  {
    var js, gs := Picks(items, true), Picks(items, false);
    var ks := js + gs;
    forall i, j | 0 <= i < j < |ks| ensures ks[i] != ks[j] {
      if j < |js| { assert js[i] < js[j]; } else if i >= |js| { assert gs[i - |js|] < gs[j - |js|]; }
    }
  }

  lemma PickIndex(items: seq<Item>, k: nat) returns (i: nat)
    requires k < |items| && HasField(items[k])
    ensures var ks := Picks(items, true) + Picks(items, false); i < |ks| && ks[i] == k
  {
    hide Picks;
    var js, gs := Picks(items, true), Picks(items, false);
    PicksAll(items, IsJump(items[k]), k);
    if IsJump(items[k]) {
      i :| 0 <= i < |js| && js[i] == k;
    } else {
      var h :| 0 <= h < |gs| && gs[h] == k;
      i := |js| + h;
    }
  }

  // ----- patching one instruction after the fact -----

  predicate Plain(it: Item) { it.I? && !it.i.MovEaxGlob? }

  lemma {:induction false} OffsetReplace(items: seq<Item>, k: nat, it: Item, n: nat)
    requires k < |items| && n <= |items| && ItemSize(it) == ItemSize(items[k])
    ensures Offset(items[k := it], n) == Offset(items, n)
    decreases n
  {
    if n > 0 { OffsetReplace(items, k, it, n - 1); }
  }

  lemma {:induction false} ReplacePicks(items: seq<Item>, k: nat, it: Item, jumps: bool)
    requires k < |items| && Plain(items[k]) && Plain(it)
    ensures Picks(items[k := it], jumps) == Picks(items, jumps)
    decreases |items|
  {
    var n := |items| - 1;
    if k == n {
      assert items[k := it][..n] == items[..n];
    } else {
      assert items[k := it][..n] == items[..n][k := it];
      ReplacePicks(items[..n], k, it, jumps);
    }
  }

  lemma {:induction false} ReplaceLabels(items: seq<Item>, k: nat, it: Item)
    requires k < |items| && Plain(items[k]) && Plain(it) && ItemSize(it) == ItemSize(items[k])
    ensures LabelMap(items[k := it]) == LabelMap(items)
    decreases |items|
  {
    hide Offset;
    var n := |items| - 1;
    OffsetReplace(items, k, it, n);
    if k == n {
      assert items[k := it][..n] == items[..n];
    } else {
      assert items[k := it][..n] == items[..n][k := it];
      ReplaceLabels(items[..n], k, it);
    }
  }

  lemma RawSnoc(items: seq<Item>, it: Item)
    ensures RawCode(items + [it]) == RawCode(items) + RawItem(it)
  {
    hide RawItem;
    assert (items + [it])[..|items|] == items;
  }

  lemma SliceSnoc(f: seq<Byte>, l: seq<Byte>, a: nat, b: nat, r: seq<Byte>)
    requires a <= b <= |f|
    ensures f[..a] + r + f[b..] + l == (f + l)[..a] + r + (f + l)[b..]
  {
  }

  /** Exchanging one plain instruction for another of the same size. */
  lemma {:induction false} ReplaceRaw(items: seq<Item>, k: nat, it: Item)
    requires k < |items| && ItemSize(it) == ItemSize(items[k])
    ensures Offset(items, k + 1) <= |RawCode(items)| && Offset(items, k) <= Offset(items, k + 1)
    ensures RawCode(items[k := it]) == RawCode(items)[..Offset(items, k)] + RawItem(it) + RawCode(items)[Offset(items, k + 1)..]
    decreases |items|
  {
    hide RawItem, Offset, RawCode;
    var n := |items| - 1;
    var front, last := items[..n], items[n];
    OffsetMono(items, k + 1, |items|);
    OffsetMono(items, k, k + 1);
    OffsetPrefix(items, n, n);
    OffsetPrefix(items, n, k);
    assert items == front + [last];
    RawSnoc(front, last);
    if k == n {
      assert items[k := it] == front + [it];
      RawSnoc(front, it);
      assert Offset(items, n + 1) == |RawCode(items)|;
      assert RawCode(items)[..Offset(items, n)] == RawCode(front);
    } else {
      OffsetPrefix(items, n, k + 1);
      assert items[k := it] == front[k := it] + [last];
      RawSnoc(front[k := it], last);
      ReplaceRaw(front, k, it);
      SliceSnoc(RawCode(front), RawItem(last), Offset(items, k), Offset(items, k + 1), RawItem(it));
    }
  }

  lemma ReplaceFixes(items: seq<Item>, k: nat, it: Item, jumps: bool)
    requires k < |items| && Plain(items[k]) && Plain(it) && ItemSize(it) == ItemSize(items[k])
    ensures Fixes(items[k := it], jumps) == Fixes(items, jumps)
  {
    hide Picks;
    ReplacePicks(items, k, it, jumps);
    var ks := Picks(items, jumps);
    assert Picks(items[k := it], jumps) == ks;
    forall i | 0 <= i < |ks| ensures FixAt(items[k := it], ks[i]) == FixAt(items, ks[i]) {
      OffsetReplace(items, k, it, ks[i]);
    }
  }
}
