/** Writing 32-bit words into a byte buffer at a list of places: `write32` as
    `apply_fixups` and `link_objects` use it.
 */
module Patching {
  import opened Options
  import opened Word32

  datatype Site = Site(pos: nat, val: Word)

  ghost predicate InBounds(s: seq<Byte>, sites: seq<Site>) {
    forall i :: 0 <= i < |sites| ==> sites[i].pos + 4 <= |s|
  }

  /** No two places overlap. */
  ghost predicate Apart(sites: seq<Site>) {
    forall i, j :: 0 <= i < j < |sites| ==>
      sites[i].pos + 4 <= sites[j].pos || sites[j].pos + 4 <= sites[i].pos
  }

  /** Byte `b` belongs to no place. */
  ghost predicate Outside(sites: seq<Site>, b: int) {
    forall i :: 0 <= i < |sites| ==> !(sites[i].pos <= b < sites[i].pos + 4)
  }

  function PatchAll(s: seq<Byte>, sites: seq<Site>): (r: seq<Byte>)
    requires InBounds(s, sites)
    ensures |r| == |s|
    decreases |sites|
  {
    if sites == [] then s else PatchAll(Patch4(s, sites[0].pos, sites[0].val), sites[1..])
  }

  lemma {:induction false} PatchKeeps(s: seq<Byte>, sites: seq<Site>, b: nat)
    requires InBounds(s, sites) && b < |s| && Outside(sites, b)
    ensures PatchAll(s, sites)[b] == s[b]
    decreases |sites|
  {
    if sites != [] {
      assert !(sites[0].pos <= b < sites[0].pos + 4);
      forall i | 0 <= i < |sites[1..]| ensures !(sites[1..][i].pos <= b < sites[1..][i].pos + 4) {
        assert sites[1..][i] == sites[i + 1];
      }
      PatchKeeps(Patch4(s, sites[0].pos, sites[0].val), sites[1..], b);
    }
  }

  /** Words at disjoint places all survive. */
  lemma {:induction false} PatchReads(s: seq<Byte>, sites: seq<Site>, k: nat)
    requires InBounds(s, sites) && Apart(sites) && k < |sites|
    ensures ReadWord(PatchAll(s, sites), sites[k].pos) == sites[k].val
    decreases |sites|
  {
    hide ReadWord;
    var s1 := Patch4(s, sites[0].pos, sites[0].val);
    var rest := sites[1..];
    ApartTail(sites);
    if k == 0 {
      forall b | sites[0].pos <= b < sites[0].pos + 4 ensures PatchAll(s1, rest)[b] == s1[b] {
        forall i | 0 <= i < |rest| ensures !(rest[i].pos <= b < rest[i].pos + 4) {
          assert rest[i] == sites[i + 1];
        }
        PatchKeeps(s1, rest, b);
      }
      SameWord(PatchAll(s1, rest), s1, sites[0].pos);
    } else {
      assert sites[k] == rest[k - 1];
      PatchReads(s1, rest, k - 1);
    }
  }

  lemma ApartTail(sites: seq<Site>)
    requires Apart(sites) && sites != []
    ensures Apart(sites[1..])
  {
  }

  lemma SameWord(s: seq<Byte>, t: seq<Byte>, p: nat)
    requires p + 4 <= |s| == |t| && forall b :: p <= b < p + 4 ==> s[b] == t[b]
    ensures ReadWord(s, p) == ReadWord(t, p)
  {
  }

  lemma {:induction false} PatchCat(s: seq<Byte>, a: seq<Site>, b: seq<Site>)
    requires InBounds(s, a + b)
    ensures InBounds(s, a) && InBounds(PatchAll(s, a), b)
    ensures PatchAll(s, a + b) == PatchAll(PatchAll(s, a), b)
    decreases |a|
  {
    assert forall i :: 0 <= i < |a| ==> (a + b)[i] == a[i];
    assert forall i :: 0 <= i < |b| ==> (a + b)[|a| + i] == b[i];
    if a == [] {
      assert a + b == b;
    } else {
      assert (a + b)[1..] == a[1..] + b && (a + b)[0] == a[0];
      PatchCat(Patch4(s, a[0].pos, a[0].val), a[1..], b);
    }
  }
}
