/** The store's device is the driver's: a write as the store sees it is `nvme_write`
    done by chunks, queues and descriptors.
 */
module NvmeStore {
  import opened Options
  import opened Word32
  import opened Store
  import F = Fs
  import S = Stream
  import N = NvmeRw

  /** Blocks of a controller with 512-byte blocks. */
  ghost function Blocks(c: N.Controller): seq<Sector>
    requires c.Valid() && c.bs == 512
    reads c, c.blocks
  {
    c.blocks[..]
  }

  lemma PartIsSector(buf: seq<Sector>, i: nat)
    requires i < |buf|
    ensures i * 512 + 512 <= |F.Flat(buf)| && N.Part(F.Flat(buf), 512, i) == buf[i]
  {
    S.FlatAt(buf, i, 0, 512);
    assert buf[i][0..512] == buf[i];
  }

  /** What a successful chunked write leaves is the range replaced. */
  lemma WrittenIsPut(d0: seq<Sector>, d: seq<Sector>, at: nat, buf: seq<Sector>)
    requires N.Written(d0, d, at, |buf|, F.Flat(buf), 512)
    ensures d == DevPut(d0, at, buf)
  {
    hide N.Part, F.Flat;
    forall i | 0 <= i < |buf| ensures d[at + i] == buf[i] {
      PartIsSector(buf, i);
      assert d[at + i] == N.Part(F.Flat(buf), 512, i);
    }
    hide N.Written;
    PutAt(d0, d, at, buf);
  }

  lemma PutAt(d0: seq<Sector>, d: seq<Sector>, at: nat, buf: seq<Sector>)
    requires |d| == |d0| && at + |buf| <= |d|
    requires forall i :: 0 <= i < |d| && !(at <= i < at + |buf|) ==> d[i] == d0[i]
    requires forall i :: 0 <= i < |buf| ==> d[at + i] == buf[i]
    ensures d == Put(d0, at, buf)
  {
    var p := Put(d0, at, buf);
    forall i | 0 <= i < |d| ensures d[i] == p[i] {
      if at <= i < at + |buf| { assert d[at + (i - at)] == buf[i - at]; }
    }
  }

  /** What a successful chunked read brings is the range. */
  lemma FetchedIsSlice(d: seq<Sector>, at: nat, n: nat, b: seq<Byte>)
    requires N.Fetched(d, at, n, b, 512)
    ensures n * 512 <= |b| && b[..n * 512] == F.Flat(d[at..at + n])
  {
    var buf := d[at..at + n];
    forall i | 0 <= i < n ensures N.Part(b, 512, i) == N.Part(F.Flat(buf), 512, i) {
      PartIsSector(buf, i);
      assert d[at + i] == buf[i];
    }
    assert |F.Flat(buf)| == 512 * n;
    forall t | 0 <= t < n * 512 ensures b[t] == F.Flat(buf)[t] {
      assert N.Part(b, 512, t / 512)[t % 512] == N.Part(F.Flat(buf), 512, t / 512)[t % 512];
    }
  }

  /** `nvme_write` with 512-byte blocks and a live controller: the device afterwards
      is what the store's model says, whether or not the range exists. */
  method NvmeWrite(c: N.Controller, at: nat, ghost buf: seq<Sector>, count: Word, bytes: array<Byte>) returns (r: int)
    requires c.Valid() && c.bs == 512 && c.blocks.Length < TWO64 && at + count < TWO64
    requires |buf| == count && bytes[..] == F.Flat(buf) && bytes != c.bounce && count * 512 <= bytes.Length
    modifies c.prpList, c.blocks, c.bounce, bytes
    ensures c.Valid() && Blocks(c) == DevPut(old(Blocks(c)), at, buf)
    ensures r == 0 <==> count > 0 && at + count <= c.blocks.Length
  {
    ghost var d0 := Blocks(c);
    r := c.Rw(true, at, count, bytes, true);
    if r == 0 {
      WrittenIsPut(d0, Blocks(c), at, buf);
    } else if count == 0 {
      assert DevPut(d0, at, buf) == d0;
    }
  }
}
