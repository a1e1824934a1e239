/** Block transfers of the NVMe driver: a request is cut into chunks that go
    through a bounce buffer, described to the controller by physical region page
    entries (section 4.3 of the NVM Express Base Specification 1.4).
 */
module NvmeRw {
  import opened Options
  import opened Word32

  const PAGE := 4096
  const CHUNK := 131072
  const TWO64: int := 0x1_0000_0000_0000_0000

  /** A read or write command as the controller sees it. */
  datatype Cmd = Cmd(write: bool, prp1: int, prp2: int, lba: nat, nlb: nat)

  predicate BlockSize(bs: nat) { bs == 512 || bs == 1024 || bs == 2048 || bs == 4096 }

  /** The part of `b` that belongs to block `i`. */
  function Part(b: seq<Byte>, bs: nat, i: nat): (r: seq<Byte>)
    requires i * bs + bs <= |b|
    ensures |r| == bs
  {
    b[i * bs..i * bs + bs]
  }

  lemma PartFits(bs: nat, i: nat, n: nat)
    requires i < n
    ensures i * bs + bs <= n * bs
  {
    assert (n - i - 1) * bs >= 0;
  }

  /** Blocks [lba, lba + n) of `d` replaced by the first `n` parts of `b`. */
  ghost predicate Written(d0: seq<seq<Byte>>, d: seq<seq<Byte>>, lba: nat, n: nat, b: seq<Byte>, bs: nat) {
    && |d| == |d0| && lba + n <= |d| && n * bs <= |b|
    && (forall i :: 0 <= i < |d| && !(lba <= i < lba + n) ==> d[i] == d0[i])
    && (forall i :: 0 <= i < n ==> i * bs + bs <= |b| && d[lba + i] == Part(b, bs, i))
  }

  /** The first `n` parts of `b` are blocks [lba, lba + n) of `d`. */
  ghost predicate Fetched(d: seq<seq<Byte>>, lba: nat, n: nat, b: seq<Byte>, bs: nat) {
    && lba + n <= |d| && n * bs <= |b|
    && (forall i :: 0 <= i < n ==> i * bs + bs <= |b| && d[lba + i] == Part(b, bs, i))
  }

  class Controller {
    const bs: nat
    const blocks: array<seq<Byte>>
    /** Driver memory: the bounce buffer at a page-aligned address, and the list. */
    const bounce: array<Byte>
    const bounceAt: nat
    const prpList: array<int>
    const listAt: int

    ghost predicate Valid()
      reads this, blocks
    {
      && BlockSize(bs) && bounce.Length == CHUNK && prpList.Length == CHUNK / PAGE
      && (forall i :: 0 <= i < blocks.Length ==> |blocks[i]| == bs)
    }

    /** Address of page `p` of a transfer of `pages` pages: the first entry, then
        the second, which is a list once there are more than two. */
    function PageAt(c: Cmd, pages: nat, p: nat): int
      reads prpList
    {
      if p == 0 then c.prp1
      else if pages <= 2 then c.prp2
      else if c.prp2 == listAt && p - 1 < prpList.Length then prpList[p - 1]
      else -1
    }

    /** Every page of the transfer is the matching page of the bounce buffer. */
    ghost predicate Described(c: Cmd, bytes: nat)
      reads prpList
    {
      forall p :: 0 <= p < (bytes + PAGE - 1) / PAGE ==> PageAt(c, (bytes + PAGE - 1) / PAGE, p) == bounceAt + p * PAGE
    }

    lemma ByteAt(c: Cmd, bytes: nat, t: nat)
      requires Described(c, bytes) && t < bytes
      ensures PageAt(c, (bytes + PAGE - 1) / PAGE, t / PAGE) + t % PAGE == bounceAt + t
    {
      var p := t / PAGE;
      assert p < (bytes + PAGE - 1) / PAGE;
      assert PageAt(c, (bytes + PAGE - 1) / PAGE, p) == bounceAt + p * PAGE;
      assert t == p * PAGE + t % PAGE;
    }

    /** The controller's side: it moves the bytes page by page, or rejects a
        range beyond the namespace. */
    method Execute(c: Cmd) returns (ok: bool)
      requires Valid() && (c.nlb + 1) * bs <= CHUNK && Described(c, (c.nlb + 1) * bs)
      modifies blocks, bounce
      ensures Valid() && ok == (c.lba + c.nlb + 1 <= blocks.Length)
      ensures !ok ==> blocks[..] == old(blocks[..])
      ensures ok && c.write ==> Written(old(blocks[..]), blocks[..], c.lba, c.nlb + 1, bounce[..], bs) && bounce[..] == old(bounce[..])
      ensures ok && !c.write ==> blocks[..] == old(blocks[..]) && Fetched(blocks[..], c.lba, c.nlb + 1, bounce[..], bs)
    {
      var n := c.nlb + 1;
      var bytes := n * bs;
      var pages := (bytes + PAGE - 1) / PAGE;
      ok := c.lba + n <= blocks.Length;
      if !ok { return; }
      if c.write {
        for i := 0 to n
          invariant Valid() && bounce[..] == old(bounce[..])
          invariant Written(old(blocks[..]), blocks[..], c.lba, i, bounce[..], bs)
        {
          PartFits(bs, i, n);
          ghost var before := blocks[..];
          var data := Gather(c, bytes, i);
          blocks[c.lba + i] := data;
          WriteMore(old(blocks[..]), before, blocks[..], c.lba, i, bounce[..], bs);
        }
      } else {
        for i := 0 to n
          invariant Valid() && blocks[..] == old(blocks[..])
          invariant Fetched(blocks[..], c.lba, i, bounce[..], bs)
        {
          PartFits(bs, i, n);
          ghost var before := bounce[..];
          Scatter(c, bytes, i, blocks[c.lba + i]);
          FetchMore(blocks[..], c.lba, i, before, bounce[..], bs);
        }
      }
    }

    /** Block `i` of the transfer, read through the page entries. */
    method Gather(c: Cmd, bytes: nat, i: nat) returns (data: seq<Byte>)
      requires Valid() && bytes <= CHUNK && Described(c, bytes) && i * bs + bs <= bytes
      ensures data == Part(bounce[..], bs, i)
    {
      data := [];
      var pages := (bytes + PAGE - 1) / PAGE;
      for j := 0 to bs
        invariant data == bounce[..][i * bs..i * bs + j]
      {
        var t := i * bs + j;
        ByteAt(c, bytes, t);
        var a := PageAt(c, pages, t / PAGE) + t % PAGE;
        data := data + [bounce[a - bounceAt]];
        assert bounce[..][i * bs..i * bs + (j + 1)] == bounce[..][i * bs..i * bs + j] + [bounce[t]];
      }
    }

    /** Block `i` of the transfer, written through the page entries. */
    method Scatter(c: Cmd, bytes: nat, i: nat, data: seq<Byte>)
      requires Valid() && bytes <= CHUNK && Described(c, bytes) && i * bs + bs <= bytes && |data| == bs
      modifies bounce
      ensures bounce[..] == old(bounce[..])[..i * bs] + data + old(bounce[..])[i * bs + bs..]
    {
      var pages := (bytes + PAGE - 1) / PAGE;
      ghost var b0 := bounce[..];
      ghost var at := i * bs;
      assert bounce[..] == b0[..at] + data[..0] + b0[at + 0..];
      for j := 0 to bs
        invariant bounce[..] == b0[..at] + data[..j] + b0[at + j..]
      {
        var t := i * bs + j;
        ByteAt(c, bytes, t);
        var a := PageAt(c, pages, t / PAGE) + t % PAGE;
        Overwrite(b0, at, data, j);
        bounce[a - bounceAt] := data[j];
      }
      assert data[..bs] == data;
    }

    /** One command of at most CHUNK bytes through the bounce buffer. */
    method RwChunk(write: bool, lba: nat, count: nat) returns (ok: bool)
      requires Valid() && 0 < count && count * bs <= CHUNK
      modifies prpList, blocks, bounce
      ensures Valid() && ok == (lba + count <= blocks.Length)
      ensures !ok ==> blocks[..] == old(blocks[..])
      ensures ok && write ==> Written(old(blocks[..]), blocks[..], lba, count, bounce[..], bs) && bounce[..] == old(bounce[..])
      ensures ok && !write ==> blocks[..] == old(blocks[..]) && Fetched(blocks[..], lba, count, bounce[..], bs)
    {
      var bytes := count * bs;
      var pages := (bytes + PAGE - 1) / PAGE;
      var prp2 := 0;
      if pages == 2 {
        prp2 := bounceAt + PAGE;
      } else if pages > 2 {
        for i := 1 to pages
          invariant Valid() && blocks[..] == old(blocks[..]) && bounce[..] == old(bounce[..])
          invariant forall k :: 1 <= k < i ==> prpList[k - 1] == bounceAt + k * PAGE
        {
          prpList[i - 1] := bounceAt + i * PAGE;
        }
        prp2 := listAt;
      }
      var c := Cmd(write, bounceAt, prp2, lba, count - 1);
      assert Described(c, bytes);
      assert (c.nlb + 1) * bs == bytes;
      ok := Execute(c);
    }
  
    method CopyIn(buf: array<Byte>, at: nat, n: nat)
      requires Valid() && n <= CHUNK && at + n <= buf.Length && buf != bounce
      modifies bounce
      ensures bounce[..n] == buf[at..at + n]
    {
      for j := 0 to n
        invariant bounce[..j] == buf[at..at + j]
      {
        bounce[j] := buf[at + j];
        assert buf[at..at + (j + 1)] == buf[at..at + j] + [buf[at + j]];
        assert bounce[..j + 1] == bounce[..j] + [buf[at + j]];
      }
    }

    method CopyOut(buf: array<Byte>, at: nat, n: nat)
      requires Valid() && n <= CHUNK && at + n <= buf.Length && buf != bounce
      modifies buf
      ensures buf[..] == old(buf[..])[..at] + bounce[..n] + old(buf[..])[at + n..]
    {
      ghost var b0, data := buf[..], bounce[..n];
      assert buf[..] == b0[..at] + data[..0] + b0[at + 0..];
      for j := 0 to n
        invariant buf[..] == b0[..at] + data[..j] + b0[at + j..]
      {
        Overwrite(b0, at, data, j);
        buf[at + j] := bounce[j];
      }
    }

    /** `rw`: any number of blocks, chunk by chunk.  A successful write changes
        exactly blocks [lba, lba + count), to the caller's bytes in order; a
        successful read fills the front of the buffer with those blocks. */
    method Rw(write: bool, lba: nat, count: Word, buf: array<Byte>, present: bool) returns (r: int)
      requires Valid() && lba < TWO64 && blocks.Length < TWO64 && count * bs <= buf.Length && buf != bounce
      modifies prpList, blocks, bounce, buf
      ensures Valid() && (r == 0 || r == -1)
      ensures r == 0 <==> present && count > 0 && lba + count <= blocks.Length
      ensures r == -1 && (lba + count < TWO64 || lba >= blocks.Length) ==> blocks[..] == old(blocks[..]) && buf[..] == old(buf[..])
      ensures r == 0 && write ==> Written(old(blocks[..]), blocks[..], lba, count, buf[..], bs) && buf[..] == old(buf[..])
      ensures r == 0 && !write ==>
                && blocks[..] == old(blocks[..]) && Fetched(blocks[..], lba, count, buf[..], bs)
                && buf[count * bs..] == old(buf[..])[count * bs..]
    {
      hide Progress, Written, Fetched;
      if !present || count == 0 { return -1; }
      if (lba + count) % TWO64 > blocks.Length { return -1; }
      var perChunk := CHUNK / bs;
      var done: nat, left: nat := 0, count;
      ghost var d0, b0 := blocks[..], buf[..];
      ProgressNone(write, d0, b0, lba, bs);
      while left > 0
        invariant Valid() && done + left == count
        invariant Progress(write, d0, blocks[..], b0, buf[..], lba, done, bs)
      {
        var n := if left < perChunk then left else perChunk;
        ChunkFits(bs, n, perChunk, done, count);
        var ok := Transfer(write, lba, done, n, buf, d0, b0);
        if !ok {
          ProgressFails(write, d0, blocks[..], b0, buf[..], lba, done, n, bs);
          return -1;
        }
        done, left := done + n, left - n;
      }
      assert done == count;
      ProgressEnds(write, d0, blocks[..], b0, buf[..], lba, count, bs);
      r := 0;
    }

    /** One pass of the loop of `rw`. */
    method Transfer(write: bool, lba: nat, done: nat, n: nat, buf: array<Byte>, ghost d0: seq<seq<Byte>>, ghost b0: seq<Byte>) returns (ok: bool)
      requires Valid() && lba < TWO64 && blocks.Length < TWO64 && n > 0 && n * bs <= CHUNK && buf != bounce
      requires done * bs + n * bs <= buf.Length && done * bs + n * bs == (done + n) * bs
      requires Progress(write, d0, blocks[..], b0, buf[..], lba, done, bs)
      modifies prpList, blocks, bounce, buf
      ensures Valid() && ok == (lba + done + n <= blocks.Length)
      ensures Progress(write, d0, blocks[..], b0, buf[..], lba, if ok then done + n else done, bs)
    {
      hide Written, Fetched, Progress;
      ghost var d1, b1 := blocks[..], buf[..];
      NoWrap(write, d0, d1, b0, b1, lba, done, bs);
      if write { CopyIn(buf, done * bs, n * bs); }
      assert buf[..] == b1 && blocks[..] == d1;
      ok := RwChunk(write, (lba + done) % TWO64, n);
      assert buf[..] == b1;
      if !ok { return; }
      if write {
        ProgressWritten(d0, d1, blocks[..], b0, lba, done, n, bounce[..], bs);
      } else {
        ghost var chunk := bounce[..];
        CopyOut(buf, done * bs, n * bs);
        ProgressFetched(d0, b0, b1, buf[..], lba, done, n, chunk, bs);
      }
    }
  }

  /** The first `done` blocks have been moved. */
  ghost predicate Progress(write: bool, d0: seq<seq<Byte>>, d: seq<seq<Byte>>, b0: seq<Byte>, b: seq<Byte>, lba: nat, done: nat, bs: nat) {
    && |d| == |d0| && |b| == |b0| && (done == 0 ==> d == d0 && b == b0)
    && (done > 0 ==>
          && lba + done <= |d|
          && (write ==> b == b0 && Written(d0, d, lba, done, b0, bs))
          && (!write ==> d == d0 && Fetched(d0, lba, done, b, bs)))
    && (!write ==> d == d0 && done * bs <= |b| && b[done * bs..] == b0[done * bs..])
  }

  lemma NoWrap(write: bool, d0: seq<seq<Byte>>, d: seq<seq<Byte>>, b0: seq<Byte>, b: seq<Byte>, lba: nat, done: nat, bs: nat)
    requires Progress(write, d0, d, b0, b, lba, done, bs) && lba < TWO64 && |d| < TWO64
    ensures (lba + done) % TWO64 == lba + done && (write ==> b == b0) && (!write ==> d == d0)
  {
  }

  lemma ProgressWritten(d0: seq<seq<Byte>>, d1: seq<seq<Byte>>, d: seq<seq<Byte>>, b0: seq<Byte>, lba: nat, done: nat, n: nat, chunk: seq<Byte>, bs: nat)
    requires Progress(true, d0, d1, b0, b0, lba, done, bs) && Written(d1, d, lba + done, n, chunk, bs) && n > 0
    requires done * bs + n * bs <= |b0| && n * bs <= |chunk| && chunk[..n * bs] == b0[done * bs..done * bs + n * bs]
    ensures Progress(true, d0, d, b0, b0, lba, done + n, bs)
  {
    ChunkWritten(d0, d1, d, lba, done, n, b0, chunk, bs);
  }

  lemma ProgressFetched(d0: seq<seq<Byte>>, b0: seq<Byte>, b1: seq<Byte>, b: seq<Byte>, lba: nat, done: nat, n: nat, chunk: seq<Byte>, bs: nat)
    requires Progress(false, d0, d0, b0, b1, lba, done, bs) && Fetched(d0, lba + done, n, chunk, bs) && n > 0
    requires done * bs + n * bs <= |b1| && n * bs <= |chunk| && b == b1[..done * bs] + chunk[..n * bs] + b1[done * bs + n * bs..]
    ensures Progress(false, d0, d0, b0, b, lba, done + n, bs)
  {
    ChunkFetched(d0, lba, done, n, b1, chunk, b, b0, bs);
  }

  lemma ProgressNone(write: bool, d0: seq<seq<Byte>>, b0: seq<Byte>, lba: nat, bs: nat)
    ensures Progress(write, d0, d0, b0, b0, lba, 0, bs)
  {
  }

  lemma ProgressFails(write: bool, d0: seq<seq<Byte>>, d: seq<seq<Byte>>, b0: seq<Byte>, b: seq<Byte>, lba: nat, done: nat, n: nat, bs: nat)
    requires Progress(write, d0, d, b0, b, lba, done, bs) && lba + done + n > |d0|
    ensures |d| == |d0| && (lba >= |d0| ==> d == d0 && b == b0)
  {
  }

  lemma ProgressEnds(write: bool, d0: seq<seq<Byte>>, d: seq<seq<Byte>>, b0: seq<Byte>, b: seq<Byte>, lba: nat, done: nat, bs: nat)
    requires Progress(write, d0, d, b0, b, lba, done, bs) && done > 0
    ensures lba + done <= |d0| == |d| && |b| == |b0|
    ensures write ==> b == b0 && Written(d0, d, lba, done, b0, bs)
    ensures !write ==> d == d0 && Fetched(d0, lba, done, b, bs) && done * bs <= |b| && b[done * bs..] == b0[done * bs..]
  {
  }

  lemma ChunkFits(bs: nat, n: nat, perChunk: nat, done: nat, count: nat)
    requires BlockSize(bs) && perChunk == CHUNK / bs && n <= perChunk && done + n <= count
    ensures perChunk > 0 && n * bs <= CHUNK && done * bs + n * bs == (done + n) * bs <= count * bs
  {
  }

  lemma ChunkWritten(d0: seq<seq<Byte>>, d1: seq<seq<Byte>>, d: seq<seq<Byte>>, lba: nat, done: nat, n: nat, b: seq<Byte>, chunk: seq<Byte>, bs: nat)
    requires done == 0 ==> d1 == d0
    requires done > 0 ==> Written(d0, d1, lba, done, b, bs)
    requires Written(d1, d, lba + done, n, chunk, bs)
    requires done * bs + n * bs <= |b| && n * bs <= |chunk| && chunk[..n * bs] == b[done * bs..done * bs + n * bs]
    ensures Written(d0, d, lba, done + n, b, bs)
  {
    assert (done + n) * bs == done * bs + n * bs;
    forall i | 0 <= i < done + n ensures i * bs + bs <= |b| && d[lba + i] == Part(b, bs, i) {
      PartFits(bs, i, done + n);
      if i < done {
        assert d[lba + i] == d1[lba + i];
      } else {
        PartShift(bs, i - done, n, done, b, chunk);
        assert d[lba + done + (i - done)] == Part(chunk, bs, i - done);
      }
    }
  }

  lemma PartShift(bs: nat, i: nat, n: nat, done: nat, b: seq<Byte>, chunk: seq<Byte>)
    requires i < n && done * bs + n * bs <= |b| && n * bs <= |chunk| && chunk[..n * bs] == b[done * bs..done * bs + n * bs]
    ensures i * bs + bs <= |chunk| && (done + i) * bs + bs <= |b| && Part(chunk, bs, i) == Part(b, bs, done + i)
  {
    PartFits(bs, i, n);
    assert (done + i) * bs == done * bs + i * bs;
    var c := chunk[..n * bs];
    assert Part(chunk, bs, i) == c[i * bs..i * bs + bs];
  }

  lemma ChunkFetched(d: seq<seq<Byte>>, lba: nat, done: nat, n: nat, b1: seq<Byte>, chunk: seq<Byte>, b: seq<Byte>, b0: seq<Byte>, bs: nat)
    requires done > 0 ==> Fetched(d, lba, done, b1, bs)
    requires Fetched(d, lba + done, n, chunk, bs)
    requires done * bs + n * bs <= |b1| == |b0| && n * bs <= |chunk| && b == b1[..done * bs] + chunk[..n * bs] + b1[done * bs + n * bs..]
    requires b1[done * bs..] == b0[done * bs..]
    ensures Fetched(d, lba, done + n, b, bs)
    ensures (done + n) * bs <= |b| == |b0| && b[(done + n) * bs..] == b0[(done + n) * bs..]
  {
    assert (done + n) * bs == done * bs + n * bs;
    ChunkBytes(b1, chunk, b, b0, done * bs, n * bs);
    forall i | 0 <= i < done + n ensures i * bs + bs <= |b| && d[lba + i] == Part(b, bs, i) {
      SectorFetched(d, lba, done, n, b1, chunk, b, bs, i);
    }
  }

  lemma SectorFetched(d: seq<seq<Byte>>, lba: nat, done: nat, n: nat, b1: seq<Byte>, chunk: seq<Byte>, b: seq<Byte>, bs: nat, i: nat)
    requires (done > 0 ==> Fetched(d, lba, done, b1, bs)) && Fetched(d, lba + done, n, chunk, bs) && i < done + n
    requires done * bs + n * bs <= |b1| == |b| && n * bs <= |chunk|
    requires b[..done * bs] == b1[..done * bs] && b[done * bs..done * bs + n * bs] == chunk[..n * bs]
    ensures i * bs + bs <= |b| && d[lba + i] == Part(b, bs, i)
  {
    hide Part;
    if i < done {
      PartKept(bs, i, done, b1, b);
    } else {
      PartShift(bs, i - done, n, done, b, chunk);
      assert d[lba + done + (i - done)] == Part(chunk, bs, i - done);
    }
  }

  lemma PartKept(bs: nat, i: nat, done: nat, b1: seq<Byte>, b: seq<Byte>)
    requires i < done && done * bs <= |b| && done * bs <= |b1| && b[..done * bs] == b1[..done * bs]
    ensures i * bs + bs <= |b| && i * bs + bs <= |b1| && Part(b, bs, i) == Part(b1, bs, i)
  {
    PartFits(bs, i, done);
    var p, q := i * bs, done * bs;
    assert b[..q][p..p + bs] == b1[..q][p..p + bs];
  }

  lemma ChunkBytes(b1: seq<Byte>, chunk: seq<Byte>, b: seq<Byte>, b0: seq<Byte>, p: nat, q: nat)
    requires p + q <= |b1| == |b0| && q <= |chunk| && b == b1[..p] + chunk[..q] + b1[p + q..] && b1[p..] == b0[p..]
    ensures b[..p] == b1[..p] && b[p..p + q] == chunk[..q] && b[p + q..] == b0[p + q..]
  {
    assert b1[p..][q..] == b0[p..][q..];
  }

  lemma Overwrite(b0: seq<Byte>, at: nat, data: seq<Byte>, j: nat)
    requires at + |data| <= |b0| && j < |data|
    ensures (b0[..at] + data[..j] + b0[at + j..])[at + j := data[j]] == b0[..at] + data[..j + 1] + b0[at + (j + 1)..]
  {
  }

  lemma WriteMore(d0: seq<seq<Byte>>, d: seq<seq<Byte>>, d1: seq<seq<Byte>>, lba: nat, i: nat, b: seq<Byte>, bs: nat)
    requires Written(d0, d, lba, i, b, bs) && lba + i < |d| && i * bs + bs <= |b|
    requires d1 == d[lba + i := Part(b, bs, i)]
    ensures Written(d0, d1, lba, i + 1, b, bs)
  {
    assert (i + 1) * bs == i * bs + bs;
  }

  lemma FetchMore(d: seq<seq<Byte>>, lba: nat, i: nat, b0: seq<Byte>, b: seq<Byte>, bs: nat)
    requires Fetched(d, lba, i, b0, bs) && lba + i < |d| && |d[lba + i]| == bs && i * bs + bs <= |b0|
    requires b == b0[..i * bs] + d[lba + i] + b0[i * bs + bs..]
    ensures Fetched(d, lba, i + 1, b, bs)
  {
    assert (i + 1) * bs == i * bs + bs;
    forall k | 0 <= k < i + 1 ensures k * bs + bs <= |b| && d[lba + k] == Part(b, bs, k) {
      PartFits(bs, k, i + 1);
      if k < i {
        PartFits(bs, k, i);
        assert Part(b, bs, k) == Part(b0, bs, k);
      } else {
        assert Part(b, bs, i) == d[lba + i];
      }
    }
  }
}
