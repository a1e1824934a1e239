/** `submit` of the NVMe driver as it runs: it writes the queue memory, rings the
    doorbell and spins on the completion entry at the head while the controller
    works at its own pace.
 */
module NvmeDriver {
  import opened Options
  import opened NvmeRing

  /** What the controller does before one look at the entry, and whether the
      driver then reads a fatal status. */
  datatype Spin = Spin(work: seq<Work>, fatal: bool)
  datatype Work = DoFetch | DoComplete(i: nat, status: nat)

  function MoveOf(d: Work): Move {
    match d case DoFetch => MFetch case DoComplete(i, s) => MComplete(i, s)
  }

  class Queue {
    const sq: array<Cmd>
    const cq: array<Cqe>
    var tail: nat
    var head: nat
    var phase: nat
    var nextCid: nat
    // the controller's own registers
    var bell: nat
    var sqHead: nat
    var cqTail: nat
    var tag: nat
    var inflight: seq<Job>
    var fetched: nat
    ghost var w: World

    /** The queue memory and registers are those of the abstract ring. */
    ghost predicate Matches()
      reads this, sq, cq
    {
      && w.ring == Ring(sq[..], tail, bell, sqHead, inflight, cq[..], cqTail, tag, head, phase, w.ring.sent, w.ring.done, w.ring.taken)
      && fetched == |w.ring.done| + |inflight| && Sound(w)
    }

    ghost predicate Valid()
      reads this, sq, cq
    {
      Matches() && !w.waiting
    }

    constructor (sq: array<Cmd>, cq: array<Cqe>)
      requires sq.Length == QDEPTH && cq.Length == QDEPTH && cq[..] == seq(QDEPTH, _ => Cqe(0, 0))
      ensures Valid() && w == World(Start(sq[..]), false, 0, []) && this.sq == sq && this.cq == cq
    {
      this.sq, this.cq := sq, cq;
      tail, head, phase, nextCid := 0, 0, 1, 1;
      bell, sqHead, cqTail, tag, inflight, fetched := 0, 0, 0, 1, [], 0;
      w := World(Start(sq[..]), false, 0, []);
      new;
      StartInv(sq[..]);
    }

    /** One piece of the controller's work. */
    method Device(d: Work)
      requires Matches()
      modifies this`sqHead, this`inflight, this`fetched, this`cqTail, this`tag, this`w, cq
      ensures Matches() && Enabled(old(w), MoveOf(d)) && w == Apply(old(w), MoveOf(d))
    {
      hide Inv, Sound;
      MoveSound(w, MoveOf(d));
      SoundCounters(w);
      ghost var next := Apply(w, MoveOf(d));
      match d {
        case DoFetch =>
          if sqHead != bell {
            inflight := inflight + [Job(fetched, sq[sqHead])];
            fetched := fetched + 1;
            sqHead := Next(sqHead);
          }
        case DoComplete(i, s) =>
          if i < |inflight| {
            cq[cqTail] := Cqe(tag, s);
            cqTail := Next(cqTail);
            tag := if cqTail == 0 then Flip(tag) else tag;
            inflight := inflight[..i] + inflight[i + 1..];
          }
      }
      w := next;
    }

    /** Submit one command and wait; None is a timeout or a fatal status.  The
        status is that of the oldest completion not consumed before, and it is
        this command's own if no earlier submission was given up; OwnExactly says
        that after one the controller can make it another's. */
    method Submit(body: seq<int>, spins: seq<Spin>) returns (status: Option<nat>)
      requires Valid() && |w.ring.sent| - w.ring.taken + 1 < QDEPTH
      modifies this`tail, this`head, this`phase, this`nextCid, this`bell, this`sqHead, this`cqTail, this`tag, this`inflight, this`fetched, this`w, sq, cq
      ensures Valid()
      ensures w.ring.sent == old(w.ring.sent) + [Cmd(old(nextCid), body)]
      ensures status.None? ==> w.lost == old(w.lost) + 1 && w.ring.taken == old(w.ring.taken) && w.returned == old(w.returned)
      ensures status.Some? ==>
                && w.lost == old(w.lost) && w.ring.taken == old(w.ring.taken) + 1 && old(w.ring.taken) < |w.ring.done|
                && status.value == w.ring.done[old(w.ring.taken)].1
                && w.returned == old(w.returned) + [(Job(|old(w.ring.sent)|, Cmd(old(nextCid), body)), status.value)]
                && (w.lost == 0 ==> w.ring.done[old(w.ring.taken)] == (Job(|old(w.ring.sent)|, Cmd(old(nextCid), body)), status.value))
    {
      hide Inv, Sound;
      ghost var c := Cmd(nextCid, body);
      ghost var w0 := w;
      Place(body);
      for k := 0 to |spins|
        invariant Matches() && w.waiting && w.lost == w0.lost && w.returned == w0.returned
        invariant w.ring.sent == w0.ring.sent + [c] && w.ring.taken == w0.ring.taken
      {
        Work(spins[k].work);
        status := Poll();
        if status.Some? { return; }
        if spins[k].fatal { break; }
      }
      MoveSound(w, MGiveUp);
      SoundCounters(w);
      w := Apply(w, MGiveUp);
      status := None;
    }

    /** The command goes into the slot at the tail and the doorbell is rung. */
    method Place(body: seq<int>)
      requires Valid() && |w.ring.sent| - w.ring.taken + 1 < QDEPTH
      modifies this`tail, this`nextCid, this`bell, this`w, sq
      ensures Matches() && w.waiting && w.lost == old(w.lost) && w.returned == old(w.returned)
      ensures w.ring.sent == old(w.ring.sent) + [Cmd(old(nextCid), body)] && w.ring.taken == old(w.ring.taken)
    {
      ghost var c := Cmd(nextCid, body);
      MoveSound(w, MSend(c));
      SoundCounters(w);
      hide Inv;
      sq[tail] := Cmd(nextCid, body);
      nextCid := (nextCid + 1) % 0x1_0000;
      tail := Next(tail);
      bell := tail;
      w := Apply(w, MSend(c));
    }

    /** One look at the entry at the head: consumed if its phase is the expected one. */
    method Poll() returns (status: Option<nat>)
      requires Matches() && w.waiting && w.ring.sent != []
      modifies this`head, this`phase, this`w
      ensures Matches() && w.lost == old(w.lost) && w.ring.sent == old(w.ring.sent) && w.ring.done == old(w.ring.done)
      ensures status.None? ==> w == old(w)
      ensures status.Some? ==>
                && !w.waiting && w.ring.taken == old(w.ring.taken) + 1 && old(w.ring.taken) < |w.ring.done|
                && status.value == w.ring.done[old(w.ring.taken)].1
                && w.returned == old(w.returned) + [(Current(w.ring), status.value)]
                && (w.lost == 0 ==> w.ring.done[old(w.ring.taken)].0 == Current(w.ring))
    {
      hide Inv, Sound;
      SoundCounters(w);
      if cq[head].phase != phase { return None; }
      status := Some(cq[head].status);
      MoveSound(w, MTake);
      OwnStatus(w);
      w := Apply(w, MTake);
      head := Next(head);
      phase := if head == 0 then Flip(phase) else phase;
    }

    method Work(ds: seq<Work>)
      requires Matches()
      modifies this`sqHead, this`inflight, this`fetched, this`cqTail, this`tag, this`w, cq
      ensures Matches() && w.waiting == old(w.waiting) && w.lost == old(w.lost) && w.returned == old(w.returned)
      ensures w.ring.sent == old(w.ring.sent) && w.ring.taken == old(w.ring.taken)
    {
      for k := 0 to |ds|
        invariant Matches() && w.waiting == old(w.waiting) && w.lost == old(w.lost) && w.returned == old(w.returned)
        invariant w.ring.sent == old(w.ring.sent) && w.ring.taken == old(w.ring.taken)
      {
        Device(ds[k]);
      }
    }
  }
}
