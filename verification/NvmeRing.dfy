/** One NVMe queue pair: the driver submits a command and polls for its
    completion, the controller fetches and completes in its own time.  The only
    sign that a completion entry is new is its phase bit (section 4.6 of the NVM
    Express Base Specification 1.4).
 */
module NvmeRing {
  import opened Options

  const QDEPTH := 64

  datatype Cmd = Cmd(cid: nat, body: seq<int>)
  datatype Cqe = Cqe(phase: nat, status: nat)
  /** A command the controller has fetched: the how-manieth one sent it is. */
  datatype Job = Job(no: nat, cmd: Cmd)

  /** Both parties.  The driver owns tail, head and phase; the controller owns
      sqHead, cqTail and tag and sees the doorbell.  `sent`, `done` and `taken`
      are the history: commands submitted, jobs completed with their status in
      order of completion, and the number of entries the driver consumed. */
  datatype Ring = Ring(sq: seq<Cmd>, tail: nat, bell: nat, sqHead: nat, inflight: seq<Job>,
                       cq: seq<Cqe>, cqTail: nat, tag: nat, head: nat, phase: nat,
                       sent: seq<Cmd>, done: seq<(Job, nat)>, taken: nat)

  function Start(sq: seq<Cmd>): Ring {
    Ring(sq, 0, 0, 0, [], seq(QDEPTH, _ => Cqe(0, 0)), 0, 1, 0, 1, [], [], 0)
  }

  function Next(i: nat): nat { (i + 1) % QDEPTH }

  function Flip(p: nat): nat { if p == 0 then 1 else 0 }

  // ----- steps -----

  /** Driver: place the command and ring the doorbell. */
  function Send(r: Ring, c: Cmd): Ring
    requires r.tail < |r.sq|
  {
    r.(sq := r.sq[r.tail := c], tail := Next(r.tail), bell := Next(r.tail), sent := r.sent + [c])
  }

  /** Controller: take the next command if the doorbell says there is one. */
  function Fetch(r: Ring): Ring
    requires r.sqHead < |r.sq|
  {
    if r.sqHead == r.bell then r
    else r.(sqHead := Next(r.sqHead), inflight := r.inflight + [Job(|r.done| + |r.inflight|, r.sq[r.sqHead])])
  }

  /** Controller: complete the `i`-th command in flight; any order is allowed. */
  function Complete(r: Ring, i: nat, status: nat): Ring
    requires r.cqTail < |r.cq|
  {
    if i >= |r.inflight| then r
    else
      r.(cq := r.cq[r.cqTail := Cqe(r.tag, status)], cqTail := Next(r.cqTail),
         tag := if Next(r.cqTail) == 0 then Flip(r.tag) else r.tag,
         inflight := r.inflight[..i] + r.inflight[i + 1..], done := r.done + [(r.inflight[i], status)])
    }

  predicate Fresh(r: Ring)
    requires r.head < |r.cq|
  {
    r.cq[r.head].phase == r.phase
  }

  /** Driver: consume the entry at the head. */
  function Take(r: Ring): Ring {
    r.(head := Next(r.head), phase := if Next(r.head) == 0 then Flip(r.phase) else r.phase, taken := r.taken + 1)
  }

  // ----- the invariant -----

  /** Phase of the q-th entry ever posted. */
  function Tag(q: nat): nat { 1 - q / QDEPTH % 2 }

  predicate Counters(r: Ring) {
    && |r.sq| == QDEPTH && |r.cq| == QDEPTH
    && r.tail == r.bell == |r.sent| % QDEPTH
    && r.sqHead == (|r.done| + |r.inflight|) % QDEPTH
    && r.cqTail == |r.done| % QDEPTH && r.tag == Tag(|r.done|)
    && r.head == r.taken % QDEPTH && r.phase == Tag(r.taken)
    && r.taken <= |r.done| && |r.done| + |r.inflight| <= |r.sent|
    && |r.sent| - r.taken < QDEPTH
  }

  /** Unfetched commands are still in their slots. */
  ghost predicate Waiting(r: Ring)
    requires |r.sq| == QDEPTH
  {
    forall k :: |r.done| + |r.inflight| <= k < |r.sent| ==> r.sq[k % QDEPTH] == r.sent[k]
  }

  /** The last QDEPTH entries posted are in their slots; the others still say 0. */
  ghost predicate Posted(r: Ring)
    requires |r.cq| == QDEPTH
  {
    && (forall q :: 0 <= q < |r.done| && |r.done| <= q + QDEPTH ==> r.cq[q % QDEPTH] == Cqe(Tag(q), r.done[q].1))
    && (forall i :: |r.done| <= i < QDEPTH ==> r.cq[i].phase == 0)
  }

  /** Jobs are commands sent, under their own numbers. */
  ghost predicate Numbered(r: Ring) {
    && (forall k :: 0 <= k < |r.done| ==> r.done[k].0.no < |r.done| + |r.inflight|)
    && (forall k :: 0 <= k < |r.inflight| ==> r.inflight[k].no < |r.done| + |r.inflight|)
    && |r.done| + |r.inflight| <= |r.sent|
    && (forall k :: 0 <= k < |r.done| ==> r.done[k].0.cmd == r.sent[r.done[k].0.no])
    && (forall k :: 0 <= k < |r.inflight| ==> r.inflight[k].cmd == r.sent[r.inflight[k].no])
  }

  ghost predicate Inv(r: Ring) { Counters(r) && Waiting(r) && Posted(r) && Numbered(r) }

  // ----- modular facts -----

  lemma ModNext(n: nat)
    ensures Next(n % QDEPTH) == (n + 1) % QDEPTH
    ensures Tag(n + 1) == if Next(n % QDEPTH) == 0 then 1 - Tag(n) else Tag(n)
  {
    var q, s := n / QDEPTH, n % QDEPTH;
    assert n == q * QDEPTH + s;
    if s + 1 == QDEPTH {
      assert n + 1 == (q + 1) * QDEPTH;
      assert (n + 1) / QDEPTH == q + 1;
    } else {
      assert (n + 1) / QDEPTH == q && (n + 1) % QDEPTH == s + 1;
    }
  }

  lemma ModApart(a: nat, b: nat)
    requires a < b < a + QDEPTH
    ensures a % QDEPTH != b % QDEPTH
  {
    var d := b / QDEPTH - a / QDEPTH;
    assert b - a == d * QDEPTH + (b % QDEPTH - a % QDEPTH);
  }

  lemma TagBack(q: nat)
    requires q >= QDEPTH
    ensures (q - QDEPTH) % QDEPTH == q % QDEPTH && Tag(q - QDEPTH) == 1 - Tag(q)
  {
    assert (q - QDEPTH) / QDEPTH == q / QDEPTH - 1;
  }

  // ----- every step keeps the invariant -----

  lemma StartInv(sq: seq<Cmd>)
    requires |sq| == QDEPTH
    ensures Inv(Start(sq))
  {
  }

  lemma SendInv(r: Ring, c: Cmd)
    requires Inv(r) && |r.sent| - r.taken + 1 < QDEPTH
    ensures Inv(Send(r, c))
  {
    var s := Send(r, c);
    ModNext(|r.sent|);
    forall k | |s.done| + |s.inflight| <= k < |s.sent| ensures s.sq[k % QDEPTH] == s.sent[k] {
      if k < |r.sent| { ModApart(k, |r.sent|); }
    }
  }

  /** The controller reads exactly the next command sent. */
  lemma FetchInv(r: Ring)
    requires Inv(r)
    ensures Inv(Fetch(r))
    ensures var n := |r.done| + |r.inflight|;
            Fetch(r) == if n < |r.sent| then r.(sqHead := Next(r.sqHead), inflight := r.inflight + [Job(n, r.sent[n])]) else r
  {
    var n := |r.done| + |r.inflight|;
    ModNext(n);
    if n < |r.sent| { ModApart(n, |r.sent|); }
  }

  lemma CompleteInv(r: Ring, i: nat, status: nat)
    requires Inv(r)
    ensures Inv(Complete(r, i, status))
  {
    if i < |r.inflight| {
      var s := Complete(r, i, status);
      var n := |r.done|;
      ModNext(n);
      forall q | 0 <= q < |s.done| && |s.done| <= q + QDEPTH ensures s.cq[q % QDEPTH] == Cqe(Tag(q), s.done[q].1) {
        if q < n { ModApart(q, n); }
      }
      forall j | |s.done| <= j < QDEPTH ensures s.cq[j].phase == 0 {
        assert n % QDEPTH == n;
      }
    }
  }

  /** The entry at the head looks new exactly when one the driver has not
      consumed has been posted, and then it is the oldest such entry. */
  lemma FreshExactly(r: Ring)
    requires Inv(r)
    ensures Fresh(r) <==> r.taken < |r.done|
    ensures Fresh(r) ==> r.cq[r.head].status == r.done[r.taken].1
  {
    var q := r.taken;
    if q < |r.done| {
      assert r.cq[q % QDEPTH] == Cqe(Tag(q), r.done[q].1);
    } else if q >= QDEPTH {
      TagBack(q);
      assert r.cq[(q - QDEPTH) % QDEPTH] == Cqe(Tag(q - QDEPTH), r.done[q - QDEPTH].1);
    } else {
      assert q % QDEPTH == q && r.cq[q].phase == 0 && Tag(q) == 1;
    }
  }

  /** Consuming keeps the invariant and flips the phase exactly at a wrap. */
  lemma TakeInv(r: Ring)
    requires Inv(r) && Fresh(r)
    ensures Inv(Take(r)) && (Take(r).phase != r.phase <==> Take(r).head == 0)
  {
    FreshExactly(r);
    ModNext(r.taken);
  }

  // ----- runs -----

  /** What can happen next.  GiveUp is a timeout or a fatal status: the driver
      goes on with the command still outstanding. */
  datatype Move = MSend(c: Cmd) | MFetch | MComplete(i: nat, status: nat) | MTake | MGiveUp

  /** The driver is waiting for its last command, or idle. */
  datatype World = World(ring: Ring, waiting: bool, lost: nat, returned: seq<(Job, nat)>)

  /** A move the rules allow: one command at a time, and no more outstanding
      than the queue holds. */
  predicate Enabled(w: World, m: Move) {
    match m
    case MSend(_) => !w.waiting && |w.ring.sent| - w.ring.taken + 1 < QDEPTH
    case MTake => w.waiting && w.ring.sent != [] && w.ring.head < |w.ring.cq| && Fresh(w.ring)
    case MGiveUp => w.waiting
    case _ => true
  }

  /** The command sent last. */
  function Current(r: Ring): Job
    requires r.sent != []
  {
    Job(|r.sent| - 1, r.sent[|r.sent| - 1])
  }

  function Apply(w: World, m: Move): World
    requires Counters(w.ring) && Enabled(w, m)
  {
    match m
    case MSend(c) => w.(ring := Send(w.ring, c), waiting := true)
    case MFetch => w.(ring := Fetch(w.ring))
    case MComplete(i, s) => w.(ring := Complete(w.ring, i, s))
    case MTake =>
      w.(ring := Take(w.ring), waiting := false,
         returned := w.returned + [(Current(w.ring), w.ring.cq[w.ring.head].status)])
    case MGiveUp => w.(waiting := false, lost := w.lost + 1)
  }

  /** Nothing is consumed twice or skipped, and without a loss the commands in
      flight, completed and returned are those sent, in order. */
  ghost predicate Sound(w: World) {
    var r := w.ring;
    && Inv(r) && |r.sent| == r.taken + w.lost + (if w.waiting then 1 else 0) && |w.returned| == r.taken
    && (w.lost == 0 ==>
          && |r.done| + |r.inflight| <= r.taken + 1
          && (forall k :: 0 <= k < |r.done| ==> r.done[k].0 == Job(k, r.sent[k]))
          && (forall k :: 0 <= k < |r.inflight| ==> r.inflight[k] == Job(|r.done| + k, r.sent[|r.done| + k]))
          && w.returned == r.done[..r.taken])
  }

  lemma MoveSound(w: World, m: Move)
    requires Sound(w) && Enabled(w, m)
    ensures Sound(Apply(w, m))
  {
    hide Inv;
    CountersOf(w.ring);
    match m
    case MSend(c) => SendInv(w.ring, c);
    case MFetch => FetchSound(w);
    case MComplete(i, s) => CompleteSound(w, i, s);
    case MTake => TakeSound(w);
    case MGiveUp =>
  }

  lemma CountersOf(r: Ring)
    requires Inv(r)
    ensures Counters(r)
  {
  }

  lemma FetchSound(w: World)
    requires Sound(w)
    ensures Sound(w.(ring := Fetch(w.ring)))
  {
    FetchInv(w.ring);
    CountersOf(w.ring);
    hide Inv, Fetch;
  }

  lemma CompleteSound(w: World, i: nat, s: nat)
    requires Sound(w)
    ensures Counters(w.ring) && Sound(w.(ring := Complete(w.ring, i, s)))
  {
    var r := w.ring;
    CompleteInv(r, i, s);
    CountersOf(r);
    hide Inv;
    if w.lost == 0 && i < |r.inflight| {
      assert |r.inflight| == 1 && i == 0;
      assert r.done[..r.taken] == (r.done + [(r.inflight[0], s)])[..r.taken];
    }
  }

  lemma TakeSound(w: World)
    requires Sound(w) && Enabled(w, MTake)
    ensures Counters(w.ring) && Sound(Apply(w, MTake))
  {
    var r := w.ring;
    TakeInv(r);
    FreshExactly(r);
    CountersOf(r);
    hide Inv;
    if w.lost == 0 {
      assert r.done[..r.taken + 1] == r.done[..r.taken] + [r.done[r.taken]];
    }
  }

  ghost predicate Allowed(w: World, ms: seq<Move>)
    decreases |ms|
  {
    ms == [] || (Counters(w.ring) && Enabled(w, ms[0]) && Allowed(Apply(w, ms[0]), ms[1..]))
  }

  function After(w: World, ms: seq<Move>): World
    requires Allowed(w, ms)
    decreases |ms|
  {
    if ms == [] then w else After(Apply(w, ms[0]), ms[1..])
  }

  lemma {:induction false} RunSound(w: World, ms: seq<Move>)
    requires Sound(w) && Allowed(w, ms)
    ensures Sound(After(w, ms))
    decreases |ms|
  {
    if ms != [] {
      MoveSound(w, ms[0]);
      RunSound(Apply(w, ms[0]), ms[1..]);
    }
  }

  /** Whatever the interleaving and however often the queue wraps: without a
      timeout, the k-th submission returns the status the controller gave the
      k-th command. */
  lemma Freshness(sq: seq<Cmd>, ms: seq<Move>)
    requires |sq| == QDEPTH && Allowed(World(Start(sq), false, 0, []), ms)
    ensures var w := After(World(Start(sq), false, 0, []), ms);
            w.lost == 0 ==>
              forall k :: 0 <= k < |w.returned| ==>
                k < |w.ring.done| && k < |w.ring.sent| && w.returned[k] == w.ring.done[k] && w.returned[k].0 == Job(k, w.ring.sent[k])
  {
    StartInv(sq);
    RunSound(World(Start(sq), false, 0, []), ms);
  }

  // ----- whose completion it is -----

  /** The entry the driver is about to consume is that of the command sent last. */
  ghost predicate TakesOwn(w: World) {
    && w.ring.taken < |w.ring.done| && w.ring.sent != []
    && w.ring.done[w.ring.taken].0 == Current(w.ring)
  }

  /** The status consumed is that of the oldest completion not consumed before;
      without a loss it is the waiting command's own. */
  lemma OwnStatus(w: World)
    requires Sound(w) && Enabled(w, MTake)
    ensures w.ring.taken < |w.ring.done| && w.ring.cq[w.ring.head].status == w.ring.done[w.ring.taken].1
    ensures w.lost == 0 ==> TakesOwn(w)
  {
    FreshExactly(w.ring);
  }

  /** Only the controller moves. */
  predicate ControllerOnly(ms: seq<Move>) { forall i :: 0 <= i < |ms| ==> ms[i].MFetch? || ms[i].MComplete? }

  /** The controller does `ms`, and then the driver consumes an entry. */
  ghost predicate Leads(w: World, ms: seq<Move>) {
    ControllerOnly(ms) && Allowed(w, ms) && Sound(After(w, ms)) && Enabled(After(w, ms), MTake)
  }

  lemma {:induction false} ControllerKeeps(w: World, ms: seq<Move>)
    requires Sound(w) && ControllerOnly(ms) && Allowed(w, ms)
    ensures var v := After(w, ms); Sound(v) && v.lost == w.lost && v.waiting == w.waiting && v.ring.sent == w.ring.sent
    decreases |ms|
  {
    if ms != [] {
      MoveSound(w, ms[0]);
      hide Sound;
      assert forall i :: 0 <= i < |ms[1..]| ==> ms[1..][i] == ms[i + 1];
      ControllerKeeps(Apply(w, ms[0]), ms[1..]);
    }
  }

  /** A command just sent gets its own completion whatever the controller does
      exactly when no earlier submission was given up. */
  lemma OwnExactly(w: World, c: Cmd)
    requires Sound(w) && Enabled(w, MSend(c))
    ensures Counters(w.ring)
    ensures w.lost == 0 <==>
              forall ms :: Leads(Apply(w, MSend(c)), ms) ==> TakesOwn(After(Apply(w, MSend(c)), ms))
  {
    SoundCounters(w);
    MoveSound(w, MSend(c));
    var v := Apply(w, MSend(c));
    if w.lost == 0 {
      forall ms | Leads(v, ms) ensures TakesOwn(After(v, ms)) {
        ControllerKeeps(v, ms);
        OwnStatus(After(v, ms));
      }
    } else {
      var ms := OlderFirst(w, c);
    }
  }

  lemma SoundCounters(w: World)
    requires Sound(w)
    ensures Counters(w.ring)
  {
  }

  /** After a loss the controller can complete an older command first. */
  lemma OlderFirst(w: World, c: Cmd) returns (ms: seq<Move>)
    requires Sound(w) && Enabled(w, MSend(c)) && w.lost > 0
    ensures Counters(w.ring)
    ensures Leads(Apply(w, MSend(c)), ms) && !TakesOwn(After(Apply(w, MSend(c)), ms))
  {
    SoundCounters(w);
    MoveSound(w, MSend(c));
    var v := Apply(w, MSend(c));
    var r := v.ring;
    assert r.done == w.ring.done && r.inflight == w.ring.inflight && r.taken == w.ring.taken && |r.sent| == |w.ring.sent| + 1;
    if r.taken < |r.done| {
      ms := [];
      OlderTaken(v);
    } else if r.inflight != [] {
      ms := [MComplete(0, 0)];
      OlderCompletes(v);
      TwoMoves(v, MComplete(0, 0));
    } else {
      OlderFetched(v);
      var u := Apply(v, MFetch);
      ms := [MFetch, MComplete(0, 0)];
      OlderCompletes(u);
      TwoMoves(u, MComplete(0, 0));
      assert ms[1..] == [MComplete(0, 0)];
      assert After(v, ms) == Apply(u, MComplete(0, 0));
    }
  }

  lemma TwoMoves(w: World, m: Move)
    requires Counters(w.ring) && Enabled(w, m)
    ensures Allowed(w, [m]) && After(w, [m]) == Apply(w, m)
  {
    assert [m][1..] == [];
    assert Allowed(Apply(w, m), []);
  }

  lemma OlderTaken(v: World)
    requires Sound(v) && v.waiting && v.ring.taken < |v.ring.done|
    requires v.ring.done[v.ring.taken].0.no < |v.ring.sent| - 1 || |v.ring.done| + |v.ring.inflight| < |v.ring.sent|
    ensures Sound(v) && Enabled(v, MTake) && !TakesOwn(v)
  {
    FreshExactly(v.ring);
  }

  lemma OlderCompletes(u: World)
    requires Sound(u) && u.waiting && u.ring.taken == |u.ring.done| && u.ring.inflight != []
    requires |u.ring.done| + |u.ring.inflight| < |u.ring.sent|
    ensures Counters(u.ring)
    ensures var x := Apply(u, MComplete(0, 0)); Sound(x) && Enabled(x, MTake) && !TakesOwn(x)
  {
    SoundCounters(u);
    MoveSound(u, MComplete(0, 0));
    var x := Apply(u, MComplete(0, 0));
    FreshExactly(x.ring);
  }

  lemma OlderFetched(v: World)
    requires Sound(v) && v.waiting && v.ring.taken == |v.ring.done| && v.ring.inflight == [] && v.lost > 0
    ensures Counters(v.ring)
    ensures var u := Apply(v, MFetch);
            && Sound(u) && u.waiting && u.ring.taken == |u.ring.done| && u.ring.inflight != []
            && |u.ring.done| + |u.ring.inflight| < |u.ring.sent|
  {
    SoundCounters(v);
    MoveSound(v, MFetch);
    FetchInv(v.ring);
  }

  /** A timeout, then a submission: the controller completes the first command
      late, and its status 7 is returned for the second. */
  lemma LateCompletion(sq: seq<Cmd>, a: Cmd, b: Cmd)
    requires |sq| == QDEPTH
    ensures var ms := [MSend(a), MGiveUp, MSend(b), MFetch, MComplete(0, 7), MTake];
            var w0 := World(Start(sq), false, 0, []);
            && Allowed(w0, ms)
            && After(w0, ms).returned == [(Job(1, b), 7)] && After(w0, ms).ring.done == [(Job(0, a), 7)]
  {
    var w0 := World(Start(sq), false, 0, []);
    var w1 := Apply(w0, MSend(a));
    var w2 := Apply(w1, MGiveUp);
    var w3 := Apply(w2, MSend(b));
    assert w3.ring.sq[0] == a && w3.ring.bell == 2;
    var w4 := Apply(w3, MFetch);
    assert w4.ring.inflight == [Job(0, a)];
    var w5 := Apply(w4, MComplete(0, 7));
    assert w5.ring.cq[0] == Cqe(1, 7) && w5.ring.done == [(Job(0, a), 7)];
    var w6 := Apply(w5, MTake);
    assert w6.returned == [(Job(1, b), 7)];
    hide Apply, Start;
    Steps(w5, MTake, []);
    Steps(w4, MComplete(0, 7), [MTake]);
    Steps(w3, MFetch, [MComplete(0, 7), MTake]);
    Steps(w2, MSend(b), [MFetch, MComplete(0, 7), MTake]);
    Steps(w1, MGiveUp, [MSend(b), MFetch, MComplete(0, 7), MTake]);
    Steps(w0, MSend(a), [MGiveUp, MSend(b), MFetch, MComplete(0, 7), MTake]);
  }

  lemma Steps(w: World, m: Move, ms: seq<Move>)
    requires Counters(w.ring) && Enabled(w, m) && Allowed(Apply(w, m), ms)
    ensures Allowed(w, [m] + ms) && After(w, [m] + ms) == After(Apply(w, m), ms)
  {
    assert ([m] + ms)[1..] == ms;
  }
}
