/** The round-robin scheduler: eight slots, a saved context in each, sleeping
    threads woken lazily when the scheduler next looks at them.
 */
module Threads {
  import opened Options
  import opened Word32

  const MAX := 8
  const USER_CS: Word := 0x1B
  const USER_DS: Word := 0x23

  /** Registers a program can see. */
  datatype User = User(gs: Word, fs: Word, es: Word, ds: Word, edi: Word, esi: Word, ebp: Word, esp: Word,
                       ebx: Word, edx: Word, ecx: Word, eax: Word, eip: Word, cs: Word, eflags: Word, useresp: Word, ss: Word)

  /** What the interrupt entry pushed. */
  datatype Frame = Frame(user: User, intNo: Word, err: Word)

  datatype Thread = Thread(used: bool, ctx: Frame, sleep: Word)

  /** The whole machine: slots, current thread, live count, and time as it really
      is (the kernel's counter is its low 32 bits).  `cpu` holds the running
      thread's registers.  `own` and `wake` are what the program believes: each
      thread's registers and the tick it asked to sleep until. */
  datatype World = World(ts: seq<Thread>, current: nat, count: int, now: nat, cpu: User, exited: bool,
                         own: seq<User>, wake: seq<nat>)

  function Ticks(w: World): Word { Wrap(w.now) }

  // ----- waking -----

  /** `(int)(ticks - target) >= 0`. */
  predicate Passed(ticks: Word, target: Word) { Signed(Wrap(ticks - target)) >= 0 }

  predicate Runnable(t: Thread, ticks: Word) { t.used && (t.sleep == 0 || Passed(ticks, t.sleep)) }

  /** The wrapped comparison is the true one for targets less than 2^31 away. */
  lemma PassedExact(now: nat, wake: nat)
    requires -TWO31 < wake - now < TWO31
    ensures Passed(Wrap(now), Wrap(wake)) <==> now >= wake
  {
    WrapDiff(now, wake);
    SignedWrap(now - wake);
  }

  lemma WrapDiff(a: nat, b: nat)
    ensures Wrap(Wrap(a) - Wrap(b)) == Wrap(a - b)
  {
    WrapShift(Wrap(a) - Wrap(b), a / TWO32 - b / TWO32);
  }

  // ----- choosing -----

  function At(cur: nat, k: nat): nat { (cur + k) % MAX }

  /** First runnable slot in cyclic order, `k` places after the current one or
      later; the current one itself comes last. */
  function Pick(ts: seq<Thread>, ticks: Word, cur: nat, k: nat): (r: Option<nat>)
    requires |ts| == MAX
    ensures r.Some? ==> k <= r.value <= MAX && Runnable(ts[At(cur, r.value)], ticks)
    ensures r.Some? ==> forall j :: k <= j < r.value ==> !Runnable(ts[At(cur, j)], ticks)
    ensures r.None? ==> forall j :: k <= j <= MAX ==> !Runnable(ts[At(cur, j)], ticks)
    decreases MAX + 1 - k
  {
    if k > MAX then None
    else if Runnable(ts[At(cur, k)], ticks) then Some(k)
    else Pick(ts, ticks, cur, k + 1)
  }

  function Next(ts: seq<Thread>, ticks: Word, cur: nat): Option<nat>
    requires |ts| == MAX
  {
    match Pick(ts, ticks, cur, 1) case Some(k) => Some(At(cur, k)) case None => None
  }

  function Awake(t: Thread): Thread { t.(sleep := 0) }

  /** `thread_schedule` on the interrupt frame `f`: new slots, current thread and
      frame. */
  function Schedule(ts: seq<Thread>, cur: nat, count: int, ticks: Word, f: Frame): (seq<Thread>, nat, Frame)
    requires |ts| == MAX && cur < MAX
  {
    if count == 0 || f.user.cs != USER_CS then (ts, cur, f)
    else
      var ts1 := if ts[cur].used then ts[cur := ts[cur].(ctx := f)] else ts;
      match Next(ts1, ticks, cur)
      case None => (ts1, cur, f)
      case Some(n) =>
        var ts2 := ts1[n := Awake(ts1[n])];
        if n == cur && ts[cur].used then (ts2, cur, f) else (ts2, n, ts2[n].ctx)
  }

  function NewContext(entry: Word, stack: Word): Frame {
    Frame(User(USER_DS, USER_DS, USER_DS, USER_DS, 0, 0, 0, 0, 0, 0, 0, 0, entry, USER_CS, 0x202, stack, USER_DS), 0, 0)
  }

  function FreeSlot(ts: seq<Thread>, i: nat): (r: Option<nat>)
    ensures r.Some? ==> i <= r.value < |ts| && !ts[r.value].used
    ensures r.None? ==> forall j :: i <= j < |ts| ==> ts[j].used
    decreases |ts| - i
  {
    if i >= |ts| then None else if !ts[i].used then Some(i) else FreeSlot(ts, i + 1)
  }

  // ----- events -----

  /** User: the current thread computes.  UserTick and KernelTick: a timer
      interrupt that found the processor in user or in kernel mode.  Sleep is
      `sys_sleepf` with the target it computed; `extra` is how long past the
      target the process slept when it was alone. */
  datatype Event = User_(u: User) | UserTick(intNo: Word, err: Word) | KernelTick
                 | Create(entry: Word, stack: Word) | Sleep(ticks: nat, extra: nat) | Exit

  predicate Others(ts: seq<Thread>, ticks: Word, cur: nat) {
    exists i :: 0 <= i < |ts| && i != cur && Runnable(ts[i], ticks)
  }

  /** First runnable slot other than the current one, as `sys_sleepf` searches. */
  function FirstOther(ts: seq<Thread>, ticks: Word, cur: nat, i: nat): (r: Option<nat>)
    ensures r.Some? ==> i <= r.value < |ts| && r.value != cur && Runnable(ts[r.value], ticks)
    ensures r.None? ==> forall j :: i <= j < |ts| && j != cur ==> !Runnable(ts[j], ticks)
    decreases |ts| - i
  {
    if i >= |ts| then None
    else if i != cur && Runnable(ts[i], ticks) then Some(i)
    else FirstOther(ts, ticks, cur, i + 1)
  }

  function Step(w: World, e: Event): World
    requires |w.ts| == MAX && |w.own| == MAX && |w.wake| == MAX && w.current < MAX && !w.exited
  {
    match e
    case User_(u) => w.(cpu := u, own := w.own[w.current := u])
    case KernelTick => w.(now := w.now + 1)
    case UserTick(n, err) =>
      var (ts, cur, f) := Schedule(w.ts, w.current, w.count, Wrap(w.now + 1), Frame(w.cpu, n, err));
      w.(ts := ts, current := cur, cpu := f.user, now := w.now + 1)
    case Create(entry, stack) =>
      if w.count >= MAX then w
      else
        (match FreeSlot(w.ts, 0)
         case None => w
         case Some(t) =>
           w.(ts := w.ts[t := Thread(true, NewContext(entry, stack), 0)], count := w.count + 1,
              own := w.own[t := NewContext(entry, stack).user], wake := w.wake[t := w.now]))
    case Sleep(n, extra) =>
      var target := Wrap(w.now + n);
      var ts := w.ts[w.current := w.ts[w.current].(sleep := target)];
      var wake := w.wake[w.current := w.now + n];
      (match FirstOther(ts, Ticks(w), w.current, 0)
       case Some(i) => w.(ts := ts[i := Awake(ts[i])], wake := wake)
       case None => w.(ts := ts[w.current := Awake(ts[w.current])], wake := wake, now := w.now + n + extra))
    case Exit =>
      var ts := w.ts[w.current := w.ts[w.current].(used := false, sleep := 0)];
      if w.count - 1 <= 0 then w.(ts := ts, count := 0, exited := true)
      else
        (match Next(ts, Ticks(w), w.current)
         case None => w.(ts := ts, count := w.count - 1, exited := true)
         case Some(n) => w.(ts := ts[n := Awake(ts[n])], count := w.count - 1, current := n, cpu := ts[n].ctx.user))
  }

  /** A fresh program. */
  function Start(ts: seq<Thread>, entry: Word, stack: Word, now: nat, own: seq<User>, wake: seq<nat>): World
    requires |ts| == MAX && |own| == MAX && |wake| == MAX
  {
    var c := NewContext(entry, stack);
    World(seq(MAX, i requires 0 <= i < MAX => if i == 0 then Thread(true, c, 0) else ts[i].(used := false)),
          0, 1, now, c.user, false, own[0 := c.user], wake[0 := now])
  }

  // ----- the invariant -----

  function CountUsed(ts: seq<Thread>): nat {
    if ts == [] then 0 else (if ts[0].used then 1 else 0) + CountUsed(ts[1..])
  }

  lemma {:induction false} CountSet(ts: seq<Thread>, i: nat, t: Thread)
    requires i < |ts|
    ensures CountUsed(ts[i := t]) == CountUsed(ts) - (if ts[i].used then 1 else 0) + (if t.used then 1 else 0)
    decreases i
  {
    if i == 0 {
      assert ts[0 := t][1..] == ts[1..];
    } else {
      assert ts[i := t][1..] == ts[1..][i - 1 := t];
      CountSet(ts[1..], i - 1, t);
    }
  }

  /** Every thread that is not running has its own registers saved; the running
      thread's are in the processor. */
  ghost predicate Isolated(w: World)
    requires |w.ts| == |w.own| && w.current < |w.own|
  {
    && w.cpu == w.own[w.current]
    && forall i :: 0 <= i < |w.ts| && w.ts[i].used && i != w.current ==> w.ts[i].ctx.user == w.own[i]
  }

  /** A sleeping thread's target is its wake tick, still less than 2^31 ahead. */
  ghost predicate Timed(w: World)
    requires |w.ts| == |w.wake|
  {
    forall i :: 0 <= i < |w.ts| && w.ts[i].used && w.ts[i].sleep != 0 ==>
      w.ts[i].sleep == Wrap(w.wake[i]) && w.wake[i] < w.now + TWO31
  }

  /** Thread `i` has reached its wake tick, or that tick was 0 modulo 2^32. */
  predicate Due(w: World, i: nat)
    requires i < |w.wake|
  {
    w.now >= w.wake[i] || Wrap(w.wake[i]) == 0
  }

  /** Whoever is not marked asleep is due. */
  ghost predicate Rested(w: World)
    requires |w.ts| == |w.wake|
  {
    forall i :: 0 <= i < |w.ts| && w.ts[i].used && w.ts[i].sleep == 0 ==> Due(w, i)
  }

  ghost predicate Inv(w: World) {
    && |w.ts| == MAX && |w.own| == MAX && |w.wake| == MAX && w.current < MAX
    && w.count == CountUsed(w.ts)
    && (!w.exited ==> w.ts[w.current].used && Isolated(w) && Timed(w) && Rested(w))
  }

  /** A thread the scheduler finds runnable is due. */
  lemma RunnableDue(w: World, i: nat, now: nat)
    requires |w.ts| == |w.wake| && i < |w.ts| && Timed(w) && Rested(w) && now >= w.now && Runnable(w.ts[i], Wrap(now))
    ensures now >= w.wake[i] || Wrap(w.wake[i]) == 0
  {
    if w.ts[i].sleep != 0 && now < w.wake[i] { PassedExact(now, w.wake[i]); }
  }

  /** Requests the argument of `sys_sleepf` can make. */
  predicate Fair(w: World, e: Event) {
    match e
    case Sleep(n, _) => n < TWO31
    case _ => true
  }

  lemma {:induction false} CountNone(ts: seq<Thread>)
    requires forall i :: 0 <= i < |ts| ==> !ts[i].used
    ensures CountUsed(ts) == 0
  {
    if ts != [] { CountNone(ts[1..]); }
  }

  lemma {:induction false} CountSome(ts: seq<Thread>, i: nat)
    requires i < |ts| && ts[i].used
    ensures CountUsed(ts) >= 1
  {
    if i > 0 { CountSome(ts[1..], i - 1); }
  }

  lemma StartInv(ts: seq<Thread>, entry: Word, stack: Word, now: nat, own: seq<User>, wake: seq<nat>)
    requires |ts| == MAX && |own| == MAX && |wake| == MAX
    ensures Inv(Start(ts, entry, stack, now, own, wake))
  {
    var w := Start(ts, entry, stack, now, own, wake);
    CountNone(w.ts[1..]);
  }

  lemma PlainStep(w: World, e: Event)
    requires Inv(w) && !w.exited && (e.User_? || e.KernelTick?)
    ensures Inv(Step(w, e))
  {
  }

  /** A user-mode tick in three cases: nobody can run, the current thread goes
      on, or another takes over. */
  lemma TickUnfold(w: World, e: Event)
    requires |w.ts| == MAX && |w.own| == MAX && |w.wake| == MAX && w.current < MAX && !w.exited && e.UserTick?
    requires w.ts[w.current].used
    ensures var f := Frame(w.cpu, e.intNo, e.err);
            var ts1 := w.ts[w.current := w.ts[w.current].(ctx := f)];
            var n := Next(ts1, Wrap(w.now + 1), w.current);
            Step(w, e) ==
              if w.count == 0 || w.cpu.cs != USER_CS then w.(now := w.now + 1)
              else if n.None? then w.(ts := ts1, now := w.now + 1)
              else if n.value == w.current then w.(ts := ts1[n.value := Awake(ts1[n.value])], now := w.now + 1)
              else w.(ts := ts1[n.value := Awake(ts1[n.value])], current := n.value, cpu := ts1[n.value].ctx.user, now := w.now + 1)
  {
    hide Pick, Wrap;
  }

  lemma TickStep(w: World, e: Event)
    requires Inv(w) && !w.exited && e.UserTick?
    ensures Inv(Step(w, e))
  {
    TickUnfold(w, e);
    Sizes(w);
    hide Inv, CountUsed, Next, Wrap, Step, Schedule, Runnable;
    var ts1 := w.ts[w.current := w.ts[w.current].(ctx := Frame(w.cpu, e.intNo, e.err))];
    TickIdle(w, w.ts[w.current].ctx);
    TickIdle(w, Frame(w.cpu, e.intNo, e.err));
    assert w.ts[w.current := w.ts[w.current]] == w.ts;
    var n := Next(ts1, Wrap(w.now + 1), w.current);
    if n.Some? {
      NextUsed(ts1, Wrap(w.now + 1), w.current);
      TickChosen(w, Frame(w.cpu, e.intNo, e.err), n.value);
    }
  }

  /** The tick changes nothing but the clock and the current thread's saved frame. */
  lemma TickIdle(w: World, f: Frame)
    requires Inv(w) && !w.exited
    ensures Inv(w.(ts := w.ts[w.current := w.ts[w.current].(ctx := f)], now := w.now + 1))
  {
    CountSet(w.ts, w.current, w.ts[w.current].(ctx := f));
    hide CountUsed, Wrap;
  }

  /** The current registers are saved and thread `n`, runnable now, is woken. */
  lemma TickChosen(w: World, f: Frame, n: nat)
    requires Inv(w) && !w.exited && f.user == w.cpu && n < MAX
    requires Runnable(w.ts[w.current := w.ts[w.current].(ctx := f)][n], Wrap(w.now + 1))
    ensures var ts1 := w.ts[w.current := w.ts[w.current].(ctx := f)];
            Inv(w.(ts := ts1[n := Awake(ts1[n])], current := n, cpu := ts1[n].ctx.user, now := w.now + 1))
  {
    var t1 := w.ts[w.current].(ctx := f);
    var ts1 := w.ts[w.current := t1];
    CountSet(w.ts, w.current, t1);
    CountSet(ts1, n, Awake(ts1[n]));
    RunnableDue(w, n, w.now + 1);
    hide CountUsed, Wrap, Passed;
  }

  lemma NextUsed(ts: seq<Thread>, ticks: Word, cur: nat)
    requires |ts| == MAX && Next(ts, ticks, cur).Some?
    ensures Next(ts, ticks, cur).value < MAX && Runnable(ts[Next(ts, ticks, cur).value], ticks)
  {
  }

  lemma CreateStep(w: World, e: Event)
    requires Inv(w) && !w.exited && e.Create?
    ensures Inv(Step(w, e))
  {
    hide CountUsed;
    if w.count < MAX && FreeSlot(w.ts, 0).Some? {
      var t := FreeSlot(w.ts, 0).value;
      CountSet(w.ts, t, Thread(true, NewContext(e.entry, e.stack), 0));
    }
  }

  lemma SleepStep(w: World, e: Event)
    requires Inv(w) && !w.exited && e.Sleep? && Fair(w, e)
    ensures Inv(Step(w, e))
  {
    hide CountUsed, Wrap;
    var target := Wrap(w.now + e.ticks);
    var t := w.ts[w.current].(sleep := target);
    var ts := w.ts[w.current := t];
    CountSet(w.ts, w.current, t);
    match FirstOther(ts, Ticks(w), w.current, 0)
    case Some(i) =>
      RunnableDue(w, i, w.now);
      CountSet(ts, i, Awake(ts[i]));
    case None => CountSet(ts, w.current, Awake(ts[w.current]));
  }

  lemma ExitStep(w: World, e: Event)
    requires Inv(w) && !w.exited && e.Exit?
    ensures Inv(Step(w, e))
  {
    hide CountUsed, Next, Wrap;
    var t := w.ts[w.current].(used := false, sleep := 0);
    var ts := w.ts[w.current := t];
    CountSet(w.ts, w.current, t);
    if w.count - 1 > 0 && Next(ts, Ticks(w), w.current).Some? {
      var n := Next(ts, Ticks(w), w.current).value;
      NextUsed(ts, Ticks(w), w.current);
      RunnableDue(w, n, w.now);
      CountSet(ts, n, Awake(ts[n]));
    }
  }

  /** Every event keeps the invariant. */
  lemma StepInv(w: World, e: Event)
    requires Inv(w) && !w.exited && Fair(w, e)
    ensures Inv(Step(w, e))
  {
    hide Inv, Step;
    assert |w.ts| == MAX && |w.own| == MAX && |w.wake| == MAX && w.current < MAX by { Sizes(w); }
    match e
    case User_(_) => PlainStep(w, e);
    case KernelTick => PlainStep(w, e);
    case UserTick(_, _) => TickStep(w, e);
    case Create(_, _) => CreateStep(w, e);
    case Sleep(_, _) => SleepStep(w, e);
    case Exit => ExitStep(w, e);
  }

  lemma Sizes(w: World)
    requires Inv(w)
    ensures |w.ts| == MAX && |w.own| == MAX && |w.wake| == MAX && w.current < MAX
  {
  }

  // ----- isolation -----

  /** What a thread's registers are by its own account: only its own computing
      and its creation change them. */
  function OwnStep(w: World, e: Event, t: nat): User
    requires Inv(w) && !w.exited && t < MAX
  {
    match e
    case User_(u) => if t == w.current then u else w.own[t]
    case Create(entry, stack) => if w.count < MAX && FreeSlot(w.ts, 0) == Some(t) then NewContext(entry, stack).user else w.own[t]
    case _ => w.own[t]
  }

  /** No event other than those two changes the registers a thread will see, and
      whenever a thread comes to run the processor holds exactly them. */
  lemma Isolation(w: World, e: Event, t: nat)
    requires Inv(w) && !w.exited && Fair(w, e) && t < MAX
    ensures var v := Step(w, e);
            && Inv(v) && v.own[t] == OwnStep(w, e, t)
            && (!v.exited && v.current == t ==> v.cpu == OwnStep(w, e, t))
            && (!v.exited && v.current != t && v.ts[t].used ==> v.ts[t].ctx.user == OwnStep(w, e, t))
  {
    StepInv(w, e);
    hide CountUsed, Next, Wrap, Schedule;
  }

  /** The world after a run. */
  function Play(w: World, es: seq<Event>): World
    requires Inv(w) && Played(w, es)
    decreases |es|
  {
    if es == [] || w.exited then w else StepInv(w, es[0]); Play(Step(w, es[0]), es[1..])
  }

  /** A thread's registers by its own account, over a run. */
  function OwnPlay(w: World, es: seq<Event>, t: nat): User
    requires Inv(w) && Played(w, es) && t < MAX
    decreases |es|
  {
    if es == [] || w.exited then w.own[t]
    else if |es| == 1 then OwnStep(w, es[0], t)
    else StepInv(w, es[0]); OwnPlay(Step(w, es[0]), es[1..], t)
  }

  /** Over any run every thread's registers, saved or running, are what its own
      events made them. */
  lemma {:induction false} RunIsolated(w: World, es: seq<Event>, t: nat)
    requires Inv(w) && Played(w, es) && t < MAX
    ensures var v := Play(w, es);
            && Inv(v) && v.count == CountUsed(v.ts)
            && (!v.exited ==> v.ts[v.current].used)
            && (!v.exited && v.current == t ==> v.cpu == OwnPlay(w, es, t))
            && (!v.exited && v.current != t && v.ts[t].used ==> v.ts[t].ctx.user == OwnPlay(w, es, t))
    decreases |es|
  {
    hide Step, OwnStep, CountUsed;
    if es != [] && !w.exited {
      StepInv(w, es[0]);
      Isolation(w, es[0], t);
      RunIsolated(Step(w, es[0]), es[1..], t);
    }
  }

  /** The program goes on after an exit exactly when another thread can run now;
      sleeping threads do not keep it alive. */
  lemma ExitEnds(w: World)
    requires Inv(w) && !w.exited
    ensures Step(w, Exit).exited <==> !Others(w.ts, Ticks(w), w.current)
  {
    hide CountUsed;
    var t := w.ts[w.current].(used := false, sleep := 0);
    var ts := w.ts[w.current := t];
    CountSet(w.ts, w.current, t);
    if Others(w.ts, Ticks(w), w.current) {
      var i :| 0 <= i < |w.ts| && i != w.current && Runnable(w.ts[i], Ticks(w));
      CountSome(ts, i);
      Reach(w.current, i);
      assert Runnable(ts[At(w.current, Dist(w.current, i))], Ticks(w));
    } else {
      if Next(ts, Ticks(w), w.current).Some? { NextUsed(ts, Ticks(w), w.current); }
    }
  }

  /** One thread sleeps, the other exits: the program ends with the first asleep. */
  lemma SleeperAbandoned(ts: seq<Thread>, own: seq<User>, wake: seq<nat>) returns (v: World)
    requires |ts| == MAX && |own| == MAX && |wake| == MAX
    ensures var es := [Create(0x1000, 0x2000), Sleep(100, 0), UserTick(32, 0), Exit];
            var w0 := Start(ts, 0, 0x3000, 5, own, wake);
            Inv(w0) && Played(w0, es) && v == Play(w0, es)
    ensures |v.ts| == MAX && v.exited && v.ts[0].used && v.ts[0].sleep == 105 && v.now == 6
  {
    var w0 := Start(ts, 0, 0x3000, 5, own, wake);
    StartInv(ts, 0, 0x3000, 5, own, wake);
    StepInv(w0, Create(0x1000, 0x2000));
    var w1 := SecondCreated(w0);
    StepInv(w1, Sleep(100, 0));
    var w2 := FirstSleeps(w1);
    StepInv(w2, UserTick(32, 0));
    var w3 := SecondRuns(w2);
    StepInv(w3, Exit);
    v := SecondExits(w3);
    hide Step, Inv;
    PlayOne(w3, Exit, []);
    PlayOne(w2, UserTick(32, 0), [Exit]);
    PlayOne(w1, Sleep(100, 0), [UserTick(32, 0), Exit]);
    PlayOne(w0, Create(0x1000, 0x2000), [Sleep(100, 0), UserTick(32, 0), Exit]);
  }

  /** Two threads, the first running and perhaps marked asleep until tick 105. */
  ghost predicate Pair(w: World, sleep: Word) {
    && Inv(w) && !w.exited && w.count == 2 && w.now == 5 && w.current == 0 && w.cpu.cs == USER_CS
    && w.ts[0].sleep == sleep && w.ts[1].used && w.ts[1].sleep == 0 && forall i :: 2 <= i < MAX ==> !w.ts[i].used
  }

  lemma SecondCreated(w0: World) returns (w1: World)
    requires Inv(w0) && !w0.exited && w0.count == 1 && w0.now == 5 && w0.current == 0 && w0.cpu.cs == USER_CS
    requires w0.ts[0].sleep == 0 && forall i :: 1 <= i < MAX ==> !w0.ts[i].used
    ensures w1 == Step(w0, Create(0x1000, 0x2000)) && Pair(w1, 0)
  {
    StepInv(w0, Create(0x1000, 0x2000));
    hide CountUsed;
    assert FreeSlot(w0.ts, 1) == Some(1);
    assert FreeSlot(w0.ts, 0) == Some(1);
    w1 := Step(w0, Create(0x1000, 0x2000));
  }

  lemma FirstSleeps(w1: World) returns (w2: World)
    requires Pair(w1, 0)
    ensures w2 == Step(w1, Sleep(100, 0)) && Pair(w2, 105)
  {
    StepInv(w1, Sleep(100, 0));
    hide CountUsed;
    var ts := w1.ts[0 := w1.ts[0].(sleep := 105)];
    assert FirstOther(ts, Ticks(w1), 0, 1) == Some(1);
    assert FirstOther(ts, Ticks(w1), 0, 0) == Some(1);
    w2 := Step(w1, Sleep(100, 0));
  }

  lemma SecondRuns(w2: World) returns (w3: World)
    requires Pair(w2, 105)
    ensures w3 == Step(w2, UserTick(32, 0)) && Inv(w3) && !w3.exited && w3.current == 1 && w3.count == 2 && w3.now == 6
    ensures w3.ts[0].used && w3.ts[0].sleep == 105 && forall i :: 2 <= i < MAX ==> !w3.ts[i].used
  {
    var e := UserTick(32, 0);
    StepInv(w2, e);
    TickUnfold(w2, e);
    hide CountUsed, Step, Schedule;
    var ts1 := w2.ts[0 := w2.ts[0].(ctx := Frame(w2.cpu, 32, 0))];
    assert At(0, 1) == 1 && Runnable(ts1[1], 6);
    assert Next(ts1, 6, 0) == Some(1);
    w3 := Step(w2, e);
  }

  lemma SecondExits(w3: World) returns (v: World)
    requires Inv(w3) && !w3.exited && w3.current == 1 && w3.count == 2 && w3.now == 6
    requires w3.ts[0].used && w3.ts[0].sleep == 105 && forall i :: 2 <= i < MAX ==> !w3.ts[i].used
    ensures v == Step(w3, Exit) && |v.ts| == MAX && v.exited && v.ts[0].used && v.ts[0].sleep == 105 && v.now == 6
  {
    assert !Passed(6, 105);
    assert !Others(w3.ts, Ticks(w3), 1);
    ExitEnds(w3);
    hide Passed;
    v := Step(w3, Exit);
  }

  lemma PlayOne(w: World, e: Event, es: seq<Event>)
    requires Inv(w) && !w.exited && Fair(w, e) && Inv(Step(w, e)) && Played(Step(w, e), es)
    ensures Played(w, [e] + es) && Play(w, [e] + es) == Play(Step(w, e), es)
  {
    hide Step, Inv;
    assert ([e] + es)[1..] == es;
  }

  // ----- bounded waiting -----

  /** Places from `cur` on to `t`, going round; 8 for `cur` itself. */
  function Dist(cur: nat, t: nat): (d: nat)
    requires cur < MAX && t < MAX
    ensures 1 <= d <= MAX
  {
    if t > cur then t - cur else t + MAX - cur
  }

  lemma Reach(cur: nat, t: nat)
    requires cur < MAX && t < MAX
    ensures At(cur, Dist(cur, t)) == t
  {
  }

  /** The thread is used and not running; it is awake, or its wake tick has come and
      is less than 2^31 ticks past at the time `until`. */
  ghost predicate Waits(w: World, t: nat, until: nat)
    requires |w.ts| == MAX && |w.wake| == MAX
  {
    && t < MAX && t != w.current && w.ts[t].used && w.now <= until
    && (w.ts[t].sleep == 0 || w.wake[t] <= w.now <= until < w.wake[t] + TWO31)
  }

  /** Such a thread is runnable whenever the scheduler looks. */
  lemma WaitsRunnable(w: World, t: nat, until: nat, now: nat)
    requires Inv(w) && !w.exited && Waits(w, t, until) && w.now <= now <= until
    ensures Runnable(w.ts[t], Wrap(now))
  {
    if w.ts[t].sleep != 0 { PassedExact(now, w.wake[t]); }
  }

  /** A switch in user mode brings a waiting thread nearer, or runs it. */
  lemma TickNearer(w: World, e: Event, t: nat, until: nat)
    requires Inv(w) && !w.exited && e.UserTick? && Waits(w, t, until) && w.cpu.cs == USER_CS && w.now < until
    ensures var v := Step(w, e);
            && |v.ts| == MAX && |v.wake| == MAX && v.current < MAX
            && (v.current == t || (Waits(v, t, until) && Dist(v.current, t) < Dist(w.current, t)))
  {
    hide CountUsed, Wrap, Pick, Passed, Step, Schedule, Runnable, Isolated, Timed, Rested;
    TickUnfold(w, e);
    WaitsRunnable(w, t, until, w.now + 1);
    CountSome(w.ts, t);
    var ticks := Wrap(w.now + 1);
    var ts1 := w.ts[w.current := w.ts[w.current].(ctx := Frame(w.cpu, e.intNo, e.err))];
    Reach(w.current, t);
    PickReaches(ts1, ticks, w.current, Dist(w.current, t));
    NearerBy(w.current, Pick(ts1, ticks, w.current, 1).value, t);
  }

  lemma PickReaches(ts: seq<Thread>, ticks: Word, cur: nat, d: nat)
    requires |ts| == MAX && 1 <= d <= MAX && Runnable(ts[At(cur, d)], ticks)
    ensures Pick(ts, ticks, cur, 1).Some? && 1 <= Pick(ts, ticks, cur, 1).value <= d
  {
  }

  lemma NearerBy(cur: nat, k: nat, t: nat)
    requires cur < MAX && t < MAX && 1 <= k <= Dist(cur, t) && t != cur
    ensures At(cur, k) < MAX && At(cur, k) != cur
    ensures At(cur, k) == t || (k < Dist(cur, t) && Dist(At(cur, k), t) == Dist(cur, t) - k)
  {
  }

  /** Nothing else moves it away. */
  lemma OthersHarmless(w: World, e: Event, t: nat, until: nat)
    requires Inv(w) && !w.exited && Fair(w, e) && Waits(w, t, until) && !(e.UserTick? && w.cpu.cs == USER_CS)
    requires Step(w, e).now <= until
    ensures var v := Step(w, e);
            && |v.ts| == MAX && |v.wake| == MAX && v.current < MAX
            && (v.exited || v.current == t || (Waits(v, t, until) && Dist(v.current, t) <= Dist(w.current, t)))
  {
    WaitsRunnable(w, t, until, w.now);
    hide CountUsed, Wrap;
    if e.Exit? {
      var th := w.ts[w.current].(used := false, sleep := 0);
      var ts := w.ts[w.current := th];
      Reach(w.current, t);
      PickReaches(ts, Ticks(w), w.current, Dist(w.current, t));
      hide Pick, Passed;
      var k := Pick(ts, Ticks(w), w.current, 1).value;
      NearerBy(w.current, k, t);
    }
  }

  /** User-mode scheduling ticks among the events from here on. */
  function Ticked(w: World, es: seq<Event>): nat
    requires Inv(w) && Played(w, es)
    decreases |es|
  {
    if es == [] || w.exited then 0
    else
      StepInv(w, es[0]);
      (if es[0].UserTick? && w.cpu.cs == USER_CS then 1 else 0) + Ticked(Step(w, es[0]), es[1..])
  }

  /** The events happen one after another until the program ends. */
  ghost predicate Played(w: World, es: seq<Event>)
    requires Inv(w)
    decreases |es|
  {
    es == [] || w.exited || (Fair(w, es[0]) && (StepInv(w, es[0]); Played(Step(w, es[0]), es[1..])))
  }

  /** The thread runs at some point, or the program ends. */
  ghost predicate Served(w: World, es: seq<Event>, t: nat)
    requires Inv(w) && Played(w, es)
    decreases |es|
  {
    w.exited || w.current == t || (es != [] && (StepInv(w, es[0]); Served(Step(w, es[0]), es[1..], t)))
  }

  lemma {:induction false} TimeGrows(w: World, es: seq<Event>)
    requires Inv(w) && Played(w, es)
    ensures w.now <= Play(w, es).now
    decreases |es|
  {
    if es != [] && !w.exited {
      StepInv(w, es[0]);
      TimeGrows(Step(w, es[0]), es[1..]);
    }
  }

  /** A used thread that is awake, or whose wake tick has come and stays less than
      2^31 ticks past, runs within as many user-mode ticks as its cyclic distance,
      whatever the others create, sleep or exit meanwhile. */
  lemma {:induction false} BoundedWaiting(w: World, es: seq<Event>, t: nat, until: nat)
    requires Inv(w) && Played(w, es) && !w.exited && Waits(w, t, until) && Play(w, es).now <= until
    requires Ticked(w, es) >= Dist(w.current, t)
    ensures Served(w, es, t)
    decreases |es|
  {
    Sizes(w);
    TimeGrows(w, es);
    hide Inv, Waits;
    if es != [] {
      StepInv(w, es[0]);
      var v := Step(w, es[0]);
      TimeGrows(v, es[1..]);
      if es[0].UserTick? && w.cpu.cs == USER_CS {
        TickTime(w, es[0]);
        hide Step;
        TickNearer(w, es[0], t, until);
      } else {
        hide Step;
        OthersHarmless(w, es[0], t, until);
      }
      if !v.exited && v.current != t { BoundedWaiting(v, es[1..], t, until); }
    }
  }

  lemma TickTime(w: World, e: Event)
    requires Inv(w) && !w.exited && e.UserTick?
    ensures Step(w, e).now == w.now + 1
  {
    hide Schedule;
  }

  /** Seven ticks are always enough. */
  lemma DistBound(w: World, t: nat, until: nat)
    requires Inv(w) && Waits(w, t, until)
    ensures Dist(w.current, t) <= MAX - 1
  {
  }

  // ----- waking -----

  /** A switch goes to a thread that is due. */
  lemma SwitchDue(w: World, e: Event)
    requires Inv(w) && !w.exited && Fair(w, e)
    ensures var v := Step(w, e);
            !v.exited && v.current != w.current ==> e.UserTick? || e.Exit?
    ensures var v := Step(w, e);
            !v.exited && v.current != w.current ==> v.current < MAX && |v.wake| == MAX && Due(v, v.current)
  {
    StepInv(w, e);
    hide CountUsed, Wrap, Due;
  }

  /** No switch in the run goes to a thread before its wake tick. */
  ghost predicate NeverEarly(w: World, es: seq<Event>)
    requires Inv(w) && Played(w, es)
    decreases |es|
  {
    es == [] || w.exited
    || (StepInv(w, es[0]);
        var v := Step(w, es[0]);
        (!v.exited && v.current != w.current ==> Due(v, v.current)) && NeverEarly(v, es[1..]))
  }

  /** Over every run, whoever creates, sleeps or exits: a switch goes only to a
      thread that has reached its wake tick, or whose wake tick was 0 modulo
      2^32. */
  lemma {:induction false} NotEarly(w: World, es: seq<Event>)
    requires Inv(w) && Played(w, es)
    ensures NeverEarly(w, es)
    decreases |es|
  {
    hide Step, CountUsed, Due;
    if es != [] && !w.exited {
      StepInv(w, es[0]);
      SwitchDue(w, es[0]);
      NotEarly(Step(w, es[0]), es[1..]);
    }
  }

  /** A sleep whose target tick is 0 modulo 2^32 is no sleep at all: the wake
      tick is respected exactly when the target is not 0. */
  lemma ZeroTarget(w: World, n: nat, extra: nat)
    requires Inv(w) && !w.exited && 0 < n < TWO31 && Others(w.ts, Ticks(w), w.current)
    ensures var v := Step(w, Sleep(n, extra));
            && v.now == w.now && v.current == w.current && v.wake[v.current] == w.now + n
            && (Runnable(v.ts[v.current], Ticks(v)) <==> Wrap(w.now + n) == 0)
  {
    PassedExact(w.now, w.now + n);
    var ts := w.ts[w.current := w.ts[w.current].(sleep := Wrap(w.now + n))];
    var i :| 0 <= i < |w.ts| && i != w.current && Runnable(w.ts[i], Ticks(w));
    assert Runnable(ts[i], Ticks(w));
    assert FirstOther(ts, Ticks(w), w.current, 0).Some?;
    hide CountUsed, Passed, Wrap;
  }
}
