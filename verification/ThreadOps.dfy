/** The scheduler as it runs: loops over the slot array, updated in place.
 */
module ThreadOps {
  import opened Options
  import opened Word32
  import opened Threads

  class Scheduler {
    const threads: array<Thread>
    var current: nat
    var count: int
    var ticks: Word

    ghost predicate Valid()
      reads this
    {
      threads.Length == MAX && current < MAX
    }

    constructor ()
      ensures Valid() && fresh(threads) && current == 0 && count == 0 && ticks == 0
    {
      threads := new Thread[MAX](_ => Thread(false, NewContext(0, 0), 0));
      current, count, ticks := 0, 0, 0;
    }

    /** `thread_is_runnable`: a thread whose time has come is woken on the way. */
    method IsRunnable(t: nat) returns (ok: bool)
      requires Valid() && t < MAX
      modifies threads
      ensures ok == Runnable(old(threads[t]), ticks)
      ensures threads[..] == if ok then old(threads[..])[t := Awake(old(threads[t]))] else old(threads[..])
    {
      if !threads[t].used { return false; }
      var w := threads[t].sleep;
      if w == 0 {
        assert Awake(threads[t]) == threads[t];
        return true;
      }
      if Signed(Wrap(ticks - w)) >= 0 {
        threads[t] := threads[t].(sleep := 0);
        return true;
      }
      ok := false;
    }

    /** The search both switches make: up to eight slots after the current one,
        then one more look at where it stopped. */
    method Search() returns (next: Option<nat>)
      requires Valid()
      modifies threads
      ensures next == Next(old(threads[..]), ticks, current)
      ensures next.Some? ==> next.value < MAX
      ensures threads[..] == match next case Some(n) => old(threads[..])[n := Awake(old(threads[n]))] case None => old(threads[..])
    {
      hide Runnable;
      ghost var ts := threads[..];
      var n := current;
      var k := 0;
      var found := false;
      while k < MAX && !found
        invariant 0 <= k <= MAX && n == At(current, k) && n < MAX
        invariant !found ==> threads[..] == ts && Pick(ts, ticks, current, 1) == Pick(ts, ticks, current, k + 1)
        invariant found ==> k > 0 && threads[..] == ts[n := Awake(ts[n])] && Runnable(ts[n], ticks) && Pick(ts, ticks, current, 1) == Some(k)
      {
        AtNext(current, k);
        n := (n + 1) % MAX;
        k := k + 1;
        found := IsRunnable(n);
      }
      AwakeRunnable(ts[n], ticks);
      var ok := IsRunnable(n);
      AwakeTwice(ts, n);
      if !found { NotPicked(ts, ticks, current); }
      next := if ok then Some(n) else None;
    }

    /** `thread_schedule`. */
    method Schedule(f: Frame) returns (g: Frame)
      requires Valid()
      modifies threads, this`current
      ensures Valid() && (threads[..], current, g) == Threads.Schedule(old(threads[..]), old(current), count, ticks, f)
    {
      hide Next, Runnable;
      if count == 0 || f.user.cs != USER_CS { return f; }
      var used := threads[current].used;
      if used { threads[current] := threads[current].(ctx := f); }
      var next := Search();
      if next.None? { return f; }
      if next.value == current && used { return f; }
      current := next.value;
      g := threads[current].ctx;
    }

    /** `thread_create`. */
    method Create(entry: Word, stack: Word) returns (tid: int)
      requires Valid()
      modifies threads, this`count
      ensures Valid()
      ensures tid == if old(count) >= MAX || FreeSlot(old(threads[..]), 0).None? then -1 else FreeSlot(old(threads[..]), 0).value
      ensures tid < 0 ==> threads[..] == old(threads[..]) && count == old(count)
      ensures tid >= 0 ==> threads[..] == old(threads[..])[tid := Thread(true, NewContext(entry, stack), 0)] && count == old(count) + 1
    {
      if count >= MAX { return -1; }
      ghost var ts := threads[..];
      var i := 0;
      while i < MAX && threads[i].used
        invariant 0 <= i <= MAX && FreeSlot(ts, 0) == FreeSlot(ts, i)
      {
        i := i + 1;
      }
      if i == MAX { return -1; }
      count := count + 1;
      threads[i] := Thread(true, NewContext(entry, stack), 0);
      tid := i;
    }

    /** `thread_kill`. */
    method Kill(t: nat)
      requires Valid() && t < MAX && threads[t].used && count >= 0
      modifies threads, this`count
      ensures Valid() && threads[..] == old(threads[..])[t := old(threads[t]).(used := false, sleep := 0)]
      ensures count == if old(count) == 0 then 0 else old(count) - 1
    {
      threads[t] := threads[t].(used := false, sleep := 0);
      count := count - 1;
      if count < 0 { count := 0; }
    }

    /** `thread_exit_switch`: the registers of the thread that goes on, or None
        when the program ends.  On the world it is exactly the Exit event. */
    method ExitSwitch(ghost w: World) returns (u: Option<User>)
      requires Valid() && Inv(w) && !w.exited && w.ts == threads[..] && w.current == current && w.count == count && Ticks(w) == ticks
      modifies threads, this`count, this`current
      ensures Valid()
      ensures var v := Step(w, Exit);
              && v.ts == threads[..] && v.current == current && v.count == count
              && u == if v.exited then None else Some(v.cpu)
    {
      hide Next, CountUsed;
      assert count >= 1 by { CountSome(w.ts, w.current); }
      Kill(current);
      if count <= 0 { return None; }
      var next := Search();
      if next.None? { return None; }
      current := next.value;
      u := Some(threads[current].ctx.user);
    }

    /** The part of `sys_sleepf` before any waiting: whether another thread can
        run; if not, the process waits and the thread is awake again. */
    method SleepUntil(target: Word) returns (other: bool)
      requires Valid()
      modifies threads
      ensures var ts := old(threads[..])[current := old(threads[current]).(sleep := target)];
              match FirstOther(ts, ticks, current, 0)
              case Some(i) => other && threads[..] == ts[i := Awake(ts[i])]
              case None => !other && threads[..] == ts[current := Awake(ts[current])]
    {
      hide Runnable;
      threads[current] := threads[current].(sleep := target);
      ghost var ts := threads[..];
      for i := 0 to MAX
        invariant threads[..] == ts && FirstOther(ts, ticks, current, 0) == FirstOther(ts, ticks, current, i)
      {
        if i != current {
          var ok := IsRunnable(i);
          if ok { return true; }
        }
      }
      threads[current] := threads[current].(sleep := 0);
      other := false;
    }
  }

  lemma AtNext(cur: nat, k: nat)
    ensures (At(cur, k) + 1) % MAX == At(cur, k + 1)
  {
  }

  lemma AwakeRunnable(t: Thread, ticks: Word)
    ensures Runnable(t, ticks) ==> Runnable(Awake(t), ticks) && Awake(Awake(t)) == Awake(t)
  {
  }

  lemma AwakeTwice(ts: seq<Thread>, n: nat)
    requires n < |ts|
    ensures ts[n := Awake(ts[n])][n := Awake(ts[n := Awake(ts[n])][n])] == ts[n := Awake(ts[n])]
  {
  }

  lemma NotPicked(ts: seq<Thread>, ticks: Word, cur: nat)
    requires |ts| == MAX && cur < MAX && Pick(ts, ticks, cur, 1) == Pick(ts, ticks, cur, MAX + 1)
    ensures Pick(ts, ticks, cur, 1) == None && !Runnable(ts[cur], ticks)
  {
    assert Pick(ts, ticks, cur, MAX + 1) == None;
    NoneRunnable(ts, ticks, cur);
  }

  lemma NoneRunnable(ts: seq<Thread>, ticks: Word, cur: nat)
    requires |ts| == MAX && cur < MAX && Pick(ts, ticks, cur, 1) == None
    ensures !Runnable(ts[cur], ticks)
  {
    hide Runnable;
    AtRound(cur);
    assert !Runnable(ts[At(cur, MAX)], ticks);
  }

  lemma AtRound(cur: nat)
    requires cur < MAX
    ensures At(cur, MAX) == cur
  {
  }
}
