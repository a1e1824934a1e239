/** `pp_process` as it runs: two arrays and a depth per file, the macro table, the
    output and the line map shared by all of them.
 */
module PpOps {
  import opened Options
  import opened PpCond

  const MAX_LM_LINES := 24576
  const MAX_LM_FILES := 24

  // ----- the line map -----

  /** File names, cut to 63 characters, and for each output line the number of
      its file and its line there. */
  datatype LineMap = LineMap(files: seq<string>, at: seq<(nat, nat)>)

  function Cut(s: string): string { if |s| <= 63 then s else s[..63] }

  /** Where a name is in the table; its length if nowhere. */
  function Find(files: seq<string>, name: string): (i: nat)
    ensures i <= |files| && (i < |files| <==> name in files)
    ensures i < |files| ==> files[i] == name
  {
    if files == [] then 0 else if files[0] == name then 0 else 1 + Find(files[1..], name)
  }

  /** The map with one more line. */
  function Added(m: LineMap, name: string, line: nat): LineMap {
    var i := Find(m.files, name);
    if |m.at| >= MAX_LM_LINES then m
    else if i < |m.files| then m.(at := m.at + [(i, line)])
    else if |m.files| >= MAX_LM_FILES then m.(at := m.at + [(0, line)])
    else LineMap(m.files + [Cut(name)], m.at + [(i, line)])
  }

  /** The map after this output. */
  function MapOf(out: seq<Emitted>): LineMap {
    if out == [] then LineMap([], [])
    else var last := out[|out| - 1]; Added(MapOf(out[..|out| - 1]), last.file, last.line)
  }

  /** Entry `k` gives this file and line. */
  predicate Gives(m: LineMap, k: nat, name: string, line: nat) {
    k < |m.at| && m.at[k].0 < |m.files| && m.files[m.at[k].0] == name && m.at[k].1 == line
  }

  /** A new entry gives its file and line exactly when there is room for it and the
      name is known or can be kept whole. */
  lemma AddedGives(m: LineMap, name: string, line: nat)
    requires |m.at| < MAX_LM_LINES
    ensures Gives(Added(m, name, line), |m.at|, name, line)
       <==> name in m.files || (|m.files| < MAX_LM_FILES && |name| <= 63)
  {
  }

  lemma AddedKeeps(m: LineMap, k: nat, name: string, line: nat, file: string, at: nat)
    requires Gives(m, k, file, at)
    ensures Gives(Added(m, name, line), k, file, at)
  {
  }

  /** Every short name of the output is in the table, unless the table is full. */
  lemma {:induction false} MapFiles(out: seq<Emitted>, names: set<string>)
    requires |out| <= MAX_LM_LINES && |names| <= MAX_LM_FILES
    requires forall e :: e in out ==> e.file in names && |e.file| <= 63
    ensures var m := MapOf(out);
            |m.at| == |out| && (forall i :: 0 <= i < |m.files| ==> m.files[i] in names) && Distinct(m.files)
  {
    if out != [] { MapFiles(out[..|out| - 1], names); }
  }

  predicate Distinct(s: seq<string>) { forall i, j :: 0 <= i < j < |s| ==> s[i] != s[j] }

  lemma {:induction false} RoomLeft(files: seq<string>, names: set<string>, name: string)
    requires Distinct(files) && (forall i :: 0 <= i < |files| ==> files[i] in names)
    requires name in names && name !in files
    ensures |files| < |names|
    decreases |files|
  {
    if files != [] {
      var last := files[|files| - 1];
      assert forall i :: 0 <= i < |files| - 1 ==> files[i] in names - {last};
      RoomLeft(files[..|files| - 1], names - {last}, name);
    }
  }

  /** With at most 24576 lines of output from at most 24 files whose names have at
      most 63 characters, the map gives each line its source file and line. */
  lemma {:induction false} MapGives(out: seq<Emitted>, names: set<string>, k: nat)
    requires |out| <= MAX_LM_LINES && |names| <= MAX_LM_FILES && k < |out|
    requires forall e :: e in out ==> e.file in names && |e.file| <= 63
    ensures Gives(MapOf(out), k, out[k].file, out[k].line)
    decreases |out|
  {
    hide Added, Gives, Distinct;
    var n, last := |out| - 1, out[|out| - 1];
    assert last in out;
    MapFiles(out[..n], names);
    var m := MapOf(out[..n]);
    if k < n {
      MapGives(out[..n], names, k);
      AddedKeeps(m, k, last.file, last.line, out[k].file, out[k].line);
    } else {
      if last.file !in m.files { RoomLeft(m.files, names, last.file); }
      AddedGives(m, last.file, last.line);
    }
  }

  /** A name of 64 characters is cut, so its own line is given another name. */
  lemma LongNameLost()
    ensures var name := seq(64, _ => 'a');
            !Gives(MapOf([Emitted("", name, 1)]), 0, name, 1)
  {
    var name := seq(64, _ => 'a');
    var out := [Emitted("", name, 1)];
    assert out[..0] == [] && MapOf([]) == LineMap([], []);
    AddedGives(LineMap([], []), name, 1);
  }

  /** Output from `n` files called "", "a", "aa" and so on. */
  function Many(n: nat): (out: seq<Emitted>)
    ensures |out| == n
  {
    seq(n, i requires 0 <= i < n => Emitted("", Letters(i), 1))
  }

  function Letters(n: nat): (s: string)
    ensures |s| == n
  {
    seq(n, _ => 'a')
  }

  ghost predicate Named(m: LineMap, n: nat) {
    |m.files| == n && |m.at| == n && forall i :: 0 <= i < n ==> m.files[i] == Letters(i)
  }

  lemma NamedNext(m: LineMap, n: nat)
    requires Named(m, n) && n < MAX_LM_FILES
    ensures Named(Added(m, Letters(n), 1), n + 1)
  {
    hide Letters;
    assert forall i :: 0 <= i < n ==> |m.files[i]| == i;
    assert Letters(n) !in m.files;
  }

  lemma {:induction false} ManyFiles(n: nat)
    requires n <= MAX_LM_FILES
    ensures Named(MapOf(Many(n)), n)
  {
    if n > 0 {
      ManyFiles(n - 1);
      assert Many(n)[..n - 1] == Many(n - 1);
      hide Letters, Added, Named;
      NamedNext(MapOf(Many(n - 1)), n - 1);
    }
  }

  /** The line from the 25th file is given the name of the first. */
  lemma TooManyFiles()
    ensures !Gives(MapOf(Many(25)), 24, Letters(24), 1)
  {
    ManyFiles(24);
    assert Many(25)[..24] == Many(24);
    var m := MapOf(Many(24));
    hide Letters;
    assert forall i :: 0 <= i < 24 ==> |m.files[i]| == i;
    AddedGives(m, Letters(24), 1);
  }

  // ----- the two arrays -----

  function StackOf(active: seq<bool>, taken: seq<bool>, n: nat): (s: seq<Open>)
    requires n <= |active| && n <= |taken|
    ensures |s| == n && forall i :: 0 <= i < n ==> s[i] == Open(active[i], taken[i])
  {
    seq(n, i requires 0 <= i < n => Open(active[i], taken[i]))
  }

  lemma StackActive(active: seq<bool>, taken: seq<bool>, n: nat)
    requires n <= |active| && n <= |taken|
    ensures AllActive(StackOf(active, taken, n)) <==> forall i :: 0 <= i < n ==> active[i]
  {
    var stack := StackOf(active, taken, n);
    if AllActive(stack) {
      forall i | 0 <= i < n ensures active[i] { assert stack[i].active; }
    }
  }

  lemma StackTop(active: seq<bool>, taken: seq<bool>, n: nat)
    requires 0 < n <= |active| && n <= |taken|
    ensures var stack := StackOf(active, taken, n);
            stack[..n - 1] == StackOf(active, taken, n - 1) && stack[n - 1] == Open(active[n - 1], taken[n - 1])
            && stack == StackOf(active, taken, n - 1) + [Open(active[n - 1], taken[n - 1])]
  {
  }

  lemma StackSame(a: seq<bool>, t: seq<bool>, b: seq<bool>, u: seq<bool>, n: nat)
    requires n <= |a| && n <= |t| && n <= |b| && n <= |u|
    requires forall i :: 0 <= i < n ==> a[i] == b[i] && t[i] == u[i]
    ensures StackOf(a, t, n) == StackOf(b, u, n)
  {
  }

  /** Are the first `n` levels all active? */
  method Active(a: array<bool>, n: nat) returns (ok: bool)
    requires n <= a.Length
    ensures ok <==> forall i :: 0 <= i < n ==> a[i]
  {
    for i := 0 to n
      invariant forall j :: 0 <= j < i ==> a[j]
    {
      if !a[i] { return false; }
    }
    ok := true;
  }

  /** A conditional line; false where the source would write past its sixteenth
      level. */
  method Conditional<T>(sys: Sys<T>, table: T, active: array<bool>, taken: array<bool>, n: nat, l: Line) returns (m: nat, ok: bool)
    requires active != taken && active.Length == MAX_NEST && taken.Length == MAX_NEST && n <= MAX_NEST && !Plain(l)
    modifies active, taken
    ensures m <= MAX_NEST && (ok <==> (l.If? ==> n < MAX_NEST))
    ensures ok ==> StackOf(active[..], taken[..], m) == OnLine(sys, old(StackOf(active[..], taken[..], n)), l, table)
  {
    hide AllActive, OnLine, StackOf;
    m, ok := n, true;
    ghost var a0, t0 := active[..], taken[..];
    if l.If? {
      if n == MAX_NEST { return m, false; }
      var on := Active(active, n);
      var val := sys.holds(table, l.cond);
      active[n], taken[n] := on && val, val;
      m := n + 1;
      IfDone(sys, table, a0, t0, active[..], taken[..], n, l.cond);
    } else if n == 0 {
      NoneDone(sys, table, a0, t0, l);
    } else if l.Endif? {
      m := n - 1;
      EndifDone(sys, table, a0, t0, n);
    } else {
      Innermost(sys, table, active, taken, n, l);
      InnermostDone(sys, table, a0, t0, active[..], taken[..], n, l);
    }
  }

  lemma IfDone<T>(sys: Sys<T>, table: T, a0: seq<bool>, t0: seq<bool>, a: seq<bool>, t: seq<bool>, n: nat, c: string)
    requires n < MAX_NEST && n < |a0| && n < |t0| && n < |a| && n < |t|
    requires forall i :: 0 <= i < n ==> a[i] == a0[i] && t[i] == t0[i]
    requires t[n] == sys.holds(table, c) && a[n] == (t[n] && forall i :: 0 <= i < n ==> a0[i])
    ensures StackOf(a, t, n + 1) == OnLine(sys, StackOf(a0, t0, n), If(c), table)
  {
    hide AllActive, OnLine;
    StackActive(a0, t0, n);
    OnIf(sys, StackOf(a0, t0, n), c, table);
    StackSame(a0, t0, a, t, n);
    StackTop(a, t, n + 1);
  }

  lemma NoneDone<T>(sys: Sys<T>, table: T, a: seq<bool>, t: seq<bool>, l: Line)
    requires l.Elif? || l.Else? || l.Endif?
    ensures StackOf(a, t, 0) == OnLine(sys, StackOf(a, t, 0), l, table)
  {
    OnEmpty(sys, l, table);
  }

  lemma EndifDone<T>(sys: Sys<T>, table: T, a: seq<bool>, t: seq<bool>, n: nat)
    requires 0 < n <= |a| && n <= |t|
    ensures StackOf(a, t, n - 1) == OnLine(sys, StackOf(a, t, n), Endif, table)
  {
    hide AllActive, OnLine;
    StackTop(a, t, n);
    OnTop(sys, StackOf(a, t, n - 1), Open(a[n - 1], t[n - 1]), Endif, table);
  }

  lemma InnermostDone<T>(sys: Sys<T>, table: T, a0: seq<bool>, t0: seq<bool>, a: seq<bool>, t: seq<bool>, n: nat, l: Line)
    requires 0 < n <= |a0| && |t0| == |a| == |t| == |a0| && (l.Elif? || l.Else?)
    requires forall i :: 0 <= i < n - 1 ==> a[i] == a0[i] && t[i] == t0[i]
    requires t[n - 1] == (t0[n - 1] || l.Else? || sys.holds(table, l.cond))
    requires a[n - 1] == (!t0[n - 1] && (l.Else? || sys.holds(table, l.cond)) && forall i :: 0 <= i < n - 1 ==> a0[i])
    ensures StackOf(a, t, n) == OnLine(sys, StackOf(a0, t0, n), l, table)
  {
    hide AllActive, OnLine;
    StackTop(a0, t0, n);
    StackTop(a, t, n);
    StackActive(a0, t0, n - 1);
    StackSame(a0, t0, a, t, n - 1);
    OnTop(sys, StackOf(a0, t0, n - 1), Open(a0[n - 1], t0[n - 1]), l, table);
  }

  /** `#elif` and `#else` on the innermost level. */
  method Innermost<T>(sys: Sys<T>, table: T, active: array<bool>, taken: array<bool>, n: nat, l: Line)
    requires active != taken && active.Length == taken.Length && 0 < n <= active.Length && (l.Elif? || l.Else?)
    modifies active, taken
    ensures forall i :: 0 <= i < active.Length && i != n - 1 ==> active[i] == old(active[i]) && taken[i] == old(taken[i])
    ensures taken[n - 1] == (old(taken[n - 1]) || l.Else? || sys.holds(table, l.cond))
    ensures active[n - 1] == (!old(taken[n - 1]) && (l.Else? || sys.holds(table, l.cond)) && forall i :: 0 <= i < n - 1 ==> old(active[i]))
  {
    var up := Active(active, n - 1);
    if taken[n - 1] {
      active[n - 1] := false;
    } else if l.Elif? {
      var val := sys.holds(table, l.cond);
      active[n - 1] := up && val;
      if val { taken[n - 1] := true; }
    } else {
      active[n - 1], taken[n - 1] := up, true;
    }
  }

  lemma OnIf<T>(sys: Sys<T>, stack: seq<Open>, c: string, table: T)
    requires |stack| < MAX_NEST
    ensures OnLine(sys, stack, If(c), table) == stack + [Open(AllActive(stack) && sys.holds(table, c), sys.holds(table, c))]
  {
  }

  lemma OnEmpty<T>(sys: Sys<T>, l: Line, table: T)
    requires l.Elif? || l.Else? || l.Endif?
    ensures OnLine(sys, [], l, table) == []
  {
  }

  // ----- the whole -----

  class Preproc<T(!new)> {
    const sys: Sys<T>
    var table: T
    var out: seq<Emitted>
    var lines: LineMap

    constructor (sys: Sys<T>, table: T)
      ensures this.sys == sys && View() == State(table, []) && lines == MapOf(out)
    {
      this.sys, this.table, this.out, this.lines := sys, table, [], LineMap([], []);
    }

    function View(): State<T>
      reads this
    {
      State(table, out)
    }

    method AddLine(name: string, line: nat)
      modifies this`lines
      ensures lines == Added(old(lines), name, line)
    {
      if |lines.at| >= MAX_LM_LINES { return; }
      var i := 0;
      while i < |lines.files| && lines.files[i] != name
        invariant i <= |lines.files| && Find(lines.files, name) == i + Find(lines.files[i..], name)
      {
        i := i + 1;
      }
      var files := lines.files;
      if i == |files| {
        if |files| >= MAX_LM_FILES { i := 0; } else { files := files + [Cut(name)]; }
      }
      lines := LineMap(files, lines.at + [(i, line)]);
    }

    /** One file.  False where an include fails, or where the source would write
        past its sixteenth level. */
    method ProcessFile(file: string, ls: seq<Line>, depth: nat) returns (ok: bool)
      requires depth < MAX_DEPTH && lines == MapOf(out)
      modifies this
      ensures lines == MapOf(out)
      ensures ok == Process(sys, file, ls, 1, [], depth, old(View())).Some?
      ensures ok ==> Process(sys, file, ls, 1, [], depth, old(View())) == Some(View())
      decreases MAX_DEPTH - depth, 1
    {
      hide Process, ProcessLine, OnLine, AllActive, MapOf;
      var active, taken := new bool[MAX_NEST](_ => false), new bool[MAX_NEST](_ => false);
      var n: nat := 0;
      ghost var whole := Process(sys, file, ls, 1, [], depth, View());
      assert ls[0..] == ls;
      for k := 0 to |ls|
        invariant fresh(active) && fresh(taken) && active != taken && active.Length == MAX_NEST && taken.Length == MAX_NEST && n <= MAX_NEST
        invariant lines == MapOf(out)
        invariant Process(sys, file, ls[k..], k + 1, StackOf(active[..], taken[..], n), depth, View()) == whole
      {
        ghost var stack := StackOf(active[..], taken[..], n);
        assert ls[k..] == [ls[k]] + ls[k + 1..];
        var l := ls[k];
        if Plain(l) {
          NextPlain(sys, file, l, ls[k + 1..], k + 1, stack, depth, View());
          var on := Active(active, n);
          StackActive(active[..], taken[..], n);
          if on {
            ok := DoLine(file, l, k + 1, depth);
            if !ok { return; }
          }
        } else {
          if !l.If? || n < MAX_NEST {
            Next(sys, file, l, ls[k + 1..], k + 1, stack, depth, View());
          } else {
            TooDeep(sys, file, ls[k + 1..], l.cond, k + 1, stack, depth, View());
          }
          n, ok := Conditional(sys, table, active, taken, n, l);
          if !ok { return; }
        }
      }
      AtEnd(sys, file, |ls| + 1, StackOf(active[..], taken[..], n), depth, View());
      ok := true;
    }

    /** A line of an active group. */
    method DoLine(file: string, l: Line, line: nat, depth: nat) returns (ok: bool)
      requires depth < MAX_DEPTH && Plain(l) && lines == MapOf(out)
      modifies this
      ensures lines == MapOf(out)
      ensures ok == ProcessLine(sys, file, l, line, depth, old(View())).Some?
      ensures ok ==> ProcessLine(sys, file, l, line, depth, old(View())) == Some(View())
      decreases MAX_DEPTH - depth, 0
    {
      hide Process, Flat;
      ok := true;
      match l
      case Text(t) =>
        var e := Emitted(sys.expand(table, t, file, line), file, line);
        ghost var was := out;
        out := out + [e];
        AddLine(file, line);
        assert out[..|out| - 1] == was;
      case Define(d) => table := sys.define(table, d);
      case Undef(n) => table := sys.undef(table, n);
      case Include(n) =>
        if depth + 1 >= MAX_DEPTH { return false; }
        var f := sys.load(n, file);
        if f.None? { return false; }
        ok := ProcessFile(f.value.0, Flat(f.value.1), depth + 1);
      case Other =>
    }
  }

  lemma TooDeep<T>(sys: Sys<T>, file: string, tl: seq<Line>, c: string, line: nat, stack: seq<Open>, depth: nat, st: State<T>)
    requires |stack| >= MAX_NEST
    ensures Process(sys, file, [If(c)] + tl, line, stack, depth, st) == None
  {
  }

  lemma AtEnd<T>(sys: Sys<T>, file: string, line: nat, stack: seq<Open>, depth: nat, st: State<T>)
    ensures Process(sys, file, [], line, stack, depth, st) == Some(st)
  {
  }
}
