/** Conditional inclusion: the preprocessor's two-array stack against the nested
    groups of section 6.10.1 of ISO C11.

    Evaluating a condition, expanding text and changing the macro table are left
    open: the results hold whatever they do.
 */
module PpCond {
  import opened Options

  const MAX_NEST := 16
  const MAX_DEPTH := 9

  /** One source line.  If covers `#if`, `#ifdef` and `#ifndef`. */
  datatype Line =
    | Text(text: string) | Define(def: string) | Undef(name: string) | Include(name: string) | Other
    | If(cond: string) | Elif(cond: string) | Else | Endif

  /** A well nested file: lines and whole conditional sections. */
  datatype Node = Leaf(line: Line) | Section(cond: string, group: seq<Node>, rest: Tail)
  datatype Tail = End | ElseGroup(group: seq<Node>) | ElifGroup(cond: string, group: seq<Node>, rest: Tail)

  /** A line of output and where it came from. */
  datatype Emitted = Emitted(text: string, file: string, line: nat)

  /** Macro table and output so far. */
  datatype State<T> = State(table: T, out: seq<Emitted>)

  /** What is left open.  `load` finds a file seen from another: its path and
      contents. */
  datatype Sys<!T> = Sys(holds: (T, string) -> bool, expand: (T, string, string, nat) -> string,
                         define: (T, string) -> T, undef: (T, string) -> T,
                         load: (string, string) -> Option<(string, seq<Node>)>)

  predicate Plain(l: Line) { l.Text? || l.Define? || l.Undef? || l.Include? || l.Other? }

  // ----- from trees to lines -----

  function FlatNode(n: Node): (r: seq<Line>)
    ensures |r| >= 1
    decreases n
  {
    match n
    case Leaf(l) => [l]
    case Section(c, g, t) => [If(c)] + Flat(g) + FlatTail(t)
  }

  function Flat(ns: seq<Node>): seq<Line>
    decreases ns
  {
    if ns == [] then [] else FlatNode(ns[0]) + Flat(ns[1..])
  }

  function FlatTail(t: Tail): (r: seq<Line>)
    ensures |r| >= 1
    decreases t
  {
    match t
    case End => [Endif]
    case ElseGroup(g) => [Else] + Flat(g) + [Endif]
    case ElifGroup(c, g, u) => [Elif(c)] + Flat(g) + FlatTail(u)
  }

  /** Leaves are no conditional lines. */
  predicate WellFormed(ns: seq<Node>)
    decreases ns
  {
    ns == [] || (WellNode(ns[0]) && WellFormed(ns[1..]))
  }

  predicate WellNode(n: Node)
    decreases n
  {
    match n case Leaf(l) => Plain(l) case Section(_, g, t) => WellFormed(g) && WellTail(t)
  }

  predicate WellTail(t: Tail)
    decreases t
  {
    match t case End => true case ElseGroup(g) => WellFormed(g) case ElifGroup(_, g, u) => WellFormed(g) && WellTail(u)
  }

  /** Nesting depth. */
  function Depth(ns: seq<Node>): nat
    decreases ns
  {
    if ns == [] then 0 else Max(NodeDepth(ns[0]), Depth(ns[1..]))
  }

  function NodeDepth(n: Node): nat
    decreases n
  {
    match n case Leaf(_) => 0 case Section(_, g, t) => 1 + Max(Depth(g), TailDepth(t))
  }

  function TailDepth(t: Tail): nat
    decreases t
  {
    match t case End => 0 case ElseGroup(g) => Depth(g) case ElifGroup(_, g, u) => Max(Depth(g), TailDepth(u))
  }

  function Max(a: nat, b: nat): nat { if a > b then a else b }

  /** Every file the includes can reach is well formed and nested at most 16 deep. */
  ghost predicate FilesOk<T(!new)>(sys: Sys<T>) {
    forall name, from :: sys.load(name, from).Some? ==>
      WellFormed(sys.load(name, from).value.1) && Depth(sys.load(name, from).value.1) <= MAX_NEST
  }

  // ----- what the standard asks for -----

  /** The lines of the selected groups, in order; None when an include fails. */
  function Select<T>(sys: Sys<T>, file: string, ns: seq<Node>, line: nat, depth: nat, st: State<T>): Option<State<T>>
    decreases MAX_DEPTH - depth, ns, 2
  {
    if ns == [] then Some(st)
    else
      match SelectNode(sys, file, ns[0], line, depth, st)
      case None => None
      case Some(t) => Select(sys, file, ns[1..], line + |FlatNode(ns[0])|, depth, t)
  }

  function SelectNode<T>(sys: Sys<T>, file: string, n: Node, line: nat, depth: nat, st: State<T>): Option<State<T>>
    decreases MAX_DEPTH - depth, n, 1
  {
    match n
    case Leaf(l) => SelectLine(sys, file, l, line, depth, st)
    case Section(c, g, t) =>
      if sys.holds(st.table, c) then Select(sys, file, g, line + 1, depth, st)
      else SelectTail(sys, file, t, line + 1 + |Flat(g)|, depth, st)
  }

  /** No group has been selected yet. */
  function SelectTail<T>(sys: Sys<T>, file: string, t: Tail, line: nat, depth: nat, st: State<T>): Option<State<T>>
    decreases MAX_DEPTH - depth, t, 1
  {
    match t
    case End => Some(st)
    case ElseGroup(g) => Select(sys, file, g, line + 1, depth, st)
    case ElifGroup(c, g, u) =>
      if sys.holds(st.table, c) then Select(sys, file, g, line + 1, depth, st)
      else SelectTail(sys, file, u, line + 1 + |Flat(g)|, depth, st)
  }

  function SelectLine<T>(sys: Sys<T>, file: string, l: Line, line: nat, depth: nat, st: State<T>): Option<State<T>>
    decreases MAX_DEPTH - depth, l, 0
  {
    match l
    case Text(t) => Some(st.(out := st.out + [Emitted(sys.expand(st.table, t, file, line), file, line)]))
    case Define(d) => Some(st.(table := sys.define(st.table, d)))
    case Undef(n) => Some(st.(table := sys.undef(st.table, n)))
    case Include(n) =>
      if depth + 1 >= MAX_DEPTH then None
      else
        (match sys.load(n, file)
         case None => None
         case Some(f) => Select(sys, f.0, f.1, 1, depth + 1, st))
    case _ => Some(st)
  }

  // ----- what the preprocessor does -----

  /** One open conditional: is its current group active, has any been taken. */
  datatype Open = Open(active: bool, taken: bool)

  predicate AllActive(stack: seq<Open>) { forall i :: 0 <= i < |stack| ==> stack[i].active }

  /** The stack after a conditional line; None past the sixteenth level. */
  function Push<T>(sys: Sys<T>, stack: seq<Open>, c: string, table: T): Option<seq<Open>> {
    if |stack| >= MAX_NEST then None
    else Some(stack + [Open(AllActive(stack) && sys.holds(table, c), sys.holds(table, c))])
  }

  function OnElif<T>(sys: Sys<T>, stack: seq<Open>, c: string, table: T): seq<Open> {
    if stack == [] then stack
    else
      var up, top := stack[..|stack| - 1], stack[|stack| - 1];
      if top.taken then up + [Open(false, true)]
      else up + [Open(AllActive(up) && sys.holds(table, c), sys.holds(table, c))]
  }

  function OnElse(stack: seq<Open>): seq<Open> {
    if stack == [] then stack
    else
      var up, top := stack[..|stack| - 1], stack[|stack| - 1];
      up + [Open(!top.taken && AllActive(up), true)]
  }

  function OnEndif(stack: seq<Open>): seq<Open> { if stack == [] then stack else stack[..|stack| - 1] }

  /** The stack after a conditional line that fits in it. */
  function OnLine<T>(sys: Sys<T>, stack: seq<Open>, l: Line, table: T): seq<Open>
    requires !Plain(l) && (l.If? ==> |stack| < MAX_NEST)
  {
    match l
    case If(c) => Push(sys, stack, c, table).value
    case Elif(c) => OnElif(sys, stack, c, table)
    case Else => OnElse(stack)
    case _ => OnEndif(stack)
  }

  /** `pp_process`, line by line. */
  function Process<T>(sys: Sys<T>, file: string, ls: seq<Line>, line: nat, stack: seq<Open>, depth: nat, st: State<T>): Option<State<T>>
    decreases MAX_DEPTH - depth, |ls|, 1
  {
    if ls == [] then Some(st)
    else
      var rest := ls[1..];
      match ls[0]
      case If(c) =>
        (match Push(sys, stack, c, st.table) case None => None case Some(s) => Process(sys, file, rest, line + 1, s, depth, st))
      case Elif(c) => Process(sys, file, rest, line + 1, OnElif(sys, stack, c, st.table), depth, st)
      case Else => Process(sys, file, rest, line + 1, OnElse(stack), depth, st)
      case Endif => Process(sys, file, rest, line + 1, OnEndif(stack), depth, st)
      case l =>
        if !AllActive(stack) then Process(sys, file, rest, line + 1, stack, depth, st)
        else
          match ProcessLine(sys, file, l, line, depth, st)
          case None => None
          case Some(t) => Process(sys, file, rest, line + 1, stack, depth, t)
  }

  function ProcessLine<T>(sys: Sys<T>, file: string, l: Line, line: nat, depth: nat, st: State<T>): Option<State<T>>
    decreases MAX_DEPTH - depth, 0, 0
  {
    match l
    case Text(t) => Some(st.(out := st.out + [Emitted(sys.expand(st.table, t, file, line), file, line)]))
    case Define(d) => Some(st.(table := sys.define(st.table, d)))
    case Undef(n) => Some(st.(table := sys.undef(st.table, n)))
    case Include(n) =>
      if depth + 1 >= MAX_DEPTH then None
      else
        (match sys.load(n, file)
         case None => None
         case Some(f) => Process(sys, f.0, Flat(f.1), 1, [], depth + 1, st))
    case _ => Some(st)
  }

  // ----- the two agree -----

  lemma PopAdded(stack: seq<Open>, o: Open)
    ensures (stack + [o])[..|stack|] == stack && (stack + [o])[|stack|] == o
    ensures AllActive(stack + [o]) <==> AllActive(stack) && o.active
  {
    assert forall i :: 0 <= i < |stack| ==> (stack + [o])[i] == stack[i];
    if AllActive(stack + [o]) {
      assert (stack + [o])[|stack|].active;
      forall i | 0 <= i < |stack| ensures stack[i].active { assert (stack + [o])[i].active; }
    }
  }

  /** What a conditional line other than `#if` does to the innermost level. */
  lemma OnTop<T>(sys: Sys<T>, up: seq<Open>, o: Open, l: Line, table: T)
    requires l.Elif? || l.Else? || l.Endif?
    ensures OnLine(sys, up + [o], l, table)
         == if l.Endif? then up
            else if o.taken then up + [Open(false, true)]
            else if l.Else? then up + [Open(AllActive(up), true)]
            else up + [Open(AllActive(up) && sys.holds(table, l.cond), sys.holds(table, l.cond))]
  {
    hide AllActive;
    var stack := up + [o];
    assert stack[..|stack| - 1] == up && stack[|stack| - 1] == o;
  }

  /** One conditional line processed. */
  lemma Next<T>(sys: Sys<T>, file: string, l: Line, tl: seq<Line>, line: nat, stack: seq<Open>, depth: nat, st: State<T>)
    requires !Plain(l) && (l.If? ==> |stack| < MAX_NEST)
    ensures Process(sys, file, [l] + tl, line, stack, depth, st)
         == Process(sys, file, tl, line + 1, OnLine(sys, stack, l, st.table), depth, st)
  {
    assert ([l] + tl)[1..] == tl;
  }

  lemma NextPlain<T>(sys: Sys<T>, file: string, l: Line, tl: seq<Line>, line: nat, stack: seq<Open>, depth: nat, st: State<T>)
    requires Plain(l)
    ensures Process(sys, file, [l] + tl, line, stack, depth, st)
         == if !AllActive(stack) then Process(sys, file, tl, line + 1, stack, depth, st)
            else Then(sys, file, ProcessLine(sys, file, l, line, depth, st), tl, line + 1, stack, depth)
  {
    assert ([l] + tl)[1..] == tl;
    hide ProcessLine;
  }

  /** What comes after a part that was processed with this outcome. */
  function Then<T>(sys: Sys<T>, file: string, r: Option<State<T>>, rest: seq<Line>, line: nat, stack: seq<Open>, depth: nat): Option<State<T>> {
    match r case None => None case Some(t) => Process(sys, file, rest, line, stack, depth, t)
  }

  lemma FlatAssoc(a: seq<Line>, b: seq<Line>, c: seq<Line>)
    ensures a + b + c == a + (b + c)
  {
  }

  /** Lines under an inactive group change nothing. */
  lemma {:induction false} Skipped<T>(sys: Sys<T>, file: string, ns: seq<Node>, rest: seq<Line>, line: nat, stack: seq<Open>, depth: nat, st: State<T>)
    requires WellFormed(ns) && !AllActive(stack) && |stack| + Depth(ns) <= MAX_NEST
    ensures Process(sys, file, Flat(ns) + rest, line, stack, depth, st) == Process(sys, file, rest, line + |Flat(ns)|, stack, depth, st)
    decreases ns, 2
  {
    hide Process;
    if ns == [] {
      assert Flat(ns) + rest == rest;
    } else {
      FlatAssoc(FlatNode(ns[0]), Flat(ns[1..]), rest);
      SkippedNode(sys, file, ns[0], Flat(ns[1..]) + rest, line, stack, depth, st);
      Skipped(sys, file, ns[1..], rest, line + |FlatNode(ns[0])|, stack, depth, st);
    }
  }

  lemma {:induction false} SkippedNode<T>(sys: Sys<T>, file: string, n: Node, rest: seq<Line>, line: nat, stack: seq<Open>, depth: nat, st: State<T>)
    requires WellNode(n) && !AllActive(stack) && |stack| + NodeDepth(n) <= MAX_NEST
    ensures Process(sys, file, FlatNode(n) + rest, line, stack, depth, st) == Process(sys, file, rest, line + |FlatNode(n)|, stack, depth, st)
    decreases n, 1
  {
    hide Process, AllActive;
    match n
    case Leaf(l) => NextPlain(sys, file, l, rest, line, stack, depth, st);
    case Section(c, g, t) =>
      var o := Open(false, sys.holds(st.table, c));
      assert FlatNode(n) + rest == [If(c)] + (Flat(g) + (FlatTail(t) + rest));
      Next(sys, file, If(c), Flat(g) + (FlatTail(t) + rest), line, stack, depth, st);
      PopAdded(stack, o);
      Skipped(sys, file, g, FlatTail(t) + rest, line + 1, stack + [o], depth, st);
      SkippedTail(sys, file, t, rest, line + 1 + |Flat(g)|, stack, o, depth, st);
  }

  /** The rest of a section none of whose groups can be selected any more. */
  lemma {:induction false} SkippedTail<T>(sys: Sys<T>, file: string, t: Tail, rest: seq<Line>, line: nat, stack: seq<Open>, o: Open, depth: nat, st: State<T>)
    requires WellTail(t) && (o.taken || !AllActive(stack)) && |stack| + 1 + TailDepth(t) <= MAX_NEST
    ensures Process(sys, file, FlatTail(t) + rest, line, stack + [o], depth, st) == Process(sys, file, rest, line + |FlatTail(t)|, stack, depth, st)
    decreases t, 1
  {
    hide Process, AllActive, OnLine;
    PopAdded(stack, o);
    match t
    case End =>
      OnTop(sys, stack, o, Endif, st.table);
      Next(sys, file, Endif, rest, line, stack + [o], depth, st);
    case ElseGroup(g) =>
      var p := Open(false, true);
      assert FlatTail(t) + rest == [Else] + (Flat(g) + ([Endif] + rest));
      Next(sys, file, Else, Flat(g) + ([Endif] + rest), line, stack + [o], depth, st);
      OnTop(sys, stack, o, Else, st.table);
      PopAdded(stack, p);
      Skipped(sys, file, g, [Endif] + rest, line + 1, stack + [p], depth, st);
      OnTop(sys, stack, p, Endif, st.table);
      Next(sys, file, Endif, rest, line + 1 + |Flat(g)|, stack + [p], depth, st);
    case ElifGroup(c, g, u) =>
      var p := if o.taken then Open(false, true) else Open(false, sys.holds(st.table, c));
      assert FlatTail(t) + rest == [Elif(c)] + (Flat(g) + (FlatTail(u) + rest));
      Next(sys, file, Elif(c), Flat(g) + (FlatTail(u) + rest), line, stack + [o], depth, st);
      OnTop(sys, stack, o, Elif(c), st.table);
      PopAdded(stack, p);
      Skipped(sys, file, g, FlatTail(u) + rest, line + 1, stack + [p], depth, st);
      SkippedTail(sys, file, u, rest, line + 1 + |Flat(g)|, stack, p, depth, st);
  }

  /** Under active groups the stack does what the tree asks for. */
  lemma {:induction false} Selected<T(!new)>(sys: Sys<T>, file: string, ns: seq<Node>, rest: seq<Line>, line: nat, stack: seq<Open>, depth: nat, st: State<T>)
    requires FilesOk(sys) && WellFormed(ns) && AllActive(stack) && |stack| + Depth(ns) <= MAX_NEST
    ensures Process(sys, file, Flat(ns) + rest, line, stack, depth, st)
         == Then(sys, file, Select(sys, file, ns, line, depth, st), rest, line + |Flat(ns)|, stack, depth)
    decreases MAX_DEPTH - depth, |Flat(ns)|, 2
  {
    hide Process, FilesOk;
    if ns == [] {
      assert Flat(ns) + rest == rest;
    } else {
      FlatAssoc(FlatNode(ns[0]), Flat(ns[1..]), rest);
      SelectedNode(sys, file, ns[0], Flat(ns[1..]) + rest, line, stack, depth, st);
      var r := SelectNode(sys, file, ns[0], line, depth, st);
      if r.Some? { Selected(sys, file, ns[1..], rest, line + |FlatNode(ns[0])|, stack, depth, r.value); }
    }
  }

  lemma {:induction false} SelectedNode<T(!new)>(sys: Sys<T>, file: string, n: Node, rest: seq<Line>, line: nat, stack: seq<Open>, depth: nat, st: State<T>)
    requires FilesOk(sys) && WellNode(n) && AllActive(stack) && |stack| + NodeDepth(n) <= MAX_NEST
    ensures Process(sys, file, FlatNode(n) + rest, line, stack, depth, st)
         == Then(sys, file, SelectNode(sys, file, n, line, depth, st), rest, line + |FlatNode(n)|, stack, depth)
    decreases MAX_DEPTH - depth, |FlatNode(n)|, 1
  {
    hide Process, AllActive, FilesOk;
    match n
    case Leaf(l) =>
      NextPlain(sys, file, l, rest, line, stack, depth, st);
      SelectedLine(sys, file, l, line, depth, st);
    case Section(c, g, t) =>
      var h := sys.holds(st.table, c);
      var o := Open(h, h);
      assert FlatNode(n) + rest == [If(c)] + (Flat(g) + (FlatTail(t) + rest));
      Next(sys, file, If(c), Flat(g) + (FlatTail(t) + rest), line, stack, depth, st);
      GroupThenTail(sys, file, g, t, rest, line + 1, stack, o, depth, st);
  }

  /** A group that is or is not selected, and the rest of its section. */
  lemma {:induction false} GroupThenTail<T(!new)>(sys: Sys<T>, file: string, g: seq<Node>, t: Tail, rest: seq<Line>, line: nat, stack: seq<Open>, o: Open, depth: nat, st: State<T>)
    requires FilesOk(sys) && WellFormed(g) && WellTail(t) && AllActive(stack) && o.active == o.taken
    requires |stack| + 1 + Depth(g) <= MAX_NEST && |stack| + 1 + TailDepth(t) <= MAX_NEST
    ensures Process(sys, file, Flat(g) + (FlatTail(t) + rest), line, stack + [o], depth, st)
         == Then(sys, file, if o.active then Select(sys, file, g, line, depth, st) else SelectTail(sys, file, t, line + |Flat(g)|, depth, st),
                 rest, line + |Flat(g)| + |FlatTail(t)|, stack, depth)
    decreases MAX_DEPTH - depth, |Flat(g)| + |FlatTail(t)|, 3
  {
    hide Process, FilesOk, AllActive, Select, SelectTail;
    PopAdded(stack, o);
    if o.active {
      Selected(sys, file, g, FlatTail(t) + rest, line, stack + [o], depth, st);
      var r := Select(sys, file, g, line, depth, st);
      if r.Some? { SkippedTail(sys, file, t, rest, line + |Flat(g)|, stack, o, depth, r.value); }
    } else {
      Skipped(sys, file, g, FlatTail(t) + rest, line, stack + [o], depth, st);
      SelectedTail(sys, file, t, rest, line + |Flat(g)|, stack, o, depth, st);
    }
  }

  /** The rest of a section with no group selected so far. */
  lemma {:induction false} SelectedTail<T(!new)>(sys: Sys<T>, file: string, t: Tail, rest: seq<Line>, line: nat, stack: seq<Open>, o: Open, depth: nat, st: State<T>)
    requires FilesOk(sys) && WellTail(t) && AllActive(stack) && !o.taken && |stack| + 1 + TailDepth(t) <= MAX_NEST
    ensures Process(sys, file, FlatTail(t) + rest, line, stack + [o], depth, st)
         == Then(sys, file, SelectTail(sys, file, t, line, depth, st), rest, line + |FlatTail(t)|, stack, depth)
    decreases MAX_DEPTH - depth, |FlatTail(t)|, 2
  {
    hide Process, AllActive, FilesOk, OnLine;
    PopAdded(stack, o);
    match t
    case End =>
      OnTop(sys, stack, o, Endif, st.table);
      Next(sys, file, Endif, rest, line, stack + [o], depth, st);
    case ElseGroup(g) =>
      assert FlatTail(t) + rest == [Else] + (Flat(g) + (FlatTail(End) + rest));
      OnTop(sys, stack, o, Else, st.table);
      Next(sys, file, Else, Flat(g) + (FlatTail(End) + rest), line, stack + [o], depth, st);
      GroupThenTail(sys, file, g, End, rest, line + 1, stack, Open(true, true), depth, st);
    case ElifGroup(c, g, u) =>
      var h := sys.holds(st.table, c);
      assert FlatTail(t) + rest == [Elif(c)] + (Flat(g) + (FlatTail(u) + rest));
      OnTop(sys, stack, o, Elif(c), st.table);
      Next(sys, file, Elif(c), Flat(g) + (FlatTail(u) + rest), line, stack + [o], depth, st);
      GroupThenTail(sys, file, g, u, rest, line + 1, stack, Open(h, h), depth, st);
  }

  lemma {:induction false} SelectedLine<T(!new)>(sys: Sys<T>, file: string, l: Line, line: nat, depth: nat, st: State<T>)
    requires FilesOk(sys) && Plain(l)
    ensures ProcessLine(sys, file, l, line, depth, st) == SelectLine(sys, file, l, line, depth, st)
    decreases MAX_DEPTH - depth, 0, 0
  {
    if l.Include? && depth + 1 < MAX_DEPTH && sys.load(l.name, file).Some? {
      var f := sys.load(l.name, file).value;
      assert WellFormed(f.1) && Depth(f.1) <= MAX_NEST;
      Selected(sys, f.0, f.1, [], 1, [], depth + 1, st);
      assert Flat(f.1) + [] == Flat(f.1);
    }
  }

  /** For every well nested file at most 16 deep, across includes: the stack emits
      and defines from exactly the lines the nested groups select, and every
      emitted line carries the file and line it came from. */
  lemma SelectsRightGroups<T(!new)>(sys: Sys<T>, file: string, ns: seq<Node>, st: State<T>)
    requires FilesOk(sys) && WellFormed(ns) && Depth(ns) <= MAX_NEST
    ensures Process(sys, file, Flat(ns), 1, [], 0, st) == Select(sys, file, ns, 1, 0, st)
  {
    Selected(sys, file, ns, [], 1, [], 0, st);
    assert Flat(ns) + [] == Flat(ns);
  }
}
