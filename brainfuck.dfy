/**
 * The target machine.  The generators only ever emit text over the
 * alphabet `> < + - [ ] . #`; this module gives that text a meaning.
 * A program is a tree of instructions (`Prog`); `Show` prints it as the
 * characters the generators append, `Parse` reads such text back, and
 * `Exec` runs a program on a tape of 8-bit wrap-around cells.  Loops are
 * bounded by fuel: every entry into a loop may iterate at most `fuel`
 * times, so that `Exec` is a total function; all lemmas about emitted
 * fragments use fuel of at least 256, which is enough for every loop whose
 * counter is a single byte.
 */
module Brainfuck {
  import opened Wrappers

  /** The content of one tape cell. */
  type Byte = x: int | 0 <= x < 256

  /** `#` is the non-standard "dump state" command, a no-op on the tape. */
  datatype Instr = Right | Left | Inc | Dec | Out | Dump | Loop(body: seq<Instr>)

  type Prog = seq<Instr>

  // ---------------------------------------------------------------------
  // Text

  /** The character of a loop-free instruction. */
  function Symbol(i: Instr): char
    requires !i.Loop?
  {
    match i
    case Right => '>'
    case Left => '<'
    case Inc => '+'
    case Dec => '-'
    case Out => '.'
    case Dump => '#'
  }

  function Show(p: Prog): seq<char>
  {
    if p == [] then [] else ShowOne(p[0]) + Show(p[1..])
  }

  function ShowOne(i: Instr): seq<char>
  {
    if i.Loop? then "[" + Show(i.body) + "]" else [Symbol(i)]
  }

  /** Concatenation regroups; stated once so that proofs can name the step. */
  lemma AppendAssoc<T>(a: seq<T>, b: seq<T>, c: seq<T>)
    ensures a + b + c == a + (b + c)
  {
  }

  lemma AppendAssoc3<T>(x: seq<T>, a: seq<T>, b: seq<T>, c: seq<T>)
    ensures x + a + b + c == x + (a + b + c)
  {
    AppendAssoc(x, a, b);
    AppendAssoc(x, a + b, c);
  }

  lemma AppendAssoc4<T>(x: seq<T>, a: seq<T>, b: seq<T>, c: seq<T>, d: seq<T>)
    ensures x + a + b + c + d == x + (a + b + c + d)
  {
    AppendAssoc3(x, a, b, c);
    AppendAssoc(x, a + b + c, d);
  }

  lemma {:induction false} ShowAppend(a: Prog, b: Prog)
    ensures Show(a + b) == Show(a) + Show(b)
  {
    if a == [] {
      assert a + b == b;
    } else {
      assert (a + b)[0] == a[0];
      assert (a + b)[1..] == a[1..] + b;
      ShowAppend(a[1..], b);
    }
  }

  /** `n` copies of one instruction. */
  function Rep(x: Instr, n: nat): (p: Prog)
    ensures |p| == n
  {
    seq(n, _ => x)
  }

  lemma {:induction false} ShowRep(x: Instr, n: nat)
    requires !x.Loop?
    ensures Show(Rep(x, n)) == seq(n, _ => Symbol(x))
  {
    if n > 0 {
      assert Rep(x, n)[1..] == Rep(x, n - 1);
      ShowRep(x, n - 1);
      assert seq(n, _ => Symbol(x)) == [Symbol(x)] + seq(n - 1, _ => Symbol(x));
    }
  }

  lemma RepSnoc(x: Instr, n: nat)
    ensures Rep(x, n + 1) == Rep(x, n) + [x]
  {
  }

  /** The pointer moves from cell `from` to cell `to`: `|to - from|` of `>` or `<`. */
  function Moves(from: int, to: int): (p: Prog)
    ensures |p| == if from <= to then to - from else from - to
  {
    if from <= to then Rep(Right, to - from) else Rep(Left, from - to)
  }

  /** Adds `delta` (taken as a count of `+`, or of `-` when negative) to the current cell. */
  function Adjust(delta: int): (p: Prog)
    ensures |p| == if delta >= 0 then delta else -delta
  {
    if delta >= 0 then Rep(Inc, delta) else Rep(Dec, -delta)
  }

  /** Move from `from` to `to`, then adjust the cell there by `delta`. */
  function Bump(from: int, to: int, delta: int): Prog
  {
    Moves(from, to) + Adjust(delta)
  }

  // ---------------------------------------------------------------------
  // Reading text back

  datatype Parsed = Parsed(prog: Prog, rest: seq<char>)

  /**
   * Parses commands up to the end of `s` or up to an unmatched `]`, which
   * is left at the head of `rest`; characters outside the alphabet are
   * comments, as in every Brainfuck interpreter.  None for an unclosed `[`.
   */
  function ParseBlock(s: seq<char>): (r: Option<Parsed>)
    ensures r.Some? ==> |r.value.rest| <= |s|
    ensures r.Some? ==> r.value.rest == [] || r.value.rest[0] == ']'
    decreases |s|
  {
    if s == [] || s[0] == ']' then Some(Parsed([], s))
    else if s[0] == '[' then
      match ParseBlock(s[1..])
      case None => None
      case Some(inner) =>
        if inner.rest == [] then None
        else
          match ParseBlock(inner.rest[1..])
          case None => None
          case Some(tail) => Some(Parsed([Loop(inner.prog)] + tail.prog, tail.rest))
    else
      match ParseBlock(s[1..])
      case None => None
      case Some(tail) =>
        var c := s[0];
        if c == '>' then Some(Parsed([Right] + tail.prog, tail.rest))
        else if c == '<' then Some(Parsed([Left] + tail.prog, tail.rest))
        else if c == '+' then Some(Parsed([Inc] + tail.prog, tail.rest))
        else if c == '-' then Some(Parsed([Dec] + tail.prog, tail.rest))
        else if c == '.' then Some(Parsed([Out] + tail.prog, tail.rest))
        else if c == '#' then Some(Parsed([Dump] + tail.prog, tail.rest))
        else Some(tail)
  }

  /** The program a text denotes; None when its brackets do not match. */
  function Parse(s: seq<char>): Option<Prog>
  {
    match ParseBlock(s)
    case None => None
    case Some(r) => if r.rest == [] then Some(r.prog) else None
  }

  lemma ParseSimple(i: Instr, rest: seq<char>, q: Parsed)
    requires !i.Loop? && ParseBlock(rest) == Some(q)
    ensures ParseBlock([Symbol(i)] + rest) == Some(Parsed([i] + q.prog, q.rest))
  {
    var s := [Symbol(i)] + rest;
    assert s[0] == Symbol(i) && s[1..] == rest;
  }

  lemma ParseLoop(body: Prog, inner: seq<char>, tail: seq<char>, q: Parsed)
    requires ParseBlock(inner + ("]" + tail)) == Some(Parsed(body, "]" + tail))
    requires ParseBlock(tail) == Some(q)
    ensures ParseBlock("[" + inner + ("]" + tail)) == Some(Parsed([Loop(body)] + q.prog, q.rest))
  {
    var s := "[" + inner + ("]" + tail);
    assert s[0] == '[' && s[1..] == inner + ("]" + tail);
    assert ("]" + tail)[1..] == tail;
  }

  lemma {:induction false} ParseBlockShow(p: Prog, r: seq<char>)
    requires r == [] || r[0] == ']'
    ensures ParseBlock(Show(p) + r) == Some(Parsed(p, r))
    decreases p
  {
    if p == [] {
      assert Show(p) + r == r;
    } else {
      var tail := Show(p[1..]) + r;
      ParseBlockShow(p[1..], r);
      if p[0].Loop? {
        ParseBlockShow(p[0].body, "]" + tail);
        ShowLoopHead(p, r);
        ParseLoop(p[0].body, Show(p[0].body), tail, Parsed(p[1..], r));
        assert [Loop(p[0].body)] + p[1..] == p;
      } else {
        ShowSimpleHead(p, r);
        ParseSimple(p[0], tail, Parsed(p[1..], r));
        assert [p[0]] + p[1..] == p;
      }
    }
  }

  lemma ShowLoopHead(p: Prog, r: seq<char>)
    requires p != [] && p[0].Loop?
    ensures Show(p) + r == "[" + Show(p[0].body) + ("]" + (Show(p[1..]) + r))
  {
  }

  lemma ShowSimpleHead(p: Prog, r: seq<char>)
    requires p != [] && !p[0].Loop?
    ensures Show(p) + r == [Symbol(p[0])] + (Show(p[1..]) + r)
  {
  }

  /** Printing and reading back are inverse: `Parse(Show(p)) == Some(p)`. */
  lemma ParseShow(p: Prog)
    ensures Parse(Show(p)) == Some(p)
  {
    ParseBlockShow(p, []);
    assert Show(p) + [] == Show(p);
  }

  // ---------------------------------------------------------------------
  // Running programs

  /** The machine state: cells (absent means 0), the pointer, the bytes printed so far. */
  datatype Tape = Tape(cells: map<int, Byte>, ptr: int, out: seq<Byte>)

  /** The all-zero tape an interpreter starts from. */
  const Blank := Tape(map[], 0, [])

  function Cell(t: Tape, i: int): Byte
  {
    if i in t.cells then t.cells[i] else 0
  }

  /** Adds `delta` to cell `i`, modulo 256 (adding nothing leaves the tape as it is). */
  function Add(t: Tape, i: int, delta: int): Tape
  {
    if delta == 0 then t else t.(cells := t.cells[i := (Cell(t, i) + delta) % 256])
  }

  function Step(i: Instr, t: Tape): Tape
    requires !i.Loop?
  {
    match i
    case Right => t.(ptr := t.ptr + 1)
    case Left => t.(ptr := t.ptr - 1)
    case Inc => Add(t, t.ptr, 1)
    case Dec => Add(t, t.ptr, -1)
    case Out => t.(out := t.out + [Cell(t, t.ptr)])
    case Dump => t
  }

  function Exec(p: Prog, t: Tape, fuel: nat): Option<Tape>
    decreases p, 0, 0
  {
    if p == [] then Some(t)
    else
      var r := if p[0].Loop? then LoopRun(p[0].body, t, fuel, fuel) else Some(Step(p[0], t));
      if r.None? then None else Exec(p[1..], r.value, fuel)
  }

  /** Runs a loop body while the current cell is non-zero, at most `k` more times. */
  function LoopRun(body: Prog, t: Tape, fuel: nat, k: nat): Option<Tape>
    decreases body, 1, k
  {
    if Cell(t, t.ptr) == 0 then Some(t)
    else if k == 0 then None
    else
      var r := Exec(body, t, fuel);
      if r.None? then None else LoopRun(body, r.value, fuel, k - 1)
  }

  /** Runs a text: None when its brackets do not match or a loop runs out of fuel. */
  function Run(s: seq<char>, t: Tape, fuel: nat): Option<Tape>
  {
    match Parse(s)
    case None => None
    case Some(p) => Exec(p, t, fuel)
  }

  function Then(r: Option<Tape>, p: Prog, fuel: nat): Option<Tape>
  {
    if r.None? then None else Exec(p, r.value, fuel)
  }

  /** Running a concatenation runs the parts one after the other. */
  lemma {:induction false} ExecAppend(a: Prog, b: Prog, t: Tape, fuel: nat)
    ensures Exec(a + b, t, fuel) == Then(Exec(a, t, fuel), b, fuel)
    decreases a
  {
    if a == [] {
      assert a + b == b;
    } else {
      assert (a + b)[0] == a[0];
      assert (a + b)[1..] == a[1..] + b;
      var r := if a[0].Loop? then LoopRun(a[0].body, t, fuel, fuel) else Some(Step(a[0], t));
      if r.Some? {
        ExecAppend(a[1..], b, r.value, fuel);
      }
    }
  }

  /** Two fragments that run one after the other run as their concatenation. */
  lemma Chain(a: Prog, b: Prog, t: Tape, u: Tape, w: Tape, fuel: nat)
    requires Exec(a, t, fuel) == Some(u) && Exec(b, u, fuel) == Some(w)
    ensures Exec(a + b, t, fuel) == Some(w)
  {
    ExecAppend(a, b, t, fuel);
  }

  /** A printed program means what the program means. */
  lemma RunShow(p: Prog, t: Tape, fuel: nat)
    ensures Run(Show(p), t, fuel) == Exec(p, t, fuel)
  {
    ParseShow(p);
  }

  lemma {:induction false} ExecRepStep(x: Instr, n: nat, t: Tape, fuel: nat)
    requires !x.Loop? && n > 0
    ensures Exec(Rep(x, n), t, fuel) == Exec(Rep(x, n - 1), Step(x, t), fuel)
  {
    assert Rep(x, n)[1..] == Rep(x, n - 1);
  }

  /** `Moves(from, to)` only carries the pointer from `from` to `to`. */
  lemma {:induction false} ExecMoves(t: Tape, to: int, fuel: nat)
    ensures Exec(Moves(t.ptr, to), t, fuel) == Some(t.(ptr := to))
    decreases if t.ptr <= to then to - t.ptr else t.ptr - to
  {
    if t.ptr < to {
      ExecRepStep(Right, to - t.ptr, t, fuel);
      var u := t.(ptr := t.ptr + 1);
      assert Moves(t.ptr, to) == Rep(Right, to - t.ptr);
      assert Rep(Right, to - t.ptr - 1) == Moves(u.ptr, to);
      ExecMoves(u, to, fuel);
      assert u.(ptr := to) == t.(ptr := to);
    } else if t.ptr > to {
      ExecRepStep(Left, t.ptr - to, t, fuel);
      var u := t.(ptr := t.ptr - 1);
      assert Moves(t.ptr, to) == Rep(Left, t.ptr - to);
      assert Rep(Left, t.ptr - to - 1) == Moves(u.ptr, to);
      ExecMoves(u, to, fuel);
      assert u.(ptr := to) == t.(ptr := to);
    } else {
      assert Moves(t.ptr, to) == [];
      assert t.(ptr := to) == t;
    }
  }

  lemma ModAddLeft(a: int, b: int)
    ensures (a % 256 + b) % 256 == (a + b) % 256
  {
  }

  /** Two additions of the same sign to one cell are one addition. */
  lemma AddTwice(t: Tape, i: int, a: int, b: int)
    requires (a > 0 && b >= 0) || (a < 0 && b <= 0)
    ensures Add(Add(t, i, a), i, b) == Add(t, i, a + b)
  {
    if b != 0 {
      ModAddLeft(Cell(t, i) + a, b);
      assert Cell(Add(t, i, a), i) == (Cell(t, i) + a) % 256;
    }
  }

  /** `Adjust(delta)` adds `delta` to the current cell, modulo 256. */
  lemma {:induction false} ExecAdjust(t: Tape, delta: int, fuel: nat)
    ensures Exec(Adjust(delta), t, fuel) == Some(Add(t, t.ptr, delta))
    decreases if delta >= 0 then delta else -delta
  {
    if delta > 0 {
      ExecRepStep(Inc, delta, t, fuel);
      var u := Add(t, t.ptr, 1);
      assert Rep(Inc, delta - 1) == Adjust(delta - 1);
      ExecAdjust(u, delta - 1, fuel);
      AddTwice(t, t.ptr, 1, delta - 1);
    } else if delta < 0 {
      ExecRepStep(Dec, -delta, t, fuel);
      var u := Add(t, t.ptr, -1);
      assert Rep(Dec, -delta - 1) == Adjust(delta + 1);
      ExecAdjust(u, delta + 1, fuel);
      AddTwice(t, t.ptr, -1, delta + 1);
    } else {
      assert Adjust(delta) == [];
    }
  }

  /** `Bump(t.ptr, to, delta)` moves to `to` and adds `delta` there. */
  lemma ExecBump(t: Tape, to: int, delta: int, fuel: nat)
    ensures Exec(Bump(t.ptr, to, delta), t, fuel) == Some(Add(t.(ptr := to), to, delta))
  {
    ExecAppend(Moves(t.ptr, to), Adjust(delta), t, fuel);
    ExecMoves(t, to, fuel);
    ExecAdjust(t.(ptr := to), delta, fuel);
  }

  // ---------------------------------------------------------------------
  // Counted loops

  /**
   * One pass of `body` started on cell `c` with a non-zero counter there:
   * it terminates, the counter drops by one, every other cell `i` gains
   * `Gain(w, i)` (modulo 256), the pointer is back on `c` and nothing is printed.
   */
  ghost predicate PulseFrom(body: Prog, c: int, w: seq<Touch>, fuel: nat, t: Tape)
  {
    var r := Exec(body, t, fuel);
    r.Some? && r.value.ptr == c && r.value.out == t.out && Cell(r.value, c) == Cell(t, c) - 1 &&
    forall i :: i != c ==> Cell(r.value, i) == (Cell(t, i) + Gain(w, i)) % 256
  }

  /** `body` is a counted-loop body on counter cell `c` with per-pass gains `w`. */
  ghost predicate Pulse(body: Prog, c: int, w: seq<Touch>, fuel: nat)
  {
    forall t: Tape {:trigger PulseFrom(body, c, w, fuel, t)} :: t.ptr == c && Cell(t, c) != 0 ==> PulseFrom(body, c, w, fuel, t)
  }

  /** Every cell but the counter `c` has gained Cell(c) passes' worth of `w`, modulo 256. */
  ghost predicate Gained(t: Tape, u: Tape, c: int, w: seq<Touch>)
  {
    forall i :: i != c ==> Cell(u, i) == (Cell(t, i) + Cell(t, c) * Gain(w, i)) % 256
  }

  /**
   * A counted loop whose counter starts at `n` runs its body exactly `n`
   * times: the counter ends at 0 and every other cell `i` gains `n * Gain(w, i)`.
   */
  lemma {:induction false} CountedLoop(body: Prog, c: int, w: seq<Touch>, fuel: nat, t: Tape, k: nat)
    requires Pulse(body, c, w, fuel) && t.ptr == c && k >= Cell(t, c)
    ensures LoopRun(body, t, fuel, k).Some?
    ensures var u := LoopRun(body, t, fuel, k).value;
      u.ptr == c && u.out == t.out && Cell(u, c) == 0 &&
      Gained(t, u, c, w)
    decreases Cell(t, c)
  {
    if Cell(t, c) != 0 {
      var t1 := OnePulse(body, c, w, fuel, t);
      CountedLoop(body, c, w, fuel, t1, k - 1);
      LoopRunStep(body, t, t1, fuel, k);
      PassesCompose(t, t1, LoopRun(body, t1, fuel, k - 1).value, c, w);
    } else {
      LoopRunDone(body, t, fuel, k);
      GainedNothing(t, c, w);
    }
  }

  lemma GainedNothing(t: Tape, c: int, w: seq<Touch>)
    requires Cell(t, c) == 0
    ensures Gained(t, t, c, w)
  {
  }

  lemma LoopRunStep(body: Prog, t: Tape, t1: Tape, fuel: nat, k: nat)
    requires Cell(t, t.ptr) != 0 && k > 0 && Exec(body, t, fuel) == Some(t1)
    ensures LoopRun(body, t, fuel, k) == LoopRun(body, t1, fuel, k - 1)
  {
  }

  lemma LoopRunDone(body: Prog, t: Tape, fuel: nat, k: nat)
    requires Cell(t, t.ptr) == 0
    ensures LoopRun(body, t, fuel, k) == Some(t)
  {
  }

  /** One pass of a counted-loop body. */
  lemma OnePulse(body: Prog, c: int, w: seq<Touch>, fuel: nat, t: Tape) returns (t1: Tape)
    requires Pulse(body, c, w, fuel) && t.ptr == c && Cell(t, c) != 0
    ensures Exec(body, t, fuel) == Some(t1)
    ensures t1.ptr == c && t1.out == t.out && Cell(t1, c) == Cell(t, c) - 1
    ensures forall i :: i != c ==> Cell(t1, i) == (Cell(t, i) + Gain(w, i)) % 256
  {
    assert PulseFrom(body, c, w, fuel, t);
    t1 := Exec(body, t, fuel).value;
  }

  /** The first pass followed by the remaining ones adds up to all of them. */
  lemma PassesCompose(t: Tape, t1: Tape, u: Tape, c: int, w: seq<Touch>)
    requires Cell(t1, c) == Cell(t, c) - 1
    requires forall i :: i != c ==> Cell(t1, i) == (Cell(t, i) + Gain(w, i)) % 256
    requires Gained(t1, u, c, w)
    ensures Gained(t, u, c, w)
  {
    forall i | i != c
      ensures Cell(u, i) == (Cell(t, i) + Cell(t, c) * Gain(w, i)) % 256
    {
      PassGain(Cell(t, i), Gain(w, i), Cell(t, c));
    }
  }

  /** One more pass with gain `w` after `n - 1` of them adds `n * w` in all. */
  lemma PassGain(a: int, w: int, n: int)
    ensures ((a + w) % 256 + (n - 1) * w) % 256 == (a + n * w) % 256
  {
    ModAddLeft(a + w, (n - 1) * w);
    assert a + w + (n - 1) * w == a + n * w;
  }

  /** A counted loop written as one `[...]` instruction, with fuel enough for a byte counter. */
  lemma CountedLoopExec(body: Prog, c: int, w: seq<Touch>, fuel: nat, t: Tape)
    requires Pulse(body, c, w, fuel) && t.ptr == c && fuel >= 256
    ensures Exec([Loop(body)], t, fuel).Some?
    ensures var u := Exec([Loop(body)], t, fuel).value;
      u.ptr == c && u.out == t.out && Cell(u, c) == 0 && Gained(t, u, c, w)
  {
    CountedLoop(body, c, w, fuel, t, fuel);
    assert Exec([Loop(body)], t, fuel) == LoopRun(body, t, fuel, fuel);
  }

  /** `[-]` clears the current cell. */
  lemma ClearLoop(t: Tape, fuel: nat)
    requires fuel >= 256
    ensures Exec([Loop([Dec])], t, fuel).Some?
    ensures var u := Exec([Loop([Dec])], t, fuel).value;
      u.ptr == t.ptr && u.out == t.out && Cell(u, t.ptr) == 0 &&
      forall i :: i != t.ptr ==> Cell(u, i) == Cell(t, i)
  {
    var c := t.ptr;
    forall s: Tape | s.ptr == c && Cell(s, c) != 0
      ensures PulseFrom([Dec], c, [], fuel, s)
    {
      assert Exec([Dec], s, fuel) == Some(Add(s, c, -1));
    }
    CountedLoopExec([Dec], c, [], fuel, t);
  }

  // ---------------------------------------------------------------------
  // Walks: straight-line code that visits cells and adjusts them

  /** A visit to `cell` that adds `delta` there. */
  datatype Touch = Touch(cell: nat, delta: int)

  /** From cell `from`, each touch in turn: walk to its cell, then adjust it. */
  function Walk(from: int, steps: seq<Touch>): Prog
    decreases |steps|
  {
    if steps == [] then [] else Bump(from, steps[0].cell, steps[0].delta) + Walk(steps[0].cell, steps[1..])
  }

  function WalkEnd(from: int, steps: seq<Touch>): int
  {
    if steps == [] then from else steps[|steps| - 1].cell
  }

  /** What the visits add to cell `i` in total. */
  function Gain(steps: seq<Touch>, i: int): int
    decreases |steps|
  {
    if steps == [] then 0 else (if steps[0].cell == i then steps[0].delta else 0) + Gain(steps[1..], i)
  }

  function WalkCells(steps: seq<Touch>): set<int>
  {
    set k | 0 <= k < |steps| :: steps[k].cell as int
  }

  /** The tape after the visits, one `Add` per touch. */
  function Apply(t: Tape, steps: seq<Touch>): Tape
    decreases |steps|
  {
    if steps == [] then t
    else Apply(Add(t.(ptr := steps[0].cell), steps[0].cell, steps[0].delta), steps[1..])
  }

  lemma {:induction false} ExecWalk(t: Tape, steps: seq<Touch>, fuel: nat)
    ensures Exec(Walk(t.ptr, steps), t, fuel) == Some(Apply(t, steps))
    decreases |steps|
  {
    if steps != [] {
      var s0 := steps[0];
      ExecAppend(Bump(t.ptr, s0.cell, s0.delta), Walk(s0.cell, steps[1..]), t, fuel);
      ExecBump(t, s0.cell, s0.delta, fuel);
      var t1 := Add(t.(ptr := s0.cell), s0.cell, s0.delta);
      assert t1.ptr == s0.cell;
      ExecWalk(t1, steps[1..], fuel);
    }
  }

  lemma CellAdd(t: Tape, c: int, delta: int, i: int)
    ensures Cell(Add(t, c, delta), i) == (Cell(t, i) + (if i == c then delta else 0)) % 256
    ensures Add(t, c, delta).ptr == t.ptr && Add(t, c, delta).out == t.out
  {
  }

  /** After a walk the pointer is on its last cell and every cell has gained its total, modulo 256. */
  lemma {:induction false} ApplyCells(t: Tape, steps: seq<Touch>)
    ensures Apply(t, steps).ptr == WalkEnd(t.ptr, steps)
    ensures Apply(t, steps).out == t.out
    ensures forall i :: Cell(Apply(t, steps), i) == (Cell(t, i) + Gain(steps, i)) % 256
    decreases |steps|
  {
    if steps != [] {
      var s0 := steps[0];
      var t1 := Add(t.(ptr := s0.cell), s0.cell, s0.delta);
      ApplyCells(t1, steps[1..]);
      forall i
        ensures Cell(Apply(t, steps), i) == (Cell(t, i) + Gain(steps, i)) % 256
      {
        CellAdd(t.(ptr := s0.cell), s0.cell, s0.delta, i);
        ModAddLeft(Cell(t, i) + (if s0.cell == i then s0.delta else 0), Gain(steps[1..], i));
      }
      if |steps| > 1 {
        assert steps[1..][|steps| - 2] == steps[|steps| - 1];
      }
    }
  }

  lemma {:induction false} GainOutside(steps: seq<Touch>, i: int)
    requires i !in WalkCells(steps)
    ensures Gain(steps, i) == 0
    decreases |steps|
  {
    if steps != [] {
      assert steps[0].cell as int in WalkCells(steps);
      assert WalkCells(steps[1..]) <= WalkCells(steps) by {
        forall k | 0 <= k < |steps| - 1
          ensures steps[1..][k].cell as int in WalkCells(steps)
        {
          assert steps[1..][k] == steps[k + 1];
        }
      }
      GainOutside(steps[1..], i);
    }
  }

  /** One pass of a walk from `c` back to `c` that takes one from `c`. */
  lemma WalkPulseFrom(c: nat, steps: seq<Touch>, fuel: nat, t: Tape)
    requires WalkEnd(c, steps) == c && Gain(steps, c) == -1
    requires t.ptr == c && Cell(t, c) != 0
    ensures PulseFrom(Walk(c, steps), c, steps, fuel, t)
  {
    ExecWalk(t, steps, fuel);
    ApplyCells(t, steps);
    var u := Apply(t, steps);
    TakeOne(Cell(t, c), Cell(u, c));
    assert Exec(Walk(c, steps), t, fuel) == Some(u);
  }

  lemma TakeOne(n: Byte, m: Byte)
    requires n != 0 && m as int == (n as int + -1) % 256
    ensures m as int == n as int - 1
  {
  }

  /** A walk from `c` back to `c` that takes one from `c` is a counted-loop body on `c`. */
  lemma WalkPulse(c: nat, steps: seq<Touch>, fuel: nat)
    requires WalkEnd(c, steps) == c && Gain(steps, c) == -1
    ensures Pulse(Walk(c, steps), c, steps, fuel)
  {
    forall t: Tape | t.ptr == c && Cell(t, c) != 0
      ensures PulseFrom(Walk(c, steps), c, steps, fuel, t)
    {
      WalkPulseFrom(c, steps, fuel, t);
    }
  }

  /**
   * A loop whose body walks from `c` back to `c` taking one from `c` runs
   * the body Cell(c) times: `c` ends at 0 and every other cell `i` gains
   * Cell(c) times what one pass adds to it.
   */
  lemma CountedWalk(steps: seq<Touch>, t: Tape, fuel: nat)
    requires t.ptr >= 0 && WalkEnd(t.ptr, steps) == t.ptr && Gain(steps, t.ptr) == -1 && fuel >= 256
    ensures Exec([Loop(Walk(t.ptr, steps))], t, fuel).Some?
    ensures var u := Exec([Loop(Walk(t.ptr, steps))], t, fuel).value;
      u.ptr == t.ptr && u.out == t.out && Cell(u, t.ptr) == 0 && Gained(t, u, t.ptr, steps)
  {
    WalkPulse(t.ptr, steps, fuel);
    CountedLoopExec(Walk(t.ptr, steps), t.ptr, steps, fuel, t);
  }

  // ---------------------------------------------------------------------
  // Blocks: a body closed by a walk back to its counter and a decrement

  /** `body`, then back from `q` to the counter `c`, then `-`: one pass of a counted block. */
  function Block(body: Prog, q: int, c: int): Prog
  {
    body + Moves(q, c) + [Dec]
  }

  /** `p` run `n` times in a row from `t`; None as soon as one run fails. */
  function Passes(p: Prog, t: Tape, n: nat, fuel: nat): Option<Tape>
    decreases n
  {
    if n == 0 then Some(t)
    else
      var r := Exec(p, t, fuel);
      if r.None? then None else Passes(p, r.value, n - 1, fuel)
  }

  /**
   * A body that, entered on the counter `c`, always finishes, ends on `q`
   * and leaves the counter as it found it.
   */
  ghost predicate Settled(body: Prog, c: int, q: int, fuel: nat)
  {
    forall s: Tape {:trigger SettledFrom(body, c, q, fuel, s)} :: s.ptr == c ==> SettledFrom(body, c, q, fuel, s)
  }

  ghost predicate SettledFrom(body: Prog, c: int, q: int, fuel: nat, s: Tape)
  {
    Exec(body, s, fuel).Some? && Exec(body, s, fuel).value.ptr == q &&
    Cell(Exec(body, s, fuel).value, c) == Cell(s, c)
  }

  lemma BlockPass(body: Prog, c: int, q: int, s: Tape, fuel: nat)
    requires Settled(body, c, q, fuel) && s.ptr == c && Cell(s, c) != 0
    ensures Exec(Block(body, q, c), s, fuel).Some?
    ensures var w := Exec(Block(body, q, c), s, fuel).value;
      w.ptr == c && Cell(w, c) == Cell(s, c) - 1
  {
    assert SettledFrom(body, c, q, fuel, s);
    var s1 := Exec(body, s, fuel).value;
    ExecMoves(s1, c, fuel);
    var s2 := s1.(ptr := c);
    Chain(body, Moves(q, c), s, s1, s2, fuel);
    var w := Add(s2, c, -1);
    assert Exec([Dec], s2, fuel) == Some(w);
    Chain(body + Moves(q, c), [Dec], s, s2, w, fuel);
  }

  lemma {:induction false} LoopPasses(body: Prog, c: int, q: int, t: Tape, fuel: nat, k: nat)
    requires Settled(body, c, q, fuel) && t.ptr == c && k >= Cell(t, c)
    ensures LoopRun(Block(body, q, c), t, fuel, k) == Passes(Block(body, q, c), t, Cell(t, c), fuel)
    ensures var r := Passes(Block(body, q, c), t, Cell(t, c), fuel);
      r.Some? && r.value.ptr == c && Cell(r.value, c) == 0
    decreases k
  {
    if Cell(t, c) != 0 {
      BlockPass(body, c, q, t, fuel);
      var s := Exec(Block(body, q, c), t, fuel).value;
      LoopPasses(body, c, q, s, fuel, k - 1);
    }
  }

  /**
   * `[body <back to c> -]` entered on `c` runs its pass exactly as many
   * times as `c` says, and leaves `c` at 0, provided the body is settled.
   */
  lemma RepeatLoop(body: Prog, c: int, q: int, t: Tape, fuel: nat)
    requires Settled(body, c, q, fuel) && t.ptr == c && fuel >= 256
    ensures Exec([Loop(Block(body, q, c))], t, fuel) == Passes(Block(body, q, c), t, Cell(t, c), fuel)
    ensures var r := Exec([Loop(Block(body, q, c))], t, fuel);
      r.Some? && r.value.ptr == c && Cell(r.value, c) == 0
  {
    LoopPasses(body, c, q, t, fuel, fuel);
    assert Exec([Loop(Block(body, q, c))], t, fuel) == LoopRun(Block(body, q, c), t, fuel, fuel);
  }
}
