/**
 * What the code of `plus`, `out`, `set` and `assign` does to the tape:
 * `plus` leaves the byte sum of its operands in a fresh cell, where it
 * parks the pointer, and changes no other cell; `out` prints the named
 * cell or cells and brings the pointer back; `set` and `assign` bind the
 * target to a fresh cell holding the byte the right side stands for.
 */
module CompileTape {
  import opened Wrappers
  import opened Brainfuck
  import opened JsValue
  import opened Codegen
  import opened CodegenTape
  import opened Ast
  import opened Compile

  // ---------------------------------------------------------------------
  // Generated names

  /** Names made from different counter values differ. */
  lemma TempNamesDiffer(prefix: string, j: nat, k: nat)
    requires j != k
    ensures TempName(prefix, j) != TempName(prefix, k)
  {
    var x, y := TempName(prefix, j), TempName(prefix, k);
    if x == y {
      assert x[|prefix|..] == NatText(j) && y[|prefix|..] == NatText(k);
      NatTextInjective(j, k);
    }
  }

  lemma PrefixesDiffer(j: nat, k: nat)
    ensures TempName("compilator_", j) != TempName("translator_temp_line_", k)
  {
    assert TempName("compilator_", j)[0] == 'c' && TempName("translator_temp_line_", k)[0] == 't';
  }

  /** The names `plus` makes from the counter from here on are not bound yet. */
  ghost predicate Fresh(g: Gen)
  {
    Unused(g.variables, g.counter)
  }

  /** No name `plus` makes from a counter value k or later is bound in `vars`. */
  ghost predicate Unused(vars: map<string, Binding>, k: nat)
  {
    forall j: nat :: j >= k ==>
      TempName("compilator_", j) !in vars && TempName("translator_temp_line_", j) !in vars
  }

  /** Binding a name made from a counter value already passed keeps the names to come unbound. */
  lemma FreshBind(g: Gen, r: Gen, name: string, k: nat)
    requires Fresh(g) && g.counter <= k < r.counter
    requires name == TempName("compilator_", k) || name == TempName("translator_temp_line_", k)
    requires r.variables.Keys <= g.variables.Keys + {name}
    ensures Fresh(r)
  {
    forall j: nat | j >= r.counter
      ensures TempName("compilator_", j) !in r.variables && TempName("translator_temp_line_", j) !in r.variables
    {
      TempNamesDiffer("compilator_", j, k);
      TempNamesDiffer("translator_temp_line_", j, k);
      PrefixesDiffer(j, k);
      PrefixesDiffer(k, j);
    }
  }

  // ---------------------------------------------------------------------
  // Operands of `plus`

  /** What `plus` needs of an operand: a name bound to one occupied cell, or a whole-number literal. */
  predicate OperandOk(g: Gen, n: Node, rev: Revision)
  {
    if IsName(n.kind, rev) then Holds(g, Key(n.text)) else n.kind.Number? && IsInteger(NumberOf(n.text))
  }

  /** The byte an operand stands for: the named cell's, or the literal as `varCreate_Int8` stores it. */
  ghost function OperandByte(g: Gen, n: Node, rev: Revision, t: Tape): Byte
    requires OperandOk(g, n, rev)
  {
    if IsName(n.kind, rev) then Cell(t, CellOfName(g, Key(n.text)))
    else
      var v := NumberOf(n.text).value;
      if v >= 0 then v % 256 else 0
  }

  /** The state after preparing an operand, field by field: a literal's temporary takes the least free cell. */
  ghost predicate OperandFields(g: Gen, a: Operand, n: Node, rev: Revision)
  {
    if IsName(n.kind, rev) then a == Operand(g, Key(n.text), false)
    else
      var name, c := TempName("translator_temp_line_", g.counter), FirstFree(g.memory);
      a.name == name && a.temp && n.kind.Number? && IsInteger(NumberOf(n.text)) &&
      a.g.variables == g.variables[name := Int8(c)] && a.g.memory == g.memory + {c} &&
      a.g.pointer == c && a.g.counter == g.counter + 1 && a.g.stack == g.stack &&
      a.g.result == g.result + Show(Int8Code(g, NumberOf(n.text).value))
  }

  /** `PlusOperand` succeeds on an operand it can use and changes the state as `OperandFields` says. */
  lemma OperandHolds(g: Gen, n: Node, rev: Revision)
    requires OperandOk(g, n, rev)
    ensures PlusOperand(g, n, rev).Ok? && OperandFields(g, PlusOperand(g, n, rev).value, n, rev)
  {
    if !IsName(n.kind, rev) {
      CreateInt8Effect(Tick(g), TempName("translator_temp_line_", g.counter), NumberOf(n.text).value);
    }
  }

  /** The code `varCreate_Int8` appends, run: the least free cell ends holding the value's byte. */
  lemma Int8Run(g: Gen, v: int, t: Tape, fuel: nat) returns (u: Tape)
    requires Realizes(g, t) && fuel >= 256
    ensures Exec(Int8Code(g, v), t, fuel) == Some(u) && u.out == t.out && u.ptr == FirstFree(g.memory)
    ensures Cell(u, FirstFree(g.memory)) == (if v >= 0 then v % 256 else 0)
    ensures Keeps(t, u, {FirstFree(g.memory)})
  {
    var index := FirstFree(g.memory);
    var m := g.memory + {index};
    var vn := JsRem(v, 256);
    var t1 := t.(ptr := index);
    ExecMoves(t, index, fuel);
    WriteTape(m, index, vn, t1, fuel);
    u := Exec(WriteCode(m, index, vn), t1, fuel).value;
    Chain(Moves(g.pointer, index), WriteCode(m, index, vn), t, t1, u, fuel);
    assert Cell(t, index) == 0;
  }

  /** How preparing an operand changed the state and the tape: a literal's temporary took a free cell. */
  ghost predicate Prepared(g: Gen, a: Operand, t: Tape, u: Tape)
  {
    if a.temp then
      var c := FirstFree(g.memory);
      a.name == TempName("translator_temp_line_", g.counter) && a.name !in g.variables &&
      a.g.counter == g.counter + 1 && a.g.variables == g.variables[a.name := Int8(c)] &&
      a.g.memory == g.memory + {c} && a.g.stack == g.stack && Keeps(t, u, {c})
    else a.g == g && u == t
  }

  /**
   * A name operand is used as it is; a literal is stored in a new int8
   * temporary.  Either way the operand ends up a one-cell variable holding
   * the operand's byte.
   */
  lemma OperandRun(g: Gen, a: Operand, n: Node, rev: Revision, t: Tape, fuel: nat) returns (p: Prog, u: Tape)
    requires Realizes(g, t) && Fresh(g) && OperandOk(g, n, rev) && OperandFields(g, a, n, rev) && fuel >= 256
    ensures Emits(g, a.g, p, t, u, fuel) && Realizes(a.g, u) && u.out == t.out && Fresh(a.g) &&
      Holds(a.g, a.name) && Cell(u, CellOfName(a.g, a.name)) == OperandByte(g, n, rev, t) &&
      Prepared(g, a, t, u)
  {
    if IsName(n.kind, rev) {
      p, u := [], t;
      assert g.result + Show([]) == g.result;
    } else {
      var v := NumberOf(n.text).value;
      u := Int8Run(g, v, t, fuel);
      p := Int8Code(g, v);
      FreshBind(g, a.g, a.name, g.counter);
    }
  }

  /** Preparing an operand leaves the variables already bound as they were, cells included. */
  lemma BoundStays(g: Gen, a: Operand, x: string, t: Tape, u: Tape)
    requires Realizes(g, t) && Fresh(g) && Holds(g, x) && Prepared(g, a, t, u)
    ensures Holds(a.g, x) && CellOfName(a.g, x) == CellOfName(g, x)
    ensures Cell(u, CellOfName(g, x)) == Cell(t, CellOfName(g, x))
  {
    if a.temp {
      assert x != a.name;
      assert a.g.variables[x] == g.variables[x];
      assert CellOfName(g, x) != FirstFree(g.memory);
    }
  }

  /** Preparing the first operand leaves what the second operand stands for as it was. */
  lemma OperandStays(g: Gen, a: Operand, n: Node, rev: Revision, t: Tape, u: Tape)
    requires Realizes(g, t) && Fresh(g) && OperandOk(g, n, rev) && Prepared(g, a, t, u)
    ensures OperandOk(a.g, n, rev) && OperandByte(a.g, n, rev, u) == OperandByte(g, n, rev, t)
  {
    if IsName(n.kind, rev) {
      BoundStays(g, a, Key(n.text), t, u);
    }
  }

  // ---------------------------------------------------------------------
  // The copies

  lemma RemoveAbsent<K, V>(m: map<K, V>, k: K)
    requires k !in m
    ensures m - {k} == m
  {
  }

  /** What `varCopyByIndex(name, src)` changes, as `CopyByIndexEffect` states it. */
  ghost predicate CopyFields(g: Gen, r: Gen, name: string, src: nat)
  {
    var d, c := FirstFree(g.memory), ScratchCell(g.memory);
    d != c && d !in g.memory && c !in g.memory &&
    r.variables == g.variables[name := Int8(d)] - {TempName("compilator_", g.counter)} &&
    r.memory == g.memory + {d} && r.pointer == c && r.counter == g.counter + 1 &&
    r.stack == g.stack && r.result == g.result + Show(CopyCode(g.pointer, src, d, c))
  }

  /** A copy of an occupied cell, run: the least free cell receives its byte; no other cell changes. */
  lemma CopyStep(g: Gen, r: Gen, name: string, src: nat, t: Tape, fuel: nat) returns (p: Prog, u: Tape)
    requires Realizes(g, t) && src in g.memory && CopyFields(g, r, name, src) && fuel >= 256
    ensures Emits(g, r, p, t, u, fuel) && Realizes(r, u) && u.out == t.out &&
      Cell(u, FirstFree(g.memory)) == Cell(t, src) && Keeps(t, u, {FirstFree(g.memory)})
  {
    var d, c := FirstFree(g.memory), ScratchCell(g.memory);
    p := CopyCode(g.pointer, src, d, c);
    u := CopyCodeRun(g.pointer, src, d, c, t, fuel);
    FreeZeroAfter(g.memory, r.memory, t, u, d, c);
    forall i | i != d
      ensures Cell(u, i) == Cell(t, i)
    {
      if i == c {
        assert Cell(t, c) == 0;
      }
    }
  }

  /** A copy of a one-cell variable succeeds and changes the state as `CopyFields` says. */
  lemma CopyHolds(g: Gen, name: string, x: string) returns (r: Gen)
    requires Holds(g, x) && name != TempName("compilator_", g.counter)
    ensures CopyByName(g, name, x) == Ok(r) && CopyFields(g, r, name, CellOfName(g, x))
  {
    CopyByIndexEffect(g, name, CellOfName(g, x));
    r := CopyByIndex(g, name, CellOfName(g, x));
  }

  /**
   * The bindings after both copies (`g0` is the state once both names are
   * taken, `k` the counter value of the first): the least free cell is
   * `compilator_k`, the next one `compilator_k+1`, and nothing else changed.
   */
  ghost predicate CopyState(g0: Gen, k: nat, g2: Gen)
  {
    var s1, s2 := FirstFree(g0.memory), ScratchCell(g0.memory);
    s1 != s2 && s1 !in g0.memory && s2 !in g0.memory &&
    g2.variables == g0.variables[TempName("compilator_", k) := Int8(s1)][TempName("compilator_", k + 1) := Int8(s2)] &&
    g2.memory == g0.memory + {s1, s2} && g2.counter == k + 4 && g2.stack == g0.stack
  }

  /** Both copies succeed on one-cell variables, each changing the state as `CopyFields` says. */
  lemma CopyPairHolds(g0: Gen, k: nat, x: string, y: string) returns (g1: Gen, g2: Gen)
    requires g0.counter == k + 2 && Unused(g0.variables, k) && Holds(g0, x) && Holds(g0, y)
    ensures CopyPair(g0, k, x, y) == Ok(g2)
    ensures CopyFields(g0, g1, TempName("compilator_", k), CellOfName(g0, x))
    ensures CopyFields(g1, g2, TempName("compilator_", k + 1), CellOfName(g0, y))
  {
    TempNamesDiffer("compilator_", k, k + 2);
    TempNamesDiffer("compilator_", k + 1, k + 3);
    g1 := CopyHolds(g0, TempName("compilator_", k), x);
    assert g1.variables[y] == g0.variables[y];
    g2 := CopyHolds(g1, TempName("compilator_", k + 1), y);
  }

  /** The bindings both copies leave: the two copy names on the two new cells. */
  lemma CopyPairState(g0: Gen, g1: Gen, g2: Gen, k: nat, sx: nat, sy: nat)
    requires g0.counter == k + 2 && Unused(g0.variables, k)
    requires CopyFields(g0, g1, TempName("compilator_", k), sx)
    requires CopyFields(g1, g2, TempName("compilator_", k + 1), sy)
    ensures CopyState(g0, k, g2)
  {
    TempNamesDiffer("compilator_", k, k + 1);
    TempNamesDiffer("compilator_", k, k + 2);
    TempNamesDiffer("compilator_", k, k + 3);
    TempNamesDiffer("compilator_", k + 1, k + 3);
    TwoCopies(g0, g1, g2, TempName("compilator_", k), TempName("compilator_", k + 1),
      TempName("compilator_", k + 2), TempName("compilator_", k + 3));
  }

  /** `CopyState` for any four names: no temporary is a copy name, and no temporary was bound. */
  lemma TwoCopies(g0: Gen, g1: Gen, g2: Gen, n1: string, n2: string, c1: string, c2: string)
    requires n1 != n2 && c1 != n1 && c2 != n1 && c2 != n2 && c1 !in g0.variables && c2 !in g0.variables
    requires g1.variables == g0.variables[n1 := Int8(FirstFree(g0.memory))] - {c1}
    requires g1.memory == g0.memory + {FirstFree(g0.memory)}
    requires g2.variables == g1.variables[n2 := Int8(FirstFree(g1.memory))] - {c2}
    ensures g2.variables == g0.variables[n1 := Int8(FirstFree(g0.memory))][n2 := Int8(ScratchCell(g0.memory))]
  {
    var s1 := FirstFree(g0.memory);
    RemoveAbsent(g0.variables[n1 := Int8(s1)], c1);
    assert FirstFree(g1.memory) == ScratchCell(g0.memory);
    RemoveAbsent(g0.variables[n1 := Int8(s1)][n2 := Int8(ScratchCell(g0.memory))], c2);
  }

  /** What the two copies did to the tape: the two new cells hold x's and y's bytes. */
  ghost predicate CopiesMade(g0: Gen, x: string, y: string, t: Tape, u: Tape)
    requires Holds(g0, x) && Holds(g0, y)
  {
    var s1, s2 := FirstFree(g0.memory), ScratchCell(g0.memory);
    u.out == t.out && Cell(u, s1) == Cell(t, CellOfName(g0, x)) &&
    Cell(u, s2) == Cell(t, CellOfName(g0, y)) && Keeps(t, u, {s1, s2})
  }

  /**
   * The copies of `plus`, run: the least free cell and the one after it
   * receive x's and y's bytes; no other cell changes.
   */
  lemma CopiesRun(g0: Gen, g1: Gen, g2: Gen, n1: string, n2: string, x: string, y: string, t: Tape, fuel: nat)
    returns (p: Prog, u: Tape)
    requires Realizes(g0, t) && Holds(g0, x) && Holds(g0, y) && fuel >= 256
    requires CopyFields(g0, g1, n1, CellOfName(g0, x)) && CopyFields(g1, g2, n2, CellOfName(g0, y))
    ensures Emits(g0, g2, p, t, u, fuel) && Realizes(g2, u) && CopiesMade(g0, x, y, t, u)
  {
    var sx, sy := CellOfName(g0, x), CellOfName(g0, y);
    var s1 := FirstFree(g0.memory);
    var p1, u1 := CopyStep(g0, g1, n1, sx, t, fuel);
    var p2, u2 := CopyStep(g1, g2, n2, sy, u1, fuel);
    var s2 := FirstFree(g1.memory);
    assert s2 == ScratchCell(g0.memory);
    EmitsChain(g0, g1, g2, p1, p2, t, u1, u2, fuel);
    p, u := p1 + p2, u2;
    assert Cell(u1, sy) == Cell(t, sy);
    forall i | i != s1 && i != s2
      ensures Cell(u, i) == Cell(t, i)
    {
      assert Cell(u, i) == Cell(u1, i);
    }
  }

  // ---------------------------------------------------------------------
  // The sum and the frees

  /** What `memoryFree(name, true, true)` of an int8 cell changes. */
  ghost predicate Freed(g: Gen, r: Gen, name: string, i: nat)
  {
    name in g.variables && g.variables[name] == Int8(i) &&
    r.variables == g.variables - {name} && r.memory == g.memory - {i} &&
    r.pointer == g.pointer && r.counter == g.counter && r.stack == g.stack &&
    r.result == g.result + Show(Moves(g.pointer, i) + [Loop([Dec])] + Moves(i, g.pointer))
  }

  /** Freeing an int8 cell with zero fill and the pointer kept succeeds as `Freed` says. */
  lemma FreedHolds(g: Gen, name: string, i: nat) returns (r: Gen)
    requires name in g.variables && g.variables[name] == Int8(i)
    ensures Free(g, name, true, true) == Ok(r) && Freed(g, r, name, i)
  {
    FreeEffect(g, name, true, true);
    r := Free(g, name, true, true).value;
    assert KeyCells(Int8(i)) == {i};
  }

  /** A free with zero fill, run: the cell is cleared, the pointer comes back, no other cell changes. */
  lemma FreeRun(g: Gen, r: Gen, name: string, i: nat, t: Tape, fuel: nat) returns (p: Prog, u: Tape)
    requires Realizes(g, t) && i in g.memory && Freed(g, r, name, i) && fuel >= 256
    ensures Emits(g, r, p, t, u, fuel) && Realizes(r, u) && u.out == t.out && Cell(u, i) == 0 && Keeps(t, u, {i})
  {
    var p0 := g.pointer;
    var t1 := t.(ptr := i);
    ExecMoves(t, i, fuel);
    ClearLoop(t1, fuel);
    var t2 := Exec([Loop([Dec])], t1, fuel).value;
    ExecMoves(t2, p0, fuel);
    u := t2.(ptr := p0);
    Chain(Moves(p0, i), [Loop([Dec])], t, t1, t2, fuel);
    Chain(Moves(p0, i) + [Loop([Dec])], Moves(i, p0), t, t2, u, fuel);
    p := Moves(p0, i) + [Loop([Dec])] + Moves(i, p0);
    assert forall j :: j != i ==> Cell(u, j) == Cell(t2, j) == Cell(t1, j);
  }

  /** A literal's temporary freed, or nothing for a name operand. */
  ghost predicate FreedTemp(g: Gen, r: Gen, o: Operand, i: nat)
  {
    if o.temp then Freed(g, r, o.name, i) else r == g
  }

  /** The cells of the operands that are literal temporaries. */
  function TempCells(a: Operand, ia: nat, b: Operand, ib: nat): set<int>
  {
    (if a.temp then {ia} else {}) + (if b.temp then {ib} else {})
  }

  /** A temporary operand is bound to the int8 cell i, and is not the second copy. */
  ghost predicate TempAt(g: Gen, o: Operand, i: nat, k: nat)
  {
    o.temp ==> o.name in g.variables && g.variables[o.name] == Int8(i) && o.name != TempName("compilator_", k + 1)
  }

  /**
   * The rest of `plus` succeeds once the copies are bound to two cells:
   * the drain, then the frees of the second copy and of each temporary.
   */
  lemma SumHolds(g2: Gen, k: nat, a: Operand, b: Operand, ia: nat, ib: nat) returns (g3: Gen, g4: Gen, g5: Gen, g6: Gen)
    requires TempName("compilator_", k) in g2.variables && TempName("compilator_", k + 1) in g2.variables
    requires g2.variables[TempName("compilator_", k)].Int8? && g2.variables[TempName("compilator_", k + 1)].Int8?
    requires TempAt(g2, a, ia, k) && TempAt(g2, b, ib, k) && (a.temp && b.temp ==> a.name != b.name)
    ensures var s1, s2 := g2.variables[TempName("compilator_", k)].index, g2.variables[TempName("compilator_", k + 1)].index;
      g3 == Emit(MoveTo(g2, s2), [Loop(Drain(s2, s1, 1))]) &&
      Freed(g3, g4, TempName("compilator_", k + 1), s2) && FreedTemp(g4, g5, a, ia) && FreedTemp(g5, g6, b, ib) &&
      Sum(g2, k, a, b) == Ok(MoveTo(g6, s1))
  {
    var cs := TempName("compilator_", k + 1);
    var s1, s2 := g2.variables[TempName("compilator_", k)].index, g2.variables[cs].index;
    g3 := Emit(MoveTo(g2, s2), [Loop(Drain(s2, s1, 1))]);
    g4 := FreedHolds(g3, cs, s2);
    if a.temp {
      g5 := FreedHolds(g4, a.name, ia);
    } else {
      g5 := g4;
    }
    if b.temp {
      assert g5.variables[b.name] == g2.variables[b.name];
      g6 := FreedHolds(g5, b.name, ib);
    } else {
      g6 := g5;
    }
  }

  /** `s2[- s1+ s2]` from wherever the pointer was: the first copy receives the second's byte. */
  lemma DrainRun(g2: Gen, s1: nat, s2: nat, u: Tape, fuel: nat) returns (p: Prog, w: Tape)
    requires Realizes(g2, u) && fuel >= 256 && s1 != s2 && s1 in g2.memory && s2 in g2.memory
    ensures var g3 := Emit(MoveTo(g2, s2), [Loop(Drain(s2, s1, 1))]);
      Emits(g2, g3, p, u, w, fuel) && Realizes(g3, w) && w.out == u.out &&
      Cell(w, s1) == ByteSum(Cell(u, s1), Cell(u, s2)) && Cell(w, s2) == 0 && Keeps(u, w, {s1, s2})
  {
    var u1 := u.(ptr := s2);
    MoveEmits(g2, s2, u, fuel);
    DrainLoop(s2, s1, 1, u1, fuel);
    w := Exec([Loop(Drain(s2, s1, 1))], u1, fuel).value;
    EmitEmits(MoveTo(g2, s2), [Loop(Drain(s2, s1, 1))], u1, w, fuel);
    var g3 := Emit(MoveTo(g2, s2), [Loop(Drain(s2, s1, 1))]);
    EmitsChain(g2, MoveTo(g2, s2), g3, Moves(g2.pointer, s2), [Loop(Drain(s2, s1, 1))], u, u1, w, fuel);
    p := Moves(g2.pointer, s2) + [Loop(Drain(s2, s1, 1))];
  }

  /** A temporary's free, run, or nothing for a name operand. */
  lemma FreeTempRun(g: Gen, r: Gen, o: Operand, i: nat, t: Tape, fuel: nat) returns (p: Prog, u: Tape)
    requires Realizes(g, t) && (o.temp ==> i in g.memory) && FreedTemp(g, r, o, i) && fuel >= 256
    ensures Emits(g, r, p, t, u, fuel) && Realizes(r, u) && u.out == t.out
    ensures o.temp ==> Cell(u, i) == 0 && Keeps(t, u, {i})
    ensures !o.temp ==> u == t
  {
    if o.temp {
      p, u := FreeRun(g, r, o.name, i, t, fuel);
    } else {
      p, u := [], t;
      assert g.result + Show([]) == g.result;
    }
  }

  /** The frees of `plus`, run: the second copy and the temporaries end at 0; no other cell changes. */
  lemma FreesRun(g3: Gen, g4: Gen, g5: Gen, g6: Gen, cs: string, a: Operand, b: Operand, ia: nat, ib: nat,
                 s2: nat, t: Tape, fuel: nat) returns (p: Prog, u: Tape)
    requires Realizes(g3, t) && fuel >= 256 && s2 in g3.memory
    requires a.temp ==> ia in g3.memory && ia != s2
    requires b.temp ==> ib in g3.memory && ib != s2 && (a.temp ==> ia != ib)
    requires Freed(g3, g4, cs, s2) && FreedTemp(g4, g5, a, ia) && FreedTemp(g5, g6, b, ib)
    ensures Emits(g3, g6, p, t, u, fuel) && Realizes(g6, u) && u.out == t.out && Cell(u, s2) == 0
    ensures forall i :: i in TempCells(a, ia, b, ib) ==> Cell(u, i) == 0
    ensures Keeps(t, u, {s2} + TempCells(a, ia, b, ib))
  {
    var p1, u1 := FreeRun(g3, g4, cs, s2, t, fuel);
    var p2, u2 := FreeTempRun(g4, g5, a, ia, u1, fuel);
    EmitsChain(g3, g4, g5, p1, p2, t, u1, u2, fuel);
    var p3, u3 := FreeTempRun(g5, g6, b, ib, u2, fuel);
    EmitsChain(g3, g5, g6, p1 + p2, p3, t, u2, u3, fuel);
    p, u := p1 + p2 + p3, u3;
  }

  /**
   * The rest of `plus`, run: the first copy receives the byte sum, the
   * second copy and the temporaries end at 0, and the pointer is parked on
   * the first copy.
   */
  lemma SumRun(g2: Gen, g3: Gen, g4: Gen, g5: Gen, g6: Gen, cs: string, a: Operand, b: Operand, ia: nat, ib: nat,
               s1: nat, s2: nat, u: Tape, fuel: nat) returns (p: Prog, w: Tape)
    requires Realizes(g2, u) && fuel >= 256 && s1 != s2 && s1 in g2.memory && s2 in g2.memory
    requires a.temp ==> ia in g2.memory && ia != s1 && ia != s2
    requires b.temp ==> ib in g2.memory && ib != s1 && ib != s2 && (a.temp ==> ia != ib)
    requires g3 == Emit(MoveTo(g2, s2), [Loop(Drain(s2, s1, 1))])
    requires Freed(g3, g4, cs, s2) && FreedTemp(g4, g5, a, ia) && FreedTemp(g5, g6, b, ib)
    ensures Emits(g2, MoveTo(g6, s1), p, u, w, fuel) && Realizes(MoveTo(g6, s1), w) && w.out == u.out
    ensures Cell(w, s1) == ByteSum(Cell(u, s1), Cell(u, s2)) && Cell(w, s2) == 0
    ensures forall i :: i in TempCells(a, ia, b, ib) ==> Cell(w, i) == 0
    ensures Keeps(u, w, {s1, s2} + TempCells(a, ia, b, ib))
  {
    var p0, u2 := DrainRun(g2, s1, s2, u, fuel);
    var p1, u5 := FreesRun(g3, g4, g5, g6, cs, a, b, ia, ib, s2, u2, fuel);
    EmitsChain(g2, g3, g6, p0, p1, u, u2, u5, fuel);
    MoveEmits(g6, s1, u5, fuel);
    w := u5.(ptr := s1);
    EmitsChain(g2, g6, MoveTo(g6, s1), p0 + p1, Moves(g6.pointer, s1), u, u5, w, fuel);
    p := p0 + p1 + Moves(g6.pointer, s1);
    assert Cell(w, s1) == Cell(u2, s1);
  }

  // ---------------------------------------------------------------------
  // `plus` as a whole

  /** Both operands prepared, in order: each a one-cell variable holding its byte. */
  lemma OperandsRun(g: Gen, n0: Node, n1: Node, rev: Revision, t: Tape, fuel: nat)
    returns (a: Operand, b: Operand, p: Prog, u1: Tape, u: Tape)
    requires Realizes(g, t) && Fresh(g) && OperandOk(g, n0, rev) && OperandOk(g, n1, rev) && fuel >= 256
    ensures PlusOperand(g, n0, rev) == Ok(a) && PlusOperand(a.g, n1, rev) == Ok(b)
    ensures Emits(g, b.g, p, t, u, fuel) && Realizes(b.g, u) && u.out == t.out && Fresh(b.g)
    ensures Holds(b.g, a.name) && Holds(b.g, b.name)
    ensures Cell(u, CellOfName(b.g, a.name)) == OperandByte(g, n0, rev, t)
    ensures Cell(u, CellOfName(b.g, b.name)) == OperandByte(g, n1, rev, t)
    ensures Prepared(g, a, t, u1) && Prepared(a.g, b, u1, u)
  {
    OperandHolds(g, n0, rev);
    a := PlusOperand(g, n0, rev).value;
    var p1;
    p1, u1 := OperandRun(g, a, n0, rev, t, fuel);
    OperandStays(g, a, n1, rev, t, u1);
    OperandHolds(a.g, n1, rev);
    b := PlusOperand(a.g, n1, rev).value;
    var p2;
    p2, u := OperandRun(a.g, b, n1, rev, u1, fuel);
    BoundStays(a.g, b, a.name, u1, u);
    EmitsChain(g, a.g, b.g, p1, p2, t, u1, u, fuel);
    p := p1 + p2;
  }

  /** The copies of `plus` succeed on one-cell variables; the two new cells hold x's and y's bytes. */
  lemma CopiesPlus(gb: Gen, x: string, y: string, t: Tape, fuel: nat) returns (g2: Gen, p: Prog, u: Tape)
    requires Realizes(gb, t) && Fresh(gb) && Holds(gb, x) && Holds(gb, y) && fuel >= 256
    ensures Copies(gb, x, y) == Ok(g2) && Emits(gb, g2, p, t, u, fuel) && Realizes(g2, u)
    ensures CopyState(gb, gb.counter, g2) && CopiesMade(gb, x, y, t, u)
  {
    var k := gb.counter;
    var g0 := Tick(Tick(gb));
    var g1;
    g1, g2 := CopyPairHolds(g0, k, x, y);
    CopyPairState(g0, g1, g2, k, CellOfName(g0, x), CellOfName(g0, y));
    p, u := CopiesRun(g0, g1, g2, TempName("compilator_", k), TempName("compilator_", k + 1), x, y, t, fuel);
  }

  /** The names of the operands that are literal temporaries. */
  function TempNames(a: Operand, b: Operand): set<string>
  {
    (if a.temp then {a.name} else {}) + (if b.temp then {b.name} else {})
  }

  lemma NotTemp(x: string, a: Operand, b: Operand)
    requires (a.temp ==> x != a.name) && (b.temp ==> x != b.name)
    ensures x !in TempNames(a, b)
  {
  }

  /** A temporary operand is bound to the cell `i`, and is neither copy. */
  ghost predicate TempBound(gb: Gen, o: Operand, i: nat, k: nat)
  {
    o.temp ==>
      o.name in gb.variables && gb.variables[o.name] == Int8(i) && i in gb.memory &&
      o.name != TempName("compilator_", k) && o.name != TempName("compilator_", k + 1)
  }

  /** The bindings and cells the frees of `plus` release: the second copy and the temporaries. */
  lemma SumState(g2: Gen, g3: Gen, g4: Gen, g5: Gen, g6: Gen, cs: string, a: Operand, b: Operand, ia: nat, ib: nat, s2: nat)
    requires g3.variables == g2.variables && g3.memory == g2.memory
    requires Freed(g3, g4, cs, s2) && FreedTemp(g4, g5, a, ia) && FreedTemp(g5, g6, b, ib)
    ensures g6.variables == g2.variables - ({cs} + TempNames(a, b))
    ensures g6.memory == g2.memory - ({s2} + TempCells(a, ia, b, ib))
  {
  }

  /** The state the rest of `plus` leaves: the second copy and the temporaries released, the pointer on the first copy. */
  ghost predicate SumLeft(g2: Gen, k: nat, a: Operand, b: Operand, ia: nat, ib: nat, s1: nat, s2: nat, r: Gen)
  {
    r.variables == g2.variables - ({TempName("compilator_", k + 1)} + TempNames(a, b)) &&
    r.memory == g2.memory - ({s2} + TempCells(a, ia, b, ib)) &&
    r.pointer == s1 && r.stack == g2.stack && r.counter == g2.counter
  }

  /**
   * The rest of `plus` once the copies exist, run: the first copy holds the
   * byte sum, the second copy and the temporaries are released and end at
   * 0, and the pointer is parked on the first copy.
   */
  lemma SumPlus(gb: Gen, g2: Gen, k: nat, a: Operand, b: Operand, ia: nat, ib: nat, u: Tape, fuel: nat)
    returns (r: Gen, p: Prog, w: Tape)
    requires CopyState(gb, k, g2) && Realizes(g2, u) && fuel >= 256
    requires TempBound(gb, a, ia, k) && TempBound(gb, b, ib, k) && (a.temp && b.temp ==> a.name != b.name && ia != ib)
    ensures var s1, s2 := FirstFree(gb.memory), ScratchCell(gb.memory);
      Sum(g2, k, a, b) == Ok(r) && Emits(g2, r, p, u, w, fuel) && Realizes(r, w) && w.out == u.out &&
      SumLeft(g2, k, a, b, ia, ib, s1, s2, r) &&
      Cell(w, s1) == ByteSum(Cell(u, s1), Cell(u, s2)) && Cell(w, s2) == 0 &&
      (forall i :: i in TempCells(a, ia, b, ib) ==> Cell(w, i) == 0) &&
      Keeps(u, w, {s1, s2} + TempCells(a, ia, b, ib))
  {
    var cs := TempName("compilator_", k + 1);
    var s1, s2 := FirstFree(gb.memory), ScratchCell(gb.memory);
    TempNamesDiffer("compilator_", k, k + 1);
    var g3, g4, g5, g6 := SumHolds(g2, k, a, b, ia, ib);
    p, w := SumRun(g2, g3, g4, g5, g6, cs, a, b, ia, ib, s1, s2, u, fuel);
    SumState(g2, g3, g4, g5, g6, cs, a, b, ia, ib, s2);
    r := MoveTo(g6, s1);
  }

  /** `plus` with both children, parsed into its steps, unfolded: the composition `Plus` is. */
  lemma PlusUnfold(g: Gen, n: Node, rev: Revision, a: Operand, b: Operand, g2: Gen, r: Gen)
    requires |n.childs| >= 2
    requires PlusOperand(g, n.childs[0], rev) == Ok(a) && PlusOperand(a.g, n.childs[1], rev) == Ok(b)
    requires Copies(b.g, a.name, b.name) == Ok(g2) && Sum(g2, b.g.counter, a, b) == Ok(r)
    ensures Compile.Plus(g, n, rev) == Ok(r)
  {
  }

  /** A literal's temporary bound to cell i, or the bindings as they were. */
  function Bind(m: map<string, Binding>, o: Operand, i: nat): map<string, Binding>
  {
    if o.temp then m[o.name := Int8(i)] else m
  }

  /**
   * The bindings `plus` leaves: the temporaries and the second copy are
   * gone again, and the first copy is the one new binding.
   */
  lemma PlusVars(m0: map<string, Binding>, mb: map<string, Binding>, m2: map<string, Binding>, mr: map<string, Binding>,
                 a: Operand, b: Operand, ia: nat, ib: nat, cf: string, cs: string, s1: nat, s2: nat)
    requires a.temp ==> a.name !in m0
    requires b.temp ==> b.name !in m0 && (a.temp ==> b.name != a.name)
    requires cf !in TempNames(a, b) && cs !in TempNames(a, b) && cs !in m0 && cf != cs
    requires mb == Bind(Bind(m0, a, ia), b, ib) && m2 == mb[cf := Int8(s1)][cs := Int8(s2)]
    requires mr == m2 - ({cs} + TempNames(a, b))
    ensures mr == m0[cf := Int8(s1)]
  {
  }

  /**
   * The state `plus` leaves: one new binding, the first copy `compilator_k`,
   * on a cell that was free, with the pointer parked on it; the names to
   * come are still unbound.
   */
  ghost predicate PlusState(g: Gen, r: Gen)
  {
    r.pointer !in g.memory && r.memory == g.memory + {r.pointer} && r.counter >= g.counter + 4 &&
    r.variables == g.variables[TempName("compilator_", r.counter - 4) := Int8(r.pointer)] &&
    r.stack == g.stack
  }

  /** A literal's temporary cell marked occupied, or the cells as they were. */
  function Occupy(m: set<nat>, o: Operand, i: nat): set<nat>
  {
    if o.temp then m + {i} else m
  }

  /** What preparing both operands did to the bindings and the cells. */
  ghost predicate OperandsLeft(g: Gen, a: Operand, b: Operand)
  {
    b.g.variables == Bind(Bind(g.variables, a, TempCell(g, a)), b, TempCell(a.g, b)) &&
    b.g.memory == Occupy(Occupy(g.memory, a, TempCell(g, a)), b, TempCell(a.g, b)) &&
    (a.temp ==> a.name !in g.variables && TempCell(g, a) !in g.memory) &&
    (b.temp ==>
      b.name !in g.variables && (a.temp ==> b.name != a.name) &&
      TempCell(a.g, b) !in g.memory && (a.temp ==> TempCell(a.g, b) != TempCell(g, a))) &&
    b.g.counter >= g.counter && b.g.stack == g.stack
  }

  lemma OperandsState(g: Gen, a: Operand, b: Operand, t: Tape, u1: Tape, u2: Tape)
    requires Prepared(g, a, t, u1) && Prepared(a.g, b, u1, u2)
    ensures OperandsLeft(g, a, b)
  {
  }

  /** The cells `plus` leaves occupied: the ones before, and the first copy. */
  lemma PlusMemory(m0: set<nat>, a: Operand, b: Operand, ia: nat, ib: nat, s1: nat, s2: nat)
    requires a.temp ==> ia !in m0
    requires b.temp ==> ib !in m0 && (a.temp ==> ib != ia)
    requires s1 != s2 && s1 !in Occupy(Occupy(m0, a, ia), b, ib) && s2 !in Occupy(Occupy(m0, a, ia), b, ib)
    ensures Occupy(Occupy(m0, a, ia), b, ib) + {s1, s2} - ({s2} + TempCells(a, ia, b, ib)) == m0 + {s1}
    ensures s1 !in m0
  {
  }

  /** The cells the steps of `plus` leave occupied: the ones before, and the first copy. */
  lemma PlusBookMemory(g: Gen, a: Operand, b: Operand, g2: Gen, r: Gen)
    requires OperandsLeft(g, a, b) && CopyState(b.g, b.g.counter, g2)
    requires SumLeft(g2, b.g.counter, a, b, TempCell(g, a), TempCell(a.g, b), FirstFree(b.g.memory), ScratchCell(b.g.memory), r)
    ensures FirstFree(b.g.memory) !in g.memory && ScratchCell(b.g.memory) !in g.memory
    ensures r.memory == g.memory + {FirstFree(b.g.memory)}
  {
    PlusMemory(g.memory, a, b, TempCell(g, a), TempCell(a.g, b), FirstFree(b.g.memory), ScratchCell(b.g.memory));
  }

  /** The bindings the steps of `plus` leave: the ones before, and the first copy. */
  lemma PlusBookVariables(g: Gen, a: Operand, b: Operand, g2: Gen, r: Gen)
    requires OperandsLeft(g, a, b) && OperandsApart(g, a, b) && CopyState(b.g, b.g.counter, g2)
    requires TempName("compilator_", b.g.counter + 1) !in g.variables
    requires SumLeft(g2, b.g.counter, a, b, TempCell(g, a), TempCell(a.g, b), FirstFree(b.g.memory), ScratchCell(b.g.memory), r)
    ensures r.variables == g.variables[TempName("compilator_", b.g.counter) := Int8(FirstFree(b.g.memory))]
  {
    var k := b.g.counter;
    var cf, cs := TempName("compilator_", k), TempName("compilator_", k + 1);
    TempNamesDiffer("compilator_", k, k + 1);
    PlusVars(g.variables, b.g.variables, g2.variables, r.variables,
      a, b, TempCell(g, a), TempCell(a.g, b), cf, cs, FirstFree(b.g.memory), ScratchCell(b.g.memory));
  }

  /**
   * The cells the steps of `plus` touch, run: every one but the first copy
   * ends as it started, since the others were free and end at 0.
   */
  lemma PlusCells(m: set<nat>, a: Operand, b: Operand, ia: nat, ib: nat, s1: nat, s2: nat,
                  t: Tape, u1: Tape, u2: Tape, u3: Tape, u: Tape)
    requires FreeZero(m, t) && s2 !in m
    requires if a.temp then Keeps(t, u1, {ia}) && ia !in m else u1 == t
    requires if b.temp then Keeps(u1, u2, {ib}) && ib !in m else u2 == u1
    requires Keeps(u2, u3, {s1, s2}) && Keeps(u3, u, {s1, s2} + TempCells(a, ia, b, ib))
    requires Cell(u, s2) == 0 && forall i :: i in TempCells(a, ia, b, ib) ==> Cell(u, i) == 0
    ensures Keeps(t, u, {s1})
  {
    forall i | i != s1
      ensures Cell(u, i) == Cell(t, i)
    {
      if i == s2 || i in TempCells(a, ia, b, ib) {
        assert i !in m;
      } else {
        assert Cell(u, i) == Cell(u3, i) == Cell(u2, i) == Cell(u1, i);
      }
    }
  }

  /** The cell a literal operand's temporary took: the least free one before it. */
  function TempCell(g: Gen, o: Operand): nat
  {
    if o.temp then FirstFree(g.memory) else 0
  }

  /** Two prepared operands: each temporary is bound to its own cell, and neither is a copy. */
  ghost predicate OperandsApart(g: Gen, a: Operand, b: Operand)
  {
    var k := b.g.counter;
    TempBound(b.g, a, TempCell(g, a), k) && TempBound(b.g, b, TempCell(a.g, b), k) &&
    (a.temp && b.temp ==> a.name != b.name && TempCell(g, a) != TempCell(a.g, b)) &&
    TempName("compilator_", k) !in TempNames(a, b) && TempName("compilator_", k + 1) !in TempNames(a, b)
  }

  lemma OperandsBound(g: Gen, a: Operand, b: Operand, t: Tape, u1: Tape, u: Tape)
    requires Prepared(g, a, t, u1) && Prepared(a.g, b, u1, u)
    ensures OperandsApart(g, a, b)
  {
    var k := b.g.counter;
    PrefixesDiffer(k, g.counter);
    PrefixesDiffer(k + 1, g.counter);
    PrefixesDiffer(k, a.g.counter);
    PrefixesDiffer(k + 1, a.g.counter);
    NotTemp(TempName("compilator_", k), a, b);
    NotTemp(TempName("compilator_", k + 1), a, b);
  }

  /**
   * What `plus` leaves behind, run: the state `PlusState` says, the first
   * copy holding `v`, and no other cell changed.
   */
  ghost predicate PlusDone(g: Gen, r: Gen, t: Tape, u: Tape, v: Byte)
  {
    PlusState(g, r) && Realizes(r, u) && u.out == t.out && Cell(u, r.pointer) == v && Keeps(t, u, {r.pointer})
  }

  /** The facts each step of `plus` leaves, from the two operands to the sum. */
  ghost predicate PlusTrace(g: Gen, a: Operand, b: Operand, g2: Gen, r: Gen,
                            t: Tape, u1: Tape, u2: Tape, u3: Tape, u: Tape, x: Byte, y: Byte)
  {
    var k, s1, s2 := b.g.counter, FirstFree(b.g.memory), ScratchCell(b.g.memory);
    var ia, ib := TempCell(g, a), TempCell(a.g, b);
    Realizes(g, t) && Fresh(g) && Prepared(g, a, t, u1) && Prepared(a.g, b, u1, u2) &&
    Holds(b.g, a.name) && Holds(b.g, b.name) &&
    Cell(u2, CellOfName(b.g, a.name)) == x && Cell(u2, CellOfName(b.g, b.name)) == y &&
    CopyState(b.g, k, g2) && CopiesMade(b.g, a.name, b.name, u2, u3) &&
    SumLeft(g2, k, a, b, ia, ib, s1, s2, r) &&
    Realizes(r, u) && u.out == t.out &&
    Cell(u, s1) == ByteSum(Cell(u3, s1), Cell(u3, s2)) && Cell(u, s2) == 0 &&
    (forall i :: i in TempCells(a, ia, b, ib) ==> Cell(u, i) == 0) &&
    Keeps(u3, u, {s1, s2} + TempCells(a, ia, b, ib))
  }

  /** `plus` on two operands it can use, step by step: each step succeeds, run. */
  lemma PlusSteps(g: Gen, n: Node, rev: Revision, t: Tape, fuel: nat)
    returns (a: Operand, b: Operand, g2: Gen, r: Gen, p: Prog, u1: Tape, u2: Tape, u3: Tape, u: Tape)
    requires Realizes(g, t) && Fresh(g) && |n.childs| >= 2 && fuel >= 256
    requires OperandOk(g, n.childs[0], rev) && OperandOk(g, n.childs[1], rev)
    ensures Compile.Plus(g, n, rev) == Ok(r) && Emits(g, r, p, t, u, fuel)
    ensures PlusTrace(g, a, b, g2, r, t, u1, u2, u3, u,
      OperandByte(g, n.childs[0], rev, t), OperandByte(g, n.childs[1], rev, t))
  {
    var p1, p2, p3;
    a, b, p1, u1, u2 := OperandsRun(g, n.childs[0], n.childs[1], rev, t, fuel);
    OperandsBound(g, a, b, t, u1, u2);
    g2, p2, u3 := CopiesPlus(b.g, a.name, b.name, u2, fuel);
    r, p3, u := SumPlus(b.g, g2, b.g.counter, a, b, TempCell(g, a), TempCell(a.g, b), u3, fuel);
    PlusUnfold(g, n, rev, a, b, g2, r);
    EmitsChain(g, b.g, g2, p1, p2, t, u2, u3, fuel);
    EmitsChain(g, g2, r, p1 + p2, p3, t, u3, u, fuel);
    p := p1 + p2 + p3;
  }

  /** The steps of `plus` add up to `PlusDone`. */
  lemma PlusFinish(g: Gen, a: Operand, b: Operand, g2: Gen, r: Gen,
                   t: Tape, u1: Tape, u2: Tape, u3: Tape, u: Tape, x: Byte, y: Byte)
    requires PlusTrace(g, a, b, g2, r, t, u1, u2, u3, u, x, y)
    ensures PlusDone(g, r, t, u, ByteSum(x, y))
  {
    var k := b.g.counter;
    OperandsState(g, a, b, t, u1, u2);
    OperandsBound(g, a, b, t, u1, u2);
    PlusBookMemory(g, a, b, g2, r);
    PlusBookVariables(g, a, b, g2, r);
    FreshBind(g, r, TempName("compilator_", k), k);
    PlusCells(g.memory, a, b, TempCell(g, a), TempCell(a.g, b), r.pointer, ScratchCell(b.g.memory), t, u1, u2, u3, u);
  }

  /**
   * `plus` on two operands it can use succeeds, and its code, run, leaves
   * the byte sum of the operands in a fresh cell and changes no other cell.
   */
  lemma PlusTape(g: Gen, n: Node, rev: Revision, t: Tape, fuel: nat) returns (r: Gen, p: Prog, u: Tape)
    requires Realizes(g, t) && Fresh(g) && |n.childs| >= 2 && fuel >= 256
    requires OperandOk(g, n.childs[0], rev) && OperandOk(g, n.childs[1], rev)
    ensures Compile.Plus(g, n, rev) == Ok(r) && Emits(g, r, p, t, u, fuel)
    ensures PlusDone(g, r, t, u, ByteSum(OperandByte(g, n.childs[0], rev, t), OperandByte(g, n.childs[1], rev, t)))
  {
    var a, b, g2, u1, u2, u3;
    a, b, g2, r, p, u1, u2, u3, u := PlusSteps(g, n, rev, t, fuel);
    PlusFinish(g, a, b, g2, r, t, u1, u2, u3, u,
      OperandByte(g, n.childs[0], rev, t), OperandByte(g, n.childs[1], rev, t));
  }

  // ---------------------------------------------------------------------
  // `set` (main.js) and `assign` (new.js)

  /** The names `plus` and a copy make for themselves start with `compilator_`. */
  predicate IsCopyName(name: string)
  {
    |name| >= 11 && name[..11] == "compilator_"
  }

  lemma CopyNameShape(k: nat)
    ensures IsCopyName(TempName("compilator_", k))
  {
    assert TempName("compilator_", k)[..11] == "compilator_";
  }

  /**
   * What a successful assignment to `name` leaves: the state still
   * describes the tape, nothing was printed, `name` is bound to an int8
   * cell that was free in `g` and now holds `v`, and no cell occupied in
   * `g` changed.
   */
  ghost predicate Assigned(g: Gen, r: Gen, name: string, t: Tape, u: Tape, v: Byte)
  {
    Realizes(r, u) && u.out == t.out &&
    name in r.variables && r.variables[name].Int8? &&
    r.variables[name].index !in g.memory && r.variables[name].index in r.memory &&
    Cell(u, r.variables[name].index) == v &&
    forall i :: i in g.memory ==> Cell(u, i) == Cell(t, i)
  }

  /** Copying an occupied cell into `name` assigns it that cell's byte. */
  lemma CopyAssigned(g: Gen, name: string, src: nat, t: Tape, fuel: nat) returns (p: Prog, u: Tape)
    requires Realizes(g, t) && src in g.memory && fuel >= 256 && !IsCopyName(name)
    ensures Emits(g, CopyByIndex(g, name, src), p, t, u, fuel)
    ensures Assigned(g, CopyByIndex(g, name, src), name, t, u, Cell(t, src))
  {
    CopyNameShape(g.counter);
    var d, c := FirstFree(g.memory), ScratchCell(g.memory);
    CopyByIndexTape(g, name, src, t, fuel);
    CopyByIndexEffect(g, name, src);
    p := CopyCode(g.pointer, src, d, c);
    u := Exec(p, t, fuel).value;
  }

  /** Creating `name` from a whole number assigns it the number as `varCreate_Int8` stores it. */
  lemma CreateAssigned(g: Gen, name: string, v: int, t: Tape, fuel: nat) returns (p: Prog, u: Tape)
    requires Realizes(g, t) && fuel >= 256
    ensures Emits(g, CreateInt8(g, name, v), p, t, u, fuel)
    ensures Assigned(g, CreateInt8(g, name, v), name, t, u, if v >= 0 then v % 256 else 0)
  {
    CreateInt8Tape(g, name, v, t, fuel);
    CreateInt8Effect(g, name, v);
    p := Int8Code(g, v);
    u := Exec(p, t, fuel).value;
  }

  /** A `plus` right side, then the copy of the cell it leaves the pointer on. */
  lemma PlusAssigned(g: Gen, right: Node, name: string, rev: Revision, t: Tape, fuel: nat)
    returns (r1: Gen, p: Prog, u: Tape)
    requires Realizes(g, t) && Fresh(g) && fuel >= 256 && !IsCopyName(name)
    requires |right.childs| >= 2 && OperandOk(g, right.childs[0], rev) && OperandOk(g, right.childs[1], rev)
    ensures Compile.Plus(g, right, rev) == Ok(r1)
    ensures Emits(g, CopyByIndex(r1, name, r1.pointer), p, t, u, fuel)
    ensures Assigned(g, CopyByIndex(r1, name, r1.pointer), name, t, u,
      ByteSum(OperandByte(g, right.childs[0], rev, t), OperandByte(g, right.childs[1], rev, t)))
  {
    var p1, u1, p2;
    r1, p1, u1 := PlusTape(g, right, rev, t, fuel);
    p2, u := CopyAssigned(r1, name, r1.pointer, u1, fuel);
    EmitsChain(g, r1, CopyByIndex(r1, name, r1.pointer), p1, p2, t, u1, u, fuel);
    p := p1 + p2;
  }

  /**
   * What `set` and `assign` need of a right side to succeed: a `plus` of
   * usable operands, a name bound to one occupied cell, or a whole-number
   * literal.
   */
  ghost predicate RightOk(g: Gen, right: Node, rev: Revision)
  {
    if right.kind.Plus? then
      Fresh(g) && |right.childs| >= 2 && OperandOk(g, right.childs[0], rev) && OperandOk(g, right.childs[1], rev)
    else OperandOk(g, right, rev)
  }

  /** The byte such a right side stands for. */
  ghost function RightByte(g: Gen, right: Node, rev: Revision, t: Tape): Byte
    requires RightOk(g, right, rev)
  {
    if right.kind.Plus? then ByteSum(OperandByte(g, right.childs[0], rev, t), OperandByte(g, right.childs[1], rev, t))
    else OperandByte(g, right, rev, t)
  }

  /** `SetMain` on a `plus` right side: the `plus`, then a copy of its cell. */
  lemma SetPlusMain(g: Gen, n: Node, r1: Gen)
    requires |n.childs| >= 2 && n.childs[1].kind.Plus? && Compile.Plus(g, n.childs[1], MainJs) == Ok(r1)
    ensures SetMain(g, n) == Ok(CopyByIndex(r1, Key(n.childs[0].text), r1.pointer))
  {
    assert ChildAt(n, 0) == Ok(n.childs[0]) && ChildAt(n, 1) == Ok(n.childs[1]);
    assert CompileMain(g, n.childs[1]) == Ok(r1);
  }

  /** `AssignNew` on a `plus` right side, the same way. */
  lemma SetPlusNew(g: Gen, n: Node, r1: Gen)
    requires |n.childs| >= 2 && n.childs[1].kind.Plus? && Compile.Plus(g, n.childs[1], NewJs) == Ok(r1)
    ensures AssignNew(g, n) == Ok(CopyByIndex(r1, Key(n.childs[0].text), r1.pointer))
  {
    assert ChildAt(n, 0) == Ok(n.childs[0]) && ChildAt(n, 1) == Ok(n.childs[1]);
    assert CompileNew(g, n.childs[1]) == Ok(r1);
  }

  /** `SetMain` and `AssignNew` on a name right side: a copy of the named cell. */
  lemma SetNameCase(g: Gen, n: Node, rev: Revision)
    requires |n.childs| >= 2 && !n.childs[1].kind.Plus? && IsName(n.childs[1].kind, rev)
    requires Holds(g, Key(n.childs[1].text))
    ensures var r := Ok(CopyByIndex(g, Key(n.childs[0].text), CellOfName(g, Key(n.childs[1].text))));
      (rev == MainJs ==> SetMain(g, n) == r) && (rev == NewJs ==> AssignNew(g, n) == r)
  {
    assert ChildAt(n, 0) == Ok(n.childs[0]) && ChildAt(n, 1) == Ok(n.childs[1]);
  }

  /** `SetMain` and `AssignNew` on a whole-number literal: `varCreate_Int8`. */
  lemma SetNumberCase(g: Gen, n: Node, rev: Revision)
    requires |n.childs| >= 2 && !n.childs[1].kind.Plus? && !IsName(n.childs[1].kind, rev)
    requires n.childs[1].kind.Number? && IsInteger(NumberOf(n.childs[1].text))
    ensures var r := Ok(CreateInt8(g, Key(n.childs[0].text), NumberOf(n.childs[1].text).value));
      (rev == MainJs ==> SetMain(g, n) == r) && (rev == NewJs ==> AssignNew(g, n) == r)
  {
    assert ChildAt(n, 0) == Ok(n.childs[0]) && ChildAt(n, 1) == Ok(n.childs[1]);
  }

  /**
   * `set x = e` in main.js, on a right side it can use: it succeeds, and
   * its code, run, leaves `x` bound to a fresh cell holding the byte `e`
   * stands for, prints nothing and changes no occupied cell.
   */
  lemma SetMainTape(g: Gen, n: Node, t: Tape, fuel: nat) returns (r: Gen, p: Prog, u: Tape)
    requires Realizes(g, t) && fuel >= 256 && |n.childs| >= 2
    requires !IsCopyName(Key(n.childs[0].text)) && RightOk(g, n.childs[1], MainJs)
    ensures SetMain(g, n) == Ok(r) && Emits(g, r, p, t, u, fuel)
    ensures Assigned(g, r, Key(n.childs[0].text), t, u, RightByte(g, n.childs[1], MainJs, t))
  {
    var name, right := Key(n.childs[0].text), n.childs[1];
    if right.kind.Plus? {
      var r1;
      r1, p, u := PlusAssigned(g, right, name, MainJs, t, fuel);
      SetPlusMain(g, n, r1);
      r := CopyByIndex(r1, name, r1.pointer);
    } else if right.kind.Text? {
      var src := CellOfName(g, Key(right.text));
      p, u := CopyAssigned(g, name, src, t, fuel);
      SetNameCase(g, n, MainJs);
      r := CopyByIndex(g, name, src);
    } else {
      var v := NumberOf(right.text).value;
      p, u := CreateAssigned(g, name, v, t, fuel);
      SetNumberCase(g, n, MainJs);
      r := CreateInt8(g, name, v);
    }
  }

  /**
   * `x = e` in new.js, on a right side it can use (a `div` or string right
   * side is not covered): it succeeds, and its code, run, leaves `x` bound
   * to a fresh cell holding the byte `e` stands for, prints nothing and
   * changes no occupied cell.
   */
  lemma AssignNewTape(g: Gen, n: Node, t: Tape, fuel: nat) returns (r: Gen, p: Prog, u: Tape)
    requires Realizes(g, t) && fuel >= 256 && |n.childs| >= 2
    requires !IsCopyName(Key(n.childs[0].text)) && RightOk(g, n.childs[1], NewJs)
    ensures AssignNew(g, n) == Ok(r) && Emits(g, r, p, t, u, fuel)
    ensures Assigned(g, r, Key(n.childs[0].text), t, u, RightByte(g, n.childs[1], NewJs, t))
  {
    var name, right := Key(n.childs[0].text), n.childs[1];
    if right.kind.Plus? {
      var r1;
      r1, p, u := PlusAssigned(g, right, name, NewJs, t, fuel);
      SetPlusNew(g, n, r1);
      r := CopyByIndex(r1, name, r1.pointer);
    } else if right.kind.Identifier? {
      var src := CellOfName(g, Key(right.text));
      p, u := CopyAssigned(g, name, src, t, fuel);
      SetNameCase(g, n, NewJs);
      r := CopyByIndex(g, name, src);
    } else {
      var v := NumberOf(right.text).value;
      p, u := CreateAssigned(g, name, v, t, fuel);
      SetNumberCase(g, n, NewJs);
      r := CreateInt8(g, name, v);
    }
  }
}
