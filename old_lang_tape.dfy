/**
 * What the code `convert_old` emits does to the tape: copies preserve
 * their source, `add` adds modulo 256, `AreEqual` leaves a 0/1 cell,
 * `out … tostring` prints the value plus 48 modulo 256, and a block
 * opened by `if` or `for` runs its body as many times as its counter cell
 * says.
 */
module OldLangTape {
  import opened Wrappers
  import opened Brainfuck
  import opened JsValue
  import opened Codegen
  import opened CodegenTape
  import opened OldLang

  // ---------------------------------------------------------------------
  // Copies

  /** The code a safe copy appends, run from `p0`: `d` receives the source's value, nothing else changes. */
  lemma CopyRun(p0: int, src: nat, d: nat, c: nat, t: Tape, fuel: nat)
    requires src != d && src != c && d != c && t.ptr == p0 && fuel >= 256
    requires Cell(t, d) == 0 && Cell(t, c) == 0
    ensures var p := Moves(p0, d) + Moves(d, c) + CopyLoopsCode(src, d, c);
      Exec(p, t, fuel).Some? &&
      var u := Exec(p, t, fuel).value;
      u.ptr == c && u.out == t.out && Cell(u, d) == Cell(t, src) && Keeps(t, u, {d})
  {
    var m := Moves(p0, d) + Moves(d, c);
    ExecMoves(t, d, fuel);
    ExecMoves(t.(ptr := d), c, fuel);
    Chain(Moves(p0, d), Moves(d, c), t, t.(ptr := d), t.(ptr := c), fuel);
    var t1 := t.(ptr := c);
    ExecMoves(t1, src, fuel);
    var t2 := t1.(ptr := src);
    CopyLoopsTape(src, d, c, t2, fuel);
    var loops := [Loop(CopyOut(src, d, c))] + Moves(src, c) + [Loop(CopyBack(src, c))];
    var u := Exec(loops, t2, fuel).value;
    Chain(Moves(c, src), loops, t1, t2, u, fuel);
    AppendAssoc3(Moves(c, src), [Loop(CopyOut(src, d, c))], Moves(src, c), [Loop(CopyBack(src, c))]);
    Chain(m, CopyLoopsCode(src, d, c), t, t1, u, fuel);
  }

  /**
   * `createVarCopyPointersSafe(name)`: the copy's cell ends holding the
   * source's value and no other cell changes (the source is restored and
   * the scratch cell, left occupied, is back at 0).
   */
  lemma CopyPointersSafeTape(g: Gen, name: string, t: Tape, fuel: nat) returns (p: Prog, u: Tape)
    requires Realizes(g, t) && Holds(g, name) && fuel >= 256
    ensures CopyPointersSafe(g, name).Ok?
    ensures var r := CopyPointersSafe(g, name).value;
      Emits(g, r.g, p, t, u, fuel) && Realizes(r.g, u) && u.out == t.out &&
      r.cell !in g.memory && Cell(u, r.cell) == Cell(t, CellOfName(g, name)) && Keeps(t, u, {r.cell})
  {
    var src := CellOfName(g, name);
    var d, c := FirstFree(g.memory), ScratchCell(g.memory);
    CopyPointersSafeEffect(g, name);
    CopyRun(g.pointer, src, d, c, t, fuel);
    p := Moves(g.pointer, d) + Moves(d, c) + CopyLoopsCode(src, d, c);
    u := Exec(p, t, fuel).value;
    var r := CopyPointersSafe(g, name).value;
    assert r.g.memory == g.memory + {d, c};
    forall i: nat | i !in r.g.memory
      ensures Cell(u, i) == 0
    {
      assert i != d;
    }
  }

  /** The code `createVarCopy` appends, run from `p0`: the source moves into `d` and `e`. */
  lemma MoveRun(p0: int, src: nat, d: nat, e: nat, t: Tape, fuel: nat)
    requires src != d && src != e && d != e && t.ptr == p0 && fuel >= 256
    requires Cell(t, d) == 0 && Cell(t, e) == 0
    ensures var p := Moves(p0, d) + Moves(d, e) + Moves(e, src) + [Loop(CopyOut(src, d, e))];
      Exec(p, t, fuel).Some? &&
      var u := Exec(p, t, fuel).value;
      u.ptr == src && u.out == t.out && Cell(u, d) == Cell(t, src) && Cell(u, e) == Cell(t, src) &&
      Cell(u, src) == 0 && Keeps(t, u, {d, e, src})
  {
    var m := Moves(p0, d) + Moves(d, e) + Moves(e, src);
    ExecMoves(t, d, fuel);
    ExecMoves(t.(ptr := d), e, fuel);
    ExecMoves(t.(ptr := e), src, fuel);
    Chain(Moves(p0, d), Moves(d, e), t, t.(ptr := d), t.(ptr := e), fuel);
    Chain(Moves(p0, d) + Moves(d, e), Moves(e, src), t, t.(ptr := e), t.(ptr := src), fuel);
    var t1 := t.(ptr := src);
    CopyOutLoop(src, d, e, t1, fuel);
    var u := Exec([Loop(CopyOut(src, d, e))], t1, fuel).value;
    Chain(m, [Loop(CopyOut(src, d, e))], t, t1, u, fuel);
  }

  /**
   * `createVarCopy(name)` is a move: the copy and the cell the name is
   * rebound to both hold the old value, the old cell is emptied (it stays
   * occupied), and no other cell changes.
   */
  lemma CreateVarCopyTape(g: Gen, name: string, t: Tape, fuel: nat) returns (p: Prog, u: Tape)
    requires Realizes(g, t) && name in g.variables && g.variables[name].Int8? && fuel >= 256
    requires g.variables[name].index in g.memory
    ensures CreateVarCopy(g, name).Ok?
    ensures var r := CreateVarCopy(g, name).value; var src := g.variables[name].index;
      var e := ScratchCell(g.memory);
      Emits(g, r.g, p, t, u, fuel) && Realizes(r.g, u) && u.out == t.out &&
      r.g.variables[name] == Int8(e) &&
      Cell(u, r.cell) == Cell(t, src) && Cell(u, e) == Cell(t, src) && Cell(u, src) == 0 &&
      Keeps(t, u, {r.cell, e, src})
  {
    var src := g.variables[name].index;
    var d, e := FirstFree(g.memory), ScratchCell(g.memory);
    CreateVarCopyEffect(g, name);
    CopyNameLonger(g.counter + 1, name);
    MoveRun(g.pointer, src, d, e, t, fuel);
    p := Moves(g.pointer, d) + Moves(d, e) + Moves(e, src) + [Loop(CopyOut(src, d, e))];
    u := Exec(p, t, fuel).value;
    var r := CreateVarCopy(g, name).value;
    assert r.g.memory == g.memory + {d, e};
    forall i: nat | i !in r.g.memory
      ensures Cell(u, i) == 0
    {
      assert i != d && i != e && i != src;
    }
  }

  // ---------------------------------------------------------------------
  // Equality

  /** `b[ a- b[-] ]`: when `b` is not 0, `a` loses one and `b` is cleared; nothing else changes. */
  lemma UnequalLoop(a: nat, b: nat, t: Tape, fuel: nat)
    requires a != b && t.ptr == b && fuel >= 256
    ensures Exec([Loop(Unequal(a, b))], t, fuel).Some?
    ensures var u := Exec([Loop(Unequal(a, b))], t, fuel).value;
      u.ptr == b && u.out == t.out && Cell(u, b) == 0 &&
      Cell(u, a) == (if Cell(t, b) == 0 then Cell(t, a) else (Cell(t, a) - 1) % 256) &&
      Keeps(t, u, {a, b})
  {
    var body := Unequal(a, b);
    if Cell(t, b) == 0 {
      assert LoopRun(body, t, fuel, fuel) == Some(t);
      assert Exec([Loop(body)], t, fuel) == Some(t);
    } else {
      ExecMoves(t, a, fuel);
      var t1 := Add(t.(ptr := a), a, -1);
      assert Exec([Dec], t.(ptr := a), fuel) == Some(t1);
      Chain(Moves(b, a), [Dec], t, t.(ptr := a), t1, fuel);
      ExecMoves(t1, b, fuel);
      Chain(Moves(b, a) + [Dec], Moves(a, b), t, t1, t1.(ptr := b), fuel);
      var t2 := t1.(ptr := b);
      ClearLoop(t2, fuel);
      var t3 := Exec([Loop([Dec])], t2, fuel).value;
      Chain(Moves(b, a) + [Dec] + Moves(a, b), [Loop([Dec])], t, t2, t3, fuel);
      assert Exec(body, t, fuel) == Some(t3);
      assert LoopRun(body, t3, fuel, fuel - 1) == Some(t3);
      assert Exec([Loop(body)], t, fuel) == Some(t3);
      forall i | i != a && i != b
        ensures Cell(t3, i) == Cell(t, i)
      {
        CellAdd(t.(ptr := a), a, -1, i);
      }
      CellAdd(t.(ptr := a), a, -1, a);
    }
  }

  /**
   * The comparison code of `AreEqual` on two copies `a` and `b`: `a` ends
   * holding 1 when they held the same byte and 0 otherwise, `b` ends at 0.
   */
  lemma CompareTape(a: nat, b: nat, t: Tape, fuel: nat)
    requires a != b && t.ptr == a && fuel >= 256
    ensures var p := [Loop(Drain(a, b, -1)), Inc] + Moves(a, b) + [Loop(Unequal(a, b))];
      Exec(p, t, fuel).Some? &&
      var u := Exec(p, t, fuel).value;
      u.ptr == b && u.out == t.out && Cell(u, b) == 0 &&
      Cell(u, a) == (if Cell(t, a) == Cell(t, b) then 1 else 0) && Keeps(t, u, {a, b})
  {
    DrainLoop(a, b, -1, t, fuel);
    var t1 := Exec([Loop(Drain(a, b, -1))], t, fuel).value;
    var t2 := Add(t1, a, 1);
    assert Exec([Inc], t1, fuel) == Some(t2);
    Chain([Loop(Drain(a, b, -1))], [Inc], t, t1, t2, fuel);
    assert [Loop(Drain(a, b, -1))] + [Inc] == [Loop(Drain(a, b, -1)), Inc];
    ExecMoves(t2, b, fuel);
    var t3 := t2.(ptr := b);
    Chain([Loop(Drain(a, b, -1)), Inc], Moves(a, b), t, t2, t3, fuel);
    UnequalLoop(a, b, t3, fuel);
    var u := Exec([Loop(Unequal(a, b))], t3, fuel).value;
    Chain([Loop(Drain(a, b, -1)), Inc] + Moves(a, b), [Loop(Unequal(a, b))], t, t3, u, fuel);
    CellAdd(t1, a, 1, a);
    CellAdd(t1, a, 1, b);
    var x: int, y: int := Cell(t, a), Cell(t, b);
    assert Cell(t3, b) as int == (y - x) % 256;
    assert Cell(t3, a) == 1;
    assert (y - x) % 256 == 0 <==> x == y;
    forall i | i != a && i != b
      ensures Cell(u, i) == Cell(t, i)
    {
      CellAdd(t1, a, 1, i);
    }
  }

  /** A copy leaves the binding of any other name (not one of its temporaries) as it was. */
  lemma CopyKeepsOther(g: Gen, name: string, other: string)
    requires name in g.variables && CellOfBinding(g.variables[name]).Some? && other in g.variables
    requires other != CopyName(g.counter, name) && other != CopyName(g.counter + 1, name)
    ensures CopyPointersSafe(g, name).Ok?
    ensures var r := CopyPointersSafe(g, name).value.g;
      other in r.variables && r.variables[other] == g.variables[other]
  {
    CopyPointersSafeEffect(g, name);
  }

  /** Both copies `AreEqual` makes, one after the other. */
  lemma BothCopiesTape(g: Gen, left: string, right: string, t: Tape, fuel: nat) returns (p: Prog, u: Tape)
    requires Realizes(g, t) && Holds(g, left) && Holds(g, right) && fuel >= 256
    requires right != CopyName(g.counter, left) && right != CopyName(g.counter + 1, left)
    ensures CopyPointersSafe(g, left).Ok?
    ensures var l := CopyPointersSafe(g, left).value;
      CopyPointersSafe(l.g, right).Ok? &&
      var r := CopyPointersSafe(l.g, right).value;
      Emits(g, r.g, p, t, u, fuel) && Realizes(r.g, u) && u.out == t.out &&
      l.cell in r.g.memory && r.cell in r.g.memory && l.cell != r.cell &&
      l.cell !in g.memory && r.cell !in g.memory && r.name != [] && !IsDigit(r.name[0]) &&
      Cell(u, l.cell) == Cell(t, CellOfName(g, left)) && Cell(u, r.cell) == Cell(t, CellOfName(g, right)) &&
      Keeps(t, u, {l.cell, r.cell}) && r.g.stack == g.stack
  {
    var p1, t1 := CopyPointersSafeTape(g, left, t, fuel);
    var l := CopyPointersSafe(g, left).value;
    CopyPointersSafeEffect(g, left);
    CopyKeepsOther(g, left, right);
    var p2, t2 := CopyPointersSafeTape(l.g, right, t1, fuel);
    var r := CopyPointersSafe(l.g, right).value;
    CopyPointersSafeEffect(l.g, right);
    EmitsChain(g, l.g, r.g, p1, p2, t, t1, t2, fuel);
    CopyNameStart(l.g.counter, right);
    p, u := p1 + p2, t2;
  }

  /** The comparison part of `AreEqual`, from the state after both copies. */
  lemma CompareEmits(g: Gen, a: nat, b: nat, name: string, t: Tape, fuel: nat) returns (p: Prog, u: Tape)
    requires Realizes(g, t) && a in g.memory && b in g.memory && a != b && fuel >= 256
    requires name != [] && !IsDigit(name[0])
    ensures var g2 := DeleteVar(Compare(g, a, b), name);
      Emits(g, g2, p, t, u, fuel) && Realizes(g2, u) && u.out == t.out &&
      g2.variables == g.variables - {name} && g2.counter == g.counter && g2.stack == g.stack &&
      Cell(u, a) == (if Cell(t, a) == Cell(t, b) then 1 else 0) && Cell(u, b) == 0 && Keeps(t, u, {a, b})
  {
    var code := [Loop(Drain(a, b, -1)), Inc] + Moves(a, b) + [Loop(Unequal(a, b))];
    var t1 := t.(ptr := a);
    ExecMoves(t, a, fuel);
    CompareTape(a, b, t1, fuel);
    u := Exec(code, t1, fuel).value;
    p := Moves(g.pointer, a) + code;
    Chain(Moves(g.pointer, a), code, t, t1, u, fuel);
    CompareText(g, a, b);
    DeleteVarKeepsCells(Compare(g, a, b), name);
  }

  /**
   * `AreEqual(left, right)` on two one-cell variables: the returned cell
   * holds 1 exactly when the two values are equal (as bytes, that is
   * modulo 256) and 0 otherwise; no other cell changes (the right copy's
   * cell ends at 0), so both variables keep their values.
   */
  lemma AreEqualTape(g: Gen, left: string, right: string, t: Tape, fuel: nat) returns (p: Prog, u: Tape)
    requires Realizes(g, t) && Holds(g, left) && Holds(g, right) && fuel >= 256
    requires right != CopyName(g.counter, left) && right != CopyName(g.counter + 1, left)
    ensures AreEqual(g, left, right).Ok?
    ensures var e := AreEqual(g, left, right).value;
      Emits(g, e.g, p, t, u, fuel) && Realizes(e.g, u) && u.out == t.out &&
      e.cell !in g.memory &&
      Cell(u, e.cell) == (if Cell(t, CellOfName(g, left)) == Cell(t, CellOfName(g, right)) then 1 else 0) &&
      Keeps(t, u, {e.cell}) && e.g.stack == g.stack
  {
    var p1, t1 := BothCopiesTape(g, left, right, t, fuel);
    var l := CopyPointersSafe(g, left).value;
    var r := CopyPointersSafe(l.g, right).value;
    var a, b := l.cell, r.cell;
    var p2, t2 := CompareEmits(r.g, a, b, r.name, t1, fuel);
    AreEqualIs(g, left, right);
    EmitsChain(g, r.g, DeleteVar(Compare(r.g, a, b), r.name), p1, p2, t, t1, t2, fuel);
    p, u := p1 + p2, t2;
    assert Cell(t, b) == 0;
    KeepsOne(t, t1, u, a, b);
  }

  /** The text the comparison appends after the two copies. */
  lemma CompareText(g: Gen, a: nat, b: nat)
    ensures Compare(g, a, b).result ==
      g.result + Show(Moves(g.pointer, a) + ([Loop(Drain(a, b, -1)), Inc] + Moves(a, b) + [Loop(Unequal(a, b))]))
  {
    var x := [Loop(Drain(a, b, -1)), Inc];
    var y := [Loop(Unequal(a, b))];
    var g1 := MoveTo(g, a);
    var g2 := Emit(g1, x);
    var g3 := MoveTo(g2, b);
    TextThen(g.result, g1.result, g2.result, Moves(g.pointer, a), x);
    TextThen(g.result, g2.result, g3.result, Moves(g.pointer, a) + x, Moves(a, b));
    TextThen(g.result, g3.result, Emit(g3, y).result, Moves(g.pointer, a) + x + Moves(a, b), y);
    assert Moves(g.pointer, a) + x + Moves(a, b) + y == Moves(g.pointer, a) + (x + Moves(a, b) + y);
  }

  // ---------------------------------------------------------------------
  // Blocks

  /**
   * A block opened on `ind` and closed by `endif`/`endfor` is one loop:
   * the text from the opening state to the closing one is the walk to
   * `ind` and `[body <back to ind> -]`.
   */
  lemma CloseBlock(g0: Gen, ind: nat, name: string, gb: Gen, b: Prog)
    requires gb.result == Open(g0, ind, name).result + Show(b) && gb.stack == Open(g0, ind, name).stack
    ensures CloseLine(gb).Ok? && CloseLine(gb).value.Next?
    ensures var g3 := CloseLine(gb).value.g;
      g3.result == g0.result + Show(Moves(g0.pointer, ind) + [Loop(Block(b, gb.pointer, ind))]) &&
      g3.stack == g0.stack && g3.pointer == ind && g3.variables == gb.variables - {name} &&
      g3.memory == gb.memory - NameKey(name) && g3.counter == gb.counter
  {
    var q := gb.pointer;
    var m := Moves(g0.pointer, ind);
    var back := Moves(q, ind);
    assert gb.stack[|gb.stack| - 1] == Frame(ind, name);
    assert gb.stack[..|gb.stack| - 1] == g0.stack;
    var g3 := CloseLine(gb).value.g;
    var x, s1, s2, s3 := g0.result, Show(m), Show(b), Show(back);
    assert Open(g0, ind, name).result == x + s1 + "[";
    assert g3.result == gb.result + s3 + "-]";
    LoopText(b, back);
    ShowAppend(m, [Loop(Block(b, q, ind))]);
    Regroup(x, s1, s2, s3);
  }

  lemma LoopText(b: Prog, back: Prog)
    ensures Show([Loop(b + back + [Dec])]) == "[" + Show(b) + Show(back) + "-]"
  {
    ShowAppend(b, back);
    ShowAppend(b + back, [Dec]);
    assert Show([Dec]) == "-";
    assert Show([Loop(b + back + [Dec])]) == "[" + Show(b + back + [Dec]) + "]";
  }

  lemma Regroup(x: string, s1: string, s2: string, s3: string)
    ensures x + s1 + "[" + s2 + s3 + "-]" == x + (s1 + ("[" + s2 + s3 + "-]"))
  {
  }

  /**
   * The block a state `g0` opens on `ind`, after code `pm` that leaves the
   * machine on `ind`: closing it gives one loop, which runs the body's
   * pass as many times as `ind` holds.
   */
  lemma BlockRuns(g: Gen, g0: Gen, ind: nat, name: string, gb: Gen, b: Prog, pm: Prog, t: Tape, u: Tape, fuel: nat)
    requires g0.result + Show(Moves(g0.pointer, ind)) == g.result + Show(pm)
    requires Exec(pm, t, fuel) == Some(u) && u.ptr == ind && fuel >= 256
    requires gb.result == Open(g0, ind, name).result + Show(b) && gb.stack == Open(g0, ind, name).stack
    requires Settled(b, ind, gb.pointer, fuel)
    ensures CloseLine(gb).Ok? && CloseLine(gb).value.Next?
    ensures var whole := pm + [Loop(Block(b, gb.pointer, ind))];
      CloseLine(gb).value.g.result == g.result + Show(whole) &&
      CloseLine(gb).value.g.stack == g0.stack &&
      Exec(whole, t, fuel) == Passes(Block(b, gb.pointer, ind), u, Cell(u, ind), fuel)
  {
    BlockText(g, g0, ind, name, gb, b, pm);
    BlockExec(b, ind, gb.pointer, pm, t, u, fuel);
  }

  lemma BlockText(g: Gen, g0: Gen, ind: nat, name: string, gb: Gen, b: Prog, pm: Prog)
    requires g0.result + Show(Moves(g0.pointer, ind)) == g.result + Show(pm)
    requires gb.result == Open(g0, ind, name).result + Show(b) && gb.stack == Open(g0, ind, name).stack
    ensures CloseLine(gb).Ok? && CloseLine(gb).value.Next?
    ensures CloseLine(gb).value.g.result == g.result + Show(pm + [Loop(Block(b, gb.pointer, ind))]) &&
      CloseLine(gb).value.g.stack == g0.stack
  {
    var loop := [Loop(Block(b, gb.pointer, ind))];
    CloseBlock(g0, ind, name, gb, b);
    ShowAppend(Moves(g0.pointer, ind), loop);
    ShowAppend(pm, loop);
    AppendAssoc(g0.result, Show(Moves(g0.pointer, ind)), Show(loop));
    AppendAssoc(g.result, Show(pm), Show(loop));
  }

  lemma BlockExec(b: Prog, ind: nat, q: int, pm: Prog, t: Tape, u: Tape, fuel: nat)
    requires Exec(pm, t, fuel) == Some(u) && u.ptr == ind && fuel >= 256
    requires Settled(b, ind, q, fuel)
    ensures Exec(pm + [Loop(Block(b, q, ind))], t, fuel) == Passes(Block(b, q, ind), u, Cell(u, ind), fuel)
  {
    RepeatLoop(b, ind, q, u, fuel);
    ExecAppend(pm, [Loop(Block(b, q, ind))], t, fuel);
  }

  /** `if left = right`: the code up to the `[`, which leaves the machine on the equality cell. */
  lemma IfOpenTape(g: Gen, left: string, right: string, n: nat, t: Tape, fuel: nat) returns (p: Prog, u: Tape)
    requires Realizes(g, t) && Holds(g, left) && Holds(g, right) && fuel >= 256
    requires SameType(g.variables[left], g.variables[right])
    requires right != CopyName(g.counter, left) && right != CopyName(g.counter + 1, left)
    ensures AreEqual(g, left, right).Ok?
    ensures var e := AreEqual(g, left, right).value;
      IfLine(g, ["if", left, "=", right], n) == Ok(Next(Open(e.g, e.cell, e.name))) &&
      e.g.result + Show(Moves(e.g.pointer, e.cell)) == g.result + Show(p) && e.g.stack == g.stack &&
      Exec(p, t, fuel) == Some(u) && u.ptr == e.cell && u.out == t.out && Keeps(t, u, {e.cell}) &&
      Cell(u, e.cell) == (if Cell(t, CellOfName(g, left)) == Cell(t, CellOfName(g, right)) then 1 else 0)
  {
    var p1, u1 := AreEqualTape(g, left, right, t, fuel);
    var e := AreEqual(g, left, right).value;
    IfLineEquals(g, left, right, n);
    ExecMoves(u1, e.cell, fuel);
    u := u1.(ptr := e.cell);
    KeepsMoved(t, u1, e.cell, {e.cell});
    Chain(p1, Moves(e.g.pointer, e.cell), t, u1, u, fuel);
    p := p1 + Moves(e.g.pointer, e.cell);
    TextThen(g.result, e.g.result, e.g.result + Show(Moves(e.g.pointer, e.cell)), p1, Moves(e.g.pointer, e.cell));
  }

  /**
   * `if left = right` … `endif` around a settled body: the emitted code
   * first computes the equality cell, then runs the body's pass once when
   * the two values are equal and not at all when they differ.
   */
  lemma IfBlockTape(g: Gen, left: string, right: string, n: nat, gb: Gen, b: Prog, t: Tape, fuel: nat)
    returns (p: Prog, u: Tape)
    requires Realizes(g, t) && Holds(g, left) && Holds(g, right) && fuel >= 256
    requires SameType(g.variables[left], g.variables[right])
    requires right != CopyName(g.counter, left) && right != CopyName(g.counter + 1, left)
    requires AreEqual(g, left, right).Ok?
    requires var e := AreEqual(g, left, right).value;
      gb.result == Open(e.g, e.cell, e.name).result + Show(b) && gb.stack == Open(e.g, e.cell, e.name).stack &&
      Settled(b, e.cell, gb.pointer, fuel)
    ensures var e := AreEqual(g, left, right).value;
      Exec(p, t, fuel) == Some(u) && u.ptr == e.cell &&
      Cell(u, e.cell) == (if Cell(t, CellOfName(g, left)) == Cell(t, CellOfName(g, right)) then 1 else 0) &&
      CloseLine(gb).Ok? && CloseLine(gb).value.Next? &&
      var whole := p + [Loop(Block(b, gb.pointer, e.cell))];
      CloseLine(gb).value.g.result == g.result + Show(whole) &&
      CloseLine(gb).value.g.stack == g.stack &&
      Exec(whole, t, fuel) == Passes(Block(b, gb.pointer, e.cell), u, Cell(u, e.cell), fuel)
  {
    p, u := IfOpenTape(g, left, right, n, t, fuel);
    var e := AreEqual(g, left, right).value;
    BlockRuns(g, e.g, e.cell, e.name, gb, b, p, t, u, fuel);
  }

  lemma IfLineEquals(g: Gen, left: string, right: string, n: nat)
    requires left in g.variables && right in g.variables && SameType(g.variables[left], g.variables[right])
    requires AreEqual(g, left, right).Ok?
    ensures var e := AreEqual(g, left, right).value;
      IfLine(g, ["if", left, "=", right], n) == Ok(Next(Open(e.g, e.cell, e.name)))
  {
    Words4("if", left, "=", right);
  }

  /**
   * `for k` … `endfor` around a settled body: the emitted code creates the
   * counter and then runs the body's pass k modulo 256 times (never, for
   * a negative k, whose JavaScript remainder is not positive).
   */
  lemma ForBlockTape(g: Gen, k: string, n: nat, gb: Gen, b: Prog, t: Tape, fuel: nat)
    returns (p: Prog, u: Tape)
    requires Realizes(g, t) && fuel >= 256 && Number(k).Integer?
    ensures var ind := FirstFree(g.memory); var v := Number(k).value;
      var g1 := CreateInt8(g, IndexName(n), v);
      ForLine(g, ["for", k], n) == Ok(Next(Open(g1, ind, IndexName(n)))) &&
      Exec(p, t, fuel) == Some(u) && u.ptr == ind && u.out == t.out && Keeps(t, u, {ind}) &&
      Cell(u, ind) == (if v >= 0 then v % 256 else 0) &&
      (gb.result == Open(g1, ind, IndexName(n)).result + Show(b) && gb.stack == Open(g1, ind, IndexName(n)).stack &&
       Settled(b, ind, gb.pointer, fuel) ==>
         CloseLine(gb).Ok? && CloseLine(gb).value.Next? &&
         var whole := p + [Loop(Block(b, gb.pointer, ind))];
         CloseLine(gb).value.g.result == g.result + Show(whole) &&
         CloseLine(gb).value.g.stack == g.stack &&
         Exec(whole, t, fuel) == Passes(Block(b, gb.pointer, ind), u, Cell(u, ind), fuel))
  {
    var ind := FirstFree(g.memory);
    var v := Number(k).value;
    var g1 := CreateInt8(g, IndexName(n), v);
    CreateInt8Tape(g, IndexName(n), v, t, fuel);
    CreateInt8Effect(g, IndexName(n), v);
    p := Int8Code(g, v);
    u := Exec(p, t, fuel).value;
    ForLineNumber(g, k, n);
    assert Moves(ind, ind) == [];
    assert g1.result + Show(Moves(g1.pointer, ind)) == g.result + Show(p);
    if gb.result == Open(g1, ind, IndexName(n)).result + Show(b) && gb.stack == Open(g1, ind, IndexName(n)).stack &&
       Settled(b, ind, gb.pointer, fuel) {
      BlockRuns(g, g1, ind, IndexName(n), gb, b, p, t, u, fuel);
    }
  }

  lemma ForLineNumber(g: Gen, k: string, n: nat)
    requires Number(k).Integer?
    ensures ForLine(g, ["for", k], n) ==
      Ok(Next(Open(CreateInt8(g, IndexName(n), Number(k).value), FirstFree(g.memory), IndexName(n))))
  {
    Words2("for", k);
  }

  // ---------------------------------------------------------------------
  // add

  /**
   * The code `add` appends, run from `p0`: a safe copy of `src` into `d`
   * (with scratch cell `c`), then `d` drained into `a`.
   */
  lemma AddRun(p0: int, src: nat, d: nat, c: nat, a: nat, t: Tape, fuel: nat)
    requires src != d && src != c && d != c && a != d && a != c && t.ptr == p0 && fuel >= 256
    requires Cell(t, d) == 0 && Cell(t, c) == 0
    ensures var p := Moves(p0, d) + Moves(d, c) + CopyLoopsCode(src, d, c) + Moves(c, d) + [Loop(Drain(d, a, 1))];
      Exec(p, t, fuel).Some? &&
      var u := Exec(p, t, fuel).value;
      u.ptr == d && u.out == t.out && Cell(u, a) == ByteSum(Cell(t, a), Cell(t, src)) &&
      Keeps(t, u, {a})
  {
    var pc := Moves(p0, d) + Moves(d, c) + CopyLoopsCode(src, d, c);
    CopyRun(p0, src, d, c, t, fuel);
    var t1 := Exec(pc, t, fuel).value;
    ExecMoves(t1, d, fuel);
    var t2 := t1.(ptr := d);
    Chain(pc, Moves(c, d), t, t1, t2, fuel);
    DrainLoop(d, a, 1, t2, fuel);
    var u := Exec([Loop(Drain(d, a, 1))], t2, fuel).value;
    Chain(pc + Moves(c, d), [Loop(Drain(d, a, 1))], t, t2, u, fuel);
    assert Cell(t2, a) == Cell(t, a);
    forall i | i != a
      ensures Cell(u, i) == Cell(t, i)
    {
      if i != d {
        assert Cell(u, i) == Cell(t2, i);
      }
    }
  }

  /** The code `add` appends once `y` is known to sit in one cell: copy, then drain into `a`. */
  lemma AddIntoTape(g: Gen, y: string, a: nat, t: Tape, fuel: nat) returns (p: Prog, u: Tape)
    requires Realizes(g, t) && Holds(g, y) && a in g.memory && fuel >= 256
    ensures CopyPointersSafe(g, y).Ok?
    ensures var c := CopyPointersSafe(g, y).value; var r := DrainInto(c.g, c.cell, a, c.name);
      Emits(g, r, p, t, u, fuel) && Realizes(r, u) && u.out == t.out && r.stack == g.stack &&
      Cell(u, a) == ByteSum(Cell(t, a), Cell(t, CellOfName(g, y))) && Keeps(t, u, {a})
  {
    var src := CellOfName(g, y);
    var d, sc := FirstFree(g.memory), ScratchCell(g.memory);
    var c := CopyPointersSafe(g, y).value;
    CopyPointersSafeEffect(g, y);
    CopyNameStart(g.counter, y);
    var g1 := MoveTo(c.g, d);
    var g2 := Emit(g1, [Loop(Drain(d, a, 1))]);
    DeleteVarKeepsCells(g2, c.name);
    var pc := Moves(g.pointer, d) + Moves(d, sc) + CopyLoopsCode(src, d, sc);
    TextThen(g.result, c.g.result, g1.result, pc, Moves(sc, d));
    TextThen(g.result, g1.result, g2.result, pc + Moves(sc, d), [Loop(Drain(d, a, 1))]);
    AddRun(g.pointer, src, d, sc, a, t, fuel);
    p := pc + Moves(sc, d) + [Loop(Drain(d, a, 1))];
    u := Exec(p, t, fuel).value;
    var r := DeleteVar(g2, c.name);
    forall i: nat | i !in r.memory
      ensures Cell(u, i) == 0
    {
      assert i != a;
    }
  }

  /**
   * `add x y` on two one-cell variables of the same type: x's cell ends
   * holding the sum modulo 256, y keeps its value (also when x and y are
   * the same variable, whose value then doubles), and no other cell
   * changes.
   */
  lemma AddTape(g: Gen, x: string, y: string, n: nat, t: Tape, fuel: nat) returns (r: Gen, p: Prog, u: Tape)
    requires Realizes(g, t) && Holds(g, x) && Holds(g, y) && fuel >= 256
    requires SameType(g.variables[x], g.variables[y])
    ensures AddLine(g, ["add", x, y], n) == Ok(Next(r))
    ensures Emits(g, r, p, t, u, fuel) && Realizes(r, u) && u.out == t.out && r.stack == g.stack
    ensures Cell(u, CellOfName(g, x)) == ByteSum(Cell(t, CellOfName(g, x)), Cell(t, CellOfName(g, y)))
    ensures Keeps(t, u, {CellOfName(g, x)})
  {
    var a := CellOfName(g, x);
    p, u := AddIntoTape(g, y, a, t, fuel);
    var c := CopyPointersSafe(g, y).value;
    r := DrainInto(c.g, c.cell, a, c.name);
    AddLineIs(g, x, y, n);
  }

  lemma AddLineIs(g: Gen, x: string, y: string, n: nat)
    requires Holds(g, x) && Holds(g, y) && SameType(g.variables[x], g.variables[y])
    ensures CopyPointersSafe(g, y).Ok?
    ensures var c := CopyPointersSafe(g, y).value;
      AddLine(g, ["add", x, y], n) == Ok(Next(DrainInto(c.g, c.cell, CellOfName(g, x), c.name)))
  {
    CopyPointersSafeEffect(g, y);
    Words3("add", x, y);
    var c := CopyPointersSafe(g, y).value;
    var a := CellOfName(g, x);
    KeyCellsOne(g.variables[x]);
    AddMember(c.g.memory, a);
    assert c.g.(memory := c.g.memory + KeyCells(g.variables[x])) == c.g;
  }

  lemma Words2(a: string, b: string)
    ensures var w := [a, b]; |w| == 2 && w[0] == a && w[1] == b
  {
  }

  lemma Words3(a: string, b: string, c: string)
    ensures var w := [a, b, c]; |w| == 3 && w[0] == a && w[1] == b && w[2] == c
  {
  }

  lemma Words4(a: string, b: string, c: string, d: string)
    ensures var w := [a, b, c, d]; |w| == 4 && w[0] == a && w[1] == b && w[2] == c && w[3] == d
  {
  }

  // ---------------------------------------------------------------------
  // out

  /** The bytes held by `cells`, in order. */
  ghost function Bytes(t: Tape, cells: seq<nat>): seq<Byte>
  {
    seq(|cells|, k requires 0 <= k < |cells| => Cell(t, cells[k]))
  }

  /** `out x` for an int8 x prints x's byte; nothing else changes but the pointer. */
  lemma OutInt8Tape(g: Gen, x: string, n: nat, t: Tape, fuel: nat) returns (p: Prog, u: Tape)
    requires Realizes(g, t) && x in g.variables && g.variables[x].Int8? && g.variables[x].index in g.memory
    ensures OutLine(g, ["out", x], n).Ok? && OutLine(g, ["out", x], n).value.Next?
    ensures var r := OutLine(g, ["out", x], n).value.g;
      Emits(g, r, p, t, u, fuel) && Realizes(r, u) && r.memory == g.memory && r.variables == g.variables &&
      u.out == t.out + [Cell(t, g.variables[x].index)] && u.cells == t.cells
  {
    var i := g.variables[x].index;
    Words2("out", x);
    MoveEmits(g, i, t, fuel);
    var t1 := t.(ptr := i);
    u := t1.(out := t.out + [Cell(t, i)]);
    assert Exec([Out], t1, fuel) == Some(u);
    EmitEmits(MoveTo(g, i), [Out], t1, u, fuel);
    EmitsChain(g, MoveTo(g, i), Emit(MoveTo(g, i), [Out]), Moves(g.pointer, i), [Out], t, t1, u, fuel);
    p := Moves(g.pointer, i) + [Out];
  }

  /** `out s` for a string s prints its cells in order; nothing else changes but the pointer. */
  lemma {:induction false} OutEachTape(g: Gen, cells: seq<nat>, t: Tape, fuel: nat) returns (p: Prog, u: Tape)
    requires Realizes(g, t) && forall k :: 0 <= k < |cells| ==> cells[k] in g.memory
    ensures var r := OutEach(g, cells);
      Emits(g, r, p, t, u, fuel) && Realizes(r, u) && r.memory == g.memory && r.variables == g.variables &&
      r.stack == g.stack && u.out == t.out + Bytes(t, cells) && u.cells == t.cells
    decreases |cells|
  {
    if cells == [] {
      p, u := [], t;
      assert Bytes(t, cells) == [];
    } else {
      var i := cells[0];
      MoveEmits(g, i, t, fuel);
      var t1 := t.(ptr := i);
      var t2 := t1.(out := t.out + [Cell(t, i)]);
      assert Exec([Out], t1, fuel) == Some(t2);
      var g1 := Emit(MoveTo(g, i), [Out]);
      EmitEmits(MoveTo(g, i), [Out], t1, t2, fuel);
      EmitsChain(g, MoveTo(g, i), g1, Moves(g.pointer, i), [Out], t, t1, t2, fuel);
      var p2, u2 := OutEachTape(g1, cells[1..], t2, fuel);
      EmitsChain(g, g1, OutEach(g1, cells[1..]), Moves(g.pointer, i) + [Out], p2, t, t2, u2, fuel);
      p, u := Moves(g.pointer, i) + [Out] + p2, u2;
      assert Bytes(t2, cells[1..]) == Bytes(t, cells[1..]);
      assert Bytes(t, cells) == [Cell(t, i)] + Bytes(t, cells[1..]);
    }
  }

  /**
   * The `tostring` arm on an int8 x held in a cell: it prints x's byte
   * plus 48 modulo 256, x keeps its value, and only cells that were free
   * change (the counter and scratch cells end at 0, the copy holds the
   * printed byte).
   */
  lemma ToStringTape(g: Gen, x: string, n: nat, t: Tape, fuel: nat) returns (p: Prog, u: Tape)
    requires Realizes(g, t) && x in g.variables && g.variables[x].Int8? && g.variables[x].index in g.memory
    requires x != IndexName(n) && fuel >= 256
    ensures ToString(g, x, g.variables[x].index, n).Ok?
    ensures var r := ToString(g, x, g.variables[x].index, n).value;
      Emits(g, r, p, t, u, fuel) && Realizes(r, u) && r.stack == g.stack && g.memory <= r.memory &&
      u.out == t.out + [ByteSum(Cell(t, g.variables[x].index), 48)] && Keeps(t, u, r.memory - g.memory)
  {
    var i := g.variables[x].index;
    var ind := FirstFree(g.memory);
    var pre, u1 := ToStringStart(g, x, n, t, fuel);
    var c := CopyPointersSafe(CreateInt8(MoveTo(g, i), IndexName(n), 48), x).value;
    ToStringIs(g, x, i, n);
    var post, u2 := ToStringEnd(c.g, ind, c.cell, u1, fuel);
    var g4 := Emit(MoveTo(Emit(MoveTo(c.g, ind), [Loop(Drain(ind, c.cell, 1))]), c.cell), [Out]);
    EmitsChain(g, c.g, g4, pre, post, t, u1, u2, fuel);
    p, u := pre + post, u2;
    IndexNameStart(n);
    CopyNameStart(c.g.counter - 2, x);
    DeleteVarKeepsCells(g4, IndexName(n));
    DeleteVarKeepsCells(DeleteVar(g4, IndexName(n)), c.name);
  }

  /**
   * The start of `tostring`: a counter cell created with 48 and a copy of
   * x, both in cells that were free.
   */
  lemma ToStringStart(g: Gen, x: string, n: nat, t: Tape, fuel: nat) returns (p: Prog, u: Tape)
    requires Realizes(g, t) && x in g.variables && g.variables[x].Int8? && g.variables[x].index in g.memory
    requires x != IndexName(n) && fuel >= 256
    ensures CopyPointersSafe(CreateInt8(MoveTo(g, g.variables[x].index), IndexName(n), 48), x).Ok?
    ensures var c := CopyPointersSafe(CreateInt8(MoveTo(g, g.variables[x].index), IndexName(n), 48), x).value;
      var ind := FirstFree(g.memory);
      Emits(g, c.g, p, t, u, fuel) && Realizes(c.g, u) && c.g.stack == g.stack && u.out == t.out &&
      g.memory + {ind, c.cell} <= c.g.memory && ind !in g.memory && c.cell !in g.memory && ind != c.cell &&
      c.name == CopyName(c.g.counter - 2, x) &&
      Cell(u, ind) == 48 && Cell(u, c.cell) == Cell(t, g.variables[x].index) && Keeps(t, u, {ind, c.cell})
  {
    var i := g.variables[x].index;
    var ind := FirstFree(g.memory);
    var g2 := CreateInt8(MoveTo(g, i), IndexName(n), 48);
    var p2, u2 := CounterTape(g, i, IndexName(n), t, fuel);
    assert g2.variables[x] == g.variables[x];
    var p3, u3 := CopyPointersSafeTape(g2, x, u2, fuel);
    CopyPointersSafeEffect(g2, x);
    EmitsChain(g, g2, CopyPointersSafe(g2, x).value.g, p2, p3, t, u2, u3, fuel);
    p, u := p2 + p3, u3;
  }

  /** Moving to cell i, then `varCreate_Int8` with 48: the least free cell holds 48 and nothing else changes. */
  lemma CounterTape(g: Gen, i: nat, name: string, t: Tape, fuel: nat) returns (p: Prog, u: Tape)
    requires Realizes(g, t) && fuel >= 256
    ensures var g2 := CreateInt8(MoveTo(g, i), name, 48); var ind := FirstFree(g.memory);
      Emits(g, g2, p, t, u, fuel) && Realizes(g2, u) && u.out == t.out &&
      g2.variables == g.variables[name := Int8(ind)] && g2.memory == g.memory + {ind} &&
      g2.stack == g.stack && g2.counter == g.counter &&
      Cell(u, ind) == 48 && forall j :: j != ind ==> Cell(u, j) == Cell(t, j)
  {
    var g1 := MoveTo(g, i);
    var t1 := t.(ptr := i);
    MoveEmits(g, i, t, fuel);
    CreateInt8Tape(g1, name, 48, t1, fuel);
    CreateInt8Effect(g1, name, 48);
    var p2 := Int8Code(g1, 48);
    var u2 := Exec(p2, t1, fuel).value;
    EmitsChain(g, g1, CreateInt8(g1, name, 48), Moves(g.pointer, i), p2, t, t1, u2, fuel);
    p, u := Moves(g.pointer, i) + p2, u2;
    forall j | j != FirstFree(g.memory)
      ensures Cell(u, j) == Cell(t, j)
    {
      assert Cell(t1, j) == Cell(t, j);
    }
  }

  /** `indexName` starts with a letter, so deleting it releases no cell. */
  lemma IndexNameStart(n: nat)
    ensures IndexName(n) != [] && IndexName(n)[0] == 't'
  {
  }

  /**
   * The end of `tostring`: the counter `ind` is emptied into the copy
   * `d`, then the copy is printed.
   */
  lemma ToStringEnd(g: Gen, ind: nat, d: nat, t: Tape, fuel: nat) returns (p: Prog, u: Tape)
    requires Realizes(g, t) && ind != d && ind in g.memory && d in g.memory && fuel >= 256
    ensures var r := Emit(MoveTo(Emit(MoveTo(g, ind), [Loop(Drain(ind, d, 1))]), d), [Out]);
      Emits(g, r, p, t, u, fuel) && Realizes(r, u) && r.memory == g.memory && r.variables == g.variables &&
      r.stack == g.stack && r.counter == g.counter &&
      u.out == t.out + [ByteSum(Cell(t, d), Cell(t, ind))] && Cell(u, ind) == 0 &&
      Cell(u, d) == ByteSum(Cell(t, d), Cell(t, ind)) &&
      forall j :: j != ind && j != d ==> Cell(u, j) == Cell(t, j)
  {
    var g1 := MoveTo(g, ind);
    var t1 := t.(ptr := ind);
    MoveEmits(g, ind, t, fuel);
    DrainLoop(ind, d, 1, t1, fuel);
    var l := [Loop(Drain(ind, d, 1))];
    var t2 := Exec(l, t1, fuel).value;
    var g2 := Emit(g1, l);
    EmitEmits(g1, l, t1, t2, fuel);
    EmitsChain(g, g1, g2, Moves(g.pointer, ind), l, t, t1, t2, fuel);
    var g3 := MoveTo(g2, d);
    var t3 := t2.(ptr := d);
    MoveEmits(g2, d, t2, fuel);
    EmitsChain(g, g2, g3, Moves(g.pointer, ind) + l, Moves(ind, d), t, t2, t3, fuel);
    u := t3.(out := t2.out + [Cell(t2, d)]);
    assert Exec([Out], t3, fuel) == Some(u);
    EmitEmits(g3, [Out], t3, u, fuel);
    EmitsChain(g, g3, Emit(g3, [Out]), Moves(g.pointer, ind) + l + Moves(ind, d), [Out], t, t3, u, fuel);
    p := Moves(g.pointer, ind) + l + Moves(ind, d) + [Out];
    forall j | j != ind && j != d
      ensures Cell(u, j) == Cell(t, j)
    {
      assert Cell(u, j) == Cell(t2, j) && Cell(t1, j) == Cell(t, j);
    }
  }

  /** `out s` for a string variable s prints its bytes in order. */
  lemma OutStrTape(g: Gen, x: string, n: nat, t: Tape, fuel: nat) returns (p: Prog, u: Tape)
    requires Realizes(g, t) && x in g.variables && g.variables[x].Str?
    requires forall k :: 0 <= k < |g.variables[x].indices| ==> g.variables[x].indices[k] in g.memory
    ensures OutLine(g, ["out", x], n).Ok? && OutLine(g, ["out", x], n).value.Next?
    ensures var r := OutLine(g, ["out", x], n).value.g;
      Emits(g, r, p, t, u, fuel) && Realizes(r, u) && r.memory == g.memory && r.variables == g.variables &&
      u.out == t.out + Bytes(t, g.variables[x].indices) && u.cells == t.cells
  {
    Words2("out", x);
    p, u := OutEachTape(g, g.variables[x].indices, t, fuel);
  }
}
