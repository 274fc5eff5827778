/**
 * What the text the generator primitives append does on the machine.
 * The generator's view of the tape is `Realizes`: the pointer it tracks is
 * the machine's pointer, and every cell it does not hold is 0.  Each lemma
 * runs the code a primitive appends (as stated by the effect lemmas of
 * `Codegen`) on any tape the state describes, and says what the cells hold
 * afterwards.
 */
module CodegenTape {
  import opened Wrappers
  import opened Brainfuck
  import opened JsValue
  import opened Codegen

  /** Every cell outside `m` is 0. */
  ghost predicate FreeZero(m: set<nat>, t: Tape)
  {
    forall i: nat :: i !in m ==> Cell(t, i) == 0
  }

  /** `t` is a machine state the generator state `g` describes. */
  ghost predicate Realizes(g: Gen, t: Tape)
  {
    t.ptr == g.pointer && FreeZero(g.memory, t)
  }

  // ---------------------------------------------------------------------
  // Drain loops

  lemma DrainGain(from: nat, to: nat, delta: int, i: int)
    requires from != to
    ensures WalkEnd(from, DrainSteps(from, to, delta)) == from
    ensures Gain(DrainSteps(from, to, delta), i) == if i == from then -1 else if i == to then delta else 0
  {
    var s := DrainSteps(from, to, delta);
    assert s[1..] == [Touch(to, delta), Touch(from, 0)];
    assert s[1..][1..] == [Touch(from, 0)];
    assert s[1..][1..][1..] == [];
    assert Gain(s[1..][1..][1..], i) == 0;
    assert Gain(s[1..][1..], i) == 0;
    assert Gain(s[1..], i) == if i == to then delta else 0;
  }

  /**
   * `from[ - to (delta times + or -) from ]` empties `from` into `to`:
   * `to` gains `delta` per unit that `from` held, and no other cell changes.
   */
  lemma DrainLoop(from: nat, to: nat, delta: int, t: Tape, fuel: nat)
    requires from != to && t.ptr == from && fuel >= 256
    ensures Exec([Loop(Drain(from, to, delta))], t, fuel).Some?
    ensures var u := Exec([Loop(Drain(from, to, delta))], t, fuel).value;
      u.ptr == from && u.out == t.out && Cell(u, from) == 0 &&
      Cell(u, to) == (Cell(t, to) + Cell(t, from) * delta) % 256 &&
      forall i :: i != from && i != to ==> Cell(u, i) == Cell(t, i)
  {
    var steps := DrainSteps(from, to, delta);
    DrainGain(from, to, delta, from);
    CountedWalk(steps, t, fuel);
    var u := Exec([Loop(Drain(from, to, delta))], t, fuel).value;
    DrainGain(from, to, delta, to);
    forall i | i != from && i != to
      ensures Cell(u, i) == Cell(t, i)
    {
      DrainGain(from, to, delta, i);
      assert Cell(u, i) == (Cell(t, i) + Cell(t, from) * 0) % 256;
    }
  }

  // ---------------------------------------------------------------------
  // Writes

  lemma TenMod(a: int, q: int, r: int)
    ensures ((a + (q % 256) * 10) % 256 + r) % 256 == (a + 10 * q + r) % 256
  {
    ModAddLeft(a + (q % 256) * 10, r);
    var k := q / 256;
    assert q == 256 * k + q % 256;
    assert a + (q % 256) * 10 + r == 256 * (-10 * k) + (a + 10 * q + r);
    ModMultiple(256, -10 * k, a + 10 * q + r);
  }

  /**
   * `memoryWriteOptimized(v)` on an occupied cell `p` adds `v` to it (nothing
   * for a value that is not positive), modulo 256, and leaves every other
   * cell as it was: the scratch cell of the ×10 loop starts and ends at 0.
   */
  lemma WriteTape(m: set<nat>, p: nat, v: int, t: Tape, fuel: nat)
    requires p in m && t.ptr == p && FreeZero(m, t) && fuel >= 256
    ensures Exec(WriteCode(m, p, v), t, fuel).Some?
    ensures var u := Exec(WriteCode(m, p, v), t, fuel).value;
      u.ptr == p && u.out == t.out &&
      Cell(u, p) == (Cell(t, p) + (if v > 0 then v else 0)) % 256 &&
      forall i :: i != p ==> Cell(u, i) == Cell(t, i)
  {
    if v < 11 {
      if v > 0 {
        ExecAdjust(t, v, fuel);
        forall i
          ensures Cell(Add(t, p, v), i) == (Cell(t, i) + (if i == p then v else 0)) % 256
        {
          CellAdd(t, p, v, i);
        }
      } else {
        assert WriteCode(m, p, v) == [];
      }
    } else {
      WriteLargeTape(m, p, v, t, fuel);
    }
  }

  lemma WriteLargeTape(m: set<nat>, p: nat, v: int, t: Tape, fuel: nat)
    requires p in m && t.ptr == p && FreeZero(m, t) && fuel >= 256 && v >= 11
    ensures Exec(WriteCode(m, p, v), t, fuel).Some?
    ensures var u := Exec(WriteCode(m, p, v), t, fuel).value;
      u.ptr == p && u.out == t.out && Cell(u, p) == (Cell(t, p) + v) % 256 &&
      forall i :: i != p ==> Cell(u, i) == Cell(t, i)
  {
    var slot := FirstFree(m);
    var q, r := v / 10, v % 10;
    var a := Moves(p, slot) + Adjust(q) + [Loop(TenLoop(slot, p))];
    var b := Moves(slot, p) + Adjust(r);
    AppendAssoc(a, Moves(slot, p), Adjust(r));
    TensRun(p, slot, q, t, fuel);
    var t3 := Exec(a, t, fuel).value;
    ExecBump(t3, p, r, fuel);
    var t5 := Add(t3.(ptr := p), p, r);
    Chain(a, b, t, t3, t5, fuel);
    CellAdd(t3.(ptr := p), p, r, p);
    TenMod(Cell(t, p), q, r);
    assert v == 10 * q + r;
    forall i | i != p
      ensures Cell(t5, i) == Cell(t, i)
    {
      CellAdd(t3.(ptr := p), p, r, i);
    }
  }

  /** `slot q-times-+ [ - p ten-times-+ slot ]` from `p`: `p` gains ten times `q`, modulo 256. */
  lemma TensRun(p: nat, slot: nat, q: int, t: Tape, fuel: nat)
    requires t.ptr == p && slot != p && Cell(t, slot) == 0 && fuel >= 256
    ensures var a := Moves(p, slot) + Adjust(q) + [Loop(TenLoop(slot, p))];
      Exec(a, t, fuel).Some? &&
      var u := Exec(a, t, fuel).value;
      u.ptr == slot && u.out == t.out && Cell(u, p) == (Cell(t, p) + (q % 256) * 10) % 256 &&
      Cell(u, slot) == 0 && forall i :: i != p && i != slot ==> Cell(u, i) == Cell(t, i)
  {
    ExecBump(t, slot, q, fuel);
    var t2 := Add(t.(ptr := slot), slot, q);
    CellAdd(t.(ptr := slot), slot, q, slot);
    CellAdd(t.(ptr := slot), slot, q, p);
    DrainLoop(slot, p, 10, t2, fuel);
    var t3 := Exec([Loop(TenLoop(slot, p))], t2, fuel).value;
    Chain(Moves(p, slot) + Adjust(q), [Loop(TenLoop(slot, p))], t, t2, t3, fuel);
    forall i | i != p && i != slot
      ensures Cell(t3, i) == Cell(t, i)
    {
      CellAdd(t.(ptr := slot), slot, q, i);
    }
  }

  // ---------------------------------------------------------------------
  // Creating int8 variables

  /**
   * The code `varCreate_Int8` appends leaves the new cell holding the value
   * modulo 256 (0 for a negative value, whose JavaScript remainder is not
   * positive), the pointer on it, and every other cell as it was.
   */
  lemma CreateInt8Tape(g: Gen, name: string, v: int, t: Tape, fuel: nat)
    requires Realizes(g, t) && fuel >= 256
    ensures Exec(Int8Code(g, v), t, fuel).Some?
    ensures var u := Exec(Int8Code(g, v), t, fuel).value; var index := FirstFree(g.memory);
      Realizes(CreateInt8(g, name, v), u) && u.out == t.out &&
      Cell(u, index) == (if v >= 0 then v % 256 else 0) &&
      forall i :: i != index ==> Cell(u, i) == Cell(t, i)
  {
    var index := FirstFree(g.memory);
    var m := g.memory + {index};
    var vn := JsRem(v, 256);
    var t1 := t.(ptr := index);
    ExecMoves(t, index, fuel);
    WriteTape(m, index, vn, t1, fuel);
    var u := Exec(WriteCode(m, index, vn), t1, fuel).value;
    Chain(Moves(g.pointer, index), WriteCode(m, index, vn), t, t1, u, fuel);
    CreateInt8Effect(g, name, v);
    assert Cell(t, index) == 0;
  }

  // ---------------------------------------------------------------------
  // Copies

  lemma CopyOutGain(src: nat, d: nat, c: nat, i: int)
    requires src != d && src != c && d != c
    ensures WalkEnd(src, [Touch(d, 1), Touch(c, 1), Touch(src, -1)]) == src
    ensures Gain([Touch(d, 1), Touch(c, 1), Touch(src, -1)], i) ==
      if i == src then -1 else if i == d || i == c then 1 else 0
  {
    var s := [Touch(d, 1), Touch(c, 1), Touch(src, -1)];
    assert s[1..] == [Touch(c, 1), Touch(src, -1)];
    assert s[1..][1..] == [Touch(src, -1)];
    assert s[1..][1..][1..] == [];
    assert Gain(s[1..][1..][1..], i) == 0;
    assert Gain(s[1..][1..], i) == if i == src then -1 else 0;
    assert Gain(s[1..], i) == (if i == c then 1 else 0) + (if i == src then -1 else 0);
  }

  lemma CopyBackGain(src: nat, c: nat, i: int)
    requires src != c
    ensures WalkEnd(c, [Touch(src, 1), Touch(c, -1)]) == c
    ensures Gain([Touch(src, 1), Touch(c, -1)], i) == if i == c then -1 else if i == src then 1 else 0
  {
    var s := [Touch(src, 1), Touch(c, -1)];
    assert s[1..] == [Touch(c, -1)];
    assert s[1..][1..] == [];
    assert Gain(s[1..][1..], i) == 0;
  }

  /** `src[ d+ c+ src- ]` moves the source into both `d` and `c`. */
  lemma CopyOutLoop(src: nat, d: nat, c: nat, t: Tape, fuel: nat)
    requires src != d && src != c && d != c && t.ptr == src && fuel >= 256
    ensures Exec([Loop(CopyOut(src, d, c))], t, fuel).Some?
    ensures var u := Exec([Loop(CopyOut(src, d, c))], t, fuel).value;
      u.ptr == src && u.out == t.out && Cell(u, src) == 0 &&
      Cell(u, d) == (Cell(t, d) + Cell(t, src)) % 256 && Cell(u, c) == (Cell(t, c) + Cell(t, src)) % 256 &&
      forall i :: i != src && i != d && i != c ==> Cell(u, i) == Cell(t, i)
  {
    var steps := [Touch(d, 1), Touch(c, 1), Touch(src, -1)];
    CopyOutGain(src, d, c, src);
    CountedWalk(steps, t, fuel);
    var u := Exec([Loop(CopyOut(src, d, c))], t, fuel).value;
    CopyOutGain(src, d, c, d);
    CopyOutGain(src, d, c, c);
    forall i | i != src && i != d && i != c
      ensures Cell(u, i) == Cell(t, i)
    {
      CopyOutGain(src, d, c, i);
      assert Cell(u, i) == (Cell(t, i) + Cell(t, src) * 0) % 256;
    }
  }

  /** `c[ src+ c- ]` moves `c` back into the source. */
  lemma CopyBackLoop(src: nat, c: nat, t: Tape, fuel: nat)
    requires src != c && t.ptr == c && fuel >= 256
    ensures Exec([Loop(CopyBack(src, c))], t, fuel).Some?
    ensures var u := Exec([Loop(CopyBack(src, c))], t, fuel).value;
      u.ptr == c && u.out == t.out && Cell(u, c) == 0 &&
      Cell(u, src) == (Cell(t, src) + Cell(t, c)) % 256 &&
      forall i :: i != src && i != c ==> Cell(u, i) == Cell(t, i)
  {
    var steps := [Touch(src, 1), Touch(c, -1)];
    CopyBackGain(src, c, c);
    CountedWalk(steps, t, fuel);
    var u := Exec([Loop(CopyBack(src, c))], t, fuel).value;
    CopyBackGain(src, c, src);
    forall i | i != src && i != c
      ensures Cell(u, i) == Cell(t, i)
    {
      CopyBackGain(src, c, i);
      assert Cell(u, i) == (Cell(t, i) + Cell(t, c) * 0) % 256;
    }
  }

  /**
   * The two loops of a copy, with `d` and `c` at 0 beforehand: both hold
   * the source value, then `c` is moved back into the source, so the
   * source is restored, `d` holds its value and `c` is 0.
   */
  lemma CopyLoopsTape(src: nat, d: nat, c: nat, t: Tape, fuel: nat)
    requires src != d && src != c && d != c && t.ptr == src && fuel >= 256
    requires Cell(t, d) == 0 && Cell(t, c) == 0
    ensures Exec([Loop(CopyOut(src, d, c))] + Moves(src, c) + [Loop(CopyBack(src, c))], t, fuel).Some?
    ensures var u := Exec([Loop(CopyOut(src, d, c))] + Moves(src, c) + [Loop(CopyBack(src, c))], t, fuel).value;
      u.ptr == c && u.out == t.out && Cell(u, src) == Cell(t, src) && Cell(u, d) == Cell(t, src) &&
      Cell(u, c) == 0 && forall i :: i != src && i != d && i != c ==> Cell(u, i) == Cell(t, i)
  {
    var a1, a2, a3 := [Loop(CopyOut(src, d, c))], Moves(src, c), [Loop(CopyBack(src, c))];
    CopyOutLoop(src, d, c, t, fuel);
    var t1 := Exec(a1, t, fuel).value;
    ExecMoves(t1, c, fuel);
    var t2 := t1.(ptr := c);
    CopyBackLoop(src, c, t2, fuel);
    var t3 := Exec(a3, t2, fuel).value;
    Chain(a1, a2, t, t1, t2, fuel);
    Chain(a1 + a2, a3, t, t2, t3, fuel);
  }

  /**
   * `varCopyByIndex(name, src)` on an occupied source cell: afterwards the
   * new binding's cell holds the source's value, the source is unchanged,
   * the scratch cell is 0 (and free again), no other cell changes, and the
   * state still describes the tape.
   */
  lemma CopyByIndexTape(g: Gen, name: string, src: nat, t: Tape, fuel: nat)
    requires Realizes(g, t) && src in g.memory && fuel >= 256
    requires name != TempName("compilator_", g.counter)
    ensures var d, c := FirstFree(g.memory), ScratchCell(g.memory);
      var r := Exec(CopyCode(g.pointer, src, d, c), t, fuel);
      r.Some? && Realizes(CopyByIndex(g, name, src), r.value) && r.value.out == t.out &&
      Cell(r.value, d) == Cell(t, src) && Cell(r.value, src) == Cell(t, src) && Cell(r.value, c) == 0 &&
      forall i :: i != d && i != c ==> Cell(r.value, i) == Cell(t, i)
  {
    var d, c := FirstFree(g.memory), ScratchCell(g.memory);
    CopyByIndexEffect(g, name, src);
    assert src != d && src != c;
    var u := CopyCodeRun(g.pointer, src, d, c, t, fuel);
    FreeZeroAfter(g.memory, CopyByIndex(g, name, src).memory, t, u, d, c);
  }

  /** The whole text of a copy, run from `p` with the destination and scratch cells at 0. */
  lemma CopyCodeRun(p: nat, src: nat, d: nat, c: nat, t: Tape, fuel: nat) returns (u: Tape)
    requires src != d && src != c && d != c && t.ptr == p && fuel >= 256
    requires Cell(t, d) == 0 && Cell(t, c) == 0
    ensures Exec(CopyCode(p, src, d, c), t, fuel) == Some(u)
    ensures u.ptr == c && u.out == t.out
    ensures Cell(u, d) == Cell(t, src) && Cell(u, src) == Cell(t, src) && Cell(u, c) == 0
    ensures forall i :: i != d && i != c ==> Cell(u, i) == Cell(t, i)
  {
    var a1, a2, a3 := Moves(p, d), Moves(d, c), Moves(c, src);
    var b := [Loop(CopyOut(src, d, c))] + Moves(src, c) + [Loop(CopyBack(src, c))];
    var e := [Loop([Dec])];
    AppendAssoc3(a1 + a2 + a3, [Loop(CopyOut(src, d, c))], Moves(src, c), [Loop(CopyBack(src, c))]);
    assert CopyCode(p, src, d, c) == a1 + a2 + a3 + b + e;
    ExecMoves(t, d, fuel);
    var t1 := t.(ptr := d);
    ExecMoves(t1, c, fuel);
    var t2 := t1.(ptr := c);
    ExecMoves(t2, src, fuel);
    var t3 := t2.(ptr := src);
    CopyLoopsTape(src, d, c, t3, fuel);
    var t4 := Exec(b, t3, fuel).value;
    ClearLoop(t4, fuel);
    u := Exec(e, t4, fuel).value;
    Chain(a1, a2, t, t1, t2, fuel);
    Chain(a1 + a2, a3, t, t2, t3, fuel);
    Chain(a1 + a2 + a3, b, t, t3, t4, fuel);
    Chain(a1 + a2 + a3 + b, e, t, t4, u, fuel);
  }

  /** Free cells stay 0 when only a newly taken cell `d` and a cleared cell `c` change. */
  lemma FreeZeroAfter(m: set<nat>, m2: set<nat>, t: Tape, u: Tape, d: nat, c: nat)
    requires FreeZero(m, t) && m <= m2 && d in m2 && Cell(u, c) == 0
    requires forall i :: i != d && i != c ==> Cell(u, i) == Cell(t, i)
    ensures FreeZero(m2, u)
  {
    forall i: nat | i !in m2
      ensures Cell(u, i) == 0
    {
      if i != c {
        assert Cell(u, i) == Cell(t, i);
      }
    }
  }

  // ---------------------------------------------------------------------
  // Composing steps

  /** Going from `g` to `r` appends `p`, and `p` takes the machine from `t` to `u`. */
  ghost predicate Emits(g: Gen, r: Gen, p: Prog, t: Tape, u: Tape, fuel: nat)
  {
    r.result == g.result + Show(p) && Exec(p, t, fuel) == Some(u)
  }

  lemma EmitsChain(g: Gen, r1: Gen, r2: Gen, p1: Prog, p2: Prog, t: Tape, u1: Tape, u2: Tape, fuel: nat)
    requires Emits(g, r1, p1, t, u1, fuel) && Emits(r1, r2, p2, u1, u2, fuel)
    ensures Emits(g, r2, p1 + p2, t, u2, fuel)
  {
    ShowChain(g.result, r1.result, r2.result, p1, p2);
    Chain(p1, p2, t, u1, u2, fuel);
  }

  lemma ShowChain(a: string, b: string, c: string, p1: Prog, p2: Prog)
    requires b == a + Show(p1) && c == b + Show(p2)
    ensures c == a + Show(p1 + p2)
  {
    ShowAppend(p1, p2);
    AppendAssoc(a, Show(p1), Show(p2));
  }

  lemma MoveEmits(g: Gen, to: nat, t: Tape, fuel: nat)
    requires t.ptr == g.pointer
    ensures Emits(g, MoveTo(g, to), Moves(g.pointer, to), t, t.(ptr := to), fuel)
  {
    ExecMoves(t, to, fuel);
  }

  // ---------------------------------------------------------------------
  // Freeing

  /**
   * `memoryFree(name, true, safe)` of an int8 variable clears its cell,
   * touches no other cell, and leaves a state that still describes the tape.
   */
  lemma FreeTape(g: Gen, name: string, safe: bool, t: Tape, fuel: nat)
    requires Realizes(g, t) && name in g.variables && g.variables[name].Int8? && fuel >= 256
    ensures var b := g.variables[name]; var r := Exec(FreeCode(g.pointer, b, true, safe), t, fuel);
      r.Some? && Realizes(Free(g, name, true, safe).value, r.value) && r.value.out == t.out &&
      Cell(r.value, b.index) == 0 && forall i :: i != b.index ==> Cell(r.value, i) == Cell(t, i)
  {
    var b := g.variables[name];
    var p := g.pointer;
    FreeEffect(g, name, true, safe);
    ExecMoves(t, b.index, fuel);
    var t1 := t.(ptr := b.index);
    ClearLoop(t1, fuel);
    var t2 := Exec([Loop([Dec])], t1, fuel).value;
    Chain(Moves(p, b.index), [Loop([Dec])], t, t1, t2, fuel);
    var u := if safe then t2.(ptr := p) else t2;
    if safe {
      ExecMoves(t2, p, fuel);
      Chain(Moves(p, b.index) + [Loop([Dec])], Moves(b.index, p), t, t2, u, fuel);
    } else {
      assert FreeCode(p, b, true, safe) == Moves(p, b.index) + [Loop([Dec])];
    }
    assert Exec(FreeCode(p, b, true, safe), t, fuel) == Some(u);
    var r := Free(g, name, true, safe).value;
    assert r.memory == g.memory - {b.index};
    assert u.cells == t2.cells;
    forall i | i != b.index
      ensures Cell(u, i) == Cell(t, i)
    {
      assert Cell(t2, i) == Cell(t1, i);
    }
    forall i: nat | i !in r.memory
      ensures Cell(u, i) == 0
    {
    }
  }

  // ---------------------------------------------------------------------
  // Strings

  predicate Distinct(cells: seq<nat>)
  {
    forall k, l :: 0 <= k < l < |cells| ==> cells[k] != cells[l]
  }

  lemma {:induction false} GainAppend(a: seq<Touch>, b: seq<Touch>, i: int)
    ensures Gain(a + b, i) == Gain(a, i) + Gain(b, i)
    decreases |a|
  {
    if a == [] {
      assert a + b == b;
    } else {
      assert (a + b)[0] == a[0];
      assert (a + b)[1..] == a[1..] + b;
      GainAppend(a[1..], b, i);
    }
  }

  /** One `+` per cell: a cell listed once gains one, any other cell nothing. */
  lemma {:induction false} OnesGain(cells: seq<nat>, i: nat)
    requires Distinct(cells)
    ensures Gain(Ones(cells), i) == if i in cells then 1 else 0
    decreases |cells|
  {
    if cells != [] {
      var o := Ones(cells);
      assert o[0] == Touch(cells[0], 1) && o[1..] == Ones(cells[1..]);
      OnesGain(cells[1..], i);
      assert i in cells <==> i == cells[0] || i in cells[1..];
      if i == cells[0] {
        assert i !in cells[1..];
      }
    }
  }

  lemma SpreadGain(slot: nat, cells: seq<nat>, i: nat)
    requires Distinct(cells) && slot !in cells
    ensures WalkEnd(slot, SpreadSteps(slot, cells)) == slot
    ensures Gain(SpreadSteps(slot, cells), i) == if i == slot then -1 else if i in cells then 1 else 0
  {
    GainAppend(Ones(cells), [Touch(slot, -1)], i);
    OnesGain(cells, i);
    assert [Touch(slot, -1)][1..] == [];
  }

  /**
   * The shared loop of `memoryWriteArrayOptimized`: every listed cell gains
   * the counter's value, the counter ends at 0, no other cell changes.
   */
  lemma SpreadLoopTape(slot: nat, cells: seq<nat>, t: Tape, fuel: nat)
    requires Distinct(cells) && slot !in cells && t.ptr == slot && fuel >= 256
    ensures Exec([Loop(SpreadLoop(slot, cells))], t, fuel).Some?
    ensures var u := Exec([Loop(SpreadLoop(slot, cells))], t, fuel).value;
      u.ptr == slot && u.out == t.out && Cell(u, slot) == 0 &&
      (forall k :: 0 <= k < |cells| ==> Cell(u, cells[k]) == (Cell(t, cells[k]) + Cell(t, slot)) % 256) &&
      forall i: nat :: i != slot && i !in cells ==> Cell(u, i) == Cell(t, i)
  {
    SpreadGain(slot, cells, slot);
    CountedWalk(SpreadSteps(slot, cells), t, fuel);
    var u := Exec([Loop(SpreadLoop(slot, cells))], t, fuel).value;
    forall k | 0 <= k < |cells|
      ensures Cell(u, cells[k]) == (Cell(t, cells[k]) + Cell(t, slot)) % 256
    {
      SpreadGain(slot, cells, cells[k]);
    }
    forall i: nat | i != slot && i !in cells
      ensures Cell(u, i) == Cell(t, i)
    {
      SpreadGain(slot, cells, i);
      assert Cell(u, i) == (Cell(t, i) + Cell(t, slot) * 0) % 256;
    }
  }

  /** `u` is `t` after one write: cell `c` gains `v` (nothing when `v` is not positive), no other cell changes. */
  ghost predicate WroteOne(t: Tape, u: Tape, c: nat, v: int)
  {
    Cell(u, c) == (Cell(t, c) + (if v > 0 then v else 0)) % 256 &&
    forall i :: i != c ==> Cell(u, i) == Cell(t, i)
  }

  /** One per-cell write: move to the cell and load the value there. */
  lemma WriteAtTape(g: Gen, c: nat, v: int, t: Tape, fuel: nat) returns (p: Prog, u: Tape)
    requires c in g.memory && Realizes(g, t) && fuel >= 256
    ensures Emits(g, WriteOptimized(MoveTo(g, c), v), p, t, u, fuel)
    ensures Realizes(WriteOptimized(MoveTo(g, c), v), u) && u.out == t.out
    ensures WroteOne(t, u, c, v)
  {
    var g1 := MoveTo(g, c);
    MoveEmits(g, c, t, fuel);
    var t1 := t.(ptr := c);
    WriteTape(g1.memory, c, v, t1, fuel);
    var code := WriteCode(g1.memory, c, v);
    u := Exec(code, t1, fuel).value;
    EmitsChain(g, g1, WriteOptimized(g1, v), Moves(g.pointer, c), code, t, t1, u, fuel);
    p := Moves(g.pointer, c) + code;
  }

  /**
   * The per-cell writes: each listed (occupied) cell gains its own value
   * less `min`, and no other cell changes.
   */
  lemma {:induction false} WriteEachTape(g: Gen, arr: seq<int>, cells: seq<nat>, min: int, t: Tape, fuel: nat)
    returns (p: Prog, u: Tape)
    requires |arr| == |cells| && Distinct(cells) && (forall k :: 0 <= k < |cells| ==> cells[k] in g.memory)
    requires Realizes(g, t) && fuel >= 256
    ensures Emits(g, WriteEach(g, arr, cells, min), p, t, u, fuel) && Realizes(WriteEach(g, arr, cells, min), u)
    ensures u.out == t.out && Wrote(t, u, cells, arr, min)
    decreases |cells|
  {
    if cells == [] {
      p, u := [], t;
    } else {
      var c, rest := cells[0], cells[1..];
      var g2 := WriteOptimized(MoveTo(g, c), arr[0] - min);
      var p1, t2 := WriteAtTape(g, c, arr[0] - min, t, fuel);
      WriteEachRest(g, g2, cells, min);
      var p3, t3 := WriteEachTape(g2, arr[1..], rest, min, t2, fuel);
      WriteEachCons(g, arr, cells, min);
      WriteEachJoin(g, g2, WriteEach(g, arr, cells, min), arr, cells, min, p1, p3, t, t2, t3, fuel);
      p, u := p1 + p3, t3;
    }
  }

  lemma WriteEachCons(g: Gen, arr: seq<int>, cells: seq<nat>, min: int)
    requires |arr| == |cells| && cells != []
    ensures WriteEach(g, arr, cells, min) == WriteEach(WriteOptimized(MoveTo(g, cells[0]), arr[0] - min), arr[1..], cells[1..], min)
  {
  }

  /** What the remaining cells need once the first one is written. */
  lemma WriteEachRest(g: Gen, g2: Gen, cells: seq<nat>, min: int)
    requires cells != [] && Distinct(cells) && (forall k :: 0 <= k < |cells| ==> cells[k] in g.memory)
    requires g2.memory == g.memory
    ensures Distinct(cells[1..]) && forall k :: 0 <= k < |cells[1..]| ==> cells[1..][k] in g2.memory
  {
    var rest := cells[1..];
    assert forall k :: 0 <= k < |rest| ==> rest[k] == cells[k + 1];
  }

  /** The first write followed by the writes of the remaining cells. */
  lemma WriteEachJoin(g: Gen, g2: Gen, r: Gen, arr: seq<int>, cells: seq<nat>, min: int,
                      p1: Prog, p3: Prog, t: Tape, t2: Tape, t3: Tape, fuel: nat)
    requires |arr| == |cells| && cells != [] && Distinct(cells)
    requires Emits(g, g2, p1, t, t2, fuel) && t2.out == t.out
    requires WroteOne(t, t2, cells[0], arr[0] - min)
    requires Emits(g2, r, p3, t2, t3, fuel)
    requires t3.out == t2.out && Wrote(t2, t3, cells[1..], arr[1..], min)
    ensures Emits(g, r, p1 + p3, t, t3, fuel)
    ensures t3.out == t.out && Wrote(t, t3, cells, arr, min)
  {
    var c, rest := cells[0], cells[1..];
    EmitsChain(g, g2, r, p1, p3, t, t2, t3, fuel);
    assert c !in rest;
    assert cells == [c] + rest;
    WriteConsCells(c, rest, arr, min, t, t2, t3);
  }

  /**
   * `u` is `t` after the per-cell writes: each listed cell gains its value
   * less `min` (nothing for a value not above `min`), no other cell changes.
   */
  ghost predicate Wrote(t: Tape, u: Tape, cells: seq<nat>, arr: seq<int>, min: int)
    requires |arr| == |cells|
  {
    (forall k :: 0 <= k < |cells| ==>
      Cell(u, cells[k]) == (Cell(t, cells[k]) + (if arr[k] - min > 0 then arr[k] - min else 0)) % 256) &&
    forall i: nat :: i !in cells ==> Cell(u, i) == Cell(t, i)
  }

  /** Cells holding the least value, topped up by each value's excess, hold the values. */
  lemma MinTopUp(t: Tape, u: Tape, cells: seq<nat>, arr: seq<int>, mv: nat)
    requires |arr| == |cells| && Wrote(t, u, cells, arr, mv)
    requires forall k :: 0 <= k < |cells| ==> Cell(t, cells[k]) == mv % 256 && arr[k] >= mv
    ensures forall k :: 0 <= k < |cells| ==> Cell(u, cells[k]) == arr[k] % 256
  {
    forall k | 0 <= k < |cells|
      ensures Cell(u, cells[k]) == arr[k] % 256
    {
      WroteAt(t, u, cells, arr, mv, k);
      TopUp(mv, arr[k] - mv);
    }
  }

  lemma WroteAt(t: Tape, u: Tape, cells: seq<nat>, arr: seq<int>, min: int, k: int)
    requires |arr| == |cells| && Wrote(t, u, cells, arr, min) && 0 <= k < |cells| && arr[k] >= min
    ensures Cell(u, cells[k]) == (Cell(t, cells[k]) + (arr[k] - min)) % 256
  {
  }

  /** The cell facts of one write followed by the writes of the remaining cells. */
  lemma WriteConsCells(c: nat, rest: seq<nat>, arr: seq<int>, min: int, t: Tape, t2: Tape, t3: Tape)
    requires |arr| == |rest| + 1 && c !in rest
    requires WroteOne(t, t2, c, arr[0] - min)
    requires Wrote(t2, t3, rest, arr[1..], min)
    ensures Wrote(t, t3, [c] + rest, arr, min)
  {
    var cells := [c] + rest;
    forall k | 0 <= k < |cells|
      ensures Cell(t3, cells[k]) == (Cell(t, cells[k]) + (if arr[k] - min > 0 then arr[k] - min else 0)) % 256
    {
      if k > 0 {
        assert cells[k] == rest[k - 1] && arr[k] == arr[1..][k - 1];
      }
    }
    forall i: nat | i !in cells
      ensures Cell(t3, i) == Cell(t, i)
    {
      assert i != c && i !in rest;
    }
  }

  /**
   * The first half of `memoryWriteArrayOptimized`: a temporary holding the
   * least code, spread over every (still empty) cell by the shared loop.
   */
  lemma SpreadMinTape(g: Gen, temp: string, mv: nat, cells: seq<nat>, t: Tape, fuel: nat)
    returns (p: Prog, u: Tape)
    requires Realizes(g, t) && Distinct(cells) && fuel >= 256
    requires forall k :: 0 <= k < |cells| ==> cells[k] in g.memory && Cell(t, cells[k]) == 0
    ensures var slot := FirstFree(g.memory);
      var r := Emit(MoveTo(CreateInt8(g, temp, mv), slot), [Loop(SpreadLoop(slot, cells))]);
      Emits(g, r, p, t, u, fuel) && Realizes(r, u) && u.out == t.out && Cell(u, slot) == 0 &&
      (forall k :: 0 <= k < |cells| ==> Cell(u, cells[k]) == mv % 256) &&
      forall i: nat :: i != slot && i !in cells ==> Cell(u, i) == Cell(t, i)
  {
    var slot := FirstFree(g.memory);
    var g1 := CreateInt8(g, temp, mv);
    CreateInt8Effect(g, temp, mv);
    CreateInt8Tape(g, temp, mv, t, fuel);
    var t1 := Exec(Int8Code(g, mv), t, fuel).value;
    var g2 := MoveTo(g1, slot);
    MoveEmits(g1, slot, t1, fuel);
    assert t1.(ptr := slot) == t1;
    EmitsChain(g, g1, g2, Int8Code(g, mv), Moves(slot, slot), t, t1, t1, fuel);
    assert slot !in cells;
    SpreadLoopTape(slot, cells, t1, fuel);
    var loop := [Loop(SpreadLoop(slot, cells))];
    u := Exec(loop, t1, fuel).value;
    var r := Emit(g2, loop);
    EmitsChain(g, g2, r, Int8Code(g, mv) + Moves(slot, slot), loop, t, t1, u, fuel);
    p := Int8Code(g, mv) + Moves(slot, slot) + loop;
    forall k | 0 <= k < |cells|
      ensures Cell(u, cells[k]) == mv % 256
    {
      assert Cell(t1, cells[k]) == 0;
    }
    forall i: nat | i !in r.memory
      ensures Cell(u, i) == 0
    {
      assert i != slot && i !in cells;
      assert Cell(t1, i) == 0;
    }
  }

  lemma TopUp(m: nat, d: nat)
    ensures (m % 256 + d) % 256 == (m + d) % 256
  {
    ModMultiple(256, m / 256, m % 256 + d);
  }

  /** Both halves of the array write before the temporary is released. */
  lemma SpreadWriteTape(g: Gen, temp: string, arr: seq<int>, cells: seq<nat>, t: Tape, fuel: nat)
    returns (p: Prog, u: Tape)
    requires Realizes(g, t) && |arr| == |cells| && arr != [] && Distinct(cells) && fuel >= 256
    requires forall k :: 0 <= k < |arr| ==> arr[k] >= 0
    requires forall k :: 0 <= k < |cells| ==> cells[k] in g.memory && Cell(t, cells[k]) == 0
    ensures MinOf(arr).Integer? && MinOf(arr).value >= 0
    ensures var mv := MinOf(arr).value; var slot := FirstFree(g.memory);
      var r := WriteEach(Emit(MoveTo(CreateInt8(g, temp, mv), slot), [Loop(SpreadLoop(slot, cells))]), arr, cells, mv);
      Emits(g, r, p, t, u, fuel) && Realizes(r, u) && u.out == t.out && Cell(u, slot) == 0 &&
      r.variables == g.variables[temp := Int8(slot)] && r.memory == g.memory + {slot} &&
      r.counter == g.counter && r.stack == g.stack && r.pointer == cells[|cells| - 1] &&
      (forall k :: 0 <= k < |cells| ==> Cell(u, cells[k]) == arr[k] % 256) &&
      forall i: nat :: i != slot && i !in cells ==> Cell(u, i) == Cell(t, i)
  {
    var mv := MinOf(arr).value;
    var slot := FirstFree(g.memory);
    var p1, t1 := SpreadMinTape(g, temp, mv, cells, t, fuel);
    var g2 := Emit(MoveTo(CreateInt8(g, temp, mv), slot), [Loop(SpreadLoop(slot, cells))]);
    CreateInt8Effect(g, temp, mv);
    var p2, t2 := WriteEachTape(g2, arr, cells, mv, t1, fuel);
    EmitsChain(g, g2, WriteEach(g2, arr, cells, mv), p1, p2, t, t1, t2, fuel);
    WriteEachKeeps(g2, arr, cells, mv);
    p, u := p1 + p2, t2;
    MinTopUp(t1, t2, cells, arr, mv);
    assert LastOr(slot, cells) == cells[|cells| - 1];
  }

  /**
   * `memoryWriteArrayOptimized` / `writeMemoryArrayOptimized` over empty
   * cells: the k-th cell ends holding the k-th value mod 256, the temporary
   * is released (new.js clears and frees it; old_lang.js forgets its name,
   * and its cell, already 0, stays occupied), and no other cell changes.
   */
  lemma WriteArrayTape(g: Gen, arr: seq<int>, cells: seq<nat>, rev: Revision, t: Tape, fuel: nat)
    returns (p: Prog, u: Tape)
    requires Realizes(g, t) && |arr| == |cells| && arr != [] && Distinct(cells) && fuel >= 256
    requires forall k :: 0 <= k < |arr| ==> arr[k] >= 0
    requires forall k :: 0 <= k < |cells| ==> cells[k] in g.memory && Cell(t, cells[k]) == 0
    ensures WriteArray(g, arr, cells, rev).Ok?
    ensures var r := WriteArray(g, arr, cells, rev).value;
      var temp := TempName(if rev == OldLang then "translator_temp_line_" else "_compiler_", g.counter);
      Emits(g, r, p, t, u, fuel) && Realizes(r, u) && u.out == t.out &&
      r.variables == g.variables - {temp} && r.counter == g.counter + 1 && r.stack == g.stack &&
      (forall k :: 0 <= k < |cells| ==> Cell(u, cells[k]) == arr[k] % 256) &&
      forall i: nat :: i !in cells ==> Cell(u, i) == Cell(t, i)
  {
    var temp := TempName(if rev == OldLang then "translator_temp_line_" else "_compiler_", g.counter);
    var slot := FirstFree(g.memory);
    var p1, t1 := SpreadWriteTape(Tick(g), temp, arr, cells, t, fuel);
    var mv := MinOf(arr).value;
    var g3 := WriteEach(Emit(MoveTo(CreateInt8(Tick(g), temp, mv), slot), [Loop(SpreadLoop(slot, cells))]), arr, cells, mv);
    WriteArrayIs(g, arr, cells, rev);
    assert Cell(t, slot) == 0;
    var p2;
    p2, u := ReleaseTape(g3, temp, slot, rev, t1, fuel);
    var r := if rev == OldLang then Ok(DeleteVar(g3, temp)) else Free(g3, temp, true, true);
    assert WriteArray(g, arr, cells, rev) == r;
    EmitsChain(g, g3, r.value, p1, p2, t, t1, u, fuel);
    p := p1 + p2;
    UpdateThenRemove(g.variables, temp, Int8(slot));
  }

  /**
   * Releasing the array write's temporary, whose cell already holds 0:
   * old_lang.js forgets the name, new.js clears and frees the cell; either
   * way no cell changes.
   */
  lemma ReleaseTape(g: Gen, temp: string, slot: nat, rev: Revision, t: Tape, fuel: nat) returns (p: Prog, u: Tape)
    requires Realizes(g, t) && temp in g.variables && g.variables[temp] == Int8(slot) && Cell(t, slot) == 0
    requires temp != [] && !IsDigit(temp[0]) && fuel >= 256
    ensures var r := if rev == OldLang then Ok(DeleteVar(g, temp)) else Free(g, temp, true, true);
      r.Ok? && Emits(g, r.value, p, t, u, fuel) && Realizes(r.value, u) && u.out == t.out &&
      r.value.variables == g.variables - {temp} && r.value.counter == g.counter && r.value.stack == g.stack &&
      forall i :: Cell(u, i) == Cell(t, i)
  {
    if rev == OldLang {
      DeleteVarKeepsCells(g, temp);
      p, u := [], t;
    } else {
      FreeTape(g, temp, true, t, fuel);
      FreeEffect(g, temp, true, true);
      p := FreeCode(g.pointer, Int8(slot), true, true);
      u := Exec(p, t, fuel).value;
    }
  }

  /**
   * `varCreate_String` / `createVar_String` of a non-empty string: after
   * the emitted code runs, the k-th fresh cell holds the k-th character
   * code mod 256, every other cell is as before, and the state still
   * describes the tape.
   */
  lemma CreateStringTape(g: Gen, name: string, s: string, rev: Revision, t: Tape, fuel: nat)
    returns (p: Prog, u: Tape)
    requires Realizes(g, t) && s != [] && fuel >= 256
    ensures CreateString(g, name, s, rev).Ok?
    ensures var r := CreateString(g, name, s, rev).value; var cells := FreshCells(g.memory, |s|);
      Emits(g, r, p, t, u, fuel) && Realizes(r, u) && u.out == t.out &&
      r.variables == g.variables[name := Str(cells)] -
        {TempName(if rev == OldLang then "translator_temp_line_" else "_compiler_", g.counter)} &&
      (forall k :: 0 <= k < |s| ==> Cell(u, cells[k]) == (s[k] as int) % 256) &&
      forall i: nat :: i !in cells ==> Cell(u, i) == Cell(t, i)
  {
    var cells := FreshCells(g.memory, |s|);
    var g1 := g.(memory := g.memory + Elems(cells), variables := g.variables[name := Str(cells)]);
    assert forall k :: 0 <= k < |cells| ==> cells[k] in Elems(cells);
    p, u := WriteArrayTape(g1, Codes(s), cells, rev, t, fuel);
  }

  // ---------------------------------------------------------------------
  // Cells a step leaves alone

  /** Every cell outside `s` is as it was. */
  ghost predicate Keeps(t: Tape, u: Tape, s: set<int>)
  {
    forall i :: i !in s ==> Cell(u, i) == Cell(t, i)
  }

  /** Two steps that change only `a` and `b`, where `b` ends as it started, change only `a`. */
  lemma KeepsOne(t: Tape, t1: Tape, u: Tape, a: int, b: int)
    requires Keeps(t, t1, {a, b}) && Keeps(t1, u, {a, b}) && Cell(u, b) == Cell(t, b)
    ensures Keeps(t, u, {a})
  {
    forall i | i != a
      ensures Cell(u, i) == Cell(t, i)
    {
      if i != b {
        assert Cell(u, i) == Cell(t1, i) == Cell(t, i);
      }
    }
  }

  lemma KeepsMoved(t: Tape, u: Tape, to: int, s: set<int>)
    requires Keeps(t, u, s)
    ensures Keeps(t, u.(ptr := to), s)
  {
    forall i | i !in s
      ensures Cell(u.(ptr := to), i) == Cell(t, i)
    {
      assert Cell(u.(ptr := to), i) == Cell(u, i);
    }
  }

  /** Byte addition, as the machine's `+` does it. */
  function ByteSum(x: Byte, y: Byte): Byte
  {
    (x as int + y) % 256
  }

  /** The cell a name is bound to, when it is bound to one cell. */
  predicate Holds(g: Gen, name: string)
  {
    name in g.variables && CellOfBinding(g.variables[name]).Some? &&
    CellOfBinding(g.variables[name]).value in g.memory
  }

  function CellOfName(g: Gen, name: string): nat
    requires Holds(g, name)
  {
    CellOfBinding(g.variables[name]).value
  }

  lemma EmitEmits(g: Gen, p: Prog, t: Tape, u: Tape, fuel: nat)
    requires Exec(p, t, fuel) == Some(u)
    ensures Emits(g, Emit(g, p), p, t, u, fuel)
  {
  }
}
