/**
 * The `Compiler` class of main.js and new.js, and the state `convert_old`
 * of old_lang.js keeps in local variables, as one Dafny class: the six
 * fields the source mutates, and one method per primitive that updates
 * them the way the source does, loop by loop and append by append.  Each
 * method is proved against the function of module `Codegen` (or
 * `Compile`) that states the same step on a `Gen` value: `State()` after
 * the call is that function applied to `State()` before it, or the call
 * reports the same throw.  What those functions append, allocate and
 * free, and what the appended text does to the tape, is proved about the
 * functions.
 */
module CompilerImpl {
  import opened Wrappers
  import opened Brainfuck
  import opened JsValue
  import opened Codegen
  import opened Ast
  import Compile
  import OldLang

  // ---------------------------------------------------------------------
  // The text of one step, as the methods append it

  /** A move appends `ch` once per cell of the distance. */
  lemma MovesText(p: nat, to: nat, ch: char)
    requires ch == if p < to then '>' else '<'
    ensures Show(Moves(p, to)) == seq(if p <= to then to - p else p - to, _ => ch)
  {
    ShowMoves(p, to);
  }

  /** One more `+` of a linear write. */
  lemma RepText(n: nat)
    ensures Show(Rep(Inc, n + 1)) == Show(Rep(Inc, n)) + "+"
  {
    RepSnoc(Inc, n);
    ShowAppend(Rep(Inc, n), [Inc]);
  }

  lemma OutText()
    ensures Show([Instr.Out]) == "."
  {
  }

  lemma ClearText()
    ensures Show([Loop([Dec])]) == "[-]"
  {
    assert Show([Dec]) == "-";
  }

  /** A walk that gains one more touch: the walk so far, then a step to the new cell and its adjustment. */
  lemma {:induction false} WalkSnoc(from: int, steps: seq<Touch>, t: Touch)
    ensures Walk(from, steps + [t]) == Walk(from, steps) + Bump(WalkEnd(from, steps), t.cell, t.delta)
    decreases |steps|
  {
    if steps == [] {
      assert [] + [t] == [t];
      assert Walk(from, [t]) == Bump(from, t.cell, t.delta) + Walk(t.cell, []);
    } else {
      assert (steps + [t])[0] == steps[0];
      assert (steps + [t])[1..] == steps[1..] + [t];
      WalkSnoc(steps[0].cell, steps[1..], t);
      assert WalkEnd(steps[0].cell, steps[1..]) == WalkEnd(from, steps);
      AppendAssoc(Bump(from, steps[0].cell, steps[0].delta), Walk(steps[0].cell, steps[1..]),
        Bump(WalkEnd(from, steps), t.cell, t.delta));
    }
  }

  /** The text of one `+` or `-` step of a walk. */
  lemma BumpText(from: int, to: int, delta: int)
    requires delta == 1 || delta == -1
    ensures Show(Bump(from, to, delta)) == Show(Moves(from, to)) + (if delta == 1 then "+" else "-")
  {
    ShowAppend(Moves(from, to), Adjust(delta));
    assert Show(Adjust(delta)) == (if delta == 1 then "+" else "-");
  }

  /** The `+ per cell` touches of the shared string loop gain one cell at a time. */
  lemma {:induction false} OnesSnoc(cells: seq<nat>, x: nat)
    ensures Ones(cells + [x]) == Ones(cells) + [Touch(x, 1)]
    decreases |cells|
  {
    if cells == [] {
      assert [] + [x] == [x];
    } else {
      assert (cells + [x])[0] == cells[0];
      assert (cells + [x])[1..] == cells[1..] + [x];
      OnesSnoc(cells[1..], x);
    }
  }

  lemma {:induction false} OnesEnd(from: nat, cells: seq<nat>)
    ensures |Ones(cells)| == |cells|
    ensures WalkEnd(from, Ones(cells)) == LastOr(from, cells)
    decreases |cells|
  {
    if cells != [] {
      OnesEnd(from, cells[1..]);
      if cells[1..] != [] {
        assert Ones(cells)[|cells| - 1] == Ones(cells[1..])[|cells| - 2];
      }
    }
  }

  /** The text of one walk step appended to the text of the walk so far. */
  lemma WalkStepText(r0: string, x: string, from: int, steps: seq<Touch>, t: Touch, y: string)
    requires t.delta == 1 || t.delta == -1
    requires x == r0 + Show(Walk(from, steps))
    requires y == x + Show(Moves(WalkEnd(from, steps), t.cell)) + (if t.delta == 1 then "+" else "-")
    ensures y == r0 + Show(Walk(from, steps + [t]))
  {
    WalkSnoc(from, steps, t);
    BumpText(WalkEnd(from, steps), t.cell, t.delta);
    ShowAppend(Walk(from, steps), Bump(WalkEnd(from, steps), t.cell, t.delta));
    AppendAssoc(x, Show(Moves(WalkEnd(from, steps), t.cell)), if t.delta == 1 then "+" else "-");
    AppendAssoc(r0, Show(Walk(from, steps)), Show(Bump(WalkEnd(from, steps), t.cell, t.delta)));
  }

  /** A loop written as `[`, its body's text and `]`. */
  lemma LoopText(r0: string, x: string, body: Prog, y: string)
    requires x == r0 + "[" + Show(body) && y == x + "]"
    ensures y == r0 + Show([Loop(body)])
  {
    assert Show([Loop(body)]) == "[" + Show(body) + "]";
    AppendAssoc(r0, "[" + Show(body), "]");
    AppendAssoc(r0, "[", Show(body));
  }

  /** The body of the ×10 loop, `-`, a walk to the target, ten `+`, and the walk back. */
  lemma TenLoopText(slot: nat, p: nat)
    ensures Show(TenLoop(slot, p)) ==
      "-" + Show(Moves(slot, p)) + Show(Linear(10)) + Show(Moves(p, slot))
  {
    var s := DrainSteps(slot, p, 10);
    assert s[1..] == [Touch(p, 10), Touch(slot, 0)] && s[1..][1..] == [Touch(slot, 0)];
    assert Walk(slot, s) == Bump(slot, slot, -1) + Walk(slot, s[1..]);
    assert Walk(slot, s[1..]) == Bump(slot, p, 10) + Walk(p, s[1..][1..]);
    assert Walk(p, s[1..][1..]) == Bump(p, slot, 0) + Walk(slot, []);
    assert Bump(p, slot, 0) + Walk(slot, []) == Moves(p, slot);
    assert Moves(slot, slot) == [];
    assert Bump(slot, slot, -1) == [Dec];
    assert Adjust(10) == Linear(10);
    ShowAppend(Moves(slot, p), Adjust(10));
    ShowAppend(Bump(slot, p, 10), Moves(p, slot));
    ShowAppend([Dec], Bump(slot, p, 10) + Moves(p, slot));
    AppendAssoc("-", Show(Moves(slot, p)) + Show(Linear(10)), Show(Moves(p, slot)));
    AppendAssoc("-", Show(Moves(slot, p)), Show(Linear(10)));
  }

  /**
   * The text `memoryWriteOptimized` appends from 11 up, in the order the
   * method appends it: walk to the scratch cell, ⌊v/10⌋ `+`, `[`, `-`,
   * walk back, ten `+`, walk to the scratch cell, `]`, walk back, v mod 10
   * `+`.
   */
  lemma WriteLargeText(g: Gen, v: int, slot: nat)
    requires v >= 11 && slot == FirstFree(g.memory)
    ensures var a, c := Show(Moves(g.pointer, slot)), Show(Moves(slot, g.pointer));
      WriteOptimized(g, v).result ==
        g.result + a + Show(Linear(v / 10)) + "[" + "-" + c + Show(Linear(10)) + a + "]" + c + Show(Linear(v % 10))
  {
    var p := g.pointer;
    var a, c := Show(Moves(p, slot)), Show(Moves(slot, p));
    var b, d, e := Show(Linear(v / 10)), Show(Linear(10)), Show(Linear(v % 10));
    WriteLarge(g, v);
    TenLoopText(slot, p);
    assert Adjust(v / 10) == Linear(v / 10);
    assert Adjust(v % 10) == Linear(v % 10);
    ShowAppend(Moves(p, slot), Adjust(v / 10));
    ShowAppend(Moves(slot, p), Adjust(v % 10));
    var x := g.result + (a + b) + "[";
    assert x == g.result + a + b + "[" by {
      AppendAssoc(g.result, a, b);
    }
    var y := x + ("-" + c + d + a);
    assert y == x + "-" + c + d + a by {
      AppendAssoc3(x, "-", c, d);
      AppendAssoc(x, "-" + c + d, a);
      AppendAssoc(x, "-", c);
      AppendAssoc(x, "-" + c, d);
    }
    assert y + "]" + (c + e) == y + "]" + c + e by {
      AppendAssoc(y + "]", c, e);
    }
  }

  // ---------------------------------------------------------------------
  // The generator as an object

  /** What a method that returns nothing gives back when it does not throw. */
  datatype Unit = Unit


  /** `Division2` throws what the copy of the dividend throws. */
  lemma DivisionFirstFails(g: Gen, a: string, b: string)
    requires CopyByName(Tick(g), Compile.DivName(g.counter), a).Err?
    ensures Compile.Division2(g, a, b) == Err(CopyByName(Tick(g), Compile.DivName(g.counter), a).msg)
  {
  }

  /** `Division2` throws what the copy of the divisor throws. */
  lemma DivisionSecondFails(g: Gen, a: string, b: string, g1: Gen)
    requires CopyByName(Tick(g), Compile.DivName(g.counter), a) == Ok(g1)
    requires CopyByName(Tick(g1), Compile.DivName(g1.counter), b).Err?
    ensures Compile.Division2(g, a, b) == Err(CopyByName(Tick(g1), Compile.DivName(g1.counter), b).msg)
  {
  }

  /** `Division2` once both copies are made: the zeros, then the rest. */
  lemma DivisionCopied(g: Gen, a: string, b: string, g1: Gen, g2: Gen, x: string, y: string)
    requires x == Compile.DivName(g.counter) && y == Compile.DivName(g1.counter)
    requires CopyByName(Tick(g), x, a) == Ok(g1)
    requires CopyByName(Tick(g1), y, b) == Ok(g2)
    ensures var k := g2.counter;
      Compile.Division2(g, a, b) == Compile.DivisionRest(g2, x, y, Compile.DivName(k), Compile.DivName(k + 1), Compile.DivName(k + 2), Compile.DivName(k + 3))
  {
  }

  /**
   * The generator as an object: the fields of the `Compiler` class of
   * main.js and new.js.  `convert_old` in old_lang.js keeps the same state
   * in the variables of its closure (`tempIndex` is `counter`,
   * `stackPointers` is `stack`) and has the same helpers under other
   * names (`getTempIndex`, `getMemoryFreeIndex`, `getMemoryFromIndex`,
   * `createVar`, `writeMemory…`), so one object of revision `OldLang`
   * models it; the helpers only old_lang.js has, and its line loop, are
   * the methods after `compile`.
   */
  class Compiler {
    var result: string
    var pointer: nat
    var memory: set<nat>
    var variables: map<string, Binding>
    var counter: nat
    var stack: seq<Frame>

    /** Which revision this is: they differ in `varCreate` on strings, in the string writer and in `compile`. */
    const rev: Revision

    /** The fields as a generator state. */
    function State(): Gen
      reads this
    {
      Gen(result, pointer, memory, variables, counter, stack)
    }

    /** The call completed and left `f`'s state, or threw `f`'s message. */
    predicate Follows(r: Result<Unit>, f: Result<Gen>)
      reads this
    {
      if f.Ok? then r.Ok? && State() == f.value else r == Err(f.msg)
    }

    /** `new Compiler()`: empty text, pointer on cell 0, nothing allocated, the counter at 0, no open block. */
    constructor (rev: Revision)
      ensures State() == Start && this.rev == rev
    {
      result := "";
      pointer := 0;
      memory := {};
      variables := map[];
      counter := 0;
      stack := [];
      this.rev := rev;
    }

    /** `getIotaSecureIndex`: the counter's value, then the counter advances. */
    method GetIotaSecureIndex() returns (k: nat)
      modifies this
      ensures k == old(counter) && State() == Tick(old(State()))
    {
      k := counter;
      counter := counter + 1;
    }

    /**
     * `memoryGetFreeIndex`: the first hole among 0 .. |memory| - 1, or
     * |memory|; that is the least cell that is not occupied.
     */
    method MemoryGetFreeIndex() returns (i: nat)
      ensures i == FirstFree(memory)
      ensures i !in memory && forall j: nat :: j < i ==> j in memory
    {
      var length := |memory|;
      var j := 0;
      while j < length
        invariant j <= length
        invariant forall k: nat :: k < j ==> k in memory
      {
        if j !in memory {
          LeastFree(memory, j);
          return j;
        }
        j := j + 1;
      }
      PrefixFull(memory, length);
      LeastFree(memory, length);
      return length;
    }

    /** `memoryPointerByIndex(to)`: one `>` or `<` per cell of the distance, then the pointer is `to`. */
    method MemoryPointerByIndex(to: nat)
      modifies this
      ensures State() == MoveTo(old(State()), to)
    {
      ghost var r0 := result;
      var p := pointer;
      var distance := if p <= to then to - p else p - to;
      ghost var ch := if p < to then '>' else '<';
      var i := 0;
      while i < distance
        invariant i <= distance && pointer == p
        invariant memory == old(memory) && variables == old(variables) && counter == old(counter) && stack == old(stack)
        invariant result == r0 + seq(i, _ => ch)
      {
        if p < to {
          result := result + ">";
        } else {
          result := result + "<";
        }
        assert seq(i + 1, _ => ch) == seq(i, _ => ch) + [ch];
        i := i + 1;
      }
      pointer := to;
      MovesText(p, to, ch);
    }

    /** `memoryPointerByName(name)`: the move to the name's cell; an unbound name throws. */
    method MemoryPointerByName(name: string) returns (r: Result<Unit>)
      modifies this
      ensures Follows(r, MoveToName(old(State()), name))
    {
      if name !in variables {
        return Err("TypeError");
      }
      var to := CellOfBinding(variables[name]);
      if to.None? {
        return Err(StringCellMessage);
      }
      MemoryPointerByIndex(to.value);
      return Ok(Unit);
    }

    /** `memoryAllocate(name, "int8", index)`. */
    method MemoryAllocate(name: string, index: nat)
      modifies this
      ensures State() == Allocate(old(State()), name, index)
    {
      variables := variables[name := Int8(index)];
      memory := memory + {index};
    }

    /** `memoryFree(name, fillZero, safeCurrentPointer)`. */
    method MemoryFree(name: string, fillZero: bool, safe: bool) returns (r: Result<Unit>)
      modifies this
      ensures Follows(r, Free(old(State()), name, fillZero, safe))
    {
      var beforeIndex := pointer;
      if name !in variables {
        return Err("TypeError");
      }
      var v := variables[name];
      if fillZero && v.Int8? {
        MemoryPointerByIndex(v.index);
        ClearText();
        result := result + "[-]";
      }
      variables := variables - {name};
      memory := memory - KeyCells(v);
      if safe {
        MemoryPointerByIndex(beforeIndex);
      }
      return Ok(Unit);
    }

    /** `memoryWriteLinear(value)`: one `+` per unit of the value. */
    method MemoryWriteLinear(value: int)
      modifies this
      ensures State() == Emit(old(State()), Linear(value))
    {
      ghost var r0 := result;
      var i := 0;
      while i < value
        invariant i <= if value > 0 then value else 0
        invariant result == r0 + Show(Rep(Inc, i))
        invariant pointer == old(pointer) && memory == old(memory)
        invariant variables == old(variables) && counter == old(counter) && stack == old(stack)
      {
        result := result + "+";
        RepText(i);
        i := i + 1;
      }
      if value <= 0 {
        assert Rep(Inc, 0) == [];
      }
    }

    /**
     * `memoryWriteOptimized(value)`: below 11 a linear write; otherwise
     * ⌊v/10⌋ on the least free cell, a loop adding ten per unit back on
     * the starting cell, and the remainder.  The three runs of `+` the
     * source writes inline are `memoryWriteLinear`'s loop.
     */
    method MemoryWriteOptimized(value: int)
      modifies this
      ensures State() == WriteOptimized(old(State()), value)
    {
      if value < 11 {
        MemoryWriteLinear(value);
        return;
      }
      ghost var g := State();
      var quotient := value / 10;
      var remainder := value % 10;
      var slotBefore := pointer;
      var slot := MemoryGetFreeIndex();
      MemoryPointerByIndex(slot);
      MemoryWriteLinear(quotient);
      result := result + "[";
      result := result + "-";
      MemoryPointerByIndex(slotBefore);
      MemoryWriteLinear(10);
      MemoryPointerByIndex(slot);
      result := result + "]";
      MemoryPointerByIndex(slotBefore);
      MemoryWriteLinear(remainder);
      WriteLargeText(g, value, slot);
    }

    /** `varCreate_Int8(name, value)`: throws for a number that is not whole. */
    method VarCreateInt8(name: string, value: JsNumber) returns (r: Result<Unit>)
      modifies this
      ensures Follows(r, CreateNumber(old(State()), name, value))
    {
      if !IsInteger(value) {
        return Err(NotIntegerMessage(name, value));
      }
      var valueNormalized := JsRem(value.value, 256);
      var memoryIndex := MemoryGetFreeIndex();
      MemoryAllocate(name, memoryIndex);
      MemoryPointerByIndex(memoryIndex);
      MemoryWriteOptimized(valueNormalized);
      return Ok(Unit);
    }

    /** `varCreate(name, value)`: by the `typeof` of the value. */
    method VarCreate(name: string, value: JsVal) returns (r: Result<Unit>)
      modifies this
      ensures Follows(r, Codegen.VarCreate(old(State()), name, value, rev))
      decreases if value.Text? then 3 else 0
    {
      match value
      case Num(n) =>
        r := VarCreateInt8(name, n);
      case Text(s) =>
        r := VarCreateString(name, s);
      case Null =>
        r := Err("unsupported type (null)");
    }

    /**
     * `varCreate_String(name, value)`: main.js throws at once; new.js and
     * old_lang.js take the least free cell once per character, bind the
     * name to the list, and write the character codes.
     */
    method VarCreateString(name: string, value: string) returns (r: Result<Unit>)
      modifies this
      ensures Follows(r, Codegen.VarCreate(old(State()), name, JsVal.Text(value), rev))
      decreases 2
    {
      if rev == MainJs {
        return Err("string var crreate does not work");
      }
      var memoryIndexes, chars := TakeCells(value);
      variables := variables[name := Binding.Str(memoryIndexes)];
      StringIs(old(State()), name, value, State(), rev);
      r := MemoryWriteArrayOptimized(chars, memoryIndexes);
    }

    /**
     * `varCopyByIndex(name, sourceIndex)`: `name` and a scratch
     * `compilator_k` created with 0, the source moved into both, the
     * scratch moved back into the source, and the scratch freed with zero
     * fill.
     */
    method VarCopyByIndex(name: string, sourceIndex: nat)
      modifies this
      ensures State() == CopyByIndex(old(State()), name, sourceIndex)
    {
      ghost var g := State();
      var k := GetIotaSecureIndex();
      var copyTempName := "compilator_" + NatText(k);
      var created := VarCreate(name, Num(Integer(0)));
      created := VarCreate(copyTempName, Num(Integer(0)));
      ghost var g2 := State();
      CopyByIndexIs(g, name, sourceIndex, g2);
      ghost var d, c := variables[name].index, variables[copyTempName].index;
      MemoryPointerByIndex(sourceIndex);
      ghost var y0 := result;
      result := result + "[";
      var moved := MemoryPointerByName(name);
      result := result + "+";
      moved := MemoryPointerByName(copyTempName);
      result := result + "+";
      MemoryPointerByIndex(sourceIndex);
      result := result + "-";
      result := result + "]";
      CopyOutText(y0, result, sourceIndex, d, c);
      moved := MemoryPointerByName(copyTempName);
      ghost var y1 := result;
      result := result + "[";
      MemoryPointerByIndex(sourceIndex);
      result := result + "+";
      moved := MemoryPointerByName(copyTempName);
      result := result + "-";
      result := result + "]";
      CopyBackText(y1, result, sourceIndex, c);
      ghost var h := State();
      assert h == CopyLoops(g2, sourceIndex, d, c);
      FreeAtCell(h, copyTempName, c);
      var freed := MemoryFree(copyTempName, true, true);
    }

    /** `varCopyByName(name, sourceName)`: the copy of the source name's cell; an unbound source throws. */
    method VarCopyByName(name: string, sourceName: string) returns (r: Result<Unit>)
      modifies this
      ensures Follows(r, CopyByName(old(State()), name, sourceName))
    {
      if sourceName !in variables {
        return Err("TypeError");
      }
      var source := CellOfBinding(variables[sourceName]);
      if source.None? {
        return Err(StringCellMessage);
      }
      VarCopyByIndex(name, source.value);
      return Ok(Unit);
    }

    // -------------------------------------------------------------------
    // compile

    /** What `compile` of this class does, as a function. */
    function Compiles(g: Gen, n: Node): Result<Gen>
    {
      if rev == MainJs then Compile.CompileMain(g, n) else Compile.CompileNew(g, n)
    }

    /** The children of `n` from the `i`-th on, as this class compiles them. */
    function CompilesKids(g: Gen, n: Node, i: nat): Result<Gen>
      requires i <= |n.childs|
    {
      if rev == MainJs then Compile.KidsMain(g, n, i) else Compile.KidsNew(g, n, i)
    }

    /**
     * `compile(node)`: `func` and `if` do nothing, the node types with a
     * case of their own go to it, and any other node compiles its
     * children in order.  The emitted text is `result`.
     */
    method CompileNode(node: Node) returns (r: Result<Unit>)
      requires rev != OldLang
      modifies this
      ensures Follows(r, Compiles(old(State()), node))
      decreases node, 2
    {
      if node.kind.Func? || node.kind.If? {
        return Ok(Unit);
      }
      if rev == MainJs {
        if node.kind.Set? {
          r := SetCase(node);
          return;
        } else if node.kind.Plus? {
          r := PlusCase(node);
          return;
        } else if node.kind.Out? {
          r := OutMainCase(node);
          return;
        }
      } else {
        if node.kind.Assign? {
          r := AssignCase(node);
          return;
        } else if node.kind.Div? {
          r := DivCase(node);
          return;
        } else if node.kind.Plus? {
          r := PlusCase(node);
          return;
        } else if node.kind.Out? {
          r := OutNewCase(node);
          return;
        }
      }
      ghost var g0 := State();
      assert Compiles(g0, node) == CompilesKids(g0, node, 0);
      var i := 0;
      while i < |node.childs|
        invariant i <= |node.childs|
        invariant CompilesKids(g0, node, 0) == CompilesKids(State(), node, i)
      {
        var e := CompileNode(node.childs[i]);
        if e.Err? {
          return e;
        }
        i := i + 1;
      }
      return Ok(Unit);
    }

    /** main.js `case "set"`. */
    method SetCase(node: Node) returns (r: Result<Unit>)
      requires rev == MainJs
      modifies this
      ensures Follows(r, Compile.SetMain(old(State()), node))
      decreases node, 1
    {
      var target :- Compile.ChildAt(node, 0);
      var right :- Compile.ChildAt(node, 1);
      var name := Compile.Key(target.text);
      if right.kind.Plus? {
        var u :- CompileNode(right);
        VarCopyByIndex(name, pointer);
        return Ok(Unit);
      }
      if right.kind.Text? {
        r := VarCopyByName(name, Compile.Key(right.text));
        return;
      }
      r := VarCreate(name, Num(NumberOf(right.text)));
    }

    /** new.js `case "assign"`. */
    method AssignCase(node: Node) returns (r: Result<Unit>)
      requires rev == NewJs
      modifies this
      ensures Follows(r, Compile.AssignNew(old(State()), node))
      decreases node, 1
    {
      var target :- Compile.ChildAt(node, 0);
      var right :- Compile.ChildAt(node, 1);
      var name := Compile.Key(target.text);
      if right.kind.Plus? || right.kind.Div? {
        var u :- CompileNode(right);
        VarCopyByIndex(name, pointer);
        return Ok(Unit);
      }
      if right.kind.Identifier? {
        r := VarCopyByName(name, Compile.Key(right.text));
        return;
      }
      var vari := if right.text.Some? then JsVal.Text(right.text.value) else Null;
      if right.kind.Number? {
        vari := Num(NumberOf(right.text));
      }
      r := VarCreate(name, vari);
    }

    /** new.js `case "div"`: `Division2` on the two children's names. */
    method DivCase(node: Node) returns (r: Result<Unit>)
      modifies this
      ensures Follows(r, Compile.DivNew(old(State()), node))
    {
      var first :- Compile.ChildAt(node, 0);
      var second :- Compile.ChildAt(node, 1);
      var q := Division2(Compile.Key(first.text), Compile.Key(second.text));
      if q.Err? {
        return Err(q.msg);
      }
      return Ok(Unit);
    }

    /** main.js `case "out"`: to the named cell, `.`, back to where the pointer was. */
    method OutMainCase(node: Node) returns (r: Result<Unit>)
      modifies this
      ensures Follows(r, Compile.OutMain(old(State()), node))
    {
      var beforeIndex := pointer;
      var v :- Compile.ChildAt(node, 0);
      var u :- MemoryPointerByName(Compile.Key(v.text));
      assert Show([Instr.Out]) == ".";
      result := result + ".";
      MemoryPointerByIndex(beforeIndex);
      return Ok(Unit);
    }

    /**
     * new.js `case "out"`, whose test is an assignment and always holds:
     * a string prints its cells, an int8 prints nothing, and the pointer
     * walks back.
     */
    method OutNewCase(node: Node) returns (r: Result<Unit>)
      modifies this
      ensures Follows(r, Compile.OutNew(old(State()), node))
    {
      var beforeIndex := pointer;
      var v :- Compile.ChildAt(node, 0);
      var name := Compile.Key(v.text);
      if name !in variables {
        return Err("TypeError");
      }
      var variable := variables[name];
      if variable.Str? {
        OutCells(variable.indices);
      }
      MemoryPointerByIndex(beforeIndex);
      return Ok(Unit);
    }

    /** The `forEach` of new.js `case "out"`: to each cell in order, one `.` there. */
    method OutCells(cells: seq<nat>)
      modifies this
      ensures State() == OutEach(old(State()), cells)
    {
      var i := 0;
      while i < |cells|
        invariant i <= |cells|
        invariant OutEach(State(), cells[i..]) == OutEach(old(State()), cells)
      {
        assert cells[i..][1..] == cells[i + 1..];
        assert Show([Instr.Out]) == ".";
        MemoryPointerByIndex(cells[i]);
        result := result + ".";
        i := i + 1;
      }
      assert cells[i..] == [];
    }

    /**
     * An operand of `plus`: a name stands for itself; a number literal
     * goes into a fresh `translator_temp_line_k`, to be freed later.
     */
    method PlusOperand(n: Node) returns (r: Result<(string, bool)>)
      modifies this
      ensures var f := Compile.PlusOperand(old(State()), n, rev);
        if f.Ok? then r == Ok((f.value.name, f.value.temp)) && State() == f.value.g else r == Err(f.msg)
    {
      if Compile.IsName(n.kind, rev) {
        return Ok((Compile.Key(n.text), false));
      }
      if n.kind.Number? {
        var k := GetIotaSecureIndex();
        var name := TempName("translator_temp_line_", k);
        var e := VarCreate(name, Num(NumberOf(n.text)));
        if e.Err? {
          return Err(e.msg);
        }
        return Ok((name, true));
      }
      return Err(Compile.UnexpectedType);
    }

    /** `case "plus"`: the operands, their two copies, then the sum. */
    method PlusCase(node: Node) returns (r: Result<Unit>)
      modifies this
      ensures Follows(r, Compile.Plus(old(State()), node, rev))
    {
      var first :- Compile.ChildAt(node, 0);
      var second :- Compile.ChildAt(node, 1);
      ghost var g0 := State();
      var a :- PlusOperand(first);
      ghost var oa := Compile.PlusOperand(g0, first, rev).value;
      ghost var ga := State();
      var b :- PlusOperand(second);
      ghost var ob := Compile.PlusOperand(ga, second, rev).value;
      ghost var k := counter;
      var copies, copyFirstName, copySecondName := PlusCopies(a.0, b.0, k);
      if copies.Err? {
        return copies;
      }
      r := SumCopies(copyFirstName, copySecondName, a.0, a.1, b.0, b.1, k, oa, ob);
    }

    /**
     * The copies of `case "plus"`: two names `compilator_k` taken from the
     * counter, then the copy of each operand into its name.
     */
    method PlusCopies(firstVarName: string, secondVarName: string, ghost k: nat)
      returns (r: Result<Unit>, copyFirstName: string, copySecondName: string)
      requires k == counter
      modifies this
      ensures copyFirstName == TempName("compilator_", k)
      ensures copySecondName == TempName("compilator_", k + 1)
      ensures Follows(r, Compile.Copies(old(State()), firstVarName, secondVarName))
    {
      var k1 := GetIotaSecureIndex();
      var k2 := GetIotaSecureIndex();
      copyFirstName, copySecondName := TempName("compilator_", k1), TempName("compilator_", k2);
      r := VarCopyByName(copyFirstName, firstVarName);
      if r.Err? {
        return;
      }
      r := VarCopyByName(copySecondName, secondVarName);
    }

    /**
     * The rest of `case "plus"`: `s2[- s1+ s2]` on the copies' cells, the
     * second copy and the literal temporaries freed with zero fill, and the
     * pointer parked on the first copy.
     */
    method SumCopies(copyFirstName: string, copySecondName: string, firstVarName: string, firstVarForRemove: bool,
                     secondVarName: string, secondVarForRemove: bool, ghost k: nat, ghost a: Compile.Operand, ghost b: Compile.Operand)
      returns (r: Result<Unit>)
      requires copyFirstName == TempName("compilator_", k)
      requires copySecondName == TempName("compilator_", k + 1)
      requires a.name == firstVarName
      requires a.temp == firstVarForRemove
      requires b.name == secondVarName
      requires b.temp == secondVarForRemove
      modifies this
      ensures Follows(r, Compile.Sum(old(State()), k, a, b))
    {
      var copyFirstIndexSlot :- CellOf(State(), copyFirstName);
      var copySecondIndexSlot :- CellOf(State(), copySecondName);
      MemoryPointerByIndex(copySecondIndexSlot);
      ghost var y0 := result;
      result := result + "[";
      result := result + "-";
      MemoryPointerByIndex(copyFirstIndexSlot);
      result := result + "+";
      MemoryPointerByIndex(copySecondIndexSlot);
      result := result + "]";
      DrainText(y0, result, copySecondIndexSlot, copyFirstIndexSlot, 1);
      var freed := MemoryFree(copySecondName, true, true);
      var u: Unit;
      if firstVarForRemove {
        u :- MemoryFree(firstVarName, true, true);
      }
      if secondVarForRemove {
        u :- MemoryFree(secondVarName, true, true);
      }
      MemoryPointerByIndex(copyFirstIndexSlot);
      return Ok(Unit);
    }

    /**
     * `Division2(divided, divisor)`: copies x and y, the four zero
     * temporaries, the loops, the frees, and the pointer on q, whose name
     * it gives back.
     */
    method Division2(divided: string, divisor: string) returns (r: Result<string>)
      modifies this
      ensures Divides(r, Compile.Division2(old(State()), divided, divisor))
    {
      ghost var g := State();
      var x := DivTemp();
      var u := VarCopyByName(x, divided);
      if u.Err? {
        DivisionFirstFails(g, divided, divisor);
        return Err(u.msg);
      }
      ghost var g1 := State();
      var y := DivTemp();
      u := VarCopyByName(y, divisor);
      if u.Err? {
        DivisionSecondFails(g, divided, divisor, g1);
        return Err(u.msg);
      }
      ghost var g2 := State();
      DivisionCopied(g, divided, divisor, g1, g2, x, y);
      r := DivisionRest(x, y, g2);
    }

    /** `Division2` once x and y are made: the four zeros, the loops and the frees, giving back q. */
    method DivisionRest(x: string, y: string, ghost g: Gen) returns (r: Result<string>)
      requires g == State()
      modifies this
      ensures var k := g.counter;
        Divides(r, Compile.DivisionRest(g, x, y, Compile.DivName(k), Compile.DivName(k + 1), Compile.DivName(k + 2), Compile.DivName(k + 3)))
    {
      var temp0, temp1, q, nil := ZeroTemps(counter);
      var u := DivisionFinish(x, y, temp0, temp1, q, nil);
      if u.Err? {
        return Err(u.msg);
      }
      return Ok(q);
    }

    /** The call gave back `f`'s quotient cell and left its state, or threw `f`'s message. */
    predicate Divides(r: Result<string>, f: Result<Compile.Divided>)
      reads this
    {
      if f.Ok? then r == Ok(f.value.q) && State() == f.value.g else r == Err(f.msg)
    }

    /** The four `division_temp_` zeros of `Division2`: temp0, temp1, q and nil. */
    method ZeroTemps(ghost k: nat) returns (temp0: string, temp1: string, q: string, nil: string)
      requires k == counter
      modifies this
      ensures temp0 == Compile.DivName(k) && temp1 == Compile.DivName(k + 1)
      ensures q == Compile.DivName(k + 2) && nil == Compile.DivName(k + 3)
      ensures State() == Compile.Zeros(old(State()), 4)
    {
      ghost var g := State();
      temp0 := ZeroTemp(k);
      assert State() == Compile.Zeros(g, 1);
      temp1 := ZeroTemp(k + 1);
      assert State() == Compile.Zeros(g, 2);
      q := ZeroTemp(k + 2);
      assert State() == Compile.Zeros(g, 3);
      nil := ZeroTemp(k + 3);
    }

    /** One of the four: the next `division_temp_` name, created with 0. */
    method ZeroTemp(ghost k: nat) returns (name: string)
      requires k == counter
      modifies this
      ensures name == Compile.DivName(k) && counter == k + 1
      ensures State() == Compile.ZeroTemp(old(State()))
    {
      name := DivTemp();
      var u := VarCreate(name, Num(Integer(0)));
    }

    /** The next `division_temp_` name, taken from the counter. */
    method DivTemp() returns (name: string)
      modifies this
      ensures name == Compile.DivName(old(counter)) && State() == Tick(old(State()))
    {
      var i := GetIotaSecureIndex();
      name := TempName("division_temp_", i);
    }

    /** The loops of `Division2` and its frees, ending on q. */
    method DivisionFinish(x: string, y: string, temp0: string, temp1: string, q: string, nil: string) returns (r: Result<Unit>)
      modifies this
      ensures Follows(r, Compile.DivisionEnd(old(State()), x, y, temp0, temp1, q, nil))
    {
      ghost var cx :- CellOf(State(), x);
      ghost var cy :- CellOf(State(), y);
      ghost var c0 :- CellOf(State(), temp0);
      ghost var c1 :- CellOf(State(), temp1);
      ghost var cq :- CellOf(State(), q);
      ghost var cn :- CellOf(State(), nil);
      DivisionText(x, y, temp0, temp1, q, nil, Compile.DivCells(cx, cy, c0, c1, cq, cn));
      var freed := MemoryFree(y, true, true);
      var u :- MemoryFree(temp0, true, true);
      u :- MemoryFree(temp1, true, true);
      u :- MemoryFree(nil, true, true);
      r := MemoryPointerByName(q);
    }

    /** The loops of `Division2`, on the six names bound to the cells `c`. */
    method DivisionText(x: string, y: string, temp0: string, temp1: string, q: string, nil: string, ghost c: Compile.DivCells)
      requires CellOf(State(), x) == Ok(c.x) && CellOf(State(), y) == Ok(c.y)
      requires CellOf(State(), temp0) == Ok(c.t0) && CellOf(State(), temp1) == Ok(c.t1)
      requires CellOf(State(), q) == Ok(c.q) && CellOf(State(), nil) == Ok(c.nil)
      modifies this
      ensures State() == Compile.DivisionLoops(old(State()), c)
    {
      ghost var g := State();
      Visit(x, "[", c.x);
      Visit(temp1, "+[", c.t1);
      Visit(y, "[", c.y);
      Visit(x, "-[", c.x);
      Visit(temp1, "+", c.t1);
      Visit(nil, "[-]]", c.nil);
      ghost var h1 := State();
      Visit(temp1, "-", c.t1);
      Visit(temp0, "+", c.t0);
      Visit(y, "-]", c.y);
      Visit(temp0, "[", c.t0);
      Visit(y, "+", c.y);
      Visit(temp0, "-]", c.t0);
      ghost var h2 := State();
      Visit(q, "+", c.q);
      Visit(temp1, "]]", c.t1);
      Visit(x, "[", c.x);
      Visit(y, "[", c.y);
      Visit(temp0, "+", c.t0);
      Visit(x, "+", c.x);
      ghost var h3 := State();
      Visit(y, "-]", c.y);
      Visit(temp0, "[", c.t0);
      Visit(y, "+", c.y);
      Visit(temp0, "-]", c.t0);
      Visit(q, "-", c.q);
      Visit(nil, "[-]]", c.nil);
    }

    /** `memoryPointerByName(name)` for a name bound to `cell`, then `s` appended. */
    method Visit(name: string, s: string, ghost cell: nat)
      requires CellOf(State(), name) == Ok(cell)
      modifies this
      ensures State() == Compile.At(old(State()), cell, s)
      ensures variables == old(variables)
    {
      var u := MemoryPointerByName(name);
      result := result + s;
    }

    /**
     * The loop of `varCreate_String`: for each character the least free
     * cell, marked occupied, and the character's code.
     */
    method TakeCells(value: string) returns (memoryIndexes: seq<nat>, chars: seq<int>)
      modifies this
      ensures memoryIndexes == FreshCells(old(memory), |value|) && chars == Codes(value)
      ensures memory == old(memory) + Elems(memoryIndexes)
      ensures result == old(result) && pointer == old(pointer)
      ensures variables == old(variables) && counter == old(counter) && stack == old(stack)
    {
      ghost var m0 := memory;
      memoryIndexes := [];
      chars := [];
      TakeNone(m0, |value|);
      var i := 0;
      while i < |value|
        invariant i <= |value| && |memoryIndexes| == i
        invariant Taking(m0, |value|, memoryIndexes, memory)
        invariant chars == Codes(value)[..i]
        invariant result == old(result) && pointer == old(pointer)
        invariant variables == old(variables) && counter == old(counter) && stack == old(stack)
      {
        TakeCell(m0, |value|, memoryIndexes, memory);
        var memoryIndex := TakeFree();
        memoryIndexes := memoryIndexes + [memoryIndex];
        chars := chars + [value[i] as int];
        CodesStep(value, i);
        i := i + 1;
      }
      TakeAll(m0, |value|, memoryIndexes, memory);
    }

    /** One turn of that loop: the least free cell, marked occupied. */
    method TakeFree() returns (memoryIndex: nat)
      modifies this
      ensures memoryIndex == FirstFree(old(memory)) && memory == old(memory) + {memoryIndex}
      ensures result == old(result) && pointer == old(pointer)
      ensures variables == old(variables) && counter == old(counter) && stack == old(stack)
    {
      memoryIndex := MemoryGetFreeIndex();
      memory := memory + {memoryIndex};
    }

    /**
     * `memoryWriteArrayOptimized(arr, indexes)`: a temporary holding the
     * least value, one loop adding it to every cell, each cell's excess
     * written in turn, then the temporary released: new.js frees it with
     * zero fill, old_lang.js only forgets its name.  (main.js never reaches
     * its own copy: its `varCreate_String` throws first.)
     */
    method MemoryWriteArrayOptimized(arr: seq<int>, indexes: seq<nat>) returns (r: Result<Unit>)
      requires |arr| == |indexes|
      modifies this
      ensures Follows(r, WriteArray(old(State()), arr, indexes, rev))
      decreases 1
    {
      ghost var g := State();
      var min := MinOf(arr);
      var k := GetIotaSecureIndex();
      var variableTemp := TempName(if rev == OldLang then "translator_temp_line_" else "_compiler_", k);
      assert variableTemp == TempName(WriterPrefix(rev), g.counter);
      var e := VarCreate(variableTemp, Num(min));
      if e.Err? {
        WriteArrayFails(g, arr, indexes, e.msg, rev);
        return e;
      }
      ghost var g1 := State();
      WriteArrayTemp(g, arr, indexes, g1, rev);
      var slot := variables[variableTemp].index;
      MemoryPointerByIndex(slot);
      SpreadLoop(slot, indexes);
      WriteExcess(arr, indexes, min.value);
      if rev == OldLang {
        DeleteVar(variableTemp);
        r := Ok(Unit);
      } else {
        r := MemoryFree(variableTemp, true, true);
      }
    }

    /**
     * old_lang.js `deleteVar(name)`: the binding goes; `delete memory[name]`
     * removes the key `name`, which is a cell only when the name is a
     * number.
     */
    method DeleteVar(name: string)
      modifies this
      ensures State() == Codegen.DeleteVar(old(State()), name)
    {
      variables := variables - {name};
      memory := memory - NameKey(name);
    }

    /**
     * The first loop of `memoryWriteArrayOptimized`, standing on the
     * temporary `slot`: `[`, a walk to each cell with one `+` there, the
     * walk back, `-` and `]`.
     */
    method SpreadLoop(slot: nat, indexes: seq<nat>)
      requires pointer == slot
      modifies this
      ensures State() == Emit(old(State()), [Loop(Codegen.SpreadLoop(slot, indexes))])
    {
      ghost var r0 := result;
      result := result + "[";
      var i := 0;
      while i < |indexes|
        invariant Spreading(r0, slot, indexes, i, result, pointer)
        invariant memory == old(memory) && variables == old(variables) && counter == old(counter) && stack == old(stack)
      {
        ghost var x, p := result, pointer;
        MemoryPointerByIndex(indexes[i]);
        result := result + "+";
        SpreadStep(r0, slot, indexes, i, x, p, result);
        i := i + 1;
      }
      ghost var x, p := result, pointer;
      MemoryPointerByIndex(slot);
      result := result + "-";
      result := result + "]";
      SpreadEnd(r0, slot, indexes, x, p, result);
    }

    /** The second loop of `memoryWriteArrayOptimized`: to each cell, then its excess over `min`. */
    method WriteExcess(arr: seq<int>, indexes: seq<nat>, min: int)
      requires |arr| == |indexes|
      modifies this
      ensures State() == WriteEach(old(State()), arr, indexes, min)
    {
      var i := 0;
      while i < |arr|
        invariant Writing(State(), arr, indexes, i, min, old(State()))
      {
        ghost var h := State();
        MemoryPointerByIndex(indexes[i]);
        ghost var h1 := State();
        MemoryWriteOptimized(arr[i] - min);
        WritingStep(h, arr, indexes, i, min, old(State()), h1, State());
        i := i + 1;
      }
      WritingEnd(State(), arr, indexes, min, old(State()));
    }

    // -------------------------------------------------------------------
    // The helpers only old_lang.js has

    /** The helper returned this name, or threw `f`'s message, and the state is `f`'s. */
    predicate Gives(r: Result<string>, f: Result<OldLang.Copied>)
      reads this
    {
      if f.Ok? then r == Ok(f.value.name) && State() == f.value.g else r == Err(f.msg)
    }

    /** One line went on (`None`), made `convert_old` return a text, or threw, as `f` says. */
    predicate Stepped(r: Result<Option<string>>, f: Result<OldLang.Step>)
      reads this
    {
      match f
      case Ok(Next(g)) => r == Ok(None) && State() == g
      case Ok(Stop(text)) => r == Ok(Some(text))
      case Err(msg) => r == Err(msg)
    }

    /**
     * The start of both copy helpers: two names `translator_temp_k_name_copy`
     * from the counter, each created as an int8 variable holding 0.
     */
    method CopyTemps(name: string, ghost k: nat) returns (copyName: string, tempName: string)
      requires k == counter
      modifies this
      ensures copyName == OldLang.CopyName(k, name) && tempName == OldLang.CopyName(k + 1, name)
      ensures State() == OldLang.CopySetup(old(State()), name)
    {
      var i := GetIotaSecureIndex();
      copyName := "translator_temp_" + NatText(i) + "_" + name + "_copy";
      var j := GetIotaSecureIndex();
      tempName := "translator_temp_" + NatText(j) + "_" + name + "_copy";
      var created := VarCreate(copyName, Num(Integer(0)));
      created := VarCreate(tempName, Num(Integer(0)));
    }

    /** `createVarCopyPointersSafe(name)`: the copy's name, with the source left as it was. */
    method CreateVarCopyPointersSafe(name: string) returns (r: Result<string>)
      modifies this
      ensures Gives(r, OldLang.CopyPointersSafe(old(State()), name))
    {
      ghost var g := State();
      var copyName, copyTempName := CopyTemps(name, counter);
      OldLang.CopySetupEffect(g, name);
      if name !in variables {
        return Err("TypeError");
      }
      var orig := CellOfBinding(variables[name]);
      if orig.None? {
        return Err(StringCellMessage);
      }
      var src := orig.value;
      var copy := variables[copyName].index;
      var copyTemp := variables[copyTempName].index;
      CopyOutLoop(src, copy, copyTemp);
      CopyBackLoop(src, copyTemp);
      assert copy in memory;
      memory := memory + {copy};
      DeleteVar(copyTempName);
      r := Ok(copyName);
    }

    /** `src[ d+ c+ src- ]`, from a walk to `src`. */
    method CopyOutLoop(src: nat, d: nat, c: nat)
      modifies this
      ensures State() == Emit(MoveTo(old(State()), src), [Loop(CopyOut(src, d, c))])
    {
      MemoryPointerByIndex(src);
      ghost var y0 := result;
      result := result + "[";
      MemoryPointerByIndex(d);
      result := result + "+";
      MemoryPointerByIndex(c);
      result := result + "+";
      MemoryPointerByIndex(src);
      result := result + "-";
      result := result + "]";
      CopyOutText(y0, result, src, d, c);
    }

    /** `c[ src+ c- ]`, from a walk to `c`. */
    method CopyBackLoop(src: nat, c: nat)
      modifies this
      ensures State() == Emit(MoveTo(old(State()), c), [Loop(CopyBack(src, c))])
    {
      MemoryPointerByIndex(c);
      ghost var y1 := result;
      result := result + "[";
      MemoryPointerByIndex(src);
      result := result + "+";
      MemoryPointerByIndex(c);
      result := result + "-";
      result := result + "]";
      CopyBackText(y1, result, src, c);
    }

    /** `from[- to± from]`, from a walk to `from`: `from` emptied into `to`, one `delta` per unit. */
    method DrainLoop(from: nat, to: nat, delta: int)
      requires delta == 1 || delta == -1
      modifies this
      ensures State() == Emit(MoveTo(old(State()), from), [Loop(Drain(from, to, delta))])
    {
      MemoryPointerByIndex(from);
      ghost var y0 := result;
      result := result + "[";
      result := result + "-";
      MemoryPointerByIndex(to);
      if delta == 1 {
        result := result + "+";
      } else {
        result := result + "-";
      }
      MemoryPointerByIndex(from);
      result := result + "]";
      DrainText(y0, result, from, to, delta);
    }

    /** `createVarCopy(name)`: the source is emptied into the copy and a fresh cell, and rebound to that cell. */
    method CreateVarCopy(name: string) returns (r: Result<string>)
      modifies this
      ensures Gives(r, OldLang.CreateVarCopy(old(State()), name))
    {
      ghost var g := State();
      var copyName, newOrigName := CopyTemps(name, counter);
      OldLang.CopySetupEffect(g, name);
      if name !in variables {
        return Err("TypeError");
      }
      var orig := variables[name];
      if !orig.Int8? {
        return Err(StringCellMessage);
      }
      var src := orig.index;
      var copy := variables[copyName].index;
      var newOrig := variables[newOrigName].index;
      CopyOutLoop(src, copy, newOrig);
      assert newOrig in memory && copy in memory;
      memory := memory + {newOrig};
      memory := memory + {copy};
      variables := variables[name := Int8(newOrig)];
      DeleteVar(newOrigName);
      r := Ok(copyName);
    }

    /** The comparison loops of `AreEqual` on the two copies' cells. */
    method CompareCopies(leftCopy: nat, rightCopy: nat)
      modifies this
      ensures State() == OldLang.Compare(old(State()), leftCopy, rightCopy)
    {
      DrainLoop(leftCopy, rightCopy, -1);
      result := result + "+";
      ShowAppend([Loop(Drain(leftCopy, rightCopy, -1))], [Inc]);
      UnequalLoop(leftCopy, rightCopy);
    }

    /** `b[ a- b[-] ]`, from a walk to `b`. */
    method UnequalLoop(a: nat, b: nat)
      modifies this
      ensures State() == Emit(MoveTo(old(State()), b), [Loop(OldLang.Unequal(a, b))])
    {
      MemoryPointerByIndex(b);
      ghost var y1 := result;
      result := result + "[";
      MemoryPointerByIndex(a);
      result := result + "-";
      MemoryPointerByIndex(b);
      result := result + "[";
      result := result + "-";
      result := result + "]";
      result := result + "]";
      UnequalText(y1, result, a, b);
    }

    /** `AreEqual(left, right)`: the name of the cell that holds 1 when the two are equal. */
    method AreEqual(left: string, right: string) returns (r: Result<string>)
      modifies this
      ensures Gives(r, OldLang.AreEqual(old(State()), left, right))
    {
      ghost var g := State();
      var leftCopyName :- CreateVarCopyPointersSafe(left);
      OldLang.CopyBound(g, left);
      var leftCopy := variables[leftCopyName].index;
      ghost var g1 := State();
      var rightCopyName :- CreateVarCopyPointersSafe(right);
      OldLang.CopyBound(g1, right);
      var rightCopy := variables[rightCopyName].index;
      CompareCopies(leftCopy, rightCopy);
      DeleteVar(rightCopyName);
      r := Ok(leftCopyName);
    }

    // -------------------------------------------------------------------
    // The lines of old_lang.js

    /** `case "var"`: a name alone is created with 0; a value that reads as a number is created as one. */
    method VarLine(ops: seq<string>, n: nat) returns (r: Result<Option<string>>)
      requires |ops| >= 1 && rev == OldLang
      modifies this
      ensures Stepped(r, OldLang.VarLine(old(State()), ops, n))
    {
      if |ops| == 2 {
        var created := VarCreate(ops[1], Num(Integer(0)));
        return Ok(None);
      } else if |ops| == 3 {
        var value := JsVal.Text(ops[2]);
        if JsValue.Number(ops[2]) != NaN {
          value := Num(JsValue.Number(ops[2]));
        }
        var u :- VarCreate(ops[1], value);
        return Ok(None);
      }
      return Ok(Some(OldLang.WrongCountMessage(ops[0], n)));
    }

    /** `case "add"`: the second operand's copy is emptied into the first. */
    method AddLine(ops: seq<string>, n: nat) returns (r: Result<Option<string>>)
      modifies this
      ensures Stepped(r, OldLang.AddLine(old(State()), ops, n))
    {
      if |ops| == 3 {
        if ops[1] !in variables || ops[2] !in variables {
          return Err("TypeError");
        }
        var variable, variableAdd := variables[ops[1]], variables[ops[2]];
        if variable.Int8? != variableAdd.Int8? {
          return Ok(Some(OldLang.DifferentTypesMessage(n)));
        }
        ghost var g := State();
        var copy :- CreateVarCopyPointersSafe(ops[2]);
        OldLang.CopyBound(g, ops[2]);
        memory := memory + KeyCells(variable);
        var indexSlot := variables[copy].index;
        var a := CellOfBinding(variable);
        if a.None? {
          return Err(StringCellMessage);
        }
        DrainLoop(indexSlot, a.value, 1);
        DeleteVar(copy);
      }
      return Ok(None);
    }

    /** `case "out"`: the variable's cell or cells printed, or with `tostring` an int8 printed as a digit. */
    method OutLine(ops: seq<string>, n: nat) returns (r: Result<Option<string>>)
      modifies this
      ensures Stepped(r, OldLang.OutLine(old(State()), ops, n))
    {
      if |ops| == 2 {
        if ops[1] !in variables {
          return Err("TypeError");
        }
        match variables[ops[1]]
        case Int8(i) =>
          MemoryPointerByIndex(i);
          result := result + ".";
        case Str(cells) =>
          OutCells(cells);
      } else if |ops| == 3 && ops[2] == "tostring" {
        if ops[1] !in variables {
          return Err("TypeError");
        }
        if variables[ops[1]].Int8? {
          ToStringArm(ops[1], variables[ops[1]].index, n);
        }
      }
      return Ok(None);
    }

    /**
     * The `tostring` arm on an int8 `name` in cell `i`: a counter created
     * with 48, a copy of `name`, the counter emptied into the copy, the
     * copy printed, both names forgotten.
     */
    method ToStringArm(name: string, i: nat, n: nat)
      requires name in variables && variables[name] == Int8(i)
      modifies this
      ensures var f := OldLang.ToString(old(State()), name, i, n); f.Ok? && State() == f.value
    {
      ghost var g := State();
      MemoryPointerByIndex(i);
      ghost var g1 := State();
      var varIndex := "translator_for_index_line_" + NatText(n);
      assert varIndex == OldLang.IndexName(n);
      var created := VarCreate(varIndex, Num(Integer(48)));
      assert State() == CreateInt8(g1, varIndex, 48);
      ghost var g2 := State();
      CreateInt8Effect(g1, varIndex, 48);
      var indexator := variables[varIndex].index;
      assert indexator == FirstFree(g.memory);
      OldLang.CopyPointersSafeOk(g2, name);
      ghost var cp := OldLang.CopyPointersSafe(g2, name).value;
      var c := CreateVarCopyPointersSafe(name);
      var copyName := c.value;
      OldLang.CopyBound(g2, name);
      var copy := variables[copyName].index;
      assert copy == cp.cell && copyName == cp.name && State() == cp.g;
      DrainLoop(indexator, copy, 1);
      ghost var g3 := State();
      MemoryPointerByIndex(copy);
      ghost var g4 := State();
      result := result + ".";
      OutText();
      assert State() == Emit(MoveTo(g3, cp.cell), [Instr.Out]);
      DeleteVar(varIndex);
      DeleteVar(copyName);
      OldLang.ToStringIs(g, name, i, n);
      assert g3 == Emit(MoveTo(cp.g, FirstFree(g.memory)), [Loop(Drain(FirstFree(g.memory), cp.cell, 1))]);
    }

    /** `case "if"`: `if a = b` opens a block on the equality cell. */
    method IfLine(ops: seq<string>, n: nat) returns (r: Result<Option<string>>)
      modifies this
      ensures Stepped(r, OldLang.IfLine(old(State()), ops, n))
    {
      if |ops| == 4 {
        if ops[1] !in variables || ops[3] !in variables {
          return Err("TypeError");
        }
        var left, right := variables[ops[1]], variables[ops[3]];
        if left.Int8? != right.Int8? {
          return Ok(Some(OldLang.DifferentTypesMessage(n)));
        }
        if ops[2] == "=" {
          var u :- IfEqual(ops[1], ops[3]);
        }
      }
      return Ok(None);
    }

    /** The `=` arm of `case "if"`: the block opens on the cell `AreEqual` leaves. */
    method IfEqual(left: string, right: string) returns (r: Result<Unit>)
      modifies this
      ensures var f := OldLang.AreEqual(old(State()), left, right);
        if f.Ok? then r.Ok? && State() == OldLang.Open(f.value.g, f.value.cell, f.value.name) else r == Err(f.msg)
    {
      ghost var g := State();
      var boolName :- AreEqual(left, right);
      OldLang.AreEqualBound(g, left, right);
      OpenBlock(boolName);
      r := Ok(Unit);
    }

    /** The pointer to the int8 `name`'s cell, `[`, and the frame pushed: a block opens on that cell. */
    method OpenBlock(name: string)
      requires name in variables && variables[name].Int8?
      modifies this
      ensures State() == OldLang.Open(old(State()), old(variables[name].index), name)
    {
      var ind := variables[name].index;
      MemoryPointerByIndex(ind);
      result := result + "[";
      stack := stack + [Frame(ind, name)];
    }

    /** `case "endif"` and `case "endfor"`: the innermost block closes. */
    method CloseLine() returns (r: Result<Option<string>>)
      modifies this
      ensures Stepped(r, OldLang.CloseLine(old(State())))
    {
      if stack == [] {
        return Err("TypeError");
      }
      var index := stack[|stack| - 1];
      MemoryPointerByIndex(index.ind);
      DeleteVar(index.name);
      stack := stack[..|stack| - 1];
      result := result + "-";
      result := result + "]";
      return Ok(None);
    }

    /** `case "for"`: a counter created with the count opens a block; a count that is not a number throws. */
    method ForLine(ops: seq<string>, n: nat) returns (r: Result<Option<string>>)
      modifies this
      ensures Stepped(r, OldLang.ForLine(old(State()), ops, n))
    {
      if |ops| == 2 {
        var count := ops[1];
        if JsValue.Number(count) == NaN {
          return Err(OldLang.ForIndexMessage(n));
        }
        var varIndex := "translator_for_index_line_" + NatText(n);
        ghost var g := State();
        var u :- VarCreate(varIndex, Num(JsValue.Number(count)));
        CreateInt8Effect(g, varIndex, JsValue.Number(count).value);
        OpenBlock(varIndex);
      }
      return Ok(None);
    }

    /** One line of the loop of `convert_old`, with its 1-based number `n`. */
    method Line(raw: string, n: nat) returns (r: Result<Option<string>>)
      requires rev == OldLang
      modifies this
      ensures Stepped(r, OldLang.Line(old(State()), raw, n))
    {
      var line := Trim(raw);
      if line == [] || (|line| >= 2 && line[0] == '/' && line[1] == '/') {
        return Ok(None);
      }
      var operators := Split(line, ' ');
      r := Dispatch(operators, n);
    }

    /** The `switch` of the loop of `convert_old` on the first word of the line. */
    method Dispatch(operators: seq<string>, n: nat) returns (r: Result<Option<string>>)
      requires |operators| >= 1 && rev == OldLang
      modifies this
      ensures Stepped(r, OldLang.Dispatch(old(State()), operators, n))
    {
      match operators[0]
      case "var" =>
        r := VarLine(operators, n);
      case "add" =>
        r := AddLine(operators, n);
      case "out" =>
        r := OutLine(operators, n);
      case "if" =>
        r := IfLine(operators, n);
      case "endif" =>
        r := CloseLine();
      case "for" =>
        r := ForLine(operators, n);
      case "endfor" =>
        r := CloseLine();
      case "dump" =>
        result := result + "#";
        r := Ok(None);
      case _ =>
        r := Ok(Some(OldLang.UndefinedMessage(operators[0], n)));
    }
  }

  /**
   * `convert_old(src)`: the source split at newlines, one fresh object of
   * revision `OldLang`, and the lines in order until one returns a text
   * or throws; otherwise the emitted text.
   */
  method ConvertOld(src: string) returns (o: OldLang.Outcome)
    ensures o == OldLang.Convert(src)
  {
    var lines := Split(src, '\n');
    var t := new Compiler(OldLang);
    o := RunLines(t, lines);
  }

  /** The loop of `convert_old` on the object `t`. */
  method RunLines(t: Compiler, lines: seq<string>) returns (o: OldLang.Outcome)
    requires t.rev == OldLang
    modifies t
    ensures o == OldLang.Lines(old(t.State()), lines, 0)
  {
    ghost var goal := OldLang.Lines(t.State(), lines, 0);
    var i := 0;
    while i < |lines|
      invariant i <= |lines| && t.rev == OldLang
      invariant Remains(t.State(), lines, i, goal)
    {
      var stop := LineStep(t, lines, i);
      if stop.Some? {
        return stop.value;
      }
      i := i + 1;
    }
    return OldLang.Returned(t.result);
  }

  /** The outcome of `convert_old` from line `i` on, named so that the loop need not unfold it. */
  predicate Remains(g: Gen, lines: seq<string>, i: nat, o: OldLang.Outcome)
    requires i <= |lines|
  {
    OldLang.Lines(g, lines, i) == o
  }

  /** One turn of the loop of `convert_old`: `Some` of what it returns or throws, or `None` to go on. */
  method LineStep(t: Compiler, lines: seq<string>, i: nat) returns (stop: Option<OldLang.Outcome>)
    requires i < |lines| && t.rev == OldLang
    modifies t
    ensures stop.Some? ==> stop.value == OldLang.Lines(old(t.State()), lines, i)
    ensures stop.None? ==> OldLang.Lines(t.State(), lines, i + 1) == OldLang.Lines(old(t.State()), lines, i)
  {
    var r := t.Line(lines[i], i + 1);
    if r.Err? {
      return Some(OldLang.Thrown(r.msg));
    }
    if r.value.Some? {
      return Some(OldLang.Returned(r.value.value));
    }
    return None;
  }

  /** `src[ d+ c+ src- ]` as the copy appends it, one walk and one character at a time. */
  lemma CopyOutText(r0: string, y: string, src: nat, d: nat, c: nat)
    requires y == r0 + "[" + Show(Moves(src, d)) + "+" + Show(Moves(d, c)) + "+" + Show(Moves(c, src)) + "-" + "]"
    ensures y == r0 + Show([Loop(CopyOut(src, d, c))])
  {
    var t1, t2, t3 := Touch(d, 1), Touch(c, 1), Touch(src, -1);
    var x0 := r0 + "[";
    assert x0 == x0 + Show(Walk(src, []));
    assert [] + [t1] == [t1] && [t1] + [t2] == [t1, t2] && [t1, t2] + [t3] == [t1, t2, t3];
    var x1 := x0 + Show(Moves(src, d)) + "+";
    WalkStepText(x0, x0, src, [], t1, x1);
    var x2 := x1 + Show(Moves(d, c)) + "+";
    WalkStepText(x0, x1, src, [t1], t2, x2);
    var x3 := x2 + Show(Moves(c, src)) + "-";
    WalkStepText(x0, x2, src, [t1, t2], t3, x3);
    LoopText(r0, x3, CopyOut(src, d, c), y);
  }

  /** `c[ src+ c- ]` as the copy appends it. */
  lemma CopyBackText(r0: string, y: string, src: nat, c: nat)
    requires y == r0 + "[" + Show(Moves(c, src)) + "+" + Show(Moves(src, c)) + "-" + "]"
    ensures y == r0 + Show([Loop(CopyBack(src, c))])
  {
    var t1, t2 := Touch(src, 1), Touch(c, -1);
    var x0 := r0 + "[";
    assert x0 == x0 + Show(Walk(c, []));
    assert [] + [t1] == [t1] && [t1] + [t2] == [t1, t2];
    var x1 := x0 + Show(Moves(c, src)) + "+";
    WalkStepText(x0, x0, c, [], t1, x1);
    var x2 := x1 + Show(Moves(src, c)) + "-";
    WalkStepText(x0, x1, c, [t1], t2, x2);
    LoopText(r0, x2, CopyBack(src, c), y);
  }

  /**
   * `s2[- s1+ s2]` as `plus`, `add` and `tostring` append it, and
   * `s2[- s1- s2]` as `AreEqual` does.
   */
  lemma DrainText(r0: string, y: string, s2: nat, s1: nat, delta: int)
    requires delta == 1 || delta == -1
    requires y == r0 + "[" + "-" + Show(Moves(s2, s1)) + (if delta == 1 then "+" else "-") + Show(Moves(s1, s2)) + "]"
    ensures y == r0 + Show([Loop(Drain(s2, s1, delta))])
  {
    var sign := if delta == 1 then "+" else "-";
    var steps := DrainSteps(s2, s1, delta);
    assert steps[1..] == [Touch(s1, delta), Touch(s2, 0)] && steps[1..][1..] == [Touch(s2, 0)];
    assert Walk(s2, steps) == Bump(s2, s2, -1) + Walk(s2, steps[1..]);
    assert Walk(s2, steps[1..]) == Bump(s2, s1, delta) + Walk(s1, steps[1..][1..]);
    assert Walk(s1, steps[1..][1..]) == Bump(s1, s2, 0) + Walk(s2, []);
    assert Bump(s1, s2, 0) + Walk(s2, []) == Moves(s1, s2);
    assert Bump(s2, s2, -1) == [Dec];
    BumpText(s2, s1, delta);
    ShowAppend(Bump(s2, s1, delta), Moves(s1, s2));
    ShowAppend([Dec], Bump(s2, s1, delta) + Moves(s1, s2));
    var a, b := Show(Moves(s2, s1)), Show(Moves(s1, s2));
    assert Show(Drain(s2, s1, delta)) == "-" + (a + sign + b);
    var x := r0 + "[" + "-" + a + sign + b;
    assert x == r0 + "[" + ("-" + (a + sign + b)) by {
      AppendAssoc(r0 + "[", "-", a + sign + b);
      AppendAssoc(r0 + "[" + "-", a + sign, b);
      AppendAssoc(r0 + "[" + "-", a, sign);
    }
    LoopText(r0, x, Drain(s2, s1, delta), y);
  }

  /** `b[ a- b[-] ]` as `AreEqual` appends it. */
  lemma UnequalText(r0: string, y: string, a: nat, b: nat)
    requires y == r0 + "[" + Show(Moves(b, a)) + "-" + Show(Moves(a, b)) + "[" + "-" + "]" + "]"
    ensures y == r0 + Show([Loop(OldLang.Unequal(a, b))])
  {
    var p, q := Show(Moves(b, a)), Show(Moves(a, b));
    ShowAppend(Moves(b, a) + [Dec] + Moves(a, b), [Loop([Dec])]);
    ShowAppend(Moves(b, a) + [Dec], Moves(a, b));
    ShowAppend(Moves(b, a), [Dec]);
    assert Show([Dec]) == "-" && Show([Loop([Dec])]) == "[-]";
    assert Show(OldLang.Unequal(a, b)) == p + "-" + q + "[-]";
    var x := r0 + "[" + p + "-" + q + "[" + "-" + "]";
    assert x == r0 + "[" + (p + "-" + q + "[-]") by {
      AppendAssoc(r0 + "[", p + "-" + q, "[-]");
      AppendAssoc(r0 + "[", p + "-", q);
      AppendAssoc(r0 + "[", p, "-");
      AppendAssoc(r0 + "[" + p + "-" + q, "[" + "-", "]");
      AppendAssoc(r0 + "[" + p + "-" + q, "[", "-");
    }
    LoopText(r0, x, OldLang.Unequal(a, b), y);
  }

  // ---------------------------------------------------------------------
  // The steps of the string methods

  /** The first `|cells|` of the `n` cells a string takes, with `m` the occupied cells so far. */
  ghost predicate Taking(m0: set<nat>, n: nat, cells: seq<nat>, m: set<nat>)
  {
    |cells| <= n && cells + FreshCells(m, n - |cells|) == FreshCells(m0, n) && m == m0 + Elems(cells)
  }

  lemma TakeNone(m0: set<nat>, n: nat)
    ensures Taking(m0, n, [], m0)
  {
    assert Elems([]) == {};
  }

  lemma TakeCell(m0: set<nat>, n: nat, cells: seq<nat>, m: set<nat>)
    requires Taking(m0, n, cells, m) && |cells| < n
    ensures Taking(m0, n, cells + [FirstFree(m)], m + {FirstFree(m)})
  {
    var i := FirstFree(m);
    AppendAssoc(cells, [i], FreshCells(m + {i}, n - |cells| - 1));
    ElemsSnoc(cells, i);
  }

  lemma TakeAll(m0: set<nat>, n: nat, cells: seq<nat>, m: set<nat>)
    requires Taking(m0, n, cells, m) && |cells| == n
    ensures cells == FreshCells(m0, n) && m == m0 + Elems(cells)
  {
    assert cells + [] == cells;
  }

  lemma CodesStep(s: string, i: nat)
    requires i < |s|
    ensures Codes(s)[..i + 1] == Codes(s)[..i] + [s[i] as int]
  {
  }

  /** The prefix of the array writer's temporary. */
  function WriterPrefix(rev: Revision): string
  {
    if rev == OldLang then "translator_temp_line_" else "_compiler_"
  }

  /** Once the cells are taken and the name bound, the string's creation is the array write. */
  lemma StringIs(g: Gen, name: string, s: string, g1: Gen, rev: Revision)
    requires rev != MainJs
    requires g1 == g.(memory := g.memory + Elems(FreshCells(g.memory, |s|)),
                      variables := g.variables[name := Binding.Str(FreshCells(g.memory, |s|))])
    ensures Codegen.VarCreate(g, name, JsVal.Text(s), rev) == WriteArray(g1, Codes(s), FreshCells(g.memory, |s|), rev)
  {
    assert Codegen.VarCreate(g, name, JsVal.Text(s), rev) == CreateString(g, name, s, rev);
  }

  /** The array write stops where creating its temporary throws. */
  lemma WriteArrayFails(g: Gen, arr: seq<int>, cells: seq<nat>, msg: string, rev: Revision)
    requires |arr| == |cells|
    requires CreateNumber(Tick(g), TempName(WriterPrefix(rev), g.counter), MinOf(arr)) == Err(msg)
    ensures WriteArray(g, arr, cells, rev) == Err(msg)
  {
  }

  /** The array write once its temporary is made: the spread loop, the per-cell writes, the release. */
  lemma WriteArrayTemp(g: Gen, arr: seq<int>, cells: seq<nat>, g1: Gen, rev: Revision)
    requires |arr| == |cells|
    requires CreateNumber(Tick(g), TempName(WriterPrefix(rev), g.counter), MinOf(arr)) == Ok(g1)
    ensures var temp := TempName(WriterPrefix(rev), g.counter);
      MinOf(arr).Integer? && temp in g1.variables && g1.variables[temp].Int8? &&
      g1.pointer == g1.variables[temp].index &&
      var slot := g1.variables[temp].index;
      var g3 := WriteEach(Emit(MoveTo(g1, slot), [Loop(SpreadLoop(slot, cells))]), arr, cells, MinOf(arr).value);
      WriteArray(g, arr, cells, rev) == if rev == OldLang then Ok(Codegen.DeleteVar(g3, temp)) else Free(g3, temp, true, true)
  {
    CreateInt8Effect(Tick(g), TempName(WriterPrefix(rev), g.counter), MinOf(arr).value);
  }

  /** After `i` cells of the shared loop: `[` and the walk over the first `i` cells, standing on the last. */
  ghost predicate Spreading(r0: string, slot: nat, cells: seq<nat>, i: nat, x: string, p: nat)
  {
    i <= |cells| && x == r0 + "[" + Show(Walk(slot, Ones(cells[..i]))) && p == LastOr(slot, cells[..i])
  }

  lemma SpreadStep(r0: string, slot: nat, cells: seq<nat>, i: nat, x: string, p: nat, y: string)
    requires Spreading(r0, slot, cells, i, x, p) && i < |cells|
    requires y == x + Show(Moves(p, cells[i])) + "+"
    ensures Spreading(r0, slot, cells, i + 1, y, cells[i])
  {
    OnesEnd(slot, cells[..i]);
    WalkStepText(r0 + "[", x, slot, Ones(cells[..i]), Touch(cells[i], 1), y);
    OnesSnoc(cells[..i], cells[i]);
    assert cells[..i + 1] == cells[..i] + [cells[i]];
  }

  lemma SpreadEnd(r0: string, slot: nat, cells: seq<nat>, x: string, p: nat, y: string)
    requires Spreading(r0, slot, cells, |cells|, x, p)
    requires y == x + Show(Moves(p, slot)) + "-" + "]"
    ensures y == r0 + Show([Loop(SpreadLoop(slot, cells))])
  {
    assert cells[..|cells|] == cells;
    OnesEnd(slot, cells);
    var z := x + Show(Moves(p, slot)) + "-";
    WalkStepText(r0 + "[", x, slot, Ones(cells), Touch(slot, -1), z);
    LoopText(r0, z, SpreadLoop(slot, cells), y);
  }

  /** The per-cell writes from the `i`-th on, from state `g`, end where all of them end from `g0`. */
  ghost predicate Writing(g: Gen, arr: seq<int>, cells: seq<nat>, i: nat, min: int, g0: Gen)
    requires |arr| == |cells|
  {
    i <= |cells| && WriteEach(g, arr[i..], cells[i..], min) == WriteEach(g0, arr, cells, min)
  }

  lemma WritingStep(g: Gen, arr: seq<int>, cells: seq<nat>, i: nat, min: int, g0: Gen, h: Gen, g1: Gen)
    requires |arr| == |cells| && i < |cells| && Writing(g, arr, cells, i, min, g0)
    requires h == MoveTo(g, cells[i]) && g1 == WriteOptimized(h, arr[i] - min)
    ensures Writing(g1, arr, cells, i + 1, min, g0)
  {
    assert arr[i..][1..] == arr[i + 1..] && cells[i..][1..] == cells[i + 1..];
  }

  lemma WritingEnd(g: Gen, arr: seq<int>, cells: seq<nat>, min: int, g0: Gen)
    requires |arr| == |cells| && Writing(g, arr, cells, |cells|, min, g0)
    ensures g == WriteEach(g0, arr, cells, min)
  {
    assert arr[|arr|..] == [] && cells[|cells|..] == [];
  }

  /**
   * A copy once its two cells exist: both names are int8 cells, the
   * pointer is on the scratch cell, and what is left is the two loops and
   * the scratch cell's release.
   */
  lemma CopyByIndexIs(g: Gen, name: string, src: nat, g2: Gen)
    requires var tmp := TempName("compilator_", g.counter);
      g2 == CreateInt8(CreateInt8(Tick(g), name, 0), tmp, 0)
    ensures var tmp := TempName("compilator_", g.counter);
      name in g2.variables && tmp in g2.variables && g2.variables[name].Int8? &&
      g2.variables[tmp].Int8? && g2.pointer == g2.variables[tmp].index &&
      CopyByIndex(g, name, src) ==
        DropCell(CopyLoops(g2, src, g2.variables[name].index, g2.variables[tmp].index), tmp, g2.variables[tmp].index)
  {
    var tmp := TempName("compilator_", g.counter);
    CreateInt8Effect(Tick(g), name, 0);
    CreateInt8Effect(CreateInt8(Tick(g), name, 0), tmp, 0);
  }

  /** `memoryFree(tmp, true, true)` while standing on tmp's own int8 cell. */
  lemma FreeAtCell(g: Gen, tmp: string, c: nat)
    requires tmp in g.variables && g.variables[tmp] == Int8(c) && g.pointer == c
    ensures Free(g, tmp, true, true) == Ok(DropCell(g, tmp, c))
  {
    assert Moves(c, c) == [];
    assert MoveTo(g, c) == g;
    var g1 := Emit(g, [Loop([Dec])]);
    assert MoveTo(g1.(variables := g1.variables - {tmp}, memory := g1.memory - {c}), c) ==
      g1.(variables := g1.variables - {tmp}, memory := g1.memory - {c});
  }

  lemma ElemsSnoc(s: seq<nat>, x: nat)
    ensures Elems(s + [x]) == Elems(s) + {x}
  {
    var t := s + [x];
    assert forall k :: 0 <= k < |s| ==> t[k] == s[k];
    assert t[|s|] == x;
  }

  /** `FirstFree` is the only cell that is free while every cell below it is occupied. */
  lemma LeastFree(m: set<nat>, i: nat)
    requires i !in m && forall j: nat :: j < i ==> j in m
    ensures i == FirstFree(m)
  {
  }
}
