/**
 * The code-generator state shared by the three revisions of the compiler
 * (the `Compiler` class of main.js and new.js, and the closure of
 * `convert_old` in old_lang.js), and its primitives as functions from a
 * state to the next one.  Each primitive is written step by step as the
 * source performs it; the lemmas after each group state its net effect:
 * the exact text appended, where the pointer ends, which cells become
 * occupied or free.  What the appended text does to the tape is the
 * subject of the module `CodegenTape`.
 */
module Codegen {
  import opened Wrappers
  import opened Brainfuck
  import opened JsValue

  /** What a name is bound to: one cell (`int8`) or one cell per character (`string`). */
  datatype Binding = Int8(index: nat) | Str(indices: seq<nat>)

  /** An open `if` or `for` of old_lang.js: the cell its loop is on and the name bound to it. */
  datatype Frame = Frame(ind: nat, name: string)

  /**
   * `result` is the text emitted so far, `pointer` the cell the generator
   * believes the machine to be on, `memory` the occupied cells,
   * `variables` the bindings, `counter` the source of fresh temporary
   * names and `stack` the control stack of old_lang.js.
   */
  datatype Gen = Gen(result: string, pointer: nat, memory: set<nat>,
                     variables: map<string, Binding>, counter: nat, stack: seq<Frame>)

  const Start: Gen := Gen("", 0, {}, map[], 0, [])

  /** What `typeof` tells `varCreate` apart: a number, a string, or anything else (`null`). */
  datatype JsVal = Num(n: JsNumber) | Text(s: string) | Null

  /** The revision whose behaviour differs: strings, and how the string writer ends. */
  datatype Revision = OldLang | MainJs | NewJs

  // ---------------------------------------------------------------------
  // Allocation

  function FirstFreeFrom(m: set<nat>, i: nat, n: nat): (r: nat)
    requires i <= n
    requires forall j: nat :: j < i ==> j in m
    ensures i <= r <= n
    ensures forall j: nat :: j < r ==> j in m
    ensures r < n ==> r !in m
    decreases n - i
  {
    if i == n then n else if i !in m then i else FirstFreeFrom(m, i + 1, n)
  }

  /**
   * `memoryGetFreeIndex` / `getMemoryFreeIndex`: scans 0 .. |memory| - 1 for
   * a hole and otherwise answers |memory|.  The answer is the least cell
   * that is not occupied.
   */
  function FirstFree(m: set<nat>): (r: nat)
    ensures r !in m
    ensures forall j: nat :: j < r ==> j in m
    ensures r <= |m|
  {
    var r := FirstFreeFrom(m, 0, |m|);
    if r == |m| then PrefixFull(m, r); r else r
  }

  /** The cells 0 .. n - 1. */
  function Below(n: nat): (r: set<nat>)
    ensures forall j: nat :: j in r <==> j < n
    ensures |r| == n
  {
    if n == 0 then {} else Below(n - 1) + {n - 1}
  }

  /** If every cell below |m| is occupied, the cell |m| is not: a set cannot hold more than its size. */
  lemma PrefixFull(m: set<nat>, n: nat)
    requires n == |m| && forall j: nat :: j < n ==> j in m
    ensures n !in m
  {
    var a := Below(n);
    assert a <= m;
    assert m == a + (m - a);
    assert a * (m - a) == {};
    assert m - a == {};
    assert m == a;
  }

  lemma FirstFreeEmpty()
    ensures FirstFree({}) == 0
  {
  }

  /** `memoryAllocate`: binds `name` to the int8 cell `index` and marks the cell occupied. */
  function Allocate(g: Gen, name: string, index: nat): Gen
  {
    g.(variables := g.variables[name := Int8(index)], memory := g.memory + {index})
  }

  /** The fresh name `prefix` + counter, and the advanced counter. */
  function TempName(prefix: string, k: nat): string
  {
    prefix + NatText(k)
  }

  function Tick(g: Gen): Gen
  {
    g.(counter := g.counter + 1)
  }

  // ---------------------------------------------------------------------
  // Pointer moves and writes

  function Emit(g: Gen, p: Prog): Gen
  {
    g.(result := g.result + Show(p))
  }

  /** Text that grew by `m` and then by `l` grew by `m + l`. */
  lemma TextThen(a: string, x: string, y: string, m: Prog, l: Prog)
    requires x == a + Show(m) && y == x + Show(l)
    ensures y == a + Show(m + l)
  {
    ShowAppend(m, l);
    AppendAssoc(a, Show(m), Show(l));
  }

  /** `memoryPointerByIndex` / `getMemoryFromIndex`. */
  function MoveTo(g: Gen, to: nat): Gen
  {
    Emit(g, Moves(g.pointer, to)).(pointer := to)
  }

  /** The characters a move appends: as many as the distance, all `>` rightwards, all `<` leftwards. */
  lemma ShowMoves(from: int, to: int)
    ensures Show(Moves(from, to)) ==
      if from <= to then seq(to - from, _ => '>') else seq(from - to, _ => '<')
  {
    if from <= to {
      ShowRep(Right, to - from);
    } else {
      ShowRep(Left, from - to);
    }
  }

  /** A move appends exactly |pointer - to| characters and changes nothing but the pointer. */
  lemma MoveToEffect(g: Gen, to: nat)
    ensures var r := MoveTo(g, to);
      r.pointer == to && r.memory == g.memory && r.variables == g.variables &&
      r.counter == g.counter && r.stack == g.stack &&
      |r.result| == |g.result| + (if g.pointer <= to then to - g.pointer else g.pointer - to) &&
      r.result[..|g.result|] == g.result &&
      (forall k :: |g.result| <= k < |r.result| ==> r.result[k] == if g.pointer < to then '>' else '<')
  {
    ShowMoves(g.pointer, to);
  }

  /** `memoryWriteLinear` / `writeMemoryLinear`: one `+` per unit of a positive value, nothing otherwise. */
  function Linear(v: int): Prog
  {
    if v > 0 then Adjust(v) else []
  }

  /**
   * What `memoryWriteOptimized` emits on cell `p` with occupied cells `m`:
   * below 11 a linear write; otherwise ⌊v/10⌋ on the scratch cell (the
   * least free cell), a loop adding 10 to `p` per unit of the scratch
   * cell, and v mod 10 more on `p`.
   */
  function WriteCode(m: set<nat>, p: nat, v: int): Prog
  {
    if v < 11 then Linear(v)
    else
      var slot := FirstFree(m);
      Moves(p, slot) + Adjust(v / 10) + [Loop(TenLoop(slot, p))] + Moves(slot, p) + Adjust(v % 10)
  }

  /** One pass of the ×10 loop: take one from the scratch cell, add ten to the target. */
  function TenLoop(slot: nat, p: nat): Prog
  {
    Drain(slot, p, 10)
  }

  /**
   * The body `-`, walk to `to`, `delta` adjustments, walk back: the loop
   * that empties `from` into `to`, `delta` per unit.
   */
  function Drain(from: nat, to: nat, delta: int): Prog
  {
    Walk(from, DrainSteps(from, to, delta))
  }

  function DrainSteps(from: nat, to: nat, delta: int): seq<Touch>
  {
    [Touch(from, -1), Touch(to, delta), Touch(from, 0)]
  }

  /** `memoryWriteOptimized` / `writeMemoryOptimized`: the pointer ends where it started. */
  function WriteOptimized(g: Gen, v: int): Gen
  {
    Emit(g, WriteCode(g.memory, g.pointer, v))
  }

  /** Below 11 the write is exactly `v` plus signs (none for a value that is not positive). */
  lemma WriteSmall(g: Gen, v: int)
    requires v < 11
    ensures WriteOptimized(g, v).result == g.result + seq(if v > 0 then v else 0, _ => '+')
  {
    if v > 0 {
      ShowRep(Inc, v);
    }
  }

  /** From 11 up the scratch cell is the least free cell, and the write never allocates it. */
  lemma WriteLarge(g: Gen, v: int)
    requires v >= 11
    ensures var r := WriteOptimized(g, v); var slot := FirstFree(g.memory);
      r.pointer == g.pointer && r.memory == g.memory && slot !in r.memory &&
      r.result == g.result + Show(Moves(g.pointer, slot) + Adjust(v / 10)) + "[" +
        Show(TenLoop(slot, g.pointer)) + "]" + Show(Moves(slot, g.pointer) + Adjust(v % 10))
  {
    var slot := FirstFree(g.memory);
    var a := Moves(g.pointer, slot) + Adjust(v / 10);
    var b := Moves(slot, g.pointer) + Adjust(v % 10);
    var body := TenLoop(slot, g.pointer);
    ShowAppend(a + [Loop(body)], b);
    ShowAppend(a, [Loop(body)]);
    var sa, sl, sb := Show(a), Show([Loop(body)]), Show(b);
    assert sl == "[" + Show(body) + "]";
    AppendAssoc(a + [Loop(body)], Moves(slot, g.pointer), Adjust(v % 10));
    assert WriteCode(g.memory, g.pointer, v) == a + [Loop(body)] + b;
    assert Show(WriteCode(g.memory, g.pointer, v)) == sa + sl + sb;
    assert WriteOptimized(g, v).result == g.result + (sa + sl + sb);
    AppendAssoc(g.result, sa + sl, sb);
    AppendAssoc(g.result, sa, sl);
    AppendAssoc(g.result + sa, "[" + Show(body), "]");
    AppendAssoc(g.result + sa, "[", Show(body));
  }

  // ---------------------------------------------------------------------
  // Creating int8 variables

  /**
   * `varCreate_Int8` / `createVar_Int8` after its integer check: the value is
   * reduced with JavaScript's `%`, the name is bound to the least free cell,
   * the pointer walks there and the value is written.
   */
  function CreateInt8(g: Gen, name: string, v: int): Gen
  {
    var vn := JsRem(v, 256);
    var index := FirstFree(g.memory);
    var g1 := Allocate(g, name, index);
    WriteOptimized(MoveTo(g1, index), vn)
  }

  function NotIntegerMessage(name: string, x: JsNumber): string
  {
    "variable int8 is not a integer - name: " + name + ", value: " + NumberText(x)
  }

  /** `varCreate` on a number: throws unless it is an integer. */
  function CreateNumber(g: Gen, name: string, x: JsNumber): (r: Result<Gen>)
    ensures r.Ok? <==> IsInteger(x)
    ensures !IsInteger(x) ==> r == Err(NotIntegerMessage(name, x))
  {
    if !IsInteger(x) then Err(NotIntegerMessage(name, x)) else Ok(CreateInt8(g, name, x.value))
  }

  /** The code `CreateInt8` appends: the walk to the new cell, then the write there. */
  function Int8Code(g: Gen, v: int): Prog
  {
    var index := FirstFree(g.memory);
    Moves(g.pointer, index) + WriteCode(g.memory + {index}, index, JsRem(v, 256))
  }

  /**
   * The new binding is the least free cell, now occupied; the pointer is
   * left on it; nothing else changes.
   */
  lemma CreateInt8Effect(g: Gen, name: string, v: int)
    ensures var r := CreateInt8(g, name, v); var index := FirstFree(g.memory);
      r.variables == g.variables[name := Int8(index)] && r.memory == g.memory + {index} &&
      r.pointer == index && r.counter == g.counter && r.stack == g.stack &&
      r.result == g.result + Show(Int8Code(g, v))
  {
    var index := FirstFree(g.memory);
    ShowAppend(Moves(g.pointer, index), WriteCode(g.memory + {index}, index, JsRem(v, 256)));
    AppendAssoc(g.result, Show(Moves(g.pointer, index)), Show(WriteCode(g.memory + {index}, index, JsRem(v, 256))));
  }

  /** Creating with 0 writes nothing: only the walk to the new cell is emitted. */
  lemma CreateZero(g: Gen, name: string)
    ensures Int8Code(g, 0) == Moves(g.pointer, FirstFree(g.memory))
  {
    var index := FirstFree(g.memory);
    assert Moves(g.pointer, index) + [] == Moves(g.pointer, index);
  }

  // ---------------------------------------------------------------------
  // Looking up and freeing

  /**
   * The cell a binding stands for when the source uses it as one cell.
   * A one-character string's index list converts to its only element in
   * JavaScript arithmetic; a longer list converts to NaN.  The source then
   * goes on emitting moves computed from NaN; the model instead stops with
   * the error `StringCellMessage` and does not describe that output.
   */
  function CellOfBinding(b: Binding): Option<nat>
  {
    if b.Int8? then Some(b.index) else if |b.indices| == 1 then Some(b.indices[0]) else None
  }

  const StringCellMessage := "string variable used as a single cell"

  /** `variables[name].memoryIndex` used as a cell index. */
  function CellOf(g: Gen, name: string): (r: Result<nat>)
    ensures r.Ok? ==> name in g.variables
    ensures name in g.variables && g.variables[name].Int8? ==> r == Ok(g.variables[name].index)
    ensures name !in g.variables ==> r == Err("TypeError")
  {
    if name !in g.variables then Err("TypeError")
    else match CellOfBinding(g.variables[name])
      case None => Err(StringCellMessage)
      case Some(i) => Ok(i)
  }

  /** `memoryPointerByName`. */
  function MoveToName(g: Gen, name: string): Result<Gen>
  {
    var to :- CellOf(g, name);
    Ok(MoveTo(g, to))
  }

  /**
   * The cells `delete memory[v.memoryIndex]` releases: the int8 cell; for a
   * string the index list becomes the key "i,j,…", which names a cell only
   * when the list has one element.
   */
  function KeyCells(b: Binding): set<nat>
  {
    if b.Int8? then {b.index} else if |b.indices| == 1 then {b.indices[0]} else {}
  }

  /**
   * `memoryFree(name, fillZero, safeCurrentPointer)`: optionally clears an
   * int8 cell with `[-]`, drops the binding and releases its cell, and
   * optionally walks back to where the pointer was.
   */
  function Free(g: Gen, name: string, fillZero: bool, safe: bool): Result<Gen>
  {
    if name !in g.variables then Err("TypeError")
    else
      var b := g.variables[name];
      var g1 := if fillZero && b.Int8? then Emit(MoveTo(g, b.index), [Loop([Dec])]) else g;
      var g2 := g1.(variables := g1.variables - {name}, memory := g1.memory - KeyCells(b));
      Ok(if safe then MoveTo(g2, g.pointer) else g2)
  }

  /** The code `Free` appends. */
  function FreeCode(p: nat, b: Binding, fillZero: bool, safe: bool): Prog
  {
    if fillZero && b.Int8? then Moves(p, b.index) + [Loop([Dec])] + (if safe then Moves(b.index, p) else [])
    else []
  }

  /**
   * `memoryFree` fails exactly on an unbound name.  Otherwise the binding
   * and its cell are gone, `[-]` is appended on the cell exactly when it is
   * zero-filled and of type int8, and with `safe` the pointer ends where it
   * was; without it, it stays on the cleared cell.
   */
  lemma FreeEffect(g: Gen, name: string, fillZero: bool, safe: bool)
    ensures Free(g, name, fillZero, safe).Ok? <==> name in g.variables
    ensures name in g.variables ==>
      var r := Free(g, name, fillZero, safe).value; var b := g.variables[name];
      r.variables == g.variables - {name} && r.memory == g.memory - KeyCells(b) &&
      r.counter == g.counter && r.stack == g.stack &&
      r.result == g.result + Show(FreeCode(g.pointer, b, fillZero, safe)) &&
      r.pointer == (if safe || !(fillZero && b.Int8?) then g.pointer else b.index)
  {
    if name in g.variables {
      var b := g.variables[name];
      var p := g.pointer;
      var r := Free(g, name, fillZero, safe).value;
      if fillZero && b.Int8? {
        var g1 := Emit(MoveTo(g, b.index), [Loop([Dec])]);
        assert g1.result == g.result + Show(Moves(p, b.index)) + "[-]";
        var g2 := g1.(variables := g1.variables - {name}, memory := g1.memory - KeyCells(b));
        FreeClearText(p, b.index, safe);
        if safe {
          assert r == MoveTo(g2, p);
          AppendAssoc3(g.result, Show(Moves(p, b.index)), "[-]", Show(Moves(b.index, p)));
        } else {
          assert r == g2;
          AppendAssoc(g.result, Show(Moves(p, b.index)), "[-]");
          assert Show(Moves(p, b.index)) + "[-]" + "" == Show(Moves(p, b.index)) + "[-]";
        }
      } else {
        var g2 := g.(variables := g.variables - {name}, memory := g.memory - KeyCells(b));
        if safe {
          assert Moves(p, p) == [];
          assert r == MoveTo(g2, p);
        } else {
          assert r == g2;
        }
      }
    }
  }

  lemma FreeClearText(p: nat, i: nat, safe: bool)
    ensures Show(FreeCode(p, Int8(i), true, safe)) ==
      Show(Moves(p, i)) + "[-]" + (if safe then Show(Moves(i, p)) else "")
  {
    ShowAppend(Moves(p, i), [Loop([Dec])]);
    if safe {
      ShowAppend(Moves(p, i) + [Loop([Dec])], Moves(i, p));
    } else {
      assert Moves(p, i) + [Loop([Dec])] + [] == Moves(p, i) + [Loop([Dec])];
    }
  }

  /**
   * old_lang.js `deleteVar`: drops the binding, and deletes `memory[name]`,
   * the entry keyed by the variable's name rather than by its cell.  That
   * entry exists only for a name that is a cell number written in decimal.
   */
  function DeleteVar(g: Gen, name: string): Gen
  {
    g.(variables := g.variables - {name}, memory := g.memory - NameKey(name))
  }

  /** Binding a name and then dropping it leaves the map as if it had only been dropped. */
  lemma UpdateThenRemove<K, V>(m: map<K, V>, k: K, v: V)
    ensures m[k := v] - {k} == m - {k}
  {
  }

  /** The cells a one-cell binding releases: just that cell. */
  lemma KeyCellsOne(b: Binding)
    requires CellOfBinding(b).Some?
    ensures KeyCells(b) == {CellOfBinding(b).value}
  {
  }

  lemma AddMember<T>(s: set<T>, a: T)
    requires a in s
    ensures s + {a} == s
  {
  }

  /** Taking a cell and releasing it again leaves the set as it was. */
  lemma AddThenRemove<T>(s: set<T>, y: T)
    requires y !in s
    ensures s + {y} - {y} == s
  {
  }

  /** The cell a JavaScript object key names: the key must be a canonical decimal numeral. */
  function NameKey(name: string): set<nat>
  {
    if name != [] && AllDigits(name) && (name[0] != '0' || |name| == 1) then {DigitsValue(name)} else {}
  }

  /**
   * `deleteVar` on a name that does not start with a digit (every name the
   * generator passes it) emits nothing and releases no cell.
   */
  lemma DeleteVarKeepsCells(g: Gen, name: string)
    requires name != [] && !IsDigit(name[0])
    ensures var r := DeleteVar(g, name);
      r.memory == g.memory && r.variables == g.variables - {name} &&
      r.result == g.result && r.pointer == g.pointer
  {
  }

  // ---------------------------------------------------------------------
  // Copies

  /**
   * `varCopyByIndex(name, src)`: creates `name` and a scratch cell with 0,
   * moves the source into both (`src[ name+ tmp+ src- ]`), moves the
   * scratch back into the source (`tmp[ src+ tmp- ]`) and frees the scratch
   * with zero-fill, staying on it.
   */
  function CopyByIndex(g: Gen, name: string, src: nat): Gen
  {
    var tmp := TempName("compilator_", g.counter);
    var g1 := CreateInt8(Tick(g), name, 0);
    var g2 := CreateInt8(g1, tmp, 0);
    var c := g2.variables[tmp].index;
    DropCell(CopyLoops(g2, src, g2.variables[name].index, c), tmp, c)
  }

  /** The two loops of a copy of `src` into `d` through the scratch cell `c`. */
  function CopyLoops(g: Gen, src: nat, d: nat, c: nat): Gen
  {
    var g1 := Emit(MoveTo(g, src), [Loop(CopyOut(src, d, c))]);
    Emit(MoveTo(g1, c), [Loop(CopyBack(src, c))])
  }

  lemma CopyLoopsEffect(g: Gen, src: nat, d: nat, c: nat)
    ensures var r := CopyLoops(g, src, d, c);
      r.variables == g.variables && r.memory == g.memory && r.pointer == c &&
      r.counter == g.counter && r.stack == g.stack &&
      r.result == g.result + Show(Moves(g.pointer, src)) + Show([Loop(CopyOut(src, d, c))]) +
        Show(Moves(src, c)) + Show([Loop(CopyBack(src, c))])
  {
  }

  /** `src[ d+ c+ src- ]` as a loop body that starts and ends on `src`. */
  function CopyOut(src: nat, d: nat, c: nat): Prog
  {
    Walk(src, [Touch(d, 1), Touch(c, 1), Touch(src, -1)])
  }

  /** `c[ src+ c- ]` as a loop body that starts and ends on `c`. */
  function CopyBack(src: nat, c: nat): Prog
  {
    Walk(c, [Touch(src, 1), Touch(c, -1)])
  }

  /** `memoryFree(tmp, true, true)` while standing on tmp's int8 cell `c`. */
  function DropCell(g: Gen, tmp: string, c: nat): Gen
  {
    Emit(g, [Loop([Dec])]).(variables := g.variables - {tmp}, memory := g.memory - {c})
  }

  /** The whole text of a copy of `src` into `d` through the scratch cell `c`, from pointer `p`. */
  function CopyCode(p: nat, src: nat, d: nat, c: nat): Prog
  {
    Moves(p, d) + Moves(d, c) + Moves(c, src) + [Loop(CopyOut(src, d, c))] +
    Moves(src, c) + [Loop(CopyBack(src, c))] + [Loop([Dec])]
  }

  /** The scratch cell of a copy: the least cell free once the destination is taken. */
  function ScratchCell(m: set<nat>): nat
  {
    FirstFree(m + {FirstFree(m)})
  }

  /**
   * Net effect of `varCopyByIndex` when the destination is not the scratch
   * name: the destination is bound to the least free cell, which stays
   * occupied; the scratch cell is the next free one and is released; the
   * pointer ends on the scratch cell; the counter advances by one.
   */
  lemma CopyByIndexEffect(g: Gen, name: string, src: nat)
    requires name != TempName("compilator_", g.counter)
    ensures var r := CopyByIndex(g, name, src); var d := FirstFree(g.memory); var c := ScratchCell(g.memory);
      d != c && d !in g.memory && c !in g.memory &&
      r.variables == g.variables[name := Int8(d)] - {TempName("compilator_", g.counter)} &&
      r.memory == g.memory + {d} && r.pointer == c && r.counter == g.counter + 1 &&
      r.stack == g.stack && r.result == g.result + Show(CopyCode(g.pointer, src, d, c))
  {
    var tmp := TempName("compilator_", g.counter);
    var d := FirstFree(g.memory);
    var c := ScratchCell(g.memory);
    var p := g.pointer;
    var g1 := CreateInt8(Tick(g), name, 0);
    CreateInt8Effect(Tick(g), name, 0);
    CreateZero(Tick(g), name);
    var g2 := CreateInt8(g1, tmp, 0);
    CreateInt8Effect(g1, tmp, 0);
    CreateZero(g1, tmp);
    assert g2.variables[name] == Int8(d) && g2.variables[tmp] == Int8(c);
    assert g2.result == g.result + Show(Moves(p, d)) + Show(Moves(d, c));
    assert g2.pointer == c;
    CopyLoopsEffect(g2, src, d, c);
    var r := CopyByIndex(g, name, src);
    assert r == DropCell(CopyLoops(g2, src, d, c), tmp, c);
    var s1, s2, s3, s4 := Show(Moves(p, d)), Show(Moves(d, c)), Show(Moves(c, src)), Show([Loop(CopyOut(src, d, c))]);
    var s5, s6, s7 := Show(Moves(src, c)), Show([Loop(CopyBack(src, c))]), Show([Loop([Dec])]);
    assert r.result == g.result + s1 + s2 + s3 + s4 + s5 + s6 + s7;
    CopyCodeText(p, src, d, c);
    assert Show(CopyCode(p, src, d, c)) == s1 + s2 + s3 + s4 + s5 + s6 + s7;
    Regroup7(g.result, s1, s2, s3, s4, s5, s6, s7);
    AddThenRemove(g.memory + {d}, c);
    UpdateThenRemove(g.variables[name := Int8(d)], tmp, Int8(c));
  }

  lemma Regroup7(a: string, s1: string, s2: string, s3: string, s4: string, s5: string, s6: string, s7: string)
    ensures a + s1 + s2 + s3 + s4 + s5 + s6 + s7 == a + (s1 + s2 + s3 + s4 + s5 + s6 + s7)
  {
    AppendAssoc(a, s1, s2);
    AppendAssoc(a, s1 + s2, s3);
    AppendAssoc(a, s1 + s2 + s3, s4);
    AppendAssoc(a, s1 + s2 + s3 + s4, s5);
    AppendAssoc(a, s1 + s2 + s3 + s4 + s5, s6);
    AppendAssoc(a, s1 + s2 + s3 + s4 + s5 + s6, s7);
  }

  lemma CopyCodeText(p: nat, src: nat, d: nat, c: nat)
    ensures Show(CopyCode(p, src, d, c)) ==
      Show(Moves(p, d)) + Show(Moves(d, c)) + Show(Moves(c, src)) + Show([Loop(CopyOut(src, d, c))]) +
      Show(Moves(src, c)) + Show([Loop(CopyBack(src, c))]) + Show([Loop([Dec])])
  {
    var a := Moves(p, d) + Moves(d, c) + Moves(c, src) + [Loop(CopyOut(src, d, c))];
    ShowAppend(Moves(p, d), Moves(d, c));
    ShowAppend(Moves(p, d) + Moves(d, c), Moves(c, src));
    ShowAppend(Moves(p, d) + Moves(d, c) + Moves(c, src), [Loop(CopyOut(src, d, c))]);
    ShowAppend(a, Moves(src, c));
    ShowAppend(a + Moves(src, c), [Loop(CopyBack(src, c))]);
    ShowAppend(a + Moves(src, c) + [Loop(CopyBack(src, c))], [Loop([Dec])]);
  }

  /** `varCopyByName`: the source name's cell is copied; an unbound source throws. */
  function CopyByName(g: Gen, name: string, source: string): (r: Result<Gen>)
    ensures source !in g.variables ==> r == Err("TypeError")
  {
    var src :- CellOf(g, source);
    Ok(CopyByIndex(g, name, src))
  }

  // ---------------------------------------------------------------------
  // Strings

  /** The cells a string of `n` characters takes: the least free cell, n times over. */
  function FreshCells(m: set<nat>, n: nat): (r: seq<nat>)
    ensures |r| == n
    ensures forall k :: 0 <= k < n ==> r[k] !in m
    ensures forall k, l :: 0 <= k < l < n ==> r[k] != r[l]
    decreases n
  {
    if n == 0 then []
    else
      var i := FirstFree(m);
      var rest := FreshCells(m + {i}, n - 1);
      [i] + rest
  }

  function Elems(s: seq<nat>): set<nat>
  {
    set k | 0 <= k < |s| :: s[k]
  }

  /** `value.charCodeAt(i)` for each position. */
  function Codes(s: string): (r: seq<int>)
    ensures |r| == |s| && forall k :: 0 <= k < |s| ==> r[k] == s[k] as int
  {
    seq(|s|, k requires 0 <= k < |s| => s[k] as int)
  }

  /** `Math.min(...arr)`: Infinity for no arguments. */
  function MinOf(arr: seq<int>): (x: JsNumber)
    ensures arr == [] <==> x == Infinite(false)
    ensures arr != [] ==>
      x.Integer? && (forall k :: 0 <= k < |arr| ==> x.value <= arr[k]) &&
      exists k :: 0 <= k < |arr| && x.value == arr[k]
  {
    if arr == [] then Infinite(false)
    else
      var rest := MinOf(arr[1..]);
      if rest.Integer? && rest.value < arr[0] then
        assert forall k :: 1 <= k < |arr| ==> arr[k] == arr[1..][k - 1];
        rest
      else
        assert forall k :: 1 <= k < |arr| ==> arr[k] == arr[1..][k - 1];
        Integer(arr[0])
  }

  /**
   * `varCreate_String` / `createVar_String`: one fresh cell per character,
   * the binding, then `memoryWriteArrayOptimized` over the character codes.
   */
  function CreateString(g: Gen, name: string, s: string, rev: Revision): Result<Gen>
  {
    var cells := FreshCells(g.memory, |s|);
    var g1 := g.(memory := g.memory + Elems(cells), variables := g.variables[name := Str(cells)]);
    WriteArray(g1, Codes(s), cells, rev)
  }

  /**
   * `memoryWriteArrayOptimized` / `writeMemoryArrayOptimized`: a temporary
   * int8 holding the least code, a loop adding it to every cell, then each
   * cell's excess over the least code by an optimized write.  new.js frees
   * the temporary with zero-fill and walks back to the last cell; old_lang.js
   * only deletes its name.
   */
  function WriteArray(g: Gen, arr: seq<int>, cells: seq<nat>, rev: Revision): Result<Gen>
    requires |arr| == |cells|
  {
    var temp := TempName(if rev == OldLang then "translator_temp_line_" else "_compiler_", g.counter);
    var min := MinOf(arr);
    var g1 :- CreateNumber(Tick(g), temp, min);
    var slot := g1.variables[temp].index;
    var g2 := Emit(MoveTo(g1, slot), [Loop(SpreadLoop(slot, cells))]);
    var g3 := WriteEach(g2, arr, cells, min.value);
    if rev == OldLang then Ok(DeleteVar(g3, temp)) else Free(g3, temp, true, true)
  }

  /** For a non-empty array of whole numbers the write is the spread, the per-cell writes and the release. */
  lemma WriteArrayIs(g: Gen, arr: seq<int>, cells: seq<nat>, rev: Revision)
    requires |arr| == |cells| && arr != []
    ensures var temp := TempName(if rev == OldLang then "translator_temp_line_" else "_compiler_", g.counter);
      var mv := MinOf(arr).value; var slot := FirstFree(g.memory);
      var g3 := WriteEach(Emit(MoveTo(CreateInt8(Tick(g), temp, mv), slot), [Loop(SpreadLoop(slot, cells))]), arr, cells, mv);
      WriteArray(g, arr, cells, rev) == if rev == OldLang then Ok(DeleteVar(g3, temp)) else Free(g3, temp, true, true)
  {
    var temp := TempName(if rev == OldLang then "translator_temp_line_" else "_compiler_", g.counter);
    CreateInt8Effect(Tick(g), temp, MinOf(arr).value);
  }

  /**
   * The body of the shared loop: a `+` on every cell in order, then back on
   * the counter `slot` a `-`.
   */
  function SpreadLoop(slot: nat, cells: seq<nat>): Prog
  {
    Walk(slot, SpreadSteps(slot, cells))
  }

  function SpreadSteps(slot: nat, cells: seq<nat>): seq<Touch>
  {
    Ones(cells) + [Touch(slot, -1)]
  }

  /** A `+` on each cell in order. */
  function Ones(cells: seq<nat>): seq<Touch>
  {
    if cells == [] then [] else [Touch(cells[0], 1)] + Ones(cells[1..])
  }

  function LastOr(p: nat, cells: seq<nat>): nat
  {
    if cells == [] then p else cells[|cells| - 1]
  }

  /** `for (i ...) { memoryPointerByIndex(indexes[i]); memoryWriteOptimized(arr[i] - min) }`. */
  function WriteEach(g: Gen, arr: seq<int>, cells: seq<nat>, min: int): Gen
    requires |arr| == |cells|
    decreases |cells|
  {
    if cells == [] then g
    else WriteEach(WriteOptimized(MoveTo(g, cells[0]), arr[0] - min), arr[1..], cells[1..], min)
  }

  /**
   * A string is created exactly when it is not empty: for the empty string
   * `Math.min()` is Infinity and the temporary's integer check throws.
   */
  lemma CreateStringFails(g: Gen, name: string, s: string, rev: Revision)
    ensures CreateString(g, name, s, rev).Ok? <==> s != []
    ensures s == [] ==>
      CreateString(g, name, s, rev) == Err(NotIntegerMessage(TempName(if rev == OldLang then "translator_temp_line_" else "_compiler_", g.counter), Infinite(false)))
  {
    var cells := FreshCells(g.memory, |s|);
    var g1 := g.(memory := g.memory + Elems(cells), variables := g.variables[name := Str(cells)]);
    if s != [] {
      var temp := TempName(if rev == OldLang then "translator_temp_line_" else "_compiler_", g1.counter);
      var min := MinOf(Codes(s));
      CreateInt8Effect(Tick(g1), temp, min.value);
      WriteArrayIs(g1, Codes(s), cells, rev);
      if rev != OldLang {
        var slot := FirstFree(Tick(g1).memory);
        var g3 := WriteEach(Emit(MoveTo(CreateInt8(Tick(g1), temp, min.value), slot),
          [Loop(SpreadLoop(slot, cells))]), Codes(s), cells, min.value);
        WriteEachKeeps(Emit(MoveTo(CreateInt8(Tick(g1), temp, min.value), slot),
          [Loop(SpreadLoop(slot, cells))]), Codes(s), cells, min.value);
        FreeEffect(g3, temp, true, true);
      }
    }
  }

  /** The per-cell writes move the pointer and append text, and touch no binding. */
  lemma {:induction false} WriteEachKeeps(g: Gen, arr: seq<int>, cells: seq<nat>, min: int)
    requires |arr| == |cells|
    ensures var r := WriteEach(g, arr, cells, min);
      r.variables == g.variables && r.memory == g.memory && r.counter == g.counter &&
      r.stack == g.stack && r.pointer == LastOr(g.pointer, cells)
    decreases |cells|
  {
    if cells != [] {
      WriteEachKeeps(WriteOptimized(MoveTo(g, cells[0]), arr[0] - min), arr[1..], cells[1..], min);
    }
  }

  /** Printing a string: `for (e of memoryIndex) { move to e; "." }`. */
  function OutEach(g: Gen, cells: seq<nat>): Gen
    decreases |cells|
  {
    if cells == [] then g else OutEach(Emit(MoveTo(g, cells[0]), [Out]), cells[1..])
  }

  // ---------------------------------------------------------------------
  // Creating variables of any type

  /**
   * `varCreate` / `createVar`: numbers become int8 variables, strings
   * string variables (main.js refuses them), anything else throws.
   */
  function VarCreate(g: Gen, name: string, x: JsVal, rev: Revision): Result<Gen>
  {
    match x
    case Num(n) => CreateNumber(g, name, n)
    case Text(s) =>
      if rev == MainJs then Err("string var crreate does not work") else CreateString(g, name, s, rev)
    case Null => Err("unsupported type (null)")
  }
}
