/**
 * `Compiler.compile` of main.js and of new.js: a walk over the syntax tree
 * that drives the generator primitives of `Codegen`.  Each case is a
 * function from the state before to the state after, or to what the case
 * throws.  What the code of `plus`, `out`, `set` and `assign` does to the
 * machine's tape is proved in module `CompileTape`.  The class `Compiler`
 * in module `CompilerImpl` performs the same steps by updating fields.
 */
module Compile {
  import opened Wrappers
  import opened Brainfuck
  import opened JsValue
  import opened Codegen
  import opened Ast

  /** The object key a node's `text` gives a lookup: `null` is the key "null". */
  function Key(text: Option<string>): string
  {
    if text.Some? then text.value else "null"
  }

  /** `node.childs[k]` read for its `type`: a missing child is `undefined` and throws. */
  function ChildAt(n: Node, k: nat): (r: Result<Node>)
    ensures r.Ok? <==> k < |n.childs|
    ensures r.Ok? ==> r.value == n.childs[k]
    ensures r.Err? ==> r.msg == "TypeError"
  {
    if k < |n.childs| then Ok(n.childs[k]) else Err("TypeError")
  }

  /** The node type that names a variable: `text` in main.js, `identifier` in new.js. */
  predicate IsName(k: Tag, rev: Revision)
  {
    if rev == MainJs then k.Text? else k.Identifier?
  }

  // ---------------------------------------------------------------------
  // `plus`, shared by both revisions

  /** An operand of `plus` as a variable: its name, and whether it is a temporary to free. */
  datatype Operand = Operand(g: Gen, name: string, temp: bool)

  const UnexpectedType := "unexpected type: [object Object]"

  /**
   * A name stands for itself; a number literal is put in a fresh int8
   * temporary `translator_temp_line_k`; any other node throws.
   */
  function PlusOperand(g: Gen, n: Node, rev: Revision): (r: Result<Operand>)
    ensures IsName(n.kind, rev) ==> r == Ok(Operand(g, Key(n.text), false))
    ensures !IsName(n.kind, rev) && !n.kind.Number? ==> r == Err(UnexpectedType)
  {
    if IsName(n.kind, rev) then Ok(Operand(g, Key(n.text), false))
    else if n.kind.Number? then
      var name := TempName("translator_temp_line_", g.counter);
      var g1 :- CreateNumber(Tick(g), name, NumberOf(n.text));
      Ok(Operand(g1, name, true))
    else Err(UnexpectedType)
  }

  /**
   * `case "plus"`: both operands as variables, a copy of each
   * (`compilator_k`, `compilator_k+1`), the second copy emptied into the
   * first, the second copy and the literal temporaries freed with zero
   * fill, and the pointer parked on the first copy, which holds the sum.
   * Both children are read for their `type` before anything else happens.
   */
  function Plus(g: Gen, n: Node, rev: Revision): Result<Gen>
  {
    var first :- ChildAt(n, 0);
    var second :- ChildAt(n, 1);
    var a :- PlusOperand(g, first, rev);
    var b :- PlusOperand(a.g, second, rev);
    var g2 :- Copies(b.g, a.name, b.name);
    Sum(g2, b.g.counter, a, b)
  }

  /** The two copies of `plus`: both names are taken from the counter before either copy is made. */
  function Copies(g: Gen, x: string, y: string): Result<Gen>
  {
    CopyPair(Tick(Tick(g)), g.counter, x, y)
  }

  /** x copied into `compilator_k`, then y into `compilator_k+1`. */
  function CopyPair(g: Gen, k: nat, x: string, y: string): Result<Gen>
  {
    var g1 :- CopyByName(g, TempName("compilator_", k), x);
    CopyByName(g1, TempName("compilator_", k + 1), y)
  }

  /**
   * The rest of `plus` once the copies exist (`k` is the counter value the
   * first copy's name took): `s2[- s1+ s2]`, `memoryFree` of the second
   * copy and of each temporary, and the pointer to the first copy.
   */
  function Sum(g: Gen, k: nat, a: Operand, b: Operand): Result<Gen>
  {
    var s1 :- CellOf(g, TempName("compilator_", k));
    var s2 :- CellOf(g, TempName("compilator_", k + 1));
    var g3 := Emit(MoveTo(g, s2), [Loop(Drain(s2, s1, 1))]);
    var g4 :- Free(g3, TempName("compilator_", k + 1), true, true);
    var g5 :- FreeTemp(g4, a);
    var g6 :- FreeTemp(g5, b);
    Ok(MoveTo(g6, s1))
  }

  /** `if (…VarForRemove) memoryFree(…, true, true)`. */
  function FreeTemp(g: Gen, o: Operand): Result<Gen>
  {
    if o.temp then Free(g, o.name, true, true) else Ok(g)
  }

  // ---------------------------------------------------------------------
  // main.js

  /**
   * main.js `compile(node)`: `func` and `if` emit nothing, `set`, `plus`
   * and `out` have their own cases, and every other node compiles its
   * children in order.
   */
  function CompileMain(g: Gen, n: Node): Result<Gen>
    decreases n, 2, 0
  {
    if n.kind.Func? || n.kind.If? then Ok(g)
    else if n.kind.Set? then SetMain(g, n)
    else if n.kind.Plus? then Plus(g, n, MainJs)
    else if n.kind.Out? then OutMain(g, n)
    else KidsMain(g, n, 0)
  }

  /** The children of `n` from the `i`-th on, in order. */
  function KidsMain(g: Gen, n: Node, i: nat): Result<Gen>
    requires i <= |n.childs|
    decreases n, 0, |n.childs| - i
  {
    if i == |n.childs| then Ok(g)
    else
      var g1 :- CompileMain(g, n.childs[i]);
      KidsMain(g1, n, i + 1)
  }

  /**
   * `case "set"`: a `plus` right side is compiled and copied from where
   * it leaves the pointer, a `text` right side is copied by name, and any
   * other right side creates an int8 from `Number(text)`.
   */
  function SetMain(g: Gen, n: Node): Result<Gen>
    decreases n, 1, 0
  {
    var target :- ChildAt(n, 0);
    var right :- ChildAt(n, 1);
    var name := Key(target.text);
    if right.kind.Plus? then
      var g1 :- CompileMain(g, right);
      Ok(CopyByIndex(g1, name, g1.pointer))
    else if right.kind.Text? then CopyByName(g, name, Key(right.text))
    else VarCreate(g, name, Num(NumberOf(right.text)), MainJs)
  }

  /** `case "out"`: to the named cell, one `.`, back to where the pointer was. */
  function OutMain(g: Gen, n: Node): Result<Gen>
  {
    var v :- ChildAt(n, 0);
    var g1 :- MoveToName(g, Key(v.text));
    Ok(MoveTo(Emit(g1, [Instr.Out]), g.pointer))
  }

  // ---------------------------------------------------------------------
  // new.js

  /**
   * new.js `compile(node)`: `func` and `if` emit nothing, `assign`, `div`,
   * `plus` and `out` have their own cases, and every other node compiles
   * its children in order.
   */
  function CompileNew(g: Gen, n: Node): Result<Gen>
    decreases n, 2, 0
  {
    if n.kind.Func? || n.kind.If? then Ok(g)
    else if n.kind.Assign? then AssignNew(g, n)
    else if n.kind.Div? then DivNew(g, n)
    else if n.kind.Plus? then Plus(g, n, NewJs)
    else if n.kind.Out? then OutNew(g, n)
    else KidsNew(g, n, 0)
  }

  function KidsNew(g: Gen, n: Node, i: nat): Result<Gen>
    requires i <= |n.childs|
    decreases n, 0, |n.childs| - i
  {
    if i == |n.childs| then Ok(g)
    else
      var g1 :- CompileNew(g, n.childs[i]);
      KidsNew(g1, n, i + 1)
  }

  /**
   * The value `varCreate` receives in `case "assign"`: `Number(text)` for a
   * number node, otherwise the node's text as it is (`null` for an
   * operator node).
   */
  function AssignValue(right: Node): JsVal
  {
    if right.kind.Number? then Num(NumberOf(right.text))
    else if right.text.Some? then JsVal.Text(right.text.value)
    else Null
  }

  /**
   * `case "assign"`: a `plus` or `div` right side is compiled and copied
   * from where it leaves the pointer, an `identifier` is copied by name,
   * anything else is created from `AssignValue`.
   */
  function AssignNew(g: Gen, n: Node): Result<Gen>
    decreases n, 1, 0
  {
    var target :- ChildAt(n, 0);
    var right :- ChildAt(n, 1);
    var name := Key(target.text);
    if right.kind.Plus? || right.kind.Div? then
      var g1 :- CompileNew(g, right);
      Ok(CopyByIndex(g1, name, g1.pointer))
    else if right.kind.Identifier? then CopyByName(g, name, Key(right.text))
    else VarCreate(g, name, AssignValue(right), NewJs)
  }

  /** `case "div"`: `Division2` on the two children's names. */
  function DivNew(g: Gen, n: Node): Result<Gen>
  {
    var first :- ChildAt(n, 0);
    var second :- ChildAt(n, 1);
    var d :- Division2(g, Key(first.text), Key(second.text));
    Ok(d.g)
  }

  /**
   * `case "out"`.  Its test `node.childs[0].type = Tokens.identifier` is an
   * assignment, so the arm is always taken: a string variable prints its
   * cells in order, an int8 variable prints nothing, an unbound name
   * throws; the pointer then walks back to where it was.
   */
  function OutNew(g: Gen, n: Node): Result<Gen>
  {
    var v :- ChildAt(n, 0);
    var name := Key(v.text);
    if name !in g.variables then Err("TypeError")
    else
      var g1 := match g.variables[name]
        case Str(cells) => OutEach(g, cells)
        case Int8(_) => g;
      Ok(MoveTo(g1, g.pointer))
  }

  // ---------------------------------------------------------------------
  // Division2 (bookkeeping)

  /** What `Division2` gives back: the state and the name of the quotient `q`. */
  datatype Divided = Divided(g: Gen, q: string)

  /** `memoryPointerByName(to)` for a name bound to `to`, then `s` appended. */
  function At(g: Gen, to: nat, s: string): Gen
  {
    var h := MoveTo(g, to);
    h.(result := h.result + s)
  }

  /** The cells `Division2` works on. */
  datatype DivCells = DivCells(x: nat, y: nat, t0: nat, t1: nat, q: nat, nil: nat)

  /** The text of `Division2` between its set-up and its frees, one walk and one append at a time. */
  function DivisionLoops(g: Gen, c: DivCells): Gen
  {
    var h1 := At(At(At(At(At(At(g, c.x, "["), c.t1, "+["), c.y, "["), c.x, "-["), c.t1, "+"), c.nil, "[-]]");
    var h2 := At(At(At(At(At(At(h1, c.t1, "-"), c.t0, "+"), c.y, "-]"), c.t0, "["), c.y, "+"), c.t0, "-]");
    var h3 := At(At(At(At(At(At(h2, c.q, "+"), c.t1, "]]"), c.x, "["), c.y, "["), c.t0, "+"), c.x, "+");
    At(At(At(At(At(At(h3, c.y, "-]"), c.t0, "["), c.y, "+"), c.t0, "-]"), c.q, "-"), c.nil, "[-]]")
  }

  function DivName(k: nat): string
  {
    TempName("division_temp_", k)
  }

  /**
   * `varCreate(t, 0)` for the next `division_temp_` name `t`: a number that
   * is an integer, so an int8 holding 0.
   */
  function ZeroTemp(g: Gen): Gen
  {
    CreateInt8(Tick(g), DivName(g.counter), 0)
  }

  /**
   * `Division2(divided, divisor)`: copies x and y of both operands, four
   * zero temporaries temp0, temp1, q and nil, the loops, then y, temp0,
   * temp1 and nil freed with zero fill and the pointer parked on q.  Every
   * name takes the counter's value when it is made, and each copy takes
   * one more for its own scratch cell.
   */
  function Division2(g: Gen, divided: string, divisor: string): Result<Divided>
  {
    var x := DivName(g.counter);
    var g1 :- CopyByName(Tick(g), x, divided);
    var y := DivName(g1.counter);
    var g2 :- CopyByName(Tick(g1), y, divisor);
    var k := g2.counter;
    DivisionRest(g2, x, y, DivName(k), DivName(k + 1), DivName(k + 2), DivName(k + 3))
  }

  /**
   * `Division2` once x and y are made: the zeros temp0, temp1, q and nil,
   * named in the order the counter gives them, then the rest.
   */
  function DivisionRest(g: Gen, x: string, y: string, t0: string, t1: string, q: string, nil: string): Result<Divided>
  {
    Quotient(DivisionEnd(Zeros(g, 4), x, y, t0, t1, q, nil), q)
  }

  /** `n` zero temporaries made one after the other. */
  function Zeros(g: Gen, n: nat): Gen
  {
    if n == 0 then g else ZeroTemp(Zeros(g, n - 1))
  }

  /** What `Division2` gives back: the cell q in the state the loops and frees leave, or their error. */
  function Quotient(e: Result<Gen>, q: string): Result<Divided>
  {
    if e.Ok? then Ok(Divided(e.value, q)) else Err(e.msg)
  }

  /**
   * `Division2` once its six names are bound in `g`: the loops on their
   * cells, y, temp0, temp1 and nil freed with zero fill, and the pointer
   * moved to q.
   */
  function DivisionEnd(g: Gen, x: string, y: string, t0: string, t1: string, q: string, nil: string): Result<Gen>
  {
    var cx :- CellOf(g, x);
    var cy :- CellOf(g, y);
    var c0 :- CellOf(g, t0);
    var c1 :- CellOf(g, t1);
    var cq :- CellOf(g, q);
    var cn :- CellOf(g, nil);
    var h := DivisionLoops(g, DivCells(cx, cy, c0, c1, cq, cn));
    var h1 :- Free(h, y, true, true);
    var h2 :- Free(h1, t0, true, true);
    var h3 :- Free(h2, t1, true, true);
    var h4 :- Free(h3, nil, true, true);
    MoveToName(h4, q)
  }

  // ---------------------------------------------------------------------
  // The programs

  /** main.js `compiler.compile(node)`: the text emitted for the whole tree. */
  function ProgramMain(root: Node): Result<string>
  {
    var g :- CompileMain(Start, root);
    Ok(g.result)
  }

  /** new.js `compiler.compile(nodes)`. */
  function ProgramNew(root: Node): Result<string>
  {
    var g :- CompileNew(Start, root);
    Ok(g.result)
  }
}
