/**
 * The first revision of the compiler, `convert_old` in old_lang.js: a
 * line-oriented language (`var`, `add`, `out`, `if`/`endif`,
 * `for`/`endfor`, `dump`) translated one line at a time by helpers that
 * share the generator state of `Codegen`.  Every step is a function from
 * the state before to the state after, or to the value the source returns
 * or throws.  The class `Compiler` in module `CompilerImpl`
 * performs the same steps by updating fields.
 */
module OldLang {
  import opened Wrappers
  import opened Brainfuck
  import opened JsValue
  import opened Codegen

  /** A helper that makes a copy gives back the new state, the copy's name and the copy's cell. */
  datatype Copied = Copied(g: Gen, name: string, cell: nat)

  /** `translator_temp_${k}_${name}_copy`. */
  function CopyName(k: nat, name: string): string
  {
    "translator_temp_" + NatText(k) + "_" + name + "_copy"
  }

  /**
   * Copy names taken at different counter values are different, whatever
   * names they copy: the printed counters either differ at some digit or
   * one is shorter, and then its `_` meets a digit of the other.
   */
  lemma CopyNamesApart(k1: nat, k2: nat, a: string, b: string)
    requires k1 != k2
    ensures CopyName(k1, a) != CopyName(k2, b)
  {
    var s, t := NatText(k1), NatText(k2);
    var x, y := CopyName(k1, a), CopyName(k2, b);
    var p := "translator_temp_";
    assert x == p + s + ("_" + a + "_copy") && y == p + t + ("_" + b + "_copy");
    NatTextValue(k1);
    NatTextValue(k2);
    if |s| == |t| {
      assert x[|p|..|p| + |s|] == s && y[|p|..|p| + |t|] == t;
    } else if |s| < |t| {
      assert x[|p| + |s|] == '_' && y[|p| + |s|] == t[|s|];
      assert IsDigit(t[|s|]);
    } else {
      assert y[|p| + |t|] == '_' && x[|p| + |t|] == s[|t|];
      assert IsDigit(s[|t|]);
    }
  }

  /** A generated copy name is longer than the name it copies, so it never is that name. */
  lemma CopyNameLonger(k: nat, name: string)
    ensures |CopyName(k, name)| > |name| && CopyName(k, name) != name
  {
  }

  lemma CopyNameStart(k: nat, name: string)
    ensures CopyName(k, name) != [] && CopyName(k, name)[0] == 't'
  {
  }

  // ---------------------------------------------------------------------
  // Copies

  /**
   * `createVarCopyPointersSafe(name)`: two fresh int8 cells (the copy and a
   * scratch cell, both created with 0), the source moved into both, the
   * scratch moved back into the source, the scratch's name forgotten.  The
   * pointer is left on the scratch cell.
   */
  function CopyPointersSafe(g: Gen, name: string): Result<Copied>
  {
    var tempName := CopyName(g.counter + 1, name);
    var d, c := FirstFree(g.memory), ScratchCell(g.memory);
    var g2 := CopySetup(g, name);
    var src :- CellOf(g2, name);
    Ok(Copied(DeleteVar(CopyLoops(g2, src, d, c), tempName), CopyName(g.counter, name), d))
  }

  /**
   * The start shared by both copy helpers: two temporary names from the
   * counter, each created as an int8 variable holding 0.
   */
  function CopySetup(g: Gen, name: string): Gen
  {
    var g1 := CreateInt8(Tick(Tick(g)), CopyName(g.counter, name), 0);
    CreateInt8(g1, CopyName(g.counter + 1, name), 0)
  }

  /**
   * Creating the two temporaries takes the least free cell and the one
   * after it, walks to both, and writes nothing.
   */
  lemma CopySetupEffect(g: Gen, name: string)
    ensures var r := CopySetup(g, name); var d, c := FirstFree(g.memory), ScratchCell(g.memory);
      d != c && d !in g.memory && c !in g.memory &&
      CopyName(g.counter, name) != CopyName(g.counter + 1, name) &&
      r.variables == g.variables[CopyName(g.counter, name) := Int8(d)][CopyName(g.counter + 1, name) := Int8(c)] &&
      r.memory == g.memory + {d, c} && r.pointer == c && r.counter == g.counter + 2 && r.stack == g.stack &&
      r.result == g.result + Show(Moves(g.pointer, d) + Moves(d, c))
  {
    CopyNamesApart(g.counter, g.counter + 1, name, name);
    var g0 := Tick(Tick(g));
    var g1 := CreateInt8(g0, CopyName(g.counter, name), 0);
    CreateInt8Effect(g0, CopyName(g.counter, name), 0);
    CreateZero(g0, CopyName(g.counter, name));
    CreateInt8Effect(g1, CopyName(g.counter + 1, name), 0);
    CreateZero(g1, CopyName(g.counter + 1, name));
    ShowAppend(Moves(g.pointer, FirstFree(g.memory)), Moves(FirstFree(g.memory), ScratchCell(g.memory)));
    AppendAssoc(g.result, Show(Moves(g.pointer, FirstFree(g.memory))), Show(Moves(FirstFree(g.memory), ScratchCell(g.memory))));
  }

  /**
   * The net effect of `createVarCopyPointersSafe` on a name bound to one
   * cell: the copy is bound to the least free cell, the scratch cell is
   * the next free one and stays occupied (its name is forgotten but
   * `deleteVar` releases no cell), the counter advances by two and the
   * pointer ends on the scratch cell.
   */
  lemma CopyPointersSafeEffect(g: Gen, name: string)
    requires name in g.variables && CellOfBinding(g.variables[name]).Some?
    ensures var r := CopyPointersSafe(g, name); var d, c := FirstFree(g.memory), ScratchCell(g.memory);
      var src := CellOfBinding(g.variables[name]).value;
      r.Ok? && r.value.name == CopyName(g.counter, name) && r.value.cell == d &&
      d != c && d !in g.memory && c !in g.memory &&
      r.value.g.variables == g.variables[CopyName(g.counter, name) := Int8(d)] - {CopyName(g.counter + 1, name)} &&
      r.value.g.memory == g.memory + {d, c} && r.value.g.pointer == c &&
      r.value.g.counter == g.counter + 2 && r.value.g.stack == g.stack &&
      r.value.g.result == g.result + Show(Moves(g.pointer, d) + Moves(d, c) + CopyLoopsCode(src, d, c))
  {
    CopyPointersSafeIs(g, name);
    CopyStepsEffect(g, name, CellOfBinding(g.variables[name]).value);
  }

  /** The setup, the loops from `src` and the release of the scratch name, composed. */
  lemma CopyStepsEffect(g: Gen, name: string, src: nat)
    ensures var d, c := FirstFree(g.memory), ScratchCell(g.memory);
      var r := DeleteVar(CopyLoops(CopySetup(g, name), src, d, c), CopyName(g.counter + 1, name));
      d != c && d !in g.memory && c !in g.memory &&
      r.variables == g.variables[CopyName(g.counter, name) := Int8(d)] - {CopyName(g.counter + 1, name)} &&
      r.memory == g.memory + {d, c} && r.pointer == c && r.counter == g.counter + 2 && r.stack == g.stack &&
      r.result == g.result + Show(Moves(g.pointer, d) + Moves(d, c) + CopyLoopsCode(src, d, c))
  {
    var d, c := FirstFree(g.memory), ScratchCell(g.memory);
    CopySetupEffect(g, name);
    CopyNameStart(g.counter + 1, name);
    var g2 := CopySetup(g, name);
    CopyTail(g2, src, d, c, CopyName(g.counter + 1, name));
    var r := DeleteVar(CopyLoops(g2, src, d, c), CopyName(g.counter + 1, name));
    TextThen(g.result, g2.result, r.result, Moves(g.pointer, d) + Moves(d, c), CopyLoopsCode(src, d, c));
    UpdateThenRemove(g.variables[CopyName(g.counter, name) := Int8(d)], CopyName(g.counter + 1, name), Int8(c));
  }

  /** A copy of a name bound to one cell succeeds. */
  lemma CopyPointersSafeOk(g: Gen, name: string)
    requires name in g.variables && CellOfBinding(g.variables[name]).Some?
    ensures CopyPointersSafe(g, name).Ok?
  {
    CopyPointersSafeIs(g, name);
  }

  lemma CopyPointersSafeIs(g: Gen, name: string)
    requires name in g.variables && CellOfBinding(g.variables[name]).Some?
    ensures var src := CellOfBinding(g.variables[name]).value;
      CopyPointersSafe(g, name) ==
      Ok(Copied(DeleteVar(CopyLoops(CopySetup(g, name), src, FirstFree(g.memory), ScratchCell(g.memory)),
        CopyName(g.counter + 1, name)), CopyName(g.counter, name), FirstFree(g.memory)))
  {
    CopyNameLonger(g.counter, name);
    CopyNameLonger(g.counter + 1, name);
    CopySetupEffect(g, name);
    assert CopySetup(g, name).variables[name] == g.variables[name];
  }

  /** The loops of a copy, then forgetting the scratch name, which releases nothing. */
  lemma CopyTail(g: Gen, src: nat, d: nat, c: nat, tempName: string)
    requires g.pointer == c && tempName != [] && tempName[0] == 't'
    ensures var r := DeleteVar(CopyLoops(g, src, d, c), tempName);
      r.variables == g.variables - {tempName} && r.memory == g.memory && r.pointer == c &&
      r.counter == g.counter && r.stack == g.stack && r.result == g.result + Show(CopyLoopsCode(src, d, c))
  {
    CopyLoopsEffect(g, src, d, c);
    DeleteVarKeepsCells(CopyLoops(g, src, d, c), tempName);
    CopyLoopsCodeText(src, d, c);
    AppendAssoc4(g.result, Show(Moves(c, src)), Show([Loop(CopyOut(src, d, c))]), Show(Moves(src, c)),
      Show([Loop(CopyBack(src, c))]));
  }

  /** The text of the two copy loops, from the copy's scratch cell `c`. */
  function CopyLoopsCode(src: nat, d: nat, c: nat): Prog
  {
    Moves(c, src) + [Loop(CopyOut(src, d, c))] + Moves(src, c) + [Loop(CopyBack(src, c))]
  }

  lemma CopyLoopsCodeText(src: nat, d: nat, c: nat)
    ensures Show(CopyLoopsCode(src, d, c)) ==
      Show(Moves(c, src)) + Show([Loop(CopyOut(src, d, c))]) + Show(Moves(src, c)) + Show([Loop(CopyBack(src, c))])
  {
    ShowAppend(Moves(c, src), [Loop(CopyOut(src, d, c))]);
    ShowAppend(Moves(c, src) + [Loop(CopyOut(src, d, c))], Moves(src, c));
    ShowAppend(Moves(c, src) + [Loop(CopyOut(src, d, c))] + Moves(src, c), [Loop(CopyBack(src, c))]);
  }

  /**
   * `createVarCopy(name)`: a move rather than a copy.  The source cell is
   * emptied into the copy and into a fresh cell, and the name is rebound to
   * that fresh cell.  Only an int8 binding can be rebound this way.
   */
  function CreateVarCopy(g: Gen, name: string): Result<Copied>
  {
    var newOrigName := CopyName(g.counter + 1, name);
    var d, e := FirstFree(g.memory), ScratchCell(g.memory);
    var g2 := CopySetup(g, name);
    if name !in g2.variables then Err("TypeError")
    else if !g2.variables[name].Int8? then Err(StringCellMessage)
    else
      var src := g2.variables[name].index;
      var g3 := Emit(MoveTo(g2, src), [Loop(CopyOut(src, d, e))]);
      Ok(Copied(DeleteVar(g3.(variables := g3.variables[name := Int8(e)]), newOrigName), CopyName(g.counter, name), d))
  }

  lemma CreateVarCopyEffect(g: Gen, name: string)
    requires name in g.variables && g.variables[name].Int8?
    ensures var r := CreateVarCopy(g, name); var d, e := FirstFree(g.memory), ScratchCell(g.memory);
      var src := g.variables[name].index;
      r.Ok? && r.value.name == CopyName(g.counter, name) && r.value.cell == d &&
      d != e && d !in g.memory && e !in g.memory &&
      r.value.g.variables == g.variables[CopyName(g.counter, name) := Int8(d)][name := Int8(e)] - {CopyName(g.counter + 1, name)} &&
      r.value.g.memory == g.memory + {d, e} && r.value.g.pointer == src &&
      r.value.g.counter == g.counter + 2 && r.value.g.stack == g.stack &&
      r.value.g.result == g.result + Show(Moves(g.pointer, d) + Moves(d, e) + Moves(e, src) + [Loop(CopyOut(src, d, e))])
  {
    var copyName := CopyName(g.counter, name);
    var newOrigName := CopyName(g.counter + 1, name);
    CopyNameLonger(g.counter, name);
    CopyNameLonger(g.counter + 1, name);
    CopyNameStart(g.counter + 1, name);
    var d, e := FirstFree(g.memory), ScratchCell(g.memory);
    var g2 := CopySetup(g, name);
    CopySetupEffect(g, name);
    var src := g.variables[name].index;
    assert g2.variables[name] == Int8(src);
    var g3 := Emit(MoveTo(g2, src), [Loop(CopyOut(src, d, e))]);
    var g4 := g3.(variables := g3.variables[name := Int8(e)]);
    DeleteVarKeepsCells(g4, newOrigName);
    CreateVarCopyUnfold(g, name, src);
    assert g4.variables == g.variables[copyName := Int8(d)][newOrigName := Int8(e)][name := Int8(e)];
    ForgetMiddle(g.variables, copyName, Int8(d), newOrigName, Int8(e), name, Int8(e));
    var m := Moves(g.pointer, d) + Moves(d, e);
    var g3a := MoveTo(g2, src);
    TextThen(g.result, g2.result, g3a.result, m, Moves(e, src));
    TextThen(g.result, g3a.result, g3.result, m + Moves(e, src), [Loop(CopyOut(src, d, e))]);
  }

  lemma CreateVarCopyUnfold(g: Gen, name: string, src: nat)
    requires var g2 := CopySetup(g, name); name in g2.variables && g2.variables[name] == Int8(src)
    ensures var g2 := CopySetup(g, name); var d, e := FirstFree(g.memory), ScratchCell(g.memory);
      var g3 := Emit(MoveTo(g2, src), [Loop(CopyOut(src, d, e))]);
      CreateVarCopy(g, name) ==
      Ok(Copied(DeleteVar(g3.(variables := g3.variables[name := Int8(e)]), CopyName(g.counter + 1, name)), CopyName(g.counter, name), d))
  {
  }

  lemma ForgetMiddle<K, V>(m: map<K, V>, k1: K, v1: V, k2: K, v2: V, k3: K, v3: V)
    requires k2 != k1 && k2 != k3
    ensures m[k1 := v1][k2 := v2][k3 := v3] - {k2} == m[k1 := v1][k3 := v3] - {k2}
  {
  }

  // ---------------------------------------------------------------------
  // Equality

  /**
   * `AreEqual(left, right)`: both sides are copied; the left copy is
   * emptied into the right copy by subtraction, set to 1, and cleared
   * again (with the right copy) if anything is left over.  The left
   * copy's name and cell are returned; the pointer ends on the right copy.
   */
  function AreEqual(g: Gen, left: string, right: string): Result<Copied>
  {
    var l :- CopyPointersSafe(g, left);
    var r :- CopyPointersSafe(l.g, right);
    Ok(Copied(DeleteVar(Compare(r.g, l.cell, r.cell), r.name), l.name, l.cell))
  }

  lemma AreEqualIs(g: Gen, left: string, right: string)
    requires CopyPointersSafe(g, left).Ok?
    requires CopyPointersSafe(CopyPointersSafe(g, left).value.g, right).Ok?
    ensures var l := CopyPointersSafe(g, left).value; var r := CopyPointersSafe(l.g, right).value;
      AreEqual(g, left, right) == Ok(Copied(DeleteVar(Compare(r.g, l.cell, r.cell), r.name), l.name, l.cell))
  {
  }

  /**
   * A copy that succeeds was made of a name bound to one cell, and leaves
   * the copy's name bound to the copy's cell.
   */
  lemma CopyBound(g: Gen, name: string)
    requires CopyPointersSafe(g, name).Ok?
    ensures name in g.variables && CellOfBinding(g.variables[name]).Some?
    ensures var c := CopyPointersSafe(g, name).value;
      c.name == CopyName(g.counter, name) && c.g.counter == g.counter + 2 &&
      c.g.variables == g.variables[c.name := Int8(c.cell)] - {CopyName(g.counter + 1, name)} &&
      c.name in c.g.variables && c.g.variables[c.name] == Int8(c.cell)
  {
    CopyNameLonger(g.counter, name);
    CopyNameLonger(g.counter + 1, name);
    CopySetupEffect(g, name);
    assert CopySetup(g, name).variables[name] == g.variables[name];
    CopyPointersSafeEffect(g, name);
  }

  /**
   * A comparison that succeeds leaves the left copy bound to the cell it
   * returns: the right copy's two names, taken two counter values later,
   * are different from it.
   */
  lemma AreEqualBound(g: Gen, left: string, right: string)
    requires AreEqual(g, left, right).Ok?
    ensures var e := AreEqual(g, left, right).value; e.name in e.g.variables && e.g.variables[e.name] == Int8(e.cell)
  {
    var l := CopyPointersSafe(g, left).value;
    CopyBound(g, left);
    var r := CopyPointersSafe(l.g, right).value;
    CopyBound(l.g, right);
    CopyNamesApart(g.counter, g.counter + 2, left, right);
    CopyNamesApart(g.counter, g.counter + 3, left, right);
    KeptBinding(l.g.variables, l.name, Int8(l.cell), r.name, Int8(r.cell), CopyName(l.g.counter + 1, right));
    var h := Compare(r.g, l.cell, r.cell);
    assert h.variables == r.g.variables;
    AreEqualIs(g, left, right);
    assert AreEqual(g, left, right).value == Copied(DeleteVar(h, r.name), l.name, l.cell);
  }

  lemma KeptBinding<K, V>(m: map<K, V>, x: K, v: V, k1: K, v1: V, k2: K)
    requires x in m && m[x] == v && x != k1 && x != k2
    ensures x in m[k1 := v1] - {k2} && (m[k1 := v1] - {k2})[x] == v
  {
  }

  /** `a[ - b- a ] a+` then `b[ a- b[-] ]`: the comparison of the two copies. */
  function Compare(g: Gen, a: nat, b: nat): Gen
  {
    var g1 := Emit(MoveTo(g, a), [Loop(Drain(a, b, -1)), Inc]);
    Emit(MoveTo(g1, b), [Loop(Unequal(a, b))])
  }

  /** The second loop of `AreEqual`, entered on the right copy: `a-` and `b[-]`. */
  function Unequal(a: nat, b: nat): Prog
  {
    Moves(b, a) + [Dec] + Moves(a, b) + [Loop([Dec])]
  }

  // ---------------------------------------------------------------------
  // Lines

  /** What one line does: the translation goes on, or `convert_old` returns this text. */
  datatype Step = Next(g: Gen) | Stop(text: string)

  function LineText(n: nat): string
  {
    NatText(n)
  }

  function WrongCountMessage(op: string, n: nat): string
  {
    "Error: wrong number of parameters in " + op + " operator in " + LineText(n) + " line."
  }

  function DifferentTypesMessage(n: nat): string
  {
    "Error: different types on " + LineText(n) + " line."
  }

  function ForIndexMessage(n: nat): string
  {
    "Error: for index type not int8 on " + LineText(n) + " line."
  }

  function UndefinedMessage(op: string, n: nat): string
  {
    "Error: undefined " + op + " operator in " + LineText(n) + " line."
  }

  /** `translator_for_index_line_${n}`. */
  function IndexName(n: nat): string
  {
    "translator_for_index_line_" + LineText(n)
  }

  /** The third operand of `var`: a number when `isNaN` says it is one, else the text itself. */
  function VarValue(s: string): JsVal
  {
    if Number(s) != NaN then Num(Number(s)) else Text(s)
  }

  /** `variable.type != other.type`. */
  predicate SameType(a: Binding, b: Binding)
  {
    a.Int8? == b.Int8?
  }

  /** `var name` and `var name value`. */
  function VarLine(g: Gen, ops: seq<string>, n: nat): Result<Step>
    requires |ops| >= 1
  {
    if |ops| == 2 then
      var g1 :- VarCreate(g, ops[1], Num(Integer(0)), OldLang);
      Ok(Next(g1))
    else if |ops| == 3 then
      var g1 :- VarCreate(g, ops[1], VarValue(ops[2]), OldLang);
      Ok(Next(g1))
    else Ok(Stop(WrongCountMessage(ops[0], n)))
  }

  /**
   * `add a b`: b is copied, the copy is emptied into a, and the copy's name
   * forgotten; the pointer ends on the copy's cell.
   */
  function AddLine(g: Gen, ops: seq<string>, n: nat): Result<Step>
  {
    if |ops| != 3 then Ok(Next(g))
    else if ops[1] !in g.variables || ops[2] !in g.variables then Err("TypeError")
    else
      var va, vb := g.variables[ops[1]], g.variables[ops[2]];
      if !SameType(va, vb) then Ok(Stop(DifferentTypesMessage(n)))
      else
        var c :- CopyPointersSafe(g, ops[2]);
        var g1 := c.g.(memory := c.g.memory + KeyCells(va));
        match CellOfBinding(va)
        case None => Err(StringCellMessage)
        case Some(a) => Ok(Next(DrainInto(g1, c.cell, a, c.name)))
  }

  /** The end of `add`: the copy in `slot` is emptied into `a` and its name forgotten. */
  function DrainInto(g: Gen, slot: nat, a: nat, name: string): Gen
  {
    DeleteVar(Emit(MoveTo(g, slot), [Loop(Drain(slot, a, 1))]), name)
  }

  /** `out x` prints the cell(s) of x; `out x tostring` prints the int8 x plus 48. */
  function OutLine(g: Gen, ops: seq<string>, n: nat): Result<Step>
  {
    if |ops| == 2 then
      if ops[1] !in g.variables then Err("TypeError")
      else
        match g.variables[ops[1]]
        case Int8(i) => Ok(Next(Emit(MoveTo(g, i), [Out])))
        case Str(cells) => Ok(Next(OutEach(g, cells)))
    else if |ops| == 3 && ops[2] == "tostring" then
      if ops[1] !in g.variables then Err("TypeError")
      else
        match g.variables[ops[1]]
        case Int8(i) =>
          var g1 := ToString(g, ops[1], i, n);
          if g1.Ok? then Ok(Next(g1.value)) else Err(g1.msg)
        case Str(_) => Ok(Next(g))
    else Ok(Next(g))
  }

  /**
   * The `tostring` arm: a counter cell created with 48, a copy of the
   * variable, the counter emptied into the copy, the copy printed, both
   * names forgotten.
   */
  function ToString(g: Gen, name: string, i: nat, n: nat): Result<Gen>
  {
    var g1 := MoveTo(g, i);
    var indexName := IndexName(n);
    var ind := FirstFree(g1.memory);
    var g2 := CreateInt8(g1, indexName, 48);
    var c :- CopyPointersSafe(g2, name);
    var g3 := Emit(MoveTo(c.g, ind), [Loop(Drain(ind, c.cell, 1))]);
    var g4 := Emit(MoveTo(g3, c.cell), [Out]);
    Ok(DeleteVar(DeleteVar(g4, indexName), c.name))
  }

  /** The `tostring` arm, step by step, once the copy is known to succeed. */
  lemma ToStringIs(g: Gen, name: string, i: nat, n: nat)
    requires CopyPointersSafe(CreateInt8(MoveTo(g, i), IndexName(n), 48), name).Ok?
    ensures var ind := FirstFree(g.memory);
      var c := CopyPointersSafe(CreateInt8(MoveTo(g, i), IndexName(n), 48), name).value;
      var g3 := Emit(MoveTo(c.g, ind), [Loop(Drain(ind, c.cell, 1))]);
      ToString(g, name, i, n) == Ok(DeleteVar(DeleteVar(Emit(MoveTo(g3, c.cell), [Out]), IndexName(n)), c.name))
  {
  }

  /** `if a = b` opens a block on the equality cell; other comparisons do nothing. */
  function IfLine(g: Gen, ops: seq<string>, n: nat): Result<Step>
  {
    if |ops| != 4 then Ok(Next(g))
    else if ops[1] !in g.variables || ops[3] !in g.variables then Err("TypeError")
    else if !SameType(g.variables[ops[1]], g.variables[ops[3]]) then Ok(Stop(DifferentTypesMessage(n)))
    else if ops[2] != "=" then Ok(Next(g))
    else
      var e :- AreEqual(g, ops[1], ops[3]);
      Ok(Next(Open(e.g, e.cell, e.name)))
  }

  /** Move to the condition cell, emit `[` and push the frame. */
  function Open(g: Gen, ind: nat, name: string): Gen
  {
    var g1 := MoveTo(g, ind);
    g1.(result := g1.result + "[", stack := g1.stack + [Frame(ind, name)])
  }

  /** `endif` and `endfor`: back to the innermost frame's cell, forget its name, pop, emit `-]`. */
  function CloseLine(g: Gen): Result<Step>
  {
    if g.stack == [] then Err("TypeError")
    else
      var top := g.stack[|g.stack| - 1];
      var g1 := DeleteVar(MoveTo(g, top.ind), top.name);
      Ok(Next(g1.(stack := g1.stack[..|g1.stack| - 1], result := g1.result + "-]")))
  }

  /** `for n`: a counter cell created with n opens a block. */
  function ForLine(g: Gen, ops: seq<string>, n: nat): Result<Step>
  {
    if |ops| != 2 then Ok(Next(g))
    else if Number(ops[1]) == NaN then Err(ForIndexMessage(n))
    else
      var indexName := IndexName(n);
      var ind := FirstFree(g.memory);
      var g1 :- CreateNumber(g, indexName, Number(ops[1]));
      Ok(Next(Open(g1, ind, indexName)))
  }

  /** A trimmed line that is empty or starts with `//` is skipped. */
  predicate Skipped(line: string)
  {
    line == [] || (|line| >= 2 && line[0] == '/' && line[1] == '/')
  }

  /** The `switch` on a line's first word; `n` is the line's 1-based number. */
  function Dispatch(g: Gen, ops: seq<string>, n: nat): Result<Step>
    requires |ops| >= 1
  {
    match ops[0]
    case "var" => VarLine(g, ops, n)
    case "add" => AddLine(g, ops, n)
    case "out" => OutLine(g, ops, n)
    case "if" => IfLine(g, ops, n)
    case "endif" => CloseLine(g)
    case "for" => ForLine(g, ops, n)
    case "endfor" => CloseLine(g)
    case "dump" => Ok(Next(Emit(g, [Dump])))
    case _ => Ok(Stop(UndefinedMessage(ops[0], n)))
  }

  /** One raw line, trimmed, skipped or split at spaces and dispatched. */
  function Line(g: Gen, raw: string, n: nat): Result<Step>
  {
    var line := Trim(raw);
    if Skipped(line) then Ok(Next(g)) else Dispatch(g, Split(line, ' '), n)
  }

  /** What `convert_old` gives back: the text it returns, or the value it throws. */
  datatype Outcome = Returned(text: string) | Thrown(msg: string)

  /** Lines `i` onward; line `i` has number `i + 1`. */
  function Lines(g: Gen, lines: seq<string>, i: nat): Outcome
    requires i <= |lines|
    decreases |lines| - i
  {
    if i == |lines| then Returned(g.result)
    else
      match Line(g, lines[i], i + 1)
      case Err(msg) => Thrown(msg)
      case Ok(Stop(text)) => Returned(text)
      case Ok(Next(g1)) => Lines(g1, lines, i + 1)
  }

  /** `convert_old(src)`. */
  function Convert(src: string): Outcome
  {
    Lines(Start, Split(src, '\n'), 0)
  }
}
