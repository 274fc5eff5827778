/**
 * The `Parser` class of new.js: recursive descent over a `Tokenizer` with
 * one token of lookahead.  `_take(type)` checks the lookahead and reads
 * the next token; every rule reads `this._lookahead.type`, which throws a
 * TypeError once the lookahead is `null`.  `parse` reads statements while
 * the tokenizer's cursor is short of the end of the text, so the token in
 * the lookahead when the cursor gets there is never parsed.
 */
module ParserNew {
  import opened Wrappers
  import opened Ast
  import opened TokenizerNew
  import ParserMain

  /** The parser's position: the tokenizer's cursor and the lookahead token. */
  datatype PState = PState(cursor: nat, look: Option<Token>)

  /** A parsed node and the position after it. */
  datatype Parsed = Parsed(node: Node, st: PState)

  /** A parsed statement (`null` for `;`) and the position after it. */
  datatype Stmt = Stmt(node: Option<Node>, st: PState)

  /** The token `_take` returns and the position after it. */
  datatype Took = Took(token: Token, st: PState)

  const TypeError := "TypeError"
  const UnexpectedToken := "Unexpected token"

  /** A position the parser can be in: the cursor at most one past the end, a lookahead carrying its text. */
  predicate Valid(s: string, st: PState)
  {
    st.cursor <= |s| + 1 && (st.look.Some? ==> Carries(st.look.value))
  }

  /** What is left to read: decreases with every token taken. */
  function Measure(s: string, st: PState): nat
    requires Valid(s, st)
  {
    |s| + 1 - st.cursor + (if st.look.Some? then 1 else 0)
  }

  /** The cursor after `getNextToken` from `c` returned `n`. */
  function After(c: nat, n: Option<Token>): nat
  {
    if n.Some? then n.value.next else c
  }

  /** `this._lookahead.type`. */
  function LookKind(st: PState): (r: Result<Kind>)
    ensures r.Ok? <==> st.look.Some?
    ensures r.Ok? ==> r.value == st.look.value.kind
  {
    if st.look.Some? then Ok(st.look.value.kind) else Err(TypeError)
  }

  /** `${token.value}` in a message. */
  function ValueText(t: Token): string
  {
    if t.value.Some? then t.value.value else "null"
  }

  function EndMessage(kind: Kind): string
  {
    "Unexpected end of input, expected: \"" + KindName(kind) + "\""
  }

  function MismatchMessage(t: Token, kind: Kind): string
  {
    "Unexpected token: \"" + ValueText(t) + "\", expected: \"" + KindName(kind) + "\""
  }

  /** `_take(tokenType)` as a function: the lookahead if it has that type, and the next token read into the lookahead. */
  function Accept(s: string, st: PState, kind: Kind): (r: Result<Took>)
    requires Valid(s, st)
    ensures r.Ok? ==> st.look.Some? && r.value.token == st.look.value && st.look.value.kind == kind
    ensures r.Ok? ==> Valid(s, r.value.st) && Measure(s, r.value.st) < Measure(s, st)
    ensures st.look.None? ==> r == Err(EndMessage(kind))
    ensures st.look.Some? && st.look.value.kind != kind ==> r == Err(MismatchMessage(st.look.value, kind))
  {
    match st.look
    case None => Err(EndMessage(kind))
    case Some(t) =>
      if t.kind != kind then Err(MismatchMessage(t, kind))
      else
        var n :- NextToken(s, st.cursor);
        Ok(Took(t, PState(After(st.cursor, n), n)))
  }

  /** `new AstNode(type, null, left, right)` with both children. */
  function Binary(kind: Tag, a: Node, b: Node): Node
  {
    ParserMain.Binary(kind, a, b)
  }

  // ---------------------------------------------------------------------
  // The shape of the tree

  /** The node types of the binary rules and of assignment. */
  predicate IsBinary(k: Tag)
  {
    k.Plus? || k.Minus? || k.Less? || k.Equal? || k.Div? || k.Assign?
  }

  /**
   * An expression tree as the parser builds it: a leaf of a string, number
   * or identifier carrying its text, or a binary node with no text over
   * two expressions.
   */
  predicate IsExpr(n: Node)
    decreases n
  {
    if n.kind.Str? || n.kind.Number? || n.kind.Identifier? then n.childs == [] && n.text.Some?
    else IsBinary(n.kind) && n.text.None? && |n.childs| == 2 && IsExpr(n.childs[0]) && IsExpr(n.childs[1])
  }

  /** A statement: an expression, or an `out` node over one expression. */
  predicate IsStatement(n: Node)
  {
    IsExpr(n) || (n.kind.Out? && n.text.None? && |n.childs| == 1 && IsExpr(n.childs[0]))
  }

  predicate AllStatements(cs: seq<Node>)
  {
    forall k :: 0 <= k < |cs| ==> IsStatement(cs[k])
  }

  /** A program: the root with no text over statements. */
  predicate IsProgram(n: Node)
  {
    n.kind.Root? && n.text.None? && AllStatements(n.childs)
  }

  // ---------------------------------------------------------------------
  // The grammar

  /*
   * Each rule takes at least one token, so the position after it has a
   * smaller measure, and it builds a tree of the shape above.
   */

  /** `Identifier`, `NumericLiteral`, `StringLiteral`: the taken token as a leaf. */
  function LeafOf(s: string, st: PState, kind: Kind, tag: Tag): (r: Result<Parsed>)
    requires Valid(s, st)
    ensures r.Ok? ==> Valid(s, r.value.st) && Measure(s, r.value.st) < Measure(s, st)
    ensures r.Ok? ==> st.look.Some? && r.value.node == Leaf(tag, st.look.value.value)
  {
    var t :- Accept(s, st, kind);
    Ok(Parsed(Leaf(tag, t.token.value), t.st))
  }

  /** `Literal`: a string, a number or an identifier; anything else throws. */
  function ParseLiteral(s: string, st: PState): (r: Result<Parsed>)
    requires Valid(s, st)
    ensures r.Ok? ==> Valid(s, r.value.st) && Measure(s, r.value.st) < Measure(s, st) && IsExpr(r.value.node)
    ensures st.look.Some? && !(st.look.value.kind.Str? || st.look.value.kind.Number? || st.look.value.kind.Identifier?) ==>
      r == Err(UnexpectedToken)
  {
    var k :- LookKind(st);
    if k.Str? then LeafOf(s, st, Kind.Str, Tag.Str)
    else if k.Number? then LeafOf(s, st, Kind.Number, Tag.Number)
    else if k.Identifier? then LeafOf(s, st, Kind.Identifier, Tag.Identifier)
    else Err(UnexpectedToken)
  }

  /** `ExpressionParen`: `( expression )`. */
  function ParseParen(s: string, st: PState): (r: Result<Parsed>)
    requires Valid(s, st)
    ensures r.Ok? ==> Valid(s, r.value.st) && Measure(s, r.value.st) < Measure(s, st) && IsExpr(r.value.node)
    decreases Measure(s, st), 0
  {
    var k :- LookKind(st);
    if !k.ParenLeft? then Err(UnexpectedToken)
    else
      var o :- Accept(s, st, Kind.ParenLeft);
      var e :- ParseExpression(s, o.st);
      var k2 :- LookKind(e.st);
      if !k2.ParenRight? then Err(UnexpectedToken)
      else
        var c :- Accept(s, e.st, Kind.ParenRight);
        Ok(Parsed(e.node, c.st))
  }

  /** `Term`: a parenthesised expression or a literal. */
  function ParseTerm(s: string, st: PState): (r: Result<Parsed>)
    requires Valid(s, st)
    ensures r.Ok? ==> Valid(s, r.value.st) && Measure(s, r.value.st) < Measure(s, st) && IsExpr(r.value.node)
    decreases Measure(s, st), 1
  {
    var k :- LookKind(st);
    if k.ParenLeft? then ParseParen(s, st) else ParseLiteral(s, st)
  }

  /** `Div`: a term, optionally followed by one `/ term`. */
  function ParseDiv(s: string, st: PState): (r: Result<Parsed>)
    requires Valid(s, st)
    ensures r.Ok? ==> Valid(s, r.value.st) && Measure(s, r.value.st) < Measure(s, st) && IsExpr(r.value.node)
    decreases Measure(s, st), 2
  {
    var l :- ParseTerm(s, st);
    var k :- LookKind(l.st);
    if !k.Div? then Ok(l)
    else
      var op :- Accept(s, l.st, k);
      var r :- ParseTerm(s, op.st);
      Ok(Parsed(Binary(Tag.Div, l.node, r.node), r.st))
  }

  /** `Summa`: a quotient, optionally followed by one `+` or `-` and a quotient. */
  function ParseSumma(s: string, st: PState): (r: Result<Parsed>)
    requires Valid(s, st)
    ensures r.Ok? ==> Valid(s, r.value.st) && Measure(s, r.value.st) < Measure(s, st) && IsExpr(r.value.node)
    decreases Measure(s, st), 3
  {
    var l :- ParseDiv(s, st);
    var k :- LookKind(l.st);
    if !k.Plus? && !k.Minus? then Ok(l)
    else
      var op :- Accept(s, l.st, k);
      var r :- ParseDiv(s, op.st);
      Ok(Parsed(Binary(if k.Plus? then Tag.Plus else Tag.Minus, l.node, r.node), r.st))
  }

  /** `Test`: a sum, optionally followed by one `<` or `==` and a sum. */
  function ParseTest(s: string, st: PState): (r: Result<Parsed>)
    requires Valid(s, st)
    ensures r.Ok? ==> Valid(s, r.value.st) && Measure(s, r.value.st) < Measure(s, st) && IsExpr(r.value.node)
    decreases Measure(s, st), 4
  {
    var l :- ParseSumma(s, st);
    var k :- LookKind(l.st);
    if !k.Less? && !k.Equal? then Ok(l)
    else
      var op :- Accept(s, l.st, k);
      var r :- ParseSumma(s, op.st);
      Ok(Parsed(Binary(if k.Less? then Tag.Less else Tag.Equal, l.node, r.node), r.st))
  }

  /**
   * `Expression`: a test; when its first token was an identifier and an
   * `=` follows, an assignment of the expression after it to that test.
   */
  function ParseExpression(s: string, st: PState): (r: Result<Parsed>)
    requires Valid(s, st)
    ensures r.Ok? ==> Valid(s, r.value.st) && Measure(s, r.value.st) < Measure(s, st) && IsExpr(r.value.node)
    decreases Measure(s, st), 5
  {
    var l :- ParseTest(s, st);
    if st.look.Some? && st.look.value.kind.Identifier? then
      var k :- LookKind(l.st);
      if !k.Assign? then Ok(l)
      else
        var a :- Accept(s, l.st, Kind.Assign);
        var r :- ParseExpression(s, a.st);
        Ok(Parsed(Binary(Tag.Assign, l.node, r.node), r.st))
    else Ok(l)
  }

  /** `Statement`: `out` and a parenthesised expression, a bare `;` (no node), or an expression. */
  function ParseStatement(s: string, st: PState): (r: Result<Stmt>)
    requires Valid(s, st)
    ensures r.Ok? ==> Valid(s, r.value.st) && Measure(s, r.value.st) < Measure(s, st)
    ensures r.Ok? && r.value.node.Some? ==> IsStatement(r.value.node.value)
    decreases Measure(s, st), 6
  {
    var k :- LookKind(st);
    if k.Out? then
      var t :- Accept(s, st, Kind.Out);
      var e :- ParseParen(s, t.st);
      Ok(Stmt(Some(Make(Tag.Out, None, Some(e.node), None)), e.st))
    else if k.Semicolon? then
      var t :- Accept(s, st, Kind.Semicolon);
      Ok(Stmt(None, t.st))
    else
      var e :- ParseExpression(s, st);
      Ok(Stmt(Some(e.node), e.st))
  }

  /** The loop of `parse`: statements while the cursor is short of the end, each non-null one added after `acc`. */
  function ParseStatements(s: string, st: PState, acc: seq<Node>): (r: Result<seq<Node>>)
    requires Valid(s, st)
    ensures AllStatements(acc) && r.Ok? ==> AllStatements(r.value)
    decreases Measure(s, st)
  {
    if st.cursor >= |s| then Ok(acc)
    else
      var n :- ParseStatement(s, st);
      ParseStatements(s, n.st, if n.node.Some? then acc + [n.node.value] else acc)
  }

  /** The position `parse` starts from: the first token read into the lookahead. */
  function Start(s: string): (r: Result<PState>)
    ensures r.Ok? ==> Valid(s, r.value)
  {
    var n :- NextToken(s, 0);
    Ok(PState(After(0, n), n))
  }

  /** `parse(string)`: a `root` node over the statements. */
  function ParseProgram(s: string): (r: Result<Node>)
  {
    var st :- Start(s);
    var cs :- ParseStatements(s, st, []);
    Ok(Node(Tag.Root, None, cs))
  }

  /** Every tree `parse` returns is a program of the shape above. */
  lemma ParseIsProgram(s: string)
    ensures ParseProgram(s).Ok? ==> IsProgram(ParseProgram(s).value)
  {
    var st := Start(s);
    if st.Ok? {
      assert AllStatements([]);
    }
  }

  // ---------------------------------------------------------------------
  // What the grammar accepts

  /** The token types a statement may begin with. */
  predicate Opens(k: Kind)
  {
    k.Out? || k.Semicolon? || k.ParenLeft? || k.Str? || k.Number? || k.Identifier?
  }

  /**
   * A statement begun by any other token throws "Unexpected token": the
   * parser has no `if`, `func` or braces, `while` (type `undefined`) is
   * refused, and after `a + b` a second `+` starts a statement of its own
   * and is refused, so a sum takes one operator only.
   */
  lemma StatementStart(s: string, st: PState)
    requires Valid(s, st) && st.look.Some? && !Opens(st.look.value.kind)
    ensures ParseStatement(s, st) == Err(UnexpectedToken)
  {
    assert ParseLiteral(s, st) == Err(UnexpectedToken);
    assert ParseTerm(s, st) == Err(UnexpectedToken);
    assert ParseDiv(s, st) == Err(UnexpectedToken);
    assert ParseSumma(s, st) == Err(UnexpectedToken);
    assert ParseTest(s, st) == Err(UnexpectedToken);
    assert ParseExpression(s, st) == Err(UnexpectedToken);
  }

  /** The tokens of "a=1". */
  lemma AssignTokens()
    ensures NextToken("a=1", 0) == Ok(Some(Token(0, 1, Kind.Identifier, Some("a"))))
    ensures NextToken("a=1", 1) == Ok(Some(Token(1, 2, Kind.Assign, None)))
    ensures NextToken("a=1", 2) == Ok(Some(Token(2, 3, Kind.Number, Some("1"))))
    ensures NextToken("a=1", 3) == Ok(None)
  {
    var s := "a=1";
    assert s[0] == 'a' && s[1] == '=' && s[2] == '1';
    assert RunEnd(s, 0, false) == 1 by { assert RunEnd(s, 1, false) == 1; }
    assert RunEnd(s, 2, true) == 3;
    assert s[0..1] == "a";
    assert s[2..3] == "1";
  }

  /** A term of one identifier or number, followed by the token `n`. */
  lemma OperandTerm(s: string, st: PState, n: Option<Token>)
    requires Valid(s, st) && st.look.Some? && (st.look.value.kind.Identifier? || st.look.value.kind.Number?)
    requires NextToken(s, st.cursor) == Ok(n)
    ensures var t := st.look.value;
      ParseTerm(s, st) == Ok(Parsed(Leaf(if t.kind.Identifier? then Tag.Identifier else Tag.Number, t.value), PState(After(st.cursor, n), n)))
  {
  }

  /**
   * The last statement needs a token after it: in "a=1" the `1` is read
   * with nothing behind it, so `Div` reads the type of a `null` lookahead
   * and the parse throws a TypeError ("a=1;" is accepted).
   */
  lemma MissingTerminator()
    ensures ParseProgram("a=1") == Err(TypeError)
  {
    var s := "a=1";
    AssignTokens();
    var ta := Token(0, 1, Kind.Identifier, Some("a"));
    var te := Token(1, 2, Kind.Assign, None);
    var t1 := Token(2, 3, Kind.Number, Some("1"));
    var st0 := PState(1, Some(ta));
    var st1 := PState(2, Some(te));
    var st2 := PState(3, Some(t1));
    var a := Leaf(Tag.Identifier, Some("a"));
    assert Start(s) == Ok(st0);
    OperandTerm(s, st0, Some(te));
    assert ParseDiv(s, st0) == Ok(Parsed(a, st1));
    assert ParseSumma(s, st0) == Ok(Parsed(a, st1));
    assert ParseTest(s, st0) == Ok(Parsed(a, st1));
    OperandTerm(s, st2, None);
    assert ParseDiv(s, st2) == Err(TypeError);
    assert ParseSumma(s, st2) == Err(TypeError);
    assert ParseTest(s, st2) == Err(TypeError);
    assert ParseExpression(s, st2) == Err(TypeError);
    assert Accept(s, st1, Kind.Assign) == Ok(Took(te, st2));
    assert ParseExpression(s, st0) == Err(TypeError);
    assert ParseStatement(s, st0) == Err(TypeError);
  }

  // ---------------------------------------------------------------------
  // Precedence and the `assign` rule

  /**
   * The tokens `ts` are read one by one from position `sts[0]`: the
   * parser is at `sts[i]` with `ts[i]` in the lookahead, and reading the
   * next token takes it to `sts[i + 1]`.
   */
  predicate Reads(s: string, ts: seq<Token>, sts: seq<PState>)
  {
    |sts| == |ts| + 1 &&
    forall i :: 0 <= i < |ts| ==>
      sts[i].look == Some(ts[i]) && NextToken(s, sts[i].cursor) == Ok(sts[i + 1].look) &&
      sts[i + 1].cursor == After(sts[i].cursor, sts[i + 1].look)
  }

  /** An identifier or a number: a term without parentheses. */
  predicate IsOperand(t: Token)
  {
    t.kind.Identifier? || t.kind.Number?
  }

  function OperandLeaf(t: Token): Node
  {
    Leaf(if t.kind.Identifier? then Tag.Identifier else Tag.Number, t.value)
  }

  /** A lookahead none of the binary rules or `assign` continues with, such as `;`. */
  predicate Closes(st: PState)
  {
    st.look.Some? &&
    var k := st.look.value.kind;
    !(k.Div? || k.Plus? || k.Minus? || k.Less? || k.Equal? || k.Assign?)
  }

  function SumTag(k: Kind): Tag
  {
    if k.Plus? then Tag.Plus else Tag.Minus
  }

  function TestTag(k: Kind): Tag
  {
    if k.Less? then Tag.Less else Tag.Equal
  }

  /** `_take` of the i-th token moves from position i to position i + 1. */
  lemma TakeStep(s: string, ts: seq<Token>, sts: seq<PState>, i: nat)
    requires Reads(s, ts, sts) && i < |ts| && Valid(s, sts[i])
    ensures Accept(s, sts[i], ts[i].kind) == Ok(Took(ts[i], sts[i + 1])) && Valid(s, sts[i + 1])
  {
    assert PState(sts[i + 1].cursor, sts[i + 1].look) == sts[i + 1];
  }

  /** A term of the i-th token, an operand, is its leaf. */
  lemma OperandStep(s: string, ts: seq<Token>, sts: seq<PState>, i: nat)
    requires Reads(s, ts, sts) && i < |ts| && Valid(s, sts[i]) && IsOperand(ts[i])
    ensures ParseTerm(s, sts[i]) == Ok(Parsed(OperandLeaf(ts[i]), sts[i + 1])) && Valid(s, sts[i + 1])
  {
    TakeStep(s, ts, sts, i);
    OperandTerm(s, sts[i], sts[i + 1].look);
    assert PState(sts[i + 1].cursor, sts[i + 1].look) == sts[i + 1];
  }

  /** A lone operand followed by a closing token is its leaf at every level below `Expression`. */
  lemma OperandSumma(s: string, ts: seq<Token>, sts: seq<PState>, i: nat)
    requires Reads(s, ts, sts) && i < |ts| && Valid(s, sts[i]) && IsOperand(ts[i]) && Closes(sts[i + 1])
    ensures Valid(s, sts[i + 1])
    ensures ParseSumma(s, sts[i]) == Ok(Parsed(OperandLeaf(ts[i]), sts[i + 1]))
    ensures ParseTest(s, sts[i]) == Ok(Parsed(OperandLeaf(ts[i]), sts[i + 1]))
  {
    OperandStep(s, ts, sts, i);
    assert ParseDiv(s, sts[i]) == Ok(Parsed(OperandLeaf(ts[i]), sts[i + 1]));
  }

  /**
   * Precedence: `x / y + z < w` over any identifiers or numbers, with `+`
   * or `-` and `<` or `==`, parses as less(plus(div(x, y), z), w); each
   * rule takes one operator, `/` binding tightest and the comparison
   * loosest.
   */
  lemma Precedence(s: string, ts: seq<Token>, sts: seq<PState>)
    requires |ts| == 7 && Reads(s, ts, sts) && Valid(s, sts[0]) && Closes(sts[7])
    requires IsOperand(ts[0]) && IsOperand(ts[2]) && IsOperand(ts[4]) && IsOperand(ts[6])
    requires ts[1].kind.Div? && (ts[3].kind.Plus? || ts[3].kind.Minus?) && (ts[5].kind.Less? || ts[5].kind.Equal?)
    ensures ParseExpression(s, sts[0]) == Ok(Parsed(
      Binary(TestTag(ts[5].kind),
        Binary(SumTag(ts[3].kind), Binary(Tag.Div, OperandLeaf(ts[0]), OperandLeaf(ts[2])), OperandLeaf(ts[4])),
        OperandLeaf(ts[6])),
      sts[7]))
  {
    var x, y, z, w := OperandLeaf(ts[0]), OperandLeaf(ts[2]), OperandLeaf(ts[4]), OperandLeaf(ts[6]);
    OperandStep(s, ts, sts, 0);
    TakeStep(s, ts, sts, 1);
    OperandStep(s, ts, sts, 2);
    var q := Binary(Tag.Div, x, y);
    assert ParseDiv(s, sts[0]) == Ok(Parsed(q, sts[3]));
    TakeStep(s, ts, sts, 3);
    OperandStep(s, ts, sts, 4);
    assert ParseDiv(s, sts[4]) == Ok(Parsed(z, sts[5]));
    var sum := Binary(SumTag(ts[3].kind), q, z);
    assert ParseSumma(s, sts[0]) == Ok(Parsed(sum, sts[5]));
    TakeStep(s, ts, sts, 5);
    OperandSumma(s, ts, sts, 6);
    var test := Binary(TestTag(ts[5].kind), sum, w);
    assert ParseTest(s, sts[0]) == Ok(Parsed(test, sts[7]));
  }

  /**
   * The `leftToken` rule: an expression begun by an identifier takes an
   * `=` after its whole test, so `a + b = c` parses as
   * assign(plus(a, b), c).
   */
  lemma AssignAfterSum(s: string, ts: seq<Token>, sts: seq<PState>)
    requires |ts| == 5 && Reads(s, ts, sts) && Valid(s, sts[0]) && Closes(sts[5])
    requires ts[0].kind.Identifier? && IsOperand(ts[2]) && IsOperand(ts[4])
    requires (ts[1].kind.Plus? || ts[1].kind.Minus?) && ts[3].kind.Assign?
    ensures ParseExpression(s, sts[0]) == Ok(Parsed(
      Binary(Tag.Assign, Binary(SumTag(ts[1].kind), OperandLeaf(ts[0]), OperandLeaf(ts[2])), OperandLeaf(ts[4])),
      sts[5]))
  {
    var sum := SumFirst(s, ts, sts);
    TakeStep(s, ts, sts, 3);
    OperandSumma(s, ts, sts, 4);
    assert ParseExpression(s, sts[4]) == Ok(Parsed(OperandLeaf(ts[4]), sts[5]));
  }

  /** The shared start of the two lemmas on `a + b` and `=`: the test is the sum, the `=` in the lookahead. */
  lemma SumFirst(s: string, ts: seq<Token>, sts: seq<PState>) returns (sum: Node)
    requires |ts| == 5 && Reads(s, ts, sts) && Valid(s, sts[0])
    requires IsOperand(ts[0]) && IsOperand(ts[2]) && (ts[1].kind.Plus? || ts[1].kind.Minus?) && ts[3].kind.Assign?
    ensures sum == Binary(SumTag(ts[1].kind), OperandLeaf(ts[0]), OperandLeaf(ts[2]))
    ensures Valid(s, sts[3]) && ParseTest(s, sts[0]) == Ok(Parsed(sum, sts[3]))
  {
    OperandStep(s, ts, sts, 0);
    assert ParseDiv(s, sts[0]) == Ok(Parsed(OperandLeaf(ts[0]), sts[1]));
    TakeStep(s, ts, sts, 1);
    OperandStep(s, ts, sts, 2);
    assert ParseDiv(s, sts[2]) == Ok(Parsed(OperandLeaf(ts[2]), sts[3]));
    sum := Binary(SumTag(ts[1].kind), OperandLeaf(ts[0]), OperandLeaf(ts[2]));
    assert ParseSumma(s, sts[0]) == Ok(Parsed(sum, sts[3]));
  }

  /**
   * The other side of the `leftToken` rule: begun by a number, `1 + b = c`
   * stops after the sum and leaves the `=` in the lookahead, where the
   * next statement refuses it.
   */
  lemma NoAssignAfterNumber(s: string, ts: seq<Token>, sts: seq<PState>)
    requires |ts| == 5 && Reads(s, ts, sts) && Valid(s, sts[0])
    requires ts[0].kind.Number? && IsOperand(ts[2]) && (ts[1].kind.Plus? || ts[1].kind.Minus?) && ts[3].kind.Assign?
    ensures ParseExpression(s, sts[0]) ==
      Ok(Parsed(Binary(SumTag(ts[1].kind), OperandLeaf(ts[0]), OperandLeaf(ts[2])), sts[3]))
    ensures Valid(s, sts[3]) && ParseStatement(s, sts[3]) == Err(UnexpectedToken)
  {
    var sum := SumFirst(s, ts, sts);
    StatementStart(s, sts[3]);
  }

  // ---------------------------------------------------------------------
  // The parser object

  /*
   * What each method returns, stated through a predicate naming the rule:
   * `XGives(s, st, r)` says the rule started at position `st` of the
   * text `s` yields `r`.
   */

  predicate TakeGives(s: string, st: PState, kind: Kind, r: Result<Took>)
    requires Valid(s, st)
  {
    Accept(s, st, kind) == r
  }

  predicate LeafGives(s: string, st: PState, kind: Kind, tag: Tag, r: Result<Parsed>)
    requires Valid(s, st)
  {
    LeafOf(s, st, kind, tag) == r
  }

  predicate LiteralGives(s: string, st: PState, r: Result<Parsed>)
    requires Valid(s, st)
  {
    ParseLiteral(s, st) == r
  }

  predicate ParenGives(s: string, st: PState, r: Result<Parsed>)
    requires Valid(s, st)
  {
    ParseParen(s, st) == r
  }

  predicate TermGives(s: string, st: PState, r: Result<Parsed>)
    requires Valid(s, st)
  {
    ParseTerm(s, st) == r
  }

  predicate DivGives(s: string, st: PState, r: Result<Parsed>)
    requires Valid(s, st)
  {
    ParseDiv(s, st) == r
  }

  predicate SummaGives(s: string, st: PState, r: Result<Parsed>)
    requires Valid(s, st)
  {
    ParseSumma(s, st) == r
  }

  predicate TestGives(s: string, st: PState, r: Result<Parsed>)
    requires Valid(s, st)
  {
    ParseTest(s, st) == r
  }

  predicate ExpressionGives(s: string, st: PState, r: Result<Parsed>)
    requires Valid(s, st)
  {
    ParseExpression(s, st) == r
  }

  predicate StatementGives(s: string, st: PState, r: Result<Stmt>)
    requires Valid(s, st)
  {
    ParseStatement(s, st) == r
  }

  /** The loop of `parse`: the statements from `st` on, added after `acc`, complete the program. */
  predicate ParseLoop(s: string, st: PState, acc: seq<Node>)
    requires Valid(s, st)
  {
    ParseProgram(s) == (var cs :- ParseStatements(s, st, acc); Ok(Node(Tag.Root, None, cs)))
  }

  /** A method's outcome and the position it left, in the grammar functions' terms. */
  function Returned(r: Result<Node>, st: PState): Result<Parsed>
  {
    match r
    case Ok(n) => Ok(Parsed(n, st))
    case Err(m) => Err(m)
  }

  function ReturnedStmt(r: Result<Option<Node>>, st: PState): Result<Stmt>
  {
    match r
    case Ok(n) => Ok(Stmt(n, st))
    case Err(m) => Err(m)
  }

  function ReturnedToken(r: Result<Token>, st: PState): Result<Took>
  {
    match r
    case Ok(t) => Ok(Took(t, st))
    case Err(m) => Err(m)
  }

  lemma LeafStep(s: string, st: PState, kind: Kind, tag: Tag, t: Token, st2: PState)
    requires Valid(s, st) && TakeGives(s, st, kind, Ok(Took(t, st2)))
    ensures LeafGives(s, st, kind, tag, Ok(Parsed(Leaf(tag, t.value), st2)))
  {
  }

  /** `Parser`: the text, its tokenizer and the lookahead token. */
  class Parser {
    var source: string
    const tokenizer: Tokenizer
    var lookahead: Option<Token>

    /** `new Parser()`: an empty text and a fresh tokenizer; the lookahead is set by `parse`. */
    constructor ()
      ensures source == "" && fresh(tokenizer) && tokenizer.text == "" && tokenizer.cursor == 0 && lookahead == None
    {
      source := "";
      tokenizer := new Tokenizer();
      lookahead := None;
    }

    /** The position: the tokenizer's cursor and the lookahead. */
    function Position(): PState
      reads this, tokenizer
    {
      PState(tokenizer.cursor, lookahead)
    }

    predicate Ready()
      reads this, tokenizer
    {
      Valid(tokenizer.text, Position())
    }

    /** `_take(tokenType)`. */
    method Take(kind: Kind) returns (r: Result<Token>)
      requires Ready()
      modifies this, tokenizer
      ensures tokenizer.text == old(tokenizer.text) && source == old(source)
      ensures TakeGives(tokenizer.text, old(Position()), kind, ReturnedToken(r, Position()))
    {
      var token := lookahead;
      if token.None? {
        return Err(EndMessage(kind));
      }
      if token.value.kind != kind {
        return Err(MismatchMessage(token.value, kind));
      }
      var n := tokenizer.GetNextToken();
      if n.Err? {
        return Err(n.msg);
      }
      lookahead := n.value;
      r := Ok(token.value);
    }

    /** `Identifier`, `NumericLiteral` and `StringLiteral`: the taken token as a leaf. */
    method LeafToken(kind: Kind, tag: Tag) returns (r: Result<Node>)
      requires Ready()
      modifies this, tokenizer
      ensures tokenizer.text == old(tokenizer.text) && source == old(source)
      ensures LeafGives(tokenizer.text, old(Position()), kind, tag, Returned(r, Position()))
    {
      ghost var st := Position();
      ghost var s0 := tokenizer.text;
      var token := Take(kind);
      if token.Err? {
        return Err(token.msg);
      }
      r := Ok(Leaf(tag, token.value.value));
      LeafStep(s0, st, kind, tag, token.value, Position());
    }

    method Literal() returns (r: Result<Node>)
      requires Ready()
      modifies this, tokenizer
      ensures tokenizer.text == old(tokenizer.text) && source == old(source)
      ensures LiteralGives(tokenizer.text, old(Position()), Returned(r, Position()))
    {
      if lookahead.None? {
        return Err(TypeError);
      }
      var k := lookahead.value.kind;
      if k.Str? {
        r := LeafToken(Kind.Str, Tag.Str);
      } else if k.Number? {
        r := LeafToken(Kind.Number, Tag.Number);
      } else if k.Identifier? {
        r := LeafToken(Kind.Identifier, Tag.Identifier);
      } else {
        r := Err(UnexpectedToken);
      }
    }

    method ExpressionParen() returns (r: Result<Node>)
      requires Ready()
      modifies this, tokenizer
      ensures tokenizer.text == old(tokenizer.text) && source == old(source)
      ensures ParenGives(tokenizer.text, old(Position()), Returned(r, Position()))
      decreases Measure(tokenizer.text, Position()), 0
    {
      if lookahead.None? {
        return Err(TypeError);
      }
      if !lookahead.value.kind.ParenLeft? {
        return Err(UnexpectedToken);
      }
      var o := Take(Kind.ParenLeft);
      if o.Err? {
        return Err(o.msg);
      }
      r := Expression();
      if r.Err? {
        return;
      }
      if lookahead.None? {
        return Err(TypeError);
      }
      if !lookahead.value.kind.ParenRight? {
        return Err(UnexpectedToken);
      }
      var c := Take(Kind.ParenRight);
      if c.Err? {
        return Err(c.msg);
      }
    }

    method Term() returns (r: Result<Node>)
      requires Ready()
      modifies this, tokenizer
      ensures tokenizer.text == old(tokenizer.text) && source == old(source)
      ensures TermGives(tokenizer.text, old(Position()), Returned(r, Position()))
      decreases Measure(tokenizer.text, Position()), 1
    {
      if lookahead.None? {
        return Err(TypeError);
      }
      if lookahead.value.kind.ParenLeft? {
        r := ExpressionParen();
      } else {
        r := Literal();
      }
    }

    method Div() returns (r: Result<Node>)
      requires Ready()
      modifies this, tokenizer
      ensures tokenizer.text == old(tokenizer.text) && source == old(source)
      ensures DivGives(tokenizer.text, old(Position()), Returned(r, Position()))
      decreases Measure(tokenizer.text, Position()), 2
    {
      var left := Term();
      if left.Err? {
        return left;
      }
      if lookahead.None? {
        return Err(TypeError);
      }
      if !lookahead.value.kind.Div? {
        return left;
      }
      var op := Take(lookahead.value.kind);
      if op.Err? {
        return Err(op.msg);
      }
      var right := Term();
      if right.Err? {
        return right;
      }
      r := Ok(Binary(Tag.Div, left.value, right.value));
    }

    method Summa() returns (r: Result<Node>)
      requires Ready()
      modifies this, tokenizer
      ensures tokenizer.text == old(tokenizer.text) && source == old(source)
      ensures SummaGives(tokenizer.text, old(Position()), Returned(r, Position()))
      decreases Measure(tokenizer.text, Position()), 3
    {
      var left := Div();
      if left.Err? {
        return left;
      }
      if lookahead.None? {
        return Err(TypeError);
      }
      var k := lookahead.value.kind;
      if !k.Plus? && !k.Minus? {
        return left;
      }
      var op := Take(k);
      if op.Err? {
        return Err(op.msg);
      }
      var right := Div();
      if right.Err? {
        return right;
      }
      r := Ok(Binary(if k.Plus? then Tag.Plus else Tag.Minus, left.value, right.value));
    }

    method Test() returns (r: Result<Node>)
      requires Ready()
      modifies this, tokenizer
      ensures tokenizer.text == old(tokenizer.text) && source == old(source)
      ensures TestGives(tokenizer.text, old(Position()), Returned(r, Position()))
      decreases Measure(tokenizer.text, Position()), 4
    {
      var left := Summa();
      if left.Err? {
        return left;
      }
      if lookahead.None? {
        return Err(TypeError);
      }
      var k := lookahead.value.kind;
      if !k.Less? && !k.Equal? {
        return left;
      }
      var op := Take(k);
      if op.Err? {
        return Err(op.msg);
      }
      var right := Summa();
      if right.Err? {
        return right;
      }
      r := Ok(Binary(if k.Less? then Tag.Less else Tag.Equal, left.value, right.value));
    }

    method Expression() returns (r: Result<Node>)
      requires Ready()
      modifies this, tokenizer
      ensures tokenizer.text == old(tokenizer.text) && source == old(source)
      ensures ExpressionGives(tokenizer.text, old(Position()), Returned(r, Position()))
      decreases Measure(tokenizer.text, Position()), 5
    {
      var leftToken := lookahead;
      var left := Test();
      if left.Err? {
        return left;
      }
      if !(leftToken.Some? && leftToken.value.kind.Identifier?) {
        return left;
      }
      if lookahead.None? {
        return Err(TypeError);
      }
      if !lookahead.value.kind.Assign? {
        return left;
      }
      var assign := Take(Kind.Assign);
      if assign.Err? {
        return Err(assign.msg);
      }
      var right := Expression();
      if right.Err? {
        return right;
      }
      r := Ok(Binary(Tag.Assign, left.value, right.value));
    }

    method Statement() returns (r: Result<Option<Node>>)
      requires Ready()
      modifies this, tokenizer
      ensures tokenizer.text == old(tokenizer.text) && source == old(source)
      ensures StatementGives(tokenizer.text, old(Position()), ReturnedStmt(r, Position()))
      decreases Measure(tokenizer.text, Position()), 6
    {
      if lookahead.None? {
        return Err(TypeError);
      }
      var k := lookahead.value.kind;
      if k.Out? {
        var token := Take(Kind.Out);
        if token.Err? {
          return Err(token.msg);
        }
        var left := ExpressionParen();
        if left.Err? {
          return Err(left.msg);
        }
        r := Ok(Some(Make(Tag.Out, None, Some(left.value), None)));
      } else if k.Semicolon? {
        var token := Take(Kind.Semicolon);
        if token.Err? {
          return Err(token.msg);
        }
        r := Ok(None);
      } else {
        var e := Expression();
        if e.Err? {
          return Err(e.msg);
        }
        r := Ok(Some(e.value));
      }
    }

    /** `parse(string)`: statements are read until the tokenizer's cursor reaches the end. */
    method Parse(s: string) returns (r: Result<Node>)
      modifies this, tokenizer
      ensures source == s && tokenizer.text == s
      ensures r == ParseProgram(s)
    {
      source := s;
      tokenizer.Init(s);
      var first := tokenizer.GetNextToken();
      if first.Err? {
        return Err(first.msg);
      }
      lookahead := first.value;
      var childs: seq<Node> := [];
      while !tokenizer.Eof()
        invariant source == s && tokenizer.text == s && Ready()
        invariant ParseLoop(s, Position(), childs)
        decreases Measure(s, Position())
      {
        var node := Statement();
        if node.Err? {
          return Err(node.msg);
        }
        if node.value.Some? {
          childs := childs + [node.value.value];
        }
      }
      r := Ok(Node(Tag.Root, None, childs));
    }
  }
}
