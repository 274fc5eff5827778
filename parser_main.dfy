/**
 * `SyntaxParser` of main.js: recursive descent over the token list with a
 * cursor `index`.  Reading the current token past the end of the list
 * throws (`this.tokens[this.index]` is undefined), as does a missing
 * `(`, `)` or identifier.  The grammar functions below say what each method
 * returns and where it leaves the cursor; the class runs them as the
 * source does.
 */
module ParserMain {
  import opened Wrappers
  import opened Ast
  import opened LexerMain

  /** A parsed node and the cursor after it. */
  datatype Parsed = Parsed(node: Node, next: nat)

  /** A parsed statement (`null` for `while`) and the cursor after it. */
  datatype Stmt = Stmt(node: Option<Node>, next: nat)

  const TypeError := "TypeError"
  const ExpectedText := "expected text"
  const ExpectedOpen := "\"(\" expected"
  const ExpectedClose := "\")\" expected"

  /** `currentToken()`. */
  function Current(ts: seq<Token>, i: nat): (r: Result<Kind>)
    ensures r.Ok? <==> i < |ts|
    ensures r.Ok? ==> r.value == ts[i].kind
  {
    if i < |ts| then Ok(ts[i].kind) else Err(TypeError)
  }

  /** `eof()`. */
  predicate AtEnd(ts: seq<Token>, i: nat)
  {
    |ts| <= i || ts[i].kind.Eof?
  }

  /**
   * `buildAst` loops forever on `while`: `Statement` returns `null` for it
   * without advancing.  The model is stated for token lists with no
   * `while` anywhere, also where it would not start a statement.
   */
  predicate NoWhile(ts: seq<Token>)
  {
    forall k :: 0 <= k < |ts| ==> !ts[k].kind.While?
  }

  /** `new AstNode(kind, null, a, b)` with both children present. */
  function Binary(kind: Tag, a: Node, b: Node): Node
  {
    Node(kind, None, [a, b])
  }

  /** `Binary` is the two-child case of the node constructor. */
  lemma BinaryIsMake(kind: Tag, a: Node, b: Node)
    ensures Binary(kind, a, b) == Make(kind, None, Some(a), Some(b))
  {
  }

  // ---------------------------------------------------------------------
  // The grammar

  function ParseIdentifier(ts: seq<Token>, i: nat): (r: Result<Parsed>)
    ensures r.Ok? ==> i < r.value.next <= |ts|
    ensures r.Ok? ==> r.value.node == Leaf(Tag.Text, ts[i].value)
  {
    var k :- Current(ts, i);
    if !k.Text? then Err(ExpectedText) else Ok(Parsed(Leaf(Tag.Text, ts[i].value), i + 1))
  }

  function ParseTerm(ts: seq<Token>, i: nat): (r: Result<Parsed>)
    requires i <= |ts| + 1
    ensures r.Ok? ==> i < r.value.next <= |ts|
    decreases |ts| + 1 - i, 1
  {
    var k :- Current(ts, i);
    if k.Text? then ParseIdentifier(ts, i)
    else if k.Number? then Ok(Parsed(Leaf(Tag.Number, ts[i].value), i + 1))
    else ParseParen(ts, i)
  }

  /** `Summa`: a term, then `+ term` or `- term` folded to the left. */
  function ParseSumma(ts: seq<Token>, i: nat): (r: Result<Parsed>)
    requires i <= |ts| + 1
    ensures r.Ok? ==> i < r.value.next <= |ts|
    decreases |ts| + 1 - i, 2
  {
    var t :- ParseTerm(ts, i);
    SummaRest(ts, t.next, t.node, i)
  }

  /** The `while` loop of `Summa` from cursor `i` with the tree so far `acc` (begun at `from`). */
  function SummaRest(ts: seq<Token>, i: nat, acc: Node, from: nat): (r: Result<Parsed>)
    requires from < i <= |ts|
    ensures r.Ok? ==> i <= r.value.next <= |ts|
    decreases |ts| + 1 - i, 0
  {
    var k :- Current(ts, i);
    if k.Plus? || k.Minus? then
      var t :- ParseTerm(ts, i + 1);
      SummaRest(ts, t.next, Binary(if k.Plus? then Tag.Plus else Tag.Minus, acc, t.node), from)
    else Ok(Parsed(acc, i))
  }

  /** `Test`: a sum, optionally followed by one `< sum` or `== sum`. */
  function ParseTest(ts: seq<Token>, i: nat): (r: Result<Parsed>)
    requires i <= |ts| + 1
    ensures r.Ok? ==> i < r.value.next <= |ts|
    decreases |ts| + 1 - i, 3
  {
    var s :- ParseSumma(ts, i);
    var k :- Current(ts, s.next);
    if k.Less? || k.Equal? then
      var t :- ParseSumma(ts, s.next + 1);
      Ok(Parsed(Binary(if k.Less? then Tag.Less else Tag.Equal, s.node, t.node), t.next))
    else Ok(s)
  }

  /** `Expression`: a test; when it began with a word and is a `text` node before `=`, an assignment. */
  function ParseExpression(ts: seq<Token>, i: nat): (r: Result<Parsed>)
    requires i <= |ts| + 1
    ensures r.Ok? ==> i < r.value.next <= |ts|
    decreases |ts| + 1 - i, 4
  {
    var k :- Current(ts, i);
    if !k.Text? then ParseTest(ts, i)
    else
      var t :- ParseTest(ts, i);
      var k2 :- Current(ts, t.next);
      if k2.Assign? && t.node.kind == Tag.Text then
        var e :- ParseExpression(ts, t.next + 1);
        Ok(Parsed(Binary(Tag.Set, t.node, e.node), e.next))
      else Ok(t)
  }

  /** `ExpressionParen`: `( expression )`. */
  function ParseParen(ts: seq<Token>, i: nat): (r: Result<Parsed>)
    requires i <= |ts| + 1
    ensures r.Ok? ==> i < r.value.next <= |ts|
    decreases |ts| + 1 - i, 0
  {
    var k :- Current(ts, i);
    if !k.ParenLeft? then Err(ExpectedOpen)
    else
      var e :- ParseExpression(ts, i + 1);
      var k2 :- Current(ts, e.next);
      if !k2.ParenRight? then Err(ExpectedClose) else Ok(Parsed(e.node, e.next + 1))
  }

  /**
   * `Statement`: chosen by the current token.  `out (e)` skips one more
   * token whatever it is, so the cursor may end one past the list.
   */
  function ParseStatement(ts: seq<Token>, i: nat): (r: Result<Stmt>)
    requires i <= |ts| + 1 && NoWhile(ts)
    ensures r.Ok? ==> r.value.node.Some? && i < r.value.next <= |ts| + 1
    decreases |ts| + 1 - i, 5
  {
    var k :- Current(ts, i);
    if k.Func? then FuncStatement(ts, i)
    else if k.If? then IfStatement(ts, i)
    else if k.Out? then OutStatement(ts, i)
    else if k.While? then
      assert false;
      Ok(Stmt(None, i))
    else if k.Semicolon? then Ok(Stmt(Some(Leaf(Tag.EmptySemicolon, None)), i + 1))
    else if k.BraceLeft? then BracesRest(ts, i + 1, Leaf(Tag.Statement, None), i)
    else ExpressionStatement(ts, i)
  }

  /** `func name (e) statement`. */
  function FuncStatement(ts: seq<Token>, i: nat): (r: Result<Stmt>)
    requires i < |ts| && NoWhile(ts)
    ensures r.Ok? ==> r.value.node.Some? && i < r.value.next <= |ts| + 1
    decreases |ts| + 1 - i, 4
  {
    var id :- ParseIdentifier(ts, i + 1);
    var e :- ParseParen(ts, id.next);
    var s :- ParseStatement(ts, e.next);
    Ok(Stmt(Some(Node(Tag.Func, None, [id.node, e.node, s.node.value])), s.next))
  }

  /** `if (e) statement`, with the `else` node of `ElseBranch` as a third child when there is one. */
  function IfStatement(ts: seq<Token>, i: nat): (r: Result<Stmt>)
    requires i < |ts| && NoWhile(ts)
    ensures r.Ok? ==> r.value.node.Some? && i < r.value.next <= |ts| + 1
    decreases |ts| + 1 - i, 4
  {
    var e :- ParseParen(ts, i + 1);
    var s :- ParseStatement(ts, e.next);
    var el :- ElseBranch(ts, s.next);
    var kids := if el.node.Some? then [e.node, s.node.value, el.node.value] else [e.node, s.node.value];
    Ok(Stmt(Some(Node(Tag.If, None, kids)), el.next))
  }

  /** After the statement of an `if`: `else statement` as an `else` node, or nothing when the token is not `else`. */
  function ElseBranch(ts: seq<Token>, i: nat): (r: Result<Stmt>)
    requires i <= |ts| + 1 && NoWhile(ts)
    ensures r.Ok? ==> i <= r.value.next <= |ts| + 1
    ensures r.Ok? && r.value.node.None? ==> r.value.next == i
    decreases |ts| + 1 - i, 3
  {
    var k :- Current(ts, i);
    if k.Else? then
      var s :- ParseStatement(ts, i + 1);
      Ok(Stmt(Some(Node(Tag.Else, None, [s.node.value])), s.next))
    else Ok(Stmt(None, i))
  }

  /** `out (e)`: the token after the parenthesis is skipped whatever it is. */
  function OutStatement(ts: seq<Token>, i: nat): (r: Result<Stmt>)
    requires i < |ts|
    ensures r.Ok? ==> r.value.node.Some? && i < r.value.next <= |ts| + 1
  {
    var e :- ParseParen(ts, i + 1);
    Ok(Stmt(Some(Node(Tag.Out, None, [e.node])), e.next + 1))
  }

  /**
   * Any other statement: an expression, then the token after it is read
   * (a missing `;` is only logged) and skipped.
   */
  function ExpressionStatement(ts: seq<Token>, i: nat): (r: Result<Stmt>)
    requires i <= |ts| + 1
    ensures r.Ok? ==> r.value.node.Some? && i < r.value.next <= |ts|
  {
    var e :- ParseExpression(ts, i);
    var after :- Current(ts, e.next);
    Ok(Stmt(Some(Node(Tag.Expression, None, [e.node])), e.next + 1))
  }

  /** The `while` loop of a braced block: each statement is nested under a new `statement` node. */
  function BracesRest(ts: seq<Token>, i: nat, acc: Node, from: nat): (r: Result<Stmt>)
    requires from < i <= |ts| + 1 && NoWhile(ts)
    ensures r.Ok? ==> r.value.node.Some? && i < r.value.next <= |ts| + 1
    decreases |ts| + 1 - i, 6
  {
    var k :- Current(ts, i);
    if k.BraceRight? then Ok(Stmt(Some(acc), i + 1))
    else
      var s :- ParseStatement(ts, i);
      BracesRest(ts, s.next, Binary(Tag.Statement, acc, s.node.value), from)
  }

  /** `buildAst`'s loop: statements until `eof()`, each added under the root. */
  function ParseRest(ts: seq<Token>, i: nat, acc: seq<Node>): (r: Result<seq<Node>>)
    requires i <= |ts| + 1 && NoWhile(ts)
    decreases |ts| + 1 - i
  {
    if AtEnd(ts, i) then Ok(acc)
    else
      var s :- ParseStatement(ts, i);
      ParseRest(ts, s.next, acc + [s.node.value])
  }

  /** `buildAst()`: a `root` node over the statements. */
  function ParseProgram(ts: seq<Token>): (r: Result<Node>)
    requires NoWhile(ts)
    ensures r.Ok? ==> r.value.kind == Tag.Root && r.value.text == None
  {
    var cs :- ParseRest(ts, 0, []);
    Ok(Node(Tag.Root, None, cs))
  }

  // ---------------------------------------------------------------------
  // Associativity and the operators each level takes

  /** A token `Term` takes on its own: a word or a number. */
  predicate Simple(t: Token)
  {
    t.kind.Text? || t.kind.Number?
  }

  /** The leaf `Term` builds for a simple token. */
  function Operand(t: Token): Node
  {
    Leaf(if t.kind.Text? then Tag.Text else Tag.Number, t.value)
  }

  function SumName(k: Kind): Tag
  {
    if k.Plus? then Tag.Plus else Tag.Minus
  }

  /** From `i`: `n` pairs of `+`/`-` and a simple token, then a token other than `+`/`-`. */
  predicate SumOps(ts: seq<Token>, i: nat, n: nat)
    decreases n
  {
    i + 2 * n < |ts| &&
    if n == 0 then !ts[i].kind.Plus? && !ts[i].kind.Minus?
    else (ts[i].kind.Plus? || ts[i].kind.Minus?) && Simple(ts[i + 1]) && SumOps(ts, i + 2, n - 1)
  }

  /** Those pairs folded onto `acc` from the left. */
  function FoldLeft(acc: Node, ts: seq<Token>, i: nat, n: nat): Node
    requires SumOps(ts, i, n)
    decreases n
  {
    if n == 0 then acc
    else FoldLeft(Binary(SumName(ts[i].kind), acc, Operand(ts[i + 1])), ts, i + 2, n - 1)
  }

  lemma {:induction false} SummaRestFolds(ts: seq<Token>, i: nat, n: nat, acc: Node, from: nat)
    requires from < i && SumOps(ts, i, n)
    ensures SummaRest(ts, i, acc, from) == Ok(Parsed(FoldLeft(acc, ts, i, n), i + 2 * n))
    decreases n
  {
    if n > 0 {
      assert ParseTerm(ts, i + 1) == Ok(Parsed(Operand(ts[i + 1]), i + 2));
      SummaRestFolds(ts, i + 2, n - 1, Binary(SumName(ts[i].kind), acc, Operand(ts[i + 1])), from);
    }
  }

  /** `Summa` over `a op b op c ...`: the left fold, consuming every pair. */
  lemma SummaFoldsLeft(ts: seq<Token>, i: nat, n: nat)
    requires i < |ts| && Simple(ts[i]) && SumOps(ts, i + 1, n)
    ensures ParseSumma(ts, i) == Ok(Parsed(FoldLeft(Operand(ts[i]), ts, i + 1, n), i + 1 + 2 * n))
  {
    SummaRestFolds(ts, i + 1, n, Operand(ts[i]), i);
  }

  /** A token with only its kind and value. */
  function Tok(kind: Kind, value: Option<string>): Token
  {
    Token(0, 0, kind, value)
  }

  /** `a + b - c;` is minus(plus(a, b), c). */
  lemma SummaExample(a: string, b: string, c: string)
    ensures var ts := [Tok(Kind.Text, Some(a)), Tok(Kind.Plus, None), Tok(Kind.Text, Some(b)), Tok(Kind.Minus, None), Tok(Kind.Text, Some(c)), Tok(Kind.Semicolon, None)];
      ParseSumma(ts, 0) == Ok(Parsed(Binary(Tag.Minus, Binary(Tag.Plus, Leaf(Tag.Text, Some(a)), Leaf(Tag.Text, Some(b))), Leaf(Tag.Text, Some(c))), 5))
  {
    var ts := [Tok(Kind.Text, Some(a)), Tok(Kind.Plus, None), Tok(Kind.Text, Some(b)), Tok(Kind.Minus, None), Tok(Kind.Text, Some(c)), Tok(Kind.Semicolon, None)];
    assert SumOps(ts, 5, 0) && SumOps(ts, 3, 1) && SumOps(ts, 1, 2);
    SummaFoldsLeft(ts, 0, 2);
  }

  /** `Test` over `a < b < c` (or `==`): one comparison, the second left unread. */
  lemma TestTakesOne(ts: seq<Token>, i: nat)
    requires i + 3 < |ts| && Simple(ts[i]) && Simple(ts[i + 2])
    requires ts[i + 1].kind.Less? || ts[i + 1].kind.Equal?
    requires ts[i + 3].kind.Less? || ts[i + 3].kind.Equal?
    ensures ParseTest(ts, i) ==
      Ok(Parsed(Binary(if ts[i + 1].kind.Less? then Tag.Less else Tag.Equal, Operand(ts[i]), Operand(ts[i + 2])), i + 3))
    ensures Current(ts, i + 3) == Ok(ts[i + 3].kind)
  {
    SummaFoldsLeft(ts, i, 0);
    SummaFoldsLeft(ts, i + 2, 0);
  }

  /** A token after which neither `Summa` nor `Test` reads on. */
  predicate EndsTest(k: Kind)
  {
    !k.Plus? && !k.Minus? && !k.Less? && !k.Equal?
  }

  /** From `i`: `n` pairs of a word and `=`, then a word and a token that ends a test. */
  predicate SetChain(ts: seq<Token>, i: nat, n: nat)
    decreases n
  {
    i + 2 * n + 1 < |ts| && ts[i].kind.Text? &&
    if n == 0 then !ts[i + 1].kind.Assign? && EndsTest(ts[i + 1].kind)
    else ts[i + 1].kind.Assign? && SetChain(ts, i + 2, n - 1)
  }

  /** Those words nested to the right under `set` nodes. */
  function FoldRight(ts: seq<Token>, i: nat, n: nat): Node
    requires SetChain(ts, i, n)
    decreases n
  {
    if n == 0 then Operand(ts[i]) else Binary(Tag.Set, Operand(ts[i]), FoldRight(ts, i + 2, n - 1))
  }

  /** A word followed by a token that continues no sum or test is a test by itself. */
  lemma WordTest(ts: seq<Token>, i: nat)
    requires i + 1 < |ts| && ts[i].kind.Text? && EndsTest(ts[i + 1].kind)
    ensures ParseTest(ts, i) == Ok(Parsed(Operand(ts[i]), i + 1))
  {
    SummaFoldsLeft(ts, i, 0);
  }

  /** A word, `=` and an expression: a `set` node over the word and that expression. */
  lemma ExpressionAssignStep(ts: seq<Token>, i: nat, e: Parsed)
    requires i + 1 < |ts| && ts[i].kind.Text? && ts[i + 1].kind.Assign?
    requires ExpressionGives(ts, i + 2, Ok(e))
    ensures ExpressionGives(ts, i, Ok(Parsed(Binary(Tag.Set, Operand(ts[i]), e.node), e.next)))
  {
    WordTest(ts, i);
  }

  /** A word followed by a token that continues no expression is the expression. */
  lemma ExpressionWordStop(ts: seq<Token>, i: nat)
    requires SetChain(ts, i, 0)
    ensures ExpressionGives(ts, i, Ok(Parsed(Operand(ts[i]), i + 1)))
  {
    WordTest(ts, i);
  }

  /** `a = b = c` is set(a, set(b, c)). */
  lemma {:induction false} ExpressionFoldsRight(ts: seq<Token>, i: nat, n: nat)
    requires SetChain(ts, i, n)
    ensures ExpressionGives(ts, i, Ok(Parsed(FoldRight(ts, i, n), i + 2 * n + 1)))
    decreases n
  {
    if n == 0 {
      ExpressionWordStop(ts, i);
    } else {
      ExpressionFoldsRight(ts, i + 2, n - 1);
      var right := FoldRight(ts, i + 2, n - 1);
      ExpressionAssignStep(ts, i, Parsed(right, i + 2 * n + 1));
    }
  }

  /** What `SummaRest` builds is `acc` itself or a `plus`/`minus` node. */
  lemma {:induction false} SummaRestKind(ts: seq<Token>, i: nat, acc: Node, from: nat)
    requires from < i <= |ts| && SummaRest(ts, i, acc, from).Ok?
    ensures SummaRest(ts, i, acc, from).value.node.kind in {acc.kind, Tag.Plus, Tag.Minus}
    decreases |ts| - i
  {
    var k := ts[i].kind;
    if k.Plus? || k.Minus? {
      var t := ParseTerm(ts, i + 1).value;
      SummaRestKind(ts, t.next, Binary(SumName(k), acc, t.node), from);
    }
  }

  /** A test that begins with a word is never a `set` node. */
  lemma TestFromWord(ts: seq<Token>, i: nat)
    requires i < |ts| && ts[i].kind.Text? && ParseTest(ts, i).Ok?
    ensures ParseTest(ts, i).value.node.kind in {Tag.Text, Tag.Plus, Tag.Minus, Tag.Less, Tag.Equal}
  {
    assert ParseTerm(ts, i) == Ok(Parsed(Operand(ts[i]), i + 1));
    assert ParseSumma(ts, i) == SummaRest(ts, i + 1, Operand(ts[i]), i);
    SummaRestKind(ts, i + 1, Operand(ts[i]), i);
  }

  /**
   * An expression that begins with a word is a `set` node exactly when its
   * test is a lone `text` node followed by `=`; the right side is then a
   * whole expression.
   */
  lemma ExpressionSet(ts: seq<Token>, i: nat)
    requires i < |ts| && ts[i].kind.Text? && ParseExpression(ts, i).Ok?
    ensures var t := ParseTest(ts, i).value;
      ParseExpression(ts, i).value.node.kind == Tag.Set <==> (t.node.kind == Tag.Text && ts[t.next].kind.Assign?)
    ensures var t := ParseTest(ts, i).value;
      ParseExpression(ts, i).value.node.kind == Tag.Set ==>
      ParseExpression(ts, i).value.node == Binary(Tag.Set, t.node, ParseExpression(ts, t.next + 1).value.node)
  {
    TestFromWord(ts, i);
  }

  // ---------------------------------------------------------------------
  // The parser object

  /*
   * What each method of the class returns, stated through a predicate that
   * names the grammar function: `XGives(ts, i, r)` says the rule started at
   * cursor `i` yields `r`.
   */

  predicate IdentifierGives(ts: seq<Token>, i: nat, r: Result<Parsed>)
  {
    ParseIdentifier(ts, i) == r
  }

  predicate TermGives(ts: seq<Token>, i: nat, r: Result<Parsed>)
    requires i <= |ts| + 1
  {
    ParseTerm(ts, i) == r
  }

  predicate SummaGives(ts: seq<Token>, i: nat, r: Result<Parsed>)
    requires i <= |ts| + 1
  {
    ParseSumma(ts, i) == r
  }

  /** The loop of `Summa`: what is left to read from `i` completes the sum begun at `from`. */
  predicate SummaLoop(ts: seq<Token>, from: nat, i: nat, acc: Node)
    requires from < i <= |ts|
  {
    ParseSumma(ts, from) == SummaRest(ts, i, acc, from)
  }

  predicate TestGives(ts: seq<Token>, i: nat, r: Result<Parsed>)
    requires i <= |ts| + 1
  {
    ParseTest(ts, i) == r
  }

  predicate ExpressionGives(ts: seq<Token>, i: nat, r: Result<Parsed>)
    requires i <= |ts| + 1
  {
    ParseExpression(ts, i) == r
  }

  predicate ParenGives(ts: seq<Token>, i: nat, r: Result<Parsed>)
    requires i <= |ts| + 1
  {
    ParseParen(ts, i) == r
  }

  predicate StatementGives(ts: seq<Token>, i: nat, r: Result<Stmt>)
    requires i <= |ts| + 1 && NoWhile(ts)
  {
    ParseStatement(ts, i) == r
  }

  predicate FuncGives(ts: seq<Token>, i: nat, r: Result<Stmt>)
    requires i < |ts| && NoWhile(ts)
  {
    FuncStatement(ts, i) == r
  }

  predicate IfGives(ts: seq<Token>, i: nat, r: Result<Stmt>)
    requires i < |ts| && NoWhile(ts)
  {
    IfStatement(ts, i) == r
  }

  predicate ElseGives(ts: seq<Token>, i: nat, r: Result<Stmt>)
    requires i <= |ts| + 1 && NoWhile(ts)
  {
    ElseBranch(ts, i) == r
  }

  predicate OutGives(ts: seq<Token>, i: nat, r: Result<Stmt>)
    requires i < |ts|
  {
    OutStatement(ts, i) == r
  }

  predicate ExpressionStatementGives(ts: seq<Token>, i: nat, r: Result<Stmt>)
    requires i <= |ts| + 1
  {
    ExpressionStatement(ts, i) == r
  }

  /** The loop of a braced block begun at `from`. */
  predicate BracesLoop(ts: seq<Token>, from: nat, i: nat, acc: Node)
    requires from < i <= |ts| + 1 && NoWhile(ts)
  {
    ParseStatement(ts, from) == BracesRest(ts, i, acc, from)
  }

  /** The loop of `buildAst`: the statements from `i` on, added after `acc`, complete the program. */
  predicate ProgramLoop(ts: seq<Token>, i: nat, acc: seq<Node>)
    requires i <= |ts| + 1 && NoWhile(ts)
  {
    ParseProgram(ts) == (var cs :- ParseRest(ts, i, acc); Ok(Node(Tag.Root, None, cs)))
  }

  /** A method's outcome and the cursor it left, in the grammar functions' terms. */
  function Returned(r: Result<Node>, i: nat): Result<Parsed>
  {
    match r
    case Ok(n) => Ok(Parsed(n, i))
    case Err(m) => Err(m)
  }

  function ReturnedStmt(r: Result<Option<Node>>, i: nat): Result<Stmt>
  {
    match r
    case Ok(n) => Ok(Stmt(n, i))
    case Err(m) => Err(m)
  }

  /** `SyntaxParser`: the token list, the cursor and the tree under construction. */
  class SyntaxParser {
    var tokens: seq<Token>
    var index: nat
    var root: Node

    constructor (tokens: seq<Token>)
      ensures this.tokens == tokens && index == 0 && root == Leaf(Tag.Root, None)
    {
      this.tokens := tokens;
      index := 0;
      root := Leaf(Tag.Root, None);
    }

    method CurrentToken() returns (r: Result<Kind>)
      ensures r == Current(tokens, index)
    {
      if index < |tokens| {
        r := Ok(tokens[index].kind);
      } else {
        r := Err(TypeError);
      }
    }

    predicate Eof()
      reads this
    {
      AtEnd(tokens, index)
    }

    method Identifier() returns (r: Result<Node>)
      requires index <= |tokens| + 1
      modifies this
      ensures tokens == old(tokens) && root == old(root)
      ensures IdentifierGives(tokens, old(index), Returned(r, index))
    {
      var k := CurrentToken();
      if k.Err? {
        return Err(k.msg);
      }
      if !k.value.Text? {
        return Err(ExpectedText);
      }
      r := Ok(Leaf(Tag.Text, tokens[index].value));
      index := index + 1;
    }

    method Term() returns (r: Result<Node>)
      requires index <= |tokens| + 1
      modifies this
      ensures tokens == old(tokens) && root == old(root)
      ensures TermGives(tokens, old(index), Returned(r, index))
      decreases |tokens| + 1 - index, 1
    {
      var k := CurrentToken();
      if k.Err? {
        return Err(k.msg);
      }
      if k.value.Text? {
        r := Identifier();
      } else if k.value.Number? {
        r := Ok(Leaf(Tag.Number, tokens[index].value));
        index := index + 1;
      } else {
        r := ExpressionParen();
      }
    }

    method Summa() returns (r: Result<Node>)
      requires index <= |tokens| + 1
      modifies this
      ensures tokens == old(tokens) && root == old(root)
      ensures SummaGives(tokens, old(index), Returned(r, index))
      decreases |tokens| + 1 - index, 2
    {
      ghost var from := index;
      ghost var ts := tokens;
      var t := Term();
      if t.Err? {
        return t;
      }
      var node := t.value;
      while true
        invariant tokens == ts && root == old(root)
        invariant from < index <= |ts|
        invariant SummaLoop(ts, from, index, node)
        decreases |ts| + 1 - index
      {
        var k := CurrentToken();
        if k.Err? {
          return Err(k.msg);
        }
        if !k.value.Plus? && !k.value.Minus? {
          return Ok(node);
        }
        var kindType := if k.value.Plus? then Tag.Plus else Tag.Minus;
        index := index + 1;
        var right := Term();
        if right.Err? {
          return right;
        }
        node := Binary(kindType, node, right.value);
      }
    }

    method Test() returns (r: Result<Node>)
      requires index <= |tokens| + 1
      modifies this
      ensures tokens == old(tokens) && root == old(root)
      ensures TestGives(tokens, old(index), Returned(r, index))
      decreases |tokens| + 1 - index, 3
    {
      var node := Summa();
      if node.Err? {
        return node;
      }
      var k := CurrentToken();
      if k.Err? {
        return Err(k.msg);
      }
      if k.value.Less? || k.value.Equal? {
        index := index + 1;
        var right := Summa();
        if right.Err? {
          return right;
        }
        return Ok(Binary(if k.value.Less? then Tag.Less else Tag.Equal, node.value, right.value));
      }
      return node;
    }

    method Expression() returns (r: Result<Node>)
      requires index <= |tokens| + 1
      modifies this
      ensures tokens == old(tokens) && root == old(root)
      ensures ExpressionGives(tokens, old(index), Returned(r, index))
      decreases |tokens| + 1 - index, 4
    {
      var k := CurrentToken();
      if k.Err? {
        return Err(k.msg);
      }
      if !k.value.Text? {
        r := Test();
        return;
      }
      var node := Test();
      if node.Err? {
        return node;
      }
      var k2 := CurrentToken();
      if k2.Err? {
        return Err(k2.msg);
      }
      if k2.value.Assign? && node.value.kind == Tag.Text {
        index := index + 1;
        var right := Expression();
        if right.Err? {
          return right;
        }
        return Ok(Binary(Tag.Set, node.value, right.value));
      }
      return node;
    }

    method ExpressionParen() returns (r: Result<Node>)
      requires index <= |tokens| + 1
      modifies this
      ensures tokens == old(tokens) && root == old(root)
      ensures ParenGives(tokens, old(index), Returned(r, index))
      decreases |tokens| + 1 - index, 0
    {
      var k := CurrentToken();
      if k.Err? {
        return Err(k.msg);
      }
      if !k.value.ParenLeft? {
        return Err(ExpectedOpen);
      }
      index := index + 1;
      r := Expression();
      if r.Err? {
        return;
      }
      var k2 := CurrentToken();
      if k2.Err? {
        return Err(k2.msg);
      }
      if !k2.value.ParenRight? {
        return Err(ExpectedClose);
      }
      index := index + 1;
    }

    method Statement() returns (r: Result<Option<Node>>)
      requires index <= |tokens| + 1 && NoWhile(tokens)
      modifies this
      ensures tokens == old(tokens) && root == old(root)
      ensures StatementGives(tokens, old(index), ReturnedStmt(r, index))
      decreases |tokens| + 1 - index, 5
    {
      var k := CurrentToken();
      if k.Err? {
        return Err(k.msg);
      }
      if k.value.Func? {
        r := FuncArm();
      } else if k.value.If? {
        r := IfArm();
      } else if k.value.Out? {
        r := OutArm();
      } else if k.value.While? {
        assert false;
      } else if k.value.Semicolon? {
        index := index + 1;
        r := Ok(Some(Leaf(Tag.EmptySemicolon, None)));
      } else if k.value.BraceLeft? {
        r := Braces();
      } else {
        r := ExpressionArm();
      }
    }

    /** The `func` arm of `Statement`. */
    method FuncArm() returns (r: Result<Option<Node>>)
      requires index < |tokens| && NoWhile(tokens)
      modifies this
      ensures tokens == old(tokens) && root == old(root)
      ensures FuncGives(tokens, old(index), ReturnedStmt(r, index))
      decreases |tokens| + 1 - index, 4
    {
      index := index + 1;
      var id := Identifier();
      if id.Err? {
        return Err(id.msg);
      }
      var e := ExpressionParen();
      if e.Err? {
        return Err(e.msg);
      }
      var s := Statement();
      if s.Err? {
        return s;
      }
      r := Ok(Some(Node(Tag.Func, None, [id.value, e.value, s.value.value])));
    }

    /** The `if` arm of `Statement`. */
    method IfArm() returns (r: Result<Option<Node>>)
      requires index < |tokens| && NoWhile(tokens)
      modifies this
      ensures tokens == old(tokens) && root == old(root)
      ensures IfGives(tokens, old(index), ReturnedStmt(r, index))
      decreases |tokens| + 1 - index, 4
    {
      index := index + 1;
      var e := ExpressionParen();
      if e.Err? {
        return Err(e.msg);
      }
      var s := Statement();
      if s.Err? {
        return s;
      }
      var el := ElseArm();
      if el.Err? {
        return el;
      }
      if el.value.Some? {
        r := Ok(Some(Node(Tag.If, None, [e.value, s.value.value, el.value.value])));
      } else {
        r := Ok(Some(Node(Tag.If, None, [e.value, s.value.value])));
      }
    }

    /** The `else` that may follow the statement of an `if`. */
    method ElseArm() returns (r: Result<Option<Node>>)
      requires index <= |tokens| + 1 && NoWhile(tokens)
      modifies this
      ensures tokens == old(tokens) && root == old(root)
      ensures ElseGives(tokens, old(index), ReturnedStmt(r, index))
      decreases |tokens| + 1 - index, 3
    {
      var k := CurrentToken();
      if k.Err? {
        return Err(k.msg);
      }
      if !k.value.Else? {
        return Ok(None);
      }
      index := index + 1;
      var s := Statement();
      if s.Err? {
        return s;
      }
      r := Ok(Some(Node(Tag.Else, None, [s.value.value])));
    }

    /** The `out` arm of `Statement`. */
    method OutArm() returns (r: Result<Option<Node>>)
      requires index < |tokens|
      modifies this
      ensures tokens == old(tokens) && root == old(root)
      ensures OutGives(tokens, old(index), ReturnedStmt(r, index))
    {
      index := index + 1;
      var e := ExpressionParen();
      if e.Err? {
        return Err(e.msg);
      }
      index := index + 1;
      r := Ok(Some(Node(Tag.Out, None, [e.value])));
    }

    /** The arm of `Statement` for every other token: an expression and the token after it. */
    method ExpressionArm() returns (r: Result<Option<Node>>)
      requires index <= |tokens| + 1
      modifies this
      ensures tokens == old(tokens) && root == old(root)
      ensures ExpressionStatementGives(tokens, old(index), ReturnedStmt(r, index))
    {
      var e := Expression();
      if e.Err? {
        return Err(e.msg);
      }
      var after := CurrentToken();
      if after.Err? {
        return Err(after.msg);
      }
      index := index + 1;
      r := Ok(Some(Node(Tag.Expression, None, [e.value])));
    }

    /** The `brace_left` arm of `Statement`. */
    method Braces() returns (r: Result<Option<Node>>)
      requires index < |tokens| && tokens[index].kind.BraceLeft? && NoWhile(tokens)
      modifies this
      ensures tokens == old(tokens) && root == old(root)
      ensures StatementGives(tokens, old(index), ReturnedStmt(r, index))
      decreases |tokens| + 1 - index, 4
    {
      ghost var from := index;
      var node := Leaf(Tag.Statement, None);
      index := index + 1;
      while true
        invariant tokens == old(tokens) && root == old(root)
        invariant from < index <= |tokens| + 1
        invariant BracesLoop(tokens, from, index, node)
        decreases |tokens| + 1 - index
      {
        var k := CurrentToken();
        if k.Err? {
          return Err(k.msg);
        }
        if k.value.BraceRight? {
          break;
        }
        var s := Statement();
        if s.Err? {
          return s;
        }
        node := Binary(Tag.Statement, node, s.value.value);
      }
      index := index + 1;
      r := Ok(Some(node));
    }

    /** `buildAst()` on a freshly made parser. */
    method BuildAst() returns (r: Result<Node>)
      requires index == 0 && root == Leaf(Tag.Root, None) && NoWhile(tokens)
      modifies this
      ensures tokens == old(tokens)
      ensures r == ParseProgram(tokens)
      ensures r.Ok? ==> root == r.value
    {
      while !Eof()
        invariant tokens == old(tokens) && index <= |tokens| + 1
        invariant root.kind == Tag.Root && root.text == None
        invariant ProgramLoop(tokens, index, root.childs)
        decreases |tokens| + 1 - index
      {
        var s := Statement();
        if s.Err? {
          return Err(s.msg);
        }
        root := Node(root.kind, root.text, root.childs + [s.value.value]);
      }
      r := Ok(root);
    }
  }
}
