/**
 * The two `compile(src)` entry points.  main.js lexes the whole text,
 * parses the token list, prints the tree (for the console only), compiles
 * it and returns the text after `LenOptimizer`.  new.js parses the text
 * with its own tokenizer-driven parser inside a `try` that swallows the
 * error, so a text that does not parse reaches the compiler as
 * `undefined` and `compile(undefined)` throws a TypeError; it returns the
 * compiled text without the optimizer pass, whose result is only logged.
 * Its call of `GetTokens` feeds the console only.
 */
module Pipeline {
  import opened Wrappers
  import opened Codegen
  import LexerMain
  import ParserMain
  import TokenizerNew
  import ParserNew
  import Compile
  import LenOptimizer
  import TreeOut
  import CompilerImpl

  const TypeError := "TypeError"

  /**
   * The texts the model of main.js covers: those that fail to lex, and
   * those whose tokens hold no `while`, since a `while` starting a statement
   * keeps `buildAst` looping.  This also leaves out texts with a `while`
   * elsewhere, on which main.js does stop.
   */
  predicate Terminates(src: string)
  {
    LexerMain.TokensFrom(src, 0).Ok? ==> ParserMain.NoWhile(LexerMain.TokensFrom(src, 0).value)
  }

  /** main.js `compile(src)`: each stage may throw, and the compiled text is optimized. */
  function CompileMain(src: string): Result<string>
    requires Terminates(src)
  {
    var tokens :- LexerMain.TokensFrom(src, 0);
    var node :- ParserMain.ParseProgram(tokens);
    var bin :- Compile.ProgramMain(node);
    Ok(LenOptimizer.Optimize(bin))
  }

  /** new.js `compile(src)`: a parse error becomes the compiler's TypeError, and the text is not optimized. */
  function CompileNew(src: string): Result<string>
  {
    match ParserNew.ParseProgram(src)
    case Err(_) => Err(TypeError)
    case Ok(root) => Compile.ProgramNew(root)
  }

  /**
   * What main.js returns holds none of `<>`, `><`, `+-`, `-+`, and is the
   * compiled text with characters deleted; a second pass would change
   * nothing.
   */
  lemma CompileMainOptimized(src: string)
    requires Terminates(src)
    ensures CompileMain(src).Ok? ==>
      var r := CompileMain(src).value;
      var tokens := LexerMain.TokensFrom(src, 0).value;
      var bin := Compile.ProgramMain(ParserMain.ParseProgram(tokens).value).value;
      !LenOptimizer.HasPair(r, '<', '>') && !LenOptimizer.HasPair(r, '>', '<') &&
      !LenOptimizer.HasPair(r, '+', '-') && !LenOptimizer.HasPair(r, '-', '+') &&
      LenOptimizer.Subseq(r, bin) && LenOptimizer.Optimize(r) == r
  {
    if CompileMain(src).Ok? {
      var tokens := LexerMain.TokensFrom(src, 0).value;
      var bin := Compile.ProgramMain(ParserMain.ParseProgram(tokens).value).value;
      LenOptimizer.OptimizeClean(bin);
      LenOptimizer.OptimizeSubseq(bin);
      LenOptimizer.OptimizeIdempotent(bin);
    }
  }

  /**
   * new.js throws a TypeError on every text it cannot parse, whatever the
   * parser threw; what it compiles is a program tree of the parser's shape,
   * and the text returned is the compiler's own.
   */
  lemma CompileNewSteps(src: string)
    ensures ParserNew.ParseProgram(src).Err? ==> CompileNew(src) == Err(TypeError)
    ensures CompileNew(src).Ok? ==>
      ParserNew.ParseProgram(src).Ok? && ParserNew.IsProgram(ParserNew.ParseProgram(src).value) &&
      CompileNew(src) == Compile.ProgramNew(ParserNew.ParseProgram(src).value)
  {
    ParserNew.ParseIsProgram(src);
  }

  /** main.js `compile(src)` run as the source runs it, one object per stage. */
  method CompileMainJs(src: string) returns (r: Result<string>)
    requires Terminates(src)
    ensures r == CompileMain(src)
  {
    var tokens := LexerMain.GetTokens(src);
    if tokens.Err? {
      return Err(tokens.msg);
    }
    var parser := new ParserMain.SyntaxParser(tokens.value);
    var node := parser.BuildAst();
    if node.Err? {
      return Err(node.msg);
    }
    var nodeText := TreeOut.PrintTree(node.value);
    var compiler := new CompilerImpl.Compiler(MainJs);
    var done := compiler.CompileNode(node.value);
    if done.Err? {
      return Err(done.msg);
    }
    var bin := compiler.result;
    var binMin := LenOptimizer.Run(bin);
    r := Ok(binMin);
  }

  /** new.js `compile(src)` run as the source runs it. */
  method CompileNewJs(src: string) returns (r: Result<string>)
    ensures r == CompileNew(src)
  {
    var tokens := TokenizerNew.GetTokens(src);
    var parser := new ParserNew.Parser();
    var nodes := parser.Parse(src);
    if nodes.Err? {
      return Err(TypeError);
    }
    var nodeText := TreeOut.PrintTree(nodes.value);
    var compiler := new CompilerImpl.Compiler(NewJs);
    var done := compiler.CompileNode(nodes.value);
    if done.Err? {
      return Err(done.msg);
    }
    var bin := compiler.result;
    var binMin := LenOptimizer.Run(bin);
    r := Ok(bin);
  }
}
