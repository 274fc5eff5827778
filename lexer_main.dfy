/**
 * The lexer of main.js: `getToken(code, index)` reads one token after any
 * white space, and `GetTokens` calls it from index 0 until the text is
 * used up.  Runs of digits and runs of letters are read by a `do` loop
 * that appends one character too many and then slices it off again.
 */
module LexerMain {
  import opened Wrappers
  import JsValue

  /** The token types `getToken` produces. */
  datatype Kind =
    | Text | Number | BraceLeft | BraceRight | ParenLeft | ParenRight | Quot | Semicolon
    | Assign | Plus | Minus | Less | More | Equal | If | Else | While | Func | Out | Eof

  /** A token: where the call started, where the next call starts, its type and its value. */
  datatype Token = Token(index: nat, next: nat, kind: Kind, value: Option<string>)

  const UnexpectedSyntax := "unexpected syntax"

  /** `/(\t| |\n)/.test(c)`. */
  predicate IsSpace(c: char)
  {
    c == '\t' || c == ' ' || c == '\n'
  }

  /** `isIdentifier`: `/[a-zA-Z]/.test(c)`. */
  predicate IsLetter(c: char)
  {
    ('a' <= c <= 'z') || ('A' <= c <= 'Z')
  }

  /** `isNumber`: `/[0-9]/.test(c)`. */
  predicate IsDigit(c: char)
  {
    JsValue.IsDigit(c)
  }

  /** The class of a run: digits, or letters. */
  predicate InRun(c: char, digits: bool)
  {
    if digits then IsDigit(c) else IsLetter(c)
  }

  /** The first index from `i` on that is not white space. */
  function SkipSpaces(code: string, i: nat): (j: nat)
    requires i <= |code|
    ensures i <= j <= |code|
    ensures j < |code| ==> !IsSpace(code[j])
    ensures forall k :: i <= k < j ==> IsSpace(code[k])
    decreases |code| - i
  {
    if i < |code| && IsSpace(code[i]) then SkipSpaces(code, i + 1) else i
  }

  /** Where the run that starts with `code[i]` ends: the first later index outside the class. */
  function RunEnd(code: string, i: nat, digits: bool): (e: nat)
    requires i < |code|
    ensures i < e <= |code|
    ensures forall k :: i < k < e ==> InRun(code[k], digits)
    ensures e < |code| ==> !InRun(code[e], digits)
    decreases |code| - i
  {
    if i + 1 < |code| && InRun(code[i + 1], digits) then RunEnd(code, i + 1, digits) else i + 1
  }

  /** The keyword a run of letters spells, if any. */
  function Keyword(w: string): Option<Kind>
  {
    if w == "func" then Some(Func)
    else if w == "if" then Some(If)
    else if w == "else" then Some(Else)
    else if w == "while" then Some(While)
    else if w == "out" then Some(Out)
    else None
  }

  /** The one-character tokens. */
  function Punct(c: char): Option<Kind>
  {
    if c == '{' then Some(BraceLeft)
    else if c == '}' then Some(BraceRight)
    else if c == '(' then Some(ParenLeft)
    else if c == ')' then Some(ParenRight)
    else if c == ';' then Some(Semicolon)
    else if c == '+' then Some(Plus)
    else if c == '-' then Some(Minus)
    else if c == '<' then Some(Less)
    else if c == '>' then Some(More)
    else if c == '"' then Some(Quot)
    else None
  }

  /**
   * The token once white space is skipped to `i`, the run of a number or a
   * word being `value` and ending at `e`.
   */
  function WordToken(index: nat, e: nat, value: string): Token
  {
    match Keyword(value)
    case Some(k) => Token(index, e, k, None)
    case None => Token(index, e, Text, Some(value))
  }

  /**
   * `getToken(code, index)` with its runs read as intended: the value of a
   * number or word is exactly the run.
   */
  function GetToken(code: string, index: nat): (r: Result<Token>)
    requires index <= |code|
    ensures r.Ok? ==> r.value.index == index && r.value.next <= |code|
    ensures r.Ok? && index < |code| ==> index < r.value.next
  {
    var i := SkipSpaces(code, index);
    if i == |code| then Ok(Token(index, |code|, Eof, None))
    else
      var c := code[i];
      if c == '=' then
        if i + 1 < |code| && code[i + 1] == '=' then Ok(Token(index, i + 2, Equal, None))
        else Ok(Token(index, i + 1, Assign, None))
      else if Punct(c).Some? then Ok(Token(index, i + 1, Punct(c).value, None))
      else if IsDigit(c) then
        var e := RunEnd(code, i, true);
        Ok(Token(index, e, Number, Some(code[i..e])))
      else if IsLetter(c) then
        var e := RunEnd(code, i, false);
        Ok(WordToken(index, e, code[i..e]))
      else Err(UnexpectedSyntax)
  }

  // ---------------------------------------------------------------------
  // The runs as written

  /**
   * The value the `do` loop builds for a run from `i` to `e`: it appends
   * `code[index + offset]` once past the run and slices one character off.
   * Inside the text that character is the one after the run; at the end of
   * the text it is `undefined`, which appends the nine characters
   * "undefined", so eight of them survive the slice.
   */
  function RunValueAsWritten(code: string, i: nat, e: nat): string
    requires i < e <= |code|
  {
    var built := code[i..e] + (if e < |code| then [code[e]] else "undefined");
    built[..|built| - 1]
  }

  /** `getToken` as written: as `GetToken`, with the runs' values built by the `do` loop. */
  function GetTokenAsWritten(code: string, index: nat): (r: Result<Token>)
    requires index <= |code|
  {
    var i := SkipSpaces(code, index);
    if i < |code| && (IsDigit(code[i]) || IsLetter(code[i])) then
      var digits := IsDigit(code[i]);
      var e := RunEnd(code, i, digits);
      var value := RunValueAsWritten(code, i, e);
      if digits then Ok(Token(index, e, Number, Some(value))) else Ok(WordToken(index, e, value))
    else GetToken(code, index)
  }

  /** Inside the text the slice undoes the extra character: the value is the run. */
  lemma RunValueInside(code: string, i: nat, e: nat)
    requires i < e < |code|
    ensures RunValueAsWritten(code, i, e) == code[i..e]
  {
    var built := code[i..e] + [code[e]];
    assert built[..|built| - 1] == code[i..e];
  }

  /** At the end of the text the value keeps "undefine". */
  lemma RunValueAtEnd(code: string, i: nat)
    requires i < |code|
    ensures RunValueAsWritten(code, i, |code|) == code[i..] + "undefine"
  {
    var built := code[i..] + "undefined";
    assert built[..|built| - 1] == code[i..] + "undefine";
  }

  /** From `index`, the token is a number or a word whose run reaches the end of the text. */
  predicate RunAtEnd(code: string, index: nat)
    requires index <= |code|
  {
    var i := SkipSpaces(code, index);
    i < |code| && (IsDigit(code[i]) || IsLetter(code[i])) && RunEnd(code, i, IsDigit(code[i])) == |code|
  }

  /**
   * The lexer as written and as intended agree except on a run that
   * reaches the end of the text; there the written one's value is the run
   * followed by "undefine", and the intended one's is not.
   */
  lemma AsWrittenDiffers(code: string, index: nat)
    requires index <= |code|
    ensures !RunAtEnd(code, index) ==> GetTokenAsWritten(code, index) == GetToken(code, index)
    ensures RunAtEnd(code, index) ==>
      var i := SkipSpaces(code, index);
      GetTokenAsWritten(code, index).Ok? && GetTokenAsWritten(code, index).value.value == Some(code[i..] + "undefine") &&
      GetToken(code, index).Ok? && GetToken(code, index).value.value != Some(code[i..] + "undefine")
  {
    var i := SkipSpaces(code, index);
    if i < |code| && (IsDigit(code[i]) || IsLetter(code[i])) {
      var e := RunEnd(code, i, IsDigit(code[i]));
      if e < |code| {
        RunValueInside(code, i, e);
      } else {
        RunValueAtEnd(code, i);
        var w := code[i..] + "undefine";
        assert w[|w| - 8..] == "undefine";
        assert Keyword(w).None?;
        assert code[i..e] == code[i..];
      }
    }
  }

  /** A number at the very end of the text: "12" is read as the number "12undefine". */
  lemma NumberAtEndAsWritten()
    ensures GetTokenAsWritten("12", 0) == Ok(Token(0, 2, Number, Some("12undefine")))
    ensures GetToken("12", 0) == Ok(Token(0, 2, Number, Some("12")))
  {
    var code := "12";
    assert code[0] == '1' && code[1] == '2';
    assert SkipSpaces(code, 0) == 0;
    assert IsDigit(code[0]) && IsDigit(code[1]);
    assert RunEnd(code, 0, true) == 2 by { assert RunEnd(code, 1, true) == 2; }
    RunValueAtEnd(code, 0);
    assert code[0..] == code && code[0..2] == code;
    assert code + "undefine" == "12undefine";
  }

  /** A keyword at the very end of the text is not a keyword: "out" is the word "outundefine". */
  lemma KeywordAtEndAsWritten()
    ensures GetTokenAsWritten("out", 0) == Ok(Token(0, 3, Text, Some("outundefine")))
    ensures GetToken("out", 0) == Ok(Token(0, 3, Out, None))
  {
    var code := "out";
    assert code[0] == 'o' && code[1] == 'u' && code[2] == 't';
    assert SkipSpaces(code, 0) == 0;
    assert !IsDigit(code[0]) && IsLetter(code[0]) && IsLetter(code[1]) && IsLetter(code[2]);
    assert RunEnd(code, 0, false) == 3 by {
      assert RunEnd(code, 2, false) == 3;
      assert RunEnd(code, 1, false) == 3;
    }
    RunValueAtEnd(code, 0);
    assert code[0..] == code && code[0..3] == code;
    assert code + "undefine" == "outundefine";
    assert Keyword("outundefine").None?;
  }

  // ---------------------------------------------------------------------
  // What a token is

  /*
   * The token read from `index`, characterised by the first character after
   * the white space (at `i`), in three lemmas.
   */

  /**
   * White space is skipped, and the token is `eof` ending at the end of the
   * text exactly when nothing but white space remains.
   */
  lemma GetTokenEof(code: string, index: nat)
    requires index <= |code|
    ensures var r := GetToken(code, index); var i := SkipSpaces(code, index);
      (forall k :: index <= k < i ==> IsSpace(code[k])) &&
      (i < |code| ==> !IsSpace(code[i])) &&
      (r == Ok(Token(index, |code|, Eof, None)) <==> forall k :: index <= k < |code| ==> IsSpace(code[k]))
  {
  }

  /**
   * `==` is one `equal` token, a lone `=` an `assign`, `"` a bare `quot`;
   * the call throws exactly on a character that starts no token.
   */
  lemma GetTokenPunct(code: string, index: nat)
    requires index <= |code| && SkipSpaces(code, index) < |code|
    ensures var r := GetToken(code, index); var i := SkipSpaces(code, index);
      (code[i] == '=' && i + 1 < |code| && code[i + 1] == '=' ==> r == Ok(Token(index, i + 2, Equal, None))) &&
      (code[i] == '=' && (i + 1 == |code| || code[i + 1] != '=') ==> r == Ok(Token(index, i + 1, Assign, None))) &&
      (code[i] == '"' ==> r == Ok(Token(index, i + 1, Quot, None))) &&
      (r.Err? <==> !(IsDigit(code[i]) || IsLetter(code[i]) || code[i] in "{}();=+-<>\""))
  {
    var c := code[SkipSpaces(code, index)];
    assert c in "{}();=+-<>\"" <==> c == '=' || Punct(c).Some?;
  }

  /**
   * A number is a maximal run of digits and carries it; a word is a maximal
   * run of letters, a keyword when it spells one and otherwise a `text`
   * token carrying it.
   */
  lemma GetTokenRuns(code: string, index: nat)
    requires index <= |code| && SkipSpaces(code, index) < |code|
    ensures var r := GetToken(code, index); var i := SkipSpaces(code, index);
      (IsDigit(code[i]) ==>
        r.Ok? && r.value.kind == Number && r.value.value == Some(code[i..r.value.next]) &&
        (forall k :: i <= k < r.value.next ==> IsDigit(code[k])) &&
        (r.value.next == |code| || !IsDigit(code[r.value.next]))) &&
      (IsLetter(code[i]) ==>
        r.Ok? && var w := code[i..r.value.next];
        (forall k :: i <= k < r.value.next ==> IsLetter(code[k])) &&
        (r.value.next == |code| || !IsLetter(code[r.value.next])) &&
        (Keyword(w).Some? ==> r.value.kind == Keyword(w).value && r.value.value == None) &&
        (Keyword(w).None? ==> r.value.kind == Text && r.value.value == Some(w)))
  {
  }

  // ---------------------------------------------------------------------
  // The whole text

  /** `GetTokens` from `index` on: one token per call, each call starting where the last one ended. */
  function TokensFrom(code: string, index: nat): (r: Result<seq<Token>>)
    requires index <= |code|
    decreases |code| - index
  {
    if |code| <= index then Ok([])
    else
      var t :- GetToken(code, index);
      var rest :- TokensFrom(code, t.next);
      Ok([t] + rest)
  }

  /** Tokens `ts` in source order, from `index` to the end of the text, each call advancing. */
  predicate Chained(ts: seq<Token>, index: nat, end: nat)
  {
    (ts == [] ==> index == end) &&
    (ts != [] ==> ts[0].index == index && ts[|ts| - 1].next == end) &&
    (forall k :: 0 <= k < |ts| ==> ts[k].index < ts[k].next) &&
    (forall k :: 0 <= k < |ts| - 1 ==> ts[k].next == ts[k + 1].index)
  }

  /**
   * The tokens are produced in source order: the first starts at `index`,
   * each starts where the previous one ended, each call advances, and the
   * last ends at the end of the text.
   */
  lemma {:induction false} TokensChained(code: string, index: nat)
    requires index <= |code|
    ensures TokensFrom(code, index).Ok? ==> Chained(TokensFrom(code, index).value, index, |code|)
    decreases |code| - index
  {
    if index < |code| {
      var t := GetToken(code, index);
      if t.Ok? {
        TokensChained(code, t.value.next);
        var rest := TokensFrom(code, t.value.next);
        if rest.Ok? {
          var ts := [t.value] + rest.value;
          assert ts == TokensFrom(code, index).value;
          assert forall k :: 1 <= k < |ts| ==> ts[k] == rest.value[k - 1];
        }
      }
    }
  }

  /** The lexer throws exactly when some call of `getToken` meets an unexpected character. */
  lemma {:induction false} TokensFail(code: string, index: nat)
    requires index <= |code|
    ensures TokensFrom(code, index).Err? ==> TokensFrom(code, index) == Err(UnexpectedSyntax)
    decreases |code| - index
  {
    if index < |code| {
      var t := GetToken(code, index);
      if t.Ok? {
        TokensFail(code, t.value.next);
      }
    }
  }

  // ---------------------------------------------------------------------
  // The loops as the source runs them

  /** `getToken` with its white-space loop and its run loop. */
  method ReadToken(code: string, index: nat) returns (r: Result<Token>)
    requires index <= |code|
    ensures r == GetToken(code, index)
  {
    var i := index;
    while i < |code| && IsSpace(code[i])
      invariant index <= i <= |code|
      invariant SkipSpaces(code, index) == SkipSpaces(code, i)
    {
      i := i + 1;
    }
    if i == |code| {
      return Ok(Token(index, |code|, Eof, None));
    }
    var c := code[i];
    if c == '=' {
      if i + 1 < |code| && code[i + 1] == '=' {
        return Ok(Token(index, i + 2, Equal, None));
      }
      return Ok(Token(index, i + 1, Assign, None));
    }
    if Punct(c).Some? {
      return Ok(Token(index, i + 1, Punct(c).value, None));
    }
    if IsDigit(c) || IsLetter(c) {
      var digits := IsDigit(c);
      var value, e := ReadRun(code, i, digits);
      if digits {
        return Ok(Token(index, e, Number, Some(value)));
      }
      return Ok(WordToken(index, e, value));
    }
    return Err(UnexpectedSyntax);
  }

  /** The run loop of `getToken`: characters are taken while they continue the run begun at `i`. */
  method ReadRun(code: string, i: nat, digits: bool) returns (value: string, e: nat)
    requires i < |code|
    ensures e == RunEnd(code, i, digits) && value == code[i..e]
  {
    var offset := 1;
    value := [code[i]];
    while i + offset < |code| && InRun(code[i + offset], digits)
      invariant 1 <= offset <= |code| - i
      invariant value == code[i..i + offset]
      invariant RunEnd(code, i, digits) == RunEnd(code, i + offset - 1, digits)
    {
      value := value + [code[i + offset]];
      offset := offset + 1;
    }
    e := i + offset;
  }

  /** `GetTokens(src)`: tokens are read until the index reaches the end of the text. */
  method GetTokens(src: string) returns (r: Result<seq<Token>>)
    ensures r == TokensFrom(src, 0)
  {
    var tokens: seq<Token> := [];
    var index := 0;
    assert TokensFrom(src, 0).Ok? ==> [] + TokensFrom(src, 0).value == TokensFrom(src, 0).value;
    while |src| > index
      invariant index <= |src|
      invariant TokensFrom(src, 0) == Prefixed(tokens, TokensFrom(src, index))
      decreases |src| - index
    {
      var token := ReadToken(src, index);
      if token.Err? {
        return Err(token.msg);
      }
      PrefixedStep(tokens, token.value, TokensFrom(src, token.value.next));
      index := token.value.next;
      tokens := tokens + [token.value];
    }
    r := Ok(tokens);
    assert tokens + [] == tokens;
  }

  /** The tokens read so far in front of what the rest of the text lexes to. */
  function Prefixed(tokens: seq<Token>, rest: Result<seq<Token>>): Result<seq<Token>>
  {
    if rest.Err? then rest else Ok(tokens + rest.value)
  }

  lemma PrefixedStep(tokens: seq<Token>, t: Token, rest: Result<seq<Token>>)
    ensures Prefixed(tokens, if rest.Err? then Err(rest.msg) else Ok([t] + rest.value)) == Prefixed(tokens + [t], rest)
  {
    if rest.Ok? {
      assert tokens + ([t] + rest.value) == tokens + [t] + rest.value;
    }
  }
}
