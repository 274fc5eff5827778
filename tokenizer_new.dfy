/**
 * The `Tokenizer` class of new.js: `init` sets the text and a cursor at 0,
 * and each `getNextToken` skips white space and reads one token from the
 * cursor, or returns `null` once the cursor has reached the end of the
 * text.  Words may contain digits and `_`; a string runs to the closing
 * quote or to the end of the text, and the cursor then steps past it, so
 * it may end one past the end.  `GetTokens` collects tokens until the
 * first `null` or the first throw.
 */
module TokenizerNew {
  import opened Wrappers
  import LexerMain

  /**
   * The token types.  `Missing` is the type of `while`: the source looks up
   * `Tokens.whilev`, a key the table does not have, so the type is
   * `undefined`.
   */
  datatype Kind =
    | Identifier | Number | Str | BraceLeft | BraceRight | ParenLeft | ParenRight | Semicolon
    | Assign | Plus | Minus | Less | More | Div | Equal | If | Else | Func | Out | Eof | Missing

  /** A token: where the call started, where the cursor is left, its type and its value. */
  datatype Token = Token(index: nat, next: nat, kind: Kind, value: Option<string>)

  const UnexpectedSyntax := "unexpected syntax"

  /** A string, number or identifier token carries its text. */
  predicate Carries(t: Token)
  {
    (t.kind.Str? || t.kind.Number? || t.kind.Identifier?) ==> t.value.Some?
  }

  /** The `type` string of a token type, as a thrown message prints it. */
  function KindName(k: Kind): string
  {
    match k
    case Identifier => "identifier"
    case Number => "number"
    case Str => "string"
    case BraceLeft => "brace_left"
    case BraceRight => "brace_right"
    case ParenLeft => "paren_left"
    case ParenRight => "paren_right"
    case Semicolon => "semicolon"
    case Assign => "assign"
    case Plus => "plus"
    case Minus => "minus"
    case Less => "less"
    case More => "more"
    case Div => "div"
    case Equal => "equal"
    case If => "if"
    case Else => "else"
    case Func => "func"
    case Out => "out"
    case Eof => "eof"
    case Missing => "undefined"
  }

  /** `isIdentifier`: `/[a-zA-Z0-9_]/.test(c)`. */
  predicate IsWordChar(c: char)
  {
    ('a' <= c <= 'z') || ('A' <= c <= 'Z') || ('0' <= c <= '9') || c == '_'
  }

  /** `isNumber`: `/[0-9]/.test(c)`. */
  predicate IsDigit(c: char)
  {
    LexerMain.IsDigit(c)
  }

  /** The class of a run: digits, or word characters. */
  predicate InRun(c: char, digits: bool)
  {
    if digits then IsDigit(c) else IsWordChar(c)
  }

  /** Where a run from `i` ends: the first index from `i` on outside the class. */
  function RunEnd(s: string, i: nat, digits: bool): (e: nat)
    requires i <= |s|
    ensures i <= e <= |s|
    ensures forall k :: i <= k < e ==> InRun(s[k], digits)
    ensures e < |s| ==> !InRun(s[e], digits)
    decreases |s| - i
  {
    if i < |s| && InRun(s[i], digits) then RunEnd(s, i + 1, digits) else i
  }

  /** Where a string body from `i` ends: the first quote from `i` on, or the end of the text. */
  function QuoteEnd(s: string, i: nat): (e: nat)
    requires i <= |s|
    ensures i <= e <= |s|
    ensures forall k :: i <= k < e ==> s[k] != '"'
    ensures e < |s| ==> s[e] == '"'
    decreases |s| - i
  {
    if i < |s| && s[i] != '"' then QuoteEnd(s, i + 1) else i
  }

  /** The one-character tokens other than `=`. */
  function Punct(c: char): Option<Kind>
  {
    if c == '{' then Some(BraceLeft)
    else if c == '}' then Some(BraceRight)
    else if c == '(' then Some(ParenLeft)
    else if c == ')' then Some(ParenRight)
    else if c == ';' then Some(Semicolon)
    else if c == '/' then Some(Div)
    else if c == '+' then Some(Plus)
    else if c == '-' then Some(Minus)
    else if c == '<' then Some(Less)
    else if c == '>' then Some(More)
    else None
  }

  /** The keyword a word spells, if any. */
  function Keyword(w: string): Option<Kind>
  {
    if w == "func" then Some(Func)
    else if w == "if" then Some(If)
    else if w == "else" then Some(Else)
    else if w == "while" then Some(Missing)
    else if w == "out" then Some(Out)
    else None
  }

  /** The token a word `w` read from `index` to `e` becomes. */
  function WordToken(index: nat, e: nat, w: string): Token
  {
    match Keyword(w)
    case Some(k) => Token(index, e, k, None)
    case None => Token(index, e, Identifier, Some(w))
  }

  /**
   * `getNextToken` with the cursor at `c`: `null` once the cursor is at or
   * past the end, otherwise the token after the white space, or a throw on a
   * character that starts no token.
   */
  function NextToken(s: string, c: nat): (r: Result<Option<Token>>)
    ensures r == Ok(None) <==> c >= |s|
    ensures r.Ok? && r.value.Some? ==> r.value.value.index == c && c < r.value.value.next <= |s| + 1
    ensures r.Ok? && r.value.Some? ==> Carries(r.value.value)
  {
    if c >= |s| then Ok(None)
    else
      var i := LexerMain.SkipSpaces(s, c);
      if i == |s| then Ok(Some(Token(c, |s|, Eof, None)))
      else
        var ch := s[i];
        if Punct(ch).Some? then Ok(Some(Token(c, i + 1, Punct(ch).value, None)))
        else if ch == '=' then
          if i + 1 < |s| && s[i + 1] == '=' then Ok(Some(Token(c, i + 2, Equal, None)))
          else Ok(Some(Token(c, i + 1, Assign, None)))
        else if ch == '"' then
          var e := QuoteEnd(s, i + 1);
          Ok(Some(Token(c, e + 1, Str, Some(s[i + 1..e]))))
        else if IsDigit(ch) then
          var e := RunEnd(s, i, true);
          Ok(Some(Token(c, e, Number, Some(s[i..e]))))
        else if IsWordChar(ch) then
          var e := RunEnd(s, i, false);
          Ok(Some(WordToken(c, e, s[i..e])))
        else Err(UnexpectedSyntax)
  }

  // ---------------------------------------------------------------------
  // What a token is

  /*
   * The token read from cursor `c`, characterised by the first character
   * after the white space (at `i`).
   */

  /**
   * White space is skipped, and the token is `eof` ending at the end of the
   * text exactly when nothing but white space remains.
   */
  lemma NextTokenEof(s: string, c: nat)
    requires c < |s|
    ensures var i := LexerMain.SkipSpaces(s, c);
      (forall k :: c <= k < i ==> LexerMain.IsSpace(s[k])) &&
      (i < |s| ==> !LexerMain.IsSpace(s[i])) &&
      (NextToken(s, c) == Ok(Some(Token(c, |s|, Eof, None))) <==> forall k :: c <= k < |s| ==> LexerMain.IsSpace(s[k]))
  {
  }

  /**
   * `==` is one `equal` token and a lone `=` an `assign`; the call throws
   * exactly on a character that starts no token.
   */
  lemma NextTokenPunct(s: string, c: nat)
    requires c < |s| && LexerMain.SkipSpaces(s, c) < |s|
    ensures var r := NextToken(s, c); var i := LexerMain.SkipSpaces(s, c);
      (s[i] == '=' && i + 1 < |s| && s[i + 1] == '=' ==> r == Ok(Some(Token(c, i + 2, Equal, None)))) &&
      (s[i] == '=' && (i + 1 == |s| || s[i + 1] != '=') ==> r == Ok(Some(Token(c, i + 1, Assign, None)))) &&
      (r.Err? <==> !(IsWordChar(s[i]) || s[i] in "{}();/=+-<>\""))
  {
    var ch := s[LexerMain.SkipSpaces(s, c)];
    assert ch in "{}();/=+-<>\"" <==> ch == '=' || ch == '"' || Punct(ch).Some?;
  }

  /**
   * A string token carries everything up to the next quote, and the cursor
   * is left just past that quote; without a closing quote it carries the
   * rest of the text and the cursor is left one past the end.
   */
  lemma NextTokenString(s: string, c: nat)
    requires c < |s| && LexerMain.SkipSpaces(s, c) < |s| && s[LexerMain.SkipSpaces(s, c)] == '"'
    ensures var r := NextToken(s, c); var i := LexerMain.SkipSpaces(s, c);
      r.Ok? && r.value.Some? && r.value.value.kind == Str &&
      var t := r.value.value;
      i + 1 < t.next && t.value == Some(s[i + 1..t.next - 1]) && '"' !in s[i + 1..t.next - 1] &&
      (t.next <= |s| ==> s[t.next - 1] == '"') &&
      (t.next == |s| + 1 <==> '"' !in s[i + 1..])
  {
    var i := LexerMain.SkipSpaces(s, c);
    var e := QuoteEnd(s, i + 1);
    if e < |s| {
      assert s[i + 1..][e - (i + 1)] == '"';
    } else {
      assert s[i + 1..] == s[i + 1..e];
    }
  }

  /**
   * A number is a maximal run of digits and carries it; a word is a maximal
   * run of word characters that does not start with a digit, a keyword when
   * it spells one and otherwise an `identifier` carrying it.
   */
  lemma NextTokenRuns(s: string, c: nat)
    requires c < |s| && LexerMain.SkipSpaces(s, c) < |s|
    ensures var r := NextToken(s, c); var i := LexerMain.SkipSpaces(s, c);
      (IsDigit(s[i]) ==>
        r.Ok? && r.value.Some? && r.value.value.kind == Number && i < r.value.value.next &&
        r.value.value.value == Some(s[i..r.value.value.next]) &&
        (forall k :: i <= k < r.value.value.next ==> IsDigit(s[k])) &&
        (r.value.value.next == |s| || !IsDigit(s[r.value.value.next]))) &&
      (IsWordChar(s[i]) && !IsDigit(s[i]) ==>
        r.Ok? && r.value.Some? && i < r.value.value.next &&
        var w := s[i..r.value.value.next];
        (forall k :: i <= k < r.value.value.next ==> IsWordChar(s[k])) &&
        (r.value.value.next == |s| || !IsWordChar(s[r.value.value.next])) &&
        (Keyword(w).Some? ==> r.value.value.kind == Keyword(w).value && r.value.value.value == None) &&
        (Keyword(w).None? ==> r.value.value.kind == Identifier && r.value.value.value == Some(w)))
  {
  }

  /** `while` is read as a word whose type is `undefined`, not as a `while` token. */
  lemma WhileIsMissing(s: string, c: nat)
    requires c < |s| && LexerMain.SkipSpaces(s, c) + 5 <= |s|
    requires var i := LexerMain.SkipSpaces(s, c); s[i..i + 5] == "while"
    requires var i := LexerMain.SkipSpaces(s, c); i + 5 == |s| || !IsWordChar(s[i + 5])
    ensures NextToken(s, c) == Ok(Some(Token(c, LexerMain.SkipSpaces(s, c) + 5, Missing, None)))
  {
    var i := LexerMain.SkipSpaces(s, c);
    assert s[i] == "while"[0];
    assert forall k :: i <= k < i + 5 ==> IsWordChar(s[k]) by {
      forall k | i <= k < i + 5 ensures IsWordChar(s[k]) {
        assert s[k] == "while"[k - i];
      }
    }
    RunEndAt(s, i, i + 5, false);
  }

  /** A run that covers `[i, e)` and stops at `e` ends at `e`. */
  lemma {:induction false} RunEndAt(s: string, i: nat, e: nat, digits: bool)
    requires i <= e <= |s|
    requires forall k :: i <= k < e ==> InRun(s[k], digits)
    requires e == |s| || !InRun(s[e], digits)
    ensures RunEnd(s, i, digits) == e
    decreases e - i
  {
    if i < e {
      RunEndAt(s, i + 1, e, digits);
    }
  }

  /** The cursor `getNextToken` leaves from `c` when it returns or throws `r`. */
  predicate Moved(s: string, c: nat, r: Result<Option<Token>>, after: nat)
  {
    match r
    case Ok(None) => after == c
    case Ok(Some(t)) => after == t.next
    case Err(_) => c < |s| && after == LexerMain.SkipSpaces(s, c)
  }

  // ---------------------------------------------------------------------
  // The whole text

  /** `GetTokens` from cursor `c`: the tokens up to the first `null` or the first throw. */
  function TokenList(s: string, c: nat): seq<Token>
    decreases |s| + 1 - c
  {
    match NextToken(s, c)
    case Ok(Some(t)) => [t] + TokenList(s, t.next)
    case _ => []
  }

  /** Tokens `ts` in source order from `c`, each call advancing and starting where the last ended. */
  predicate Chained(ts: seq<Token>, c: nat)
  {
    (ts != [] ==> ts[0].index == c) &&
    (forall k :: 0 <= k < |ts| ==> ts[k].index < ts[k].next) &&
    (forall k :: 0 <= k < |ts| - 1 ==> ts[k].next == ts[k + 1].index)
  }

  /**
   * The collected tokens are in source order, and none but possibly the
   * last is `eof`: a token that reaches the end of the text ends the list.
   */
  lemma {:induction false} TokenListChained(s: string, c: nat)
    ensures var ts := TokenList(s, c);
      Chained(ts, c) && forall k :: 0 <= k < |ts| - 1 ==> ts[k].next < |s|
    decreases |s| + 1 - c
  {
    var r := NextToken(s, c);
    if r.Ok? && r.value.Some? {
      var t := r.value.value;
      TokenListChained(s, t.next);
      var rest := TokenList(s, t.next);
      var ts := [t] + rest;
      assert ts == TokenList(s, c);
      assert forall k :: 1 <= k < |ts| ==> ts[k] == rest[k - 1];
      if rest != [] {
        assert NextToken(s, t.next) != Ok(None);
      }
    }
  }

  // ---------------------------------------------------------------------
  // The tokenizer object

  class Tokenizer {
    var text: string
    var cursor: nat

    /** `new Tokenizer()`: the fields are set by `init`; until then the model holds an empty text. */
    constructor ()
      ensures text == "" && cursor == 0
    {
      text := "";
      cursor := 0;
    }

    /** `init(string)`. */
    method Init(s: string)
      modifies this
      ensures text == s && cursor == 0
    {
      text := s;
      cursor := 0;
    }

    /** `hasMoreTokens()`. */
    predicate HasMoreTokens()
      reads this
    {
      cursor < |text|
    }

    /** `eof()`. */
    predicate Eof()
      reads this
    {
      cursor >= |text|
    }

    /** `getNextToken()`: the token from the cursor, and the cursor moved past it. */
    method GetNextToken() returns (r: Result<Option<Token>>)
      modifies this
      ensures text == old(text)
      ensures r == NextToken(text, old(cursor))
      ensures Moved(text, old(cursor), r, cursor)
    {
      if !HasMoreTokens() {
        return Ok(None);
      }
      var index := cursor;
      SkipSpace();
      if Eof() {
        return Ok(Some(Token(index, |text|, Kind.Eof, None)));
      }
      var c := text[cursor];
      if Punct(c).Some? {
        cursor := cursor + 1;
        return Ok(Some(Token(index, cursor, Punct(c).value, None)));
      }
      if c == '=' {
        cursor := cursor + 1;
        if !Eof() && text[cursor] == '=' {
          cursor := cursor + 1;
          return Ok(Some(Token(index, cursor, Equal, None)));
        }
        return Ok(Some(Token(index, cursor, Assign, None)));
      }
      if c == '"' {
        cursor := cursor + 1;
        var value := ReadString();
        cursor := cursor + 1;
        return Ok(Some(Token(index, cursor, Str, Some(value))));
      }
      if IsDigit(c) {
        var number := ReadRun(true);
        return Ok(Some(Token(index, cursor, Number, Some(number))));
      }
      if IsWordChar(c) {
        var value := ReadRun(false);
        return Ok(Some(WordToken(index, cursor, value)));
      }
      return Err(UnexpectedSyntax);
    }

    /** The white-space loop of `getNextToken`. */
    method SkipSpace()
      requires cursor <= |text|
      modifies this
      ensures text == old(text) && cursor == LexerMain.SkipSpaces(text, old(cursor))
    {
      while !Eof() && LexerMain.IsSpace(text[cursor])
        invariant text == old(text)
        invariant old(cursor) <= cursor <= |text|
        invariant LexerMain.SkipSpaces(text, cursor) == LexerMain.SkipSpaces(text, old(cursor))
        decreases |text| - cursor
      {
        cursor := cursor + 1;
      }
    }

    /** The string loop of `getNextToken`: characters are taken up to a quote or the end. */
    method ReadString() returns (value: string)
      requires cursor <= |text|
      modifies this
      ensures text == old(text) && cursor == QuoteEnd(text, old(cursor))
      ensures value == text[old(cursor)..cursor]
    {
      value := "";
      while !Eof() && text[cursor] != '"'
        invariant text == old(text)
        invariant old(cursor) <= cursor <= |text|
        invariant value == text[old(cursor)..cursor]
        invariant QuoteEnd(text, cursor) == QuoteEnd(text, old(cursor))
        decreases |text| - cursor
      {
        value := value + [text[cursor]];
        cursor := cursor + 1;
      }
    }

    /** The number and identifier loops of `getNextToken`: characters are taken while they continue the run. */
    method ReadRun(digits: bool) returns (value: string)
      requires cursor <= |text|
      modifies this
      ensures text == old(text) && cursor == RunEnd(text, old(cursor), digits)
      ensures value == text[old(cursor)..cursor]
    {
      value := "";
      while !Eof() && InRun(text[cursor], digits)
        invariant text == old(text)
        invariant old(cursor) <= cursor <= |text|
        invariant value == text[old(cursor)..cursor]
        invariant RunEnd(text, cursor, digits) == RunEnd(text, old(cursor), digits)
        decreases |text| - cursor
      {
        value := value + [text[cursor]];
        cursor := cursor + 1;
      }
    }
  }

  /** `GetTokens(src)` of new.js: tokens are collected until `null`; a throw ends the list quietly. */
  method GetTokens(src: string) returns (tokens: seq<Token>)
    ensures tokens == TokenList(src, 0)
  {
    tokens := [];
    var tokenizer := new Tokenizer();
    tokenizer.Init(src);
    while true
      invariant tokenizer.text == src
      invariant tokenizer.cursor <= |src| + 1
      invariant TokenList(src, 0) == tokens + TokenList(src, tokenizer.cursor)
      decreases |src| + 1 - tokenizer.cursor
    {
      ghost var before := tokenizer.cursor;
      var token := tokenizer.GetNextToken();
      if token.Err? || token.value.None? {
        assert tokens + TokenList(src, before) == tokens;
        return;
      }
      assert TokenList(src, before) == [token.value.value] + TokenList(src, tokenizer.cursor);
      tokens := tokens + [token.value.value];
    }
  }
}
