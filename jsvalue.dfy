/**
 * The few JavaScript value conversions the generators depend on: the
 * truncating `%`, printing a whole number in a template string, and
 * `Number(text)` with `Number.isInteger` / `isNaN` on its result.
 */
module JsValue {
  import opened Wrappers

  /** JavaScript's `a % b` for a positive divisor: the remainder takes the sign of `a`. */
  function JsRem(a: int, b: int): (r: int)
    requires b > 0
    ensures r % b == a % b
    ensures 0 <= a ==> 0 <= r < b
    ensures a < 0 ==> -b < r <= 0
  {
    if a >= 0 then a % b
    else
      var r := -((-a) % b);
      assert r % b == a % b by { RemNegate(a, b); }
      r
  }

  lemma RemNegate(a: int, b: int)
    requires b > 0 && a < 0
    ensures (-((-a) % b)) % b == a % b
  {
    var q := (-a) / b;
    var m := (-a) % b;
    assert -a == b * q + m;
    assert a == b * (-q) + (-m);
    ModMultiple(b, -q, -m);
  }

  lemma ModMultiple(b: int, k: int, x: int)
    requires b > 0
    ensures (b * k + x) % b == x % b
  {
    var y := b * k + x;
    assert y == b * (y / b) + y % b;
    assert x == b * (x / b) + x % b;
    var d := k + x / b - y / b;
    assert b * d == y % b - x % b;
    MulSmall(b, d);
  }

  lemma MulSmall(b: int, d: int)
    requires b > 0 && -b < b * d < b
    ensures d == 0
  {
  }

  function DigitChar(d: nat): char
    requires d < 10
  {
    "0123456789"[d]
  }

  predicate IsDigit(c: char)
  {
    '0' <= c <= '9'
  }

  function DigitValue(c: char): nat
    requires IsDigit(c)
  {
    (c as int) - ('0' as int)
  }

  predicate AllDigits(s: string)
  {
    forall k :: 0 <= k < |s| ==> IsDigit(s[k])
  }

  /** The value of a run of decimal digits (0 for the empty run). */
  function DigitsValue(s: string): nat
    requires AllDigits(s)
  {
    if s == [] then 0 else DigitsValue(s[..|s| - 1]) * 10 + DigitValue(s[|s| - 1])
  }

  /** How a whole number prints in a template string: decimal, no leading zeros. */
  function NatText(n: nat): (s: string)
    ensures |s| > 0
  {
    if n < 10 then [DigitChar(n)] else NatText(n / 10) + [DigitChar(n % 10)]
  }

  /** A printed whole number is all digits, with no leading zero. */
  lemma {:induction false} NatTextDigits(n: nat)
    ensures AllDigits(NatText(n))
    ensures |NatText(n)| > 1 ==> NatText(n)[0] != '0'
  {
    if n >= 10 {
      NatTextDigits(n / 10);
    }
  }

  /** Printing a whole number and reading it back gives the number. */
  lemma {:induction false} NatTextValue(n: nat)
    ensures AllDigits(NatText(n)) && DigitsValue(NatText(n)) == n
  {
    NatTextDigits(n);
    if n >= 10 {
      var s := NatText(n);
      assert s[..|s| - 1] == NatText(n / 10);
      NatTextValue(n / 10);
    }
  }

  /** Different numbers print differently, so generated names never collide. */
  lemma NatTextInjective(m: nat, n: nat)
    requires NatText(m) == NatText(n)
    ensures m == n
  {
    NatTextValue(m);
    NatTextValue(n);
  }

  function IntText(i: int): string
  {
    if i < 0 then "-" + NatText(-i) else NatText(i)
  }

  // ---------------------------------------------------------------------
  // Number(text)

  /**
   * A JavaScript number as far as the generators look at it: a whole
   * number, a number with a fractional part (kept as the text JavaScript
   * prints for it), an infinity, or NaN.
   */
  datatype JsNumber = Integer(value: int) | Fractional(text: string) | Infinite(negative: bool) | NaN

  /** `Number.isInteger`. */
  predicate IsInteger(x: JsNumber)
  {
    x.Integer?
  }

  /** How a number prints inside a template string. */
  function NumberText(x: JsNumber): string
  {
    match x
    case Integer(v) => IntText(v)
    case Fractional(t) => t
    case Infinite(neg) => if neg then "-Infinity" else "Infinity"
    case NaN => "NaN"
  }

  /** The white space `Number` trims from both ends of its argument. */
  predicate IsJsSpace(c: char)
  {
    c in {'\t', '\n', '\U{000B}', '\U{000C}', '\r', ' ', '\U{00A0}', '\U{1680}', '\U{2028}',
          '\U{2029}', '\U{202F}', '\U{205F}', '\U{3000}', '\U{FEFF}'} ||
    ('\U{2000}' <= c <= '\U{200A}')
  }

  /** `trimStart`: the suffix left once the leading white space is dropped. */
  function TrimStart(s: string): (r: string)
    ensures |r| <= |s| && r == s[|s| - |r|..]
    ensures r != [] ==> !IsJsSpace(r[0])
    ensures forall k :: 0 <= k < |s| - |r| ==> IsJsSpace(s[k])
  {
    if s != [] && IsJsSpace(s[0]) then TrimStart(s[1..]) else s
  }

  /** `trimEnd`: the prefix left once the trailing white space is dropped. */
  function TrimEnd(s: string): (r: string)
    ensures |r| <= |s| && r == s[..|r|]
    ensures r != [] ==> !IsJsSpace(r[|r| - 1])
    ensures forall k :: |r| <= k < |s| ==> IsJsSpace(s[k])
  {
    if s != [] && IsJsSpace(s[|s| - 1]) then TrimEnd(s[..|s| - 1]) else s
  }

  function Trim(s: string): string
  {
    TrimEnd(TrimStart(s))
  }

  /** The longest run of digits at the start of `s`. */
  function DigitPrefix(s: string): (r: string)
    ensures |r| <= |s| && r == s[..|r|] && AllDigits(r)
    ensures |r| < |s| ==> !IsDigit(s[|r|])
  {
    if s != [] && IsDigit(s[0]) then [s[0]] + DigitPrefix(s[1..]) else []
  }

  /** Drops trailing zeros of a fraction's digits. */
  function StripZeros(f: string): (r: string)
    ensures |r| <= |f| && r == f[..|r|]
    ensures r != [] ==> r[|r| - 1] != '0'
  {
    if f != [] && f[|f| - 1] == '0' then StripZeros(f[..|f| - 1]) else f
  }

  /**
   * An unsigned decimal literal: digits, optionally a point and more
   * digits, with at least one digit before the exponent, then optionally
   * `e` or `E`, a sign and digits; or `Infinity`.
   */
  function UnsignedNumber(s: string, negative: bool): JsNumber
  {
    if s == "Infinity" then Infinite(negative)
    else
      var whole := DigitPrefix(s);
      var rest := s[|whole|..];
      var point := rest != [] && rest[0] == '.';
      var frac := if point then DigitPrefix(rest[1..]) else [];
      var tail := if point then rest[1 + |frac|..] else rest;
      if whole == [] && frac == [] then NaN
      else if tail == [] then Scaled(whole, frac, 0, negative)
      else if (tail[0] == 'e' || tail[0] == 'E') && ExponentOf(tail[1..]).Some? then
        Scaled(whole, frac, ExponentOf(tail[1..]).value, negative)
      else NaN
  }

  /** The exponent after `e`: an optional sign, then at least one digit. */
  function ExponentOf(t: string): Option<int>
  {
    var signed := t != [] && (t[0] == '+' || t[0] == '-');
    var digits := if signed then t[1..] else t;
    if digits != [] && AllDigits(digits) then Some(Signed(DigitsValue(digits), signed && t[0] == '-'))
    else None
  }

  function Zeros(n: nat): (r: string)
    ensures |r| == n && AllDigits(r)
  {
    seq(n, _ => '0')
  }

  /**
   * The number whose digits are `whole` then `frac`, with the decimal
   * point after `whole` moved `e` places to the right.
   */
  function Scaled(whole: string, frac: string, e: int, negative: bool): JsNumber
    requires AllDigits(whole) && AllDigits(frac)
  {
    var m := whole + frac;
    assert AllDigits(m) by { assert forall k :: 0 <= k < |m| ==> m[k] == if k < |whole| then whole[k] else frac[k - |whole|]; }
    var p := |whole| + e;
    if p >= |m| then Decimal(m + Zeros(p - |m|), [], negative)
    else if p <= 0 then Decimal([], Zeros(-p) + m, negative)
    else Decimal(m[..p], m[p..], negative)
  }

  /**
   * The number with digits `w` before the point and `f` after it: a whole
   * number when `f` is all zeros, otherwise the text JavaScript prints.
   */
  function Decimal(w: string, f: string, negative: bool): JsNumber
    requires AllDigits(w) && AllDigits(f)
  {
    var g := StripZeros(f);
    if g == [] then Integer(Signed(DigitsValue(w), negative))
    else Fractional((if negative then "-" else "") + NatText(DigitsValue(w)) + "." + g)
  }

  function Signed(n: nat, negative: bool): int
  {
    if negative then -(n as int) else n
  }

  /** A digit of a literal in base `radix` (2, 8 or 16). */
  predicate IsRadixDigit(c: char, radix: nat)
  {
    (IsDigit(c) && DigitValue(c) < radix) || (radix == 16 && ('a' <= c <= 'f' || 'A' <= c <= 'F'))
  }

  predicate AllRadixDigits(s: string, radix: nat)
  {
    forall k :: 0 <= k < |s| ==> IsRadixDigit(s[k], radix)
  }

  function RadixDigitValue(c: char): nat
  {
    if IsDigit(c) then DigitValue(c)
    else if 'a' <= c <= 'f' then (c as int) - ('a' as int) + 10
    else if 'A' <= c <= 'F' then (c as int) - ('A' as int) + 10
    else 0
  }

  /** The value of a run of base-`radix` digits. */
  function RadixValue(s: string, radix: nat): nat
  {
    if s == [] then 0 else RadixValue(s[..|s| - 1], radix) * radix + RadixDigitValue(s[|s| - 1])
  }

  /** The base a `0x`, `0o` or `0b` prefix announces, in either case; 0 for any other letter. */
  function RadixOf(c: char): nat
  {
    if c == 'x' || c == 'X' then 16 else if c == 'o' || c == 'O' then 8 else if c == 'b' || c == 'B' then 2 else 0
  }

  /**
   * `Number(s)` for a string: white space around the literal is ignored,
   * the empty string is 0, a `0x`, `0o` or `0b` literal is read in its
   * base without a sign, a sign may precede a decimal literal or
   * `Infinity`, and anything else is NaN.
   */
  function Number(s: string): JsNumber
  {
    var t := Trim(s);
    if t == [] then Integer(0)
    else if |t| >= 2 && t[0] == '0' && RadixOf(t[1]) != 0 then
      if |t| > 2 && AllRadixDigits(t[2..], RadixOf(t[1])) then Integer(RadixValue(t[2..], RadixOf(t[1]))) else NaN
    else if t[0] == '+' then UnsignedNumber(t[1..], false)
    else if t[0] == '-' then UnsignedNumber(t[1..], true)
    else UnsignedNumber(t, false)
  }

  /** A run of digits converts to its decimal value. */
  lemma NumberDigits(s: string)
    requires AllDigits(s) && s != []
    ensures Number(s) == Integer(DigitsValue(s))
  {
    DigitsPlain(s);
    UnsignedWhole(s);
    ScaledWhole(s, 0);
    assert Pow10(0) == 1;
  }

  lemma UnsignedWhole(s: string)
    requires AllDigits(s) && s != []
    ensures UnsignedNumber(s, false) == Scaled(s, [], 0, false)
  {
    DigitPrefixAll(s);
    assert s != "Infinity" by { assert IsDigit(s[0]); }
    assert s[|s|..] == [];
  }

  /** A text that starts with a digit other than a `0x`-style prefix is read as an unsigned decimal literal. */
  lemma NumberPlain(t: string)
    requires t != [] && IsDigit(t[0]) && IsDigit(t[|t| - 1])
    requires |t| >= 2 ==> RadixOf(t[1]) == 0
    ensures Number(t) == UnsignedNumber(t, false)
  {
    TrimDigits(t);
  }

  lemma TrimDigits(t: string)
    requires t != [] && IsDigit(t[0]) && IsDigit(t[|t| - 1])
    ensures Trim(t) == t
  {
    assert TrimStart(t) == t;
    TrimEndDigit(t);
  }

  lemma TrimEndDigit(t: string)
    requires t != [] && IsDigit(t[|t| - 1])
    ensures TrimEnd(t) == t
  {
  }

  lemma DigitsPlain(s: string)
    requires AllDigits(s) && s != []
    ensures Number(s) == UnsignedNumber(s, false)
  {
    assert IsDigit(s[0]) && IsDigit(s[|s| - 1]);
    if |s| >= 2 {
      assert IsDigit(s[1]);
    }
    NumberPlain(s);
  }

  /** Whole digits with the point moved `e` places right: the value times ten to the `e`. */
  lemma ScaledWhole(w: string, e: nat)
    requires AllDigits(w)
    ensures Scaled(w, [], e, false) == Integer(DigitsValue(w) * Pow10(e))
  {
    assert w + [] == w;
    DigitsZeros(w, e);
  }

  function Pow10(k: nat): nat
  {
    if k == 0 then 1 else 10 * Pow10(k - 1)
  }

  /** Digits with an exponent: `Number("12e3")` is 12000. */
  lemma NumberExponent(s: string, k: nat)
    requires AllDigits(s) && s != []
    ensures Number(s + "e" + NatText(k)) == Integer(DigitsValue(s) * Pow10(k))
  {
    var e := NatText(k);
    var t := s + "e" + e;
    NatTextValue(k);
    assert IsDigit(s[0]) && IsDigit(e[|e| - 1]) && IsDigit(e[0]);
    assert t[0] == s[0] && t[|t| - 1] == e[|e| - 1];
    if |s| >= 2 {
      assert t[1] == s[1] && IsDigit(s[1]);
    } else {
      assert t[1] == 'e';
    }
    NumberPlain(t);
    ExponentTail(s, e, k);
    ScaledWhole(s, k);
  }

  lemma ExponentTail(s: string, e: string, k: nat)
    requires AllDigits(s) && s != [] && e == NatText(k) && AllDigits(e) && DigitsValue(e) == k
    ensures UnsignedNumber(s + "e" + e, false) == Scaled(s, [], k, false)
  {
    var t := s + "e" + e;
    assert t == s + ("e" + e);
    DigitPrefixStops(s, "e" + e);
    assert t[|s|..] == "e" + e;
    assert ("e" + e)[1..] == e;
    assert e[0] != '+' && e[0] != '-' by { assert IsDigit(e[0]); }
    assert ExponentOf(e) == Some(k);
  }

  lemma {:induction false} DigitPrefixStops(s: string, t: string)
    requires AllDigits(s) && t != [] && !IsDigit(t[0])
    ensures DigitPrefix(s + t) == s
  {
    if s != [] {
      assert (s + t)[1..] == s[1..] + t;
      DigitPrefixStops(s[1..], t);
    } else {
      assert s + t == t;
    }
  }

  /** Appending k zeros multiplies by ten to the k. */
  lemma {:induction false} DigitsZeros(s: string, k: nat)
    requires AllDigits(s)
    ensures AllDigits(s + Zeros(k)) && DigitsValue(s + Zeros(k)) == DigitsValue(s) * Pow10(k)
  {
    var m := s + Zeros(k);
    assert forall j :: 0 <= j < |m| ==> m[j] == if j < |s| then s[j] else '0';
    if k == 0 {
      assert m == s;
    } else {
      DigitsZeros(s, k - 1);
      assert m[..|m| - 1] == s + Zeros(k - 1);
      calc {
        DigitsValue(m);
        DigitsValue(s + Zeros(k - 1)) * 10;
        DigitsValue(s) * Pow10(k - 1) * 10;
        { MulAssoc10(DigitsValue(s), Pow10(k - 1)); }
        DigitsValue(s) * Pow10(k);
      }
    }
  }

  lemma MulAssoc10(a: nat, b: nat)
    ensures a * b * 10 == a * (10 * b)
  {
  }

  /** `0x`, `0o` and `0b` literals are read in their base: `Number("0x1F")` is 31. */
  lemma NumberRadix(c: char, h: string)
    requires RadixOf(c) != 0 && h != [] && AllRadixDigits(h, RadixOf(c))
    ensures Number("0" + [c] + h) == Integer(RadixValue(h, RadixOf(c)))
  {
    var t := "0" + [c] + h;
    assert IsRadixDigit(h[|h| - 1], RadixOf(c));
    assert t[|t| - 1] == h[|h| - 1];
    assert !IsJsSpace(t[0]);
    assert TrimStart(t) == t;
    assert TrimEnd(t) == t;
    assert t[1] == c && t[2..] == h;
  }

  lemma DigitsNotSpace(s: string)
    requires AllDigits(s) && s != []
    ensures TrimStart(s) == s && TrimEnd(s) == s && Trim(s) == s
  {
    assert !IsJsSpace(s[0]);
    assert !IsJsSpace(s[|s| - 1]);
  }

  lemma {:induction false} DigitPrefixAll(s: string)
    requires AllDigits(s)
    ensures DigitPrefix(s) == s
  {
    if s != [] {
      DigitPrefixAll(s[1..]);
    }
  }

  /** `Number(null)`: a node without text converts to 0. */
  function NumberOf(text: Option<string>): (x: JsNumber)
    ensures text.None? ==> x == Integer(0)
  {
    if text.None? then Integer(0) else Number(text.value)
  }

  // ---------------------------------------------------------------------
  // String.prototype.split with a one-character separator

  /** `s.split(sep)`: the pieces between separators; one empty piece for the empty string. */
  function Split(s: string, sep: char): (r: seq<string>)
    ensures |r| >= 1
    ensures forall k :: 0 <= k < |r| ==> sep !in r[k]
  {
    if s == [] then [[]]
    else
      var rest := Split(s[1..], sep);
      if s[0] == sep then [[]] + rest
      else
        assert forall k :: 1 <= k < |rest| ==> rest[k] == rest[1..][k - 1];
        [[s[0]] + rest[0]] + rest[1..]
  }

  /** `fields.join(sep)`. */
  function Join(fields: seq<string>, sep: char): string
    requires |fields| >= 1
  {
    if |fields| == 1 then fields[0] else fields[0] + [sep] + Join(fields[1..], sep)
  }

  /** Splitting loses nothing: joining the pieces with the separator restores the text. */
  lemma {:induction false} JoinSplit(s: string, sep: char)
    ensures Join(Split(s, sep), sep) == s
  {
    if s != [] {
      var rest := Split(s[1..], sep);
      JoinSplit(s[1..], sep);
      if s[0] == sep {
        assert Split(s, sep)[1..] == rest;
      } else {
        var r := Split(s, sep);
        if |rest| == 1 {
          assert r == [[s[0]] + rest[0]];
        } else {
          assert r[1..] == rest[1..];
          assert Join(rest, sep) == rest[0] + [sep] + Join(rest[1..], sep);
        }
      }
    }
  }
}
