/**
 * `LenOptimizer` (identical in main.js and new.js): a peephole pass that
 * deletes one `<>`, one `><`, one `+-` and one `-+` per round, and repeats
 * rounds until a round changes nothing.
 */
module LenOptimizer {

  /** `s` holds `x` immediately followed by `y` somewhere. */
  predicate HasPair(s: string, x: char, y: char)
  {
    exists k :: 0 <= k < |s| - 1 && s[k] == x && s[k + 1] == y
  }

  /**
   * `s.replace(xy, '')` for the two-character pattern `xy`: only the first
   * occurrence is removed.
   */
  function ReplaceFirst(s: string, x: char, y: char): (r: string)
    ensures HasPair(s, x, y) ==> |r| == |s| - 2
    ensures !HasPair(s, x, y) ==> r == s
  {
    if |s| < 2 then s
    else if s[0] == x && s[1] == y then s[2..]
    else
      var rest := ReplaceFirst(s[1..], x, y);
      assert HasPair(s, x, y) ==> HasPair(s[1..], x, y) by {
        if HasPair(s, x, y) {
          var k :| 0 <= k < |s| - 1 && s[k] == x && s[k + 1] == y;
          assert k >= 1 && s[1..][k - 1] == x && s[1..][k] == y;
        }
      }
      assert HasPair(s[1..], x, y) ==> HasPair(s, x, y) by {
        if HasPair(s[1..], x, y) {
          var k :| 0 <= k < |s| - 2 && s[1..][k] == x && s[1..][k + 1] == y;
          assert s[k + 1] == x && s[k + 2] == y;
        }
      }
      [s[0]] + rest
  }

  /** The pair `xy` starts at index k of `s`. */
  predicate PairAt(s: string, x: char, y: char, k: int)
  {
    0 <= k < |s| - 1 && s[k] == x && s[k + 1] == y
  }

  /** k is the least index where the pair starts. */
  predicate FirstAt(s: string, x: char, y: char, k: int)
  {
    PairAt(s, x, y, k) && forall i :: 0 <= i < k ==> !PairAt(s, x, y, i)
  }

  /**
   * What `replace` removes: the pair at the least index where it occurs,
   * with the text around it kept.
   */
  lemma {:induction false} ReplaceFirstAt(s: string, x: char, y: char)
    requires HasPair(s, x, y)
    ensures exists k :: FirstAt(s, x, y, k) && ReplaceFirst(s, x, y) == s[..k] + s[k + 2..]
  {
    if PairAt(s, x, y, 0) {
      assert FirstAt(s, x, y, 0);
      assert ReplaceFirst(s, x, y) == s[..0] + s[2..];
    } else {
      var t := s[1..];
      var j :| 0 <= j < |s| - 1 && s[j] == x && s[j + 1] == y;
      assert PairAt(t, x, y, j - 1);
      ReplaceFirstAt(t, x, y);
      var k' :| FirstAt(t, x, y, k') && ReplaceFirst(t, x, y) == t[..k'] + t[k' + 2..];
      var k := k' + 1;
      forall i | 0 <= i < k
        ensures !PairAt(s, x, y, i)
      {
        if i > 0 {
          assert !PairAt(t, x, y, i - 1);
        }
      }
      assert FirstAt(s, x, y, k);
      assert ReplaceFirst(s, x, y) == [s[0]] + ReplaceFirst(t, x, y);
      assert [s[0]] + t[..k'] == s[..k] && t[k' + 2..] == s[k + 2..];
    }
  }

  /** The four replacements of one round of the `do` loop. */
  function Round(s: string): string
  {
    ReplaceFirst(ReplaceFirst(ReplaceFirst(ReplaceFirst(s, '<', '>'), '>', '<'), '+', '-'), '-', '+')
  }

  /** `LenOptimizer(src)`: rounds until one leaves the text as it was. */
  function Optimize(s: string): string
    decreases |s|
  {
    var r := Round(s);
    RoundShrinks(s);
    if r == s then s else Optimize(r)
  }

  /** A round never lengthens the text, and a round that changes it shortens it. */
  lemma RoundShrinks(s: string)
    ensures |Round(s)| <= |s|
    ensures Round(s) != s ==> |Round(s)| < |s|
  {
  }

  /** A round that changes nothing found none of the four pairs. */
  lemma RoundFixed(s: string)
    requires Round(s) == s
    ensures !HasPair(s, '<', '>') && !HasPair(s, '>', '<') && !HasPair(s, '+', '-') && !HasPair(s, '-', '+')
  {
    var s1 := ReplaceFirst(s, '<', '>');
    var s2 := ReplaceFirst(s1, '>', '<');
    var s3 := ReplaceFirst(s2, '+', '-');
    assert |Round(s)| <= |s3| <= |s2| <= |s1| <= |s|;
    assert s1 == s;
    assert s2 == s;
    assert s3 == s;
  }

  /** The loop as the source runs it: a `do`/`while` on "the round changed something". */
  method Run(src0: string) returns (src: string)
    ensures src == Optimize(src0)
  {
    src := src0;
    while true
      invariant Optimize(src) == Optimize(src0)
      decreases |src|
    {
      var oldSrc := src;
      src := ReplaceFirst(src, '<', '>');
      src := ReplaceFirst(src, '>', '<');
      src := ReplaceFirst(src, '+', '-');
      src := ReplaceFirst(src, '-', '+');
      assert src == Round(oldSrc);
      RoundShrinks(oldSrc);
      if oldSrc == src {
        return;
      }
    }
  }

  // ---------------------------------------------------------------------
  // What the pass guarantees

  /** The result holds none of `<>`, `><`, `+-`, `-+`. */
  lemma {:induction false} OptimizeClean(s: string)
    ensures var r := Optimize(s);
      !HasPair(r, '<', '>') && !HasPair(r, '>', '<') && !HasPair(r, '+', '-') && !HasPair(r, '-', '+')
    decreases |s|
  {
    RoundShrinks(s);
    if Round(s) == s {
      RoundFixed(s);
    } else {
      OptimizeClean(Round(s));
    }
  }

  /** Running the pass on its own result changes nothing. */
  lemma OptimizeIdempotent(s: string)
    ensures Optimize(Optimize(s)) == Optimize(s)
  {
    var r := Optimize(s);
    OptimizeClean(s);
    RoundUnchanged(r);
  }

  /** Text without the four pairs is a fixed point of a round. */
  lemma RoundUnchanged(s: string)
    requires !HasPair(s, '<', '>') && !HasPair(s, '>', '<') && !HasPair(s, '+', '-') && !HasPair(s, '-', '+')
    ensures Round(s) == s && Optimize(s) == s
  {
  }

  /** `a` is `b` with some characters deleted (the characters kept stay in order). */
  predicate Subseq(a: string, b: string)
    decreases |b|
  {
    if a == [] then true
    else if b == [] then false
    else if a[0] == b[0] then Subseq(a[1..], b[1..])
    else Subseq(a, b[1..])
  }

  lemma {:induction false} SubseqRefl(s: string)
    ensures Subseq(s, s)
    decreases |s|
  {
    if s != [] {
      SubseqRefl(s[1..]);
    }
  }

  /** Dropping the first kept character keeps a deletion a deletion. */
  lemma {:induction false} SubseqTail(a: string, b: string)
    requires Subseq(a, b) && a != []
    ensures Subseq(a[1..], b)
    decreases |b|
  {
    if a[1..] != [] {
      if a[0] == b[0] {
        if a[1] == b[0] {
          SubseqTail(a[1..], b[1..]);
          assert Subseq(a[1..][1..], b[1..]);
        } else {
          assert Subseq(a[1..], b[1..]);
        }
      } else {
        SubseqTail(a, b[1..]);
        if a[1] == b[0] {
          assert Subseq(a[2..], b[1..]) by { SubseqTail(a[1..], b[1..]); }
        }
      }
    }
  }

  /** Deleting characters twice is deleting characters. */
  lemma {:induction false} SubseqTrans(a: string, b: string, c: string)
    requires Subseq(a, b) && Subseq(b, c)
    ensures Subseq(a, c)
    decreases |c|
  {
    if a != [] && b != [] && c != [] {
      if b[0] == c[0] {
        if a[0] == b[0] {
          SubseqTrans(a[1..], b[1..], c[1..]);
        } else {
          SubseqTrans(a, b[1..], c[1..]);
        }
      } else {
        SubseqTrans(a, b, c[1..]);
        if a[0] == c[0] {
          SubseqTail(a, c[1..]);
        }
      }
    }
  }

  /** Removing the first occurrence of a pair is a deletion. */
  lemma {:induction false} ReplaceFirstSubseq(s: string, x: char, y: char)
    ensures Subseq(ReplaceFirst(s, x, y), s)
    decreases |s|
  {
    if |s| < 2 {
      SubseqRefl(s);
    } else if s[0] == x && s[1] == y {
      SubseqRefl(s[2..]);
      SkipOne(s[2..], s[1..]);
      SkipOne(s[2..], s);
    } else {
      ReplaceFirstSubseq(s[1..], x, y);
      var r := ReplaceFirst(s, x, y);
      assert r[0] == s[0] && r[1..] == ReplaceFirst(s[1..], x, y);
    }
  }

  /** A deletion from the tail of `b` is a deletion from `b`. */
  lemma SkipOne(a: string, b: string)
    requires b != [] && Subseq(a, b[1..])
    ensures Subseq(a, b)
  {
    if a != [] && a[0] == b[0] {
      SubseqTail(a, b[1..]);
    }
  }

  /** The pass only deletes characters. */
  lemma {:induction false} OptimizeSubseq(s: string)
    ensures Subseq(Optimize(s), s)
    decreases |s|
  {
    RoundShrinks(s);
    var s1 := ReplaceFirst(s, '<', '>');
    var s2 := ReplaceFirst(s1, '>', '<');
    var s3 := ReplaceFirst(s2, '+', '-');
    var s4 := ReplaceFirst(s3, '-', '+');
    ReplaceFirstSubseq(s, '<', '>');
    ReplaceFirstSubseq(s1, '>', '<');
    ReplaceFirstSubseq(s2, '+', '-');
    ReplaceFirstSubseq(s3, '-', '+');
    SubseqTrans(s2, s1, s);
    SubseqTrans(s3, s2, s);
    SubseqTrans(s4, s3, s);
    if s4 == s {
      SubseqRefl(s);
    } else {
      OptimizeSubseq(s4);
      SubseqTrans(Optimize(s4), s4, s);
    }
  }
}
