/**
 * `TreeOut`, the pretty-printer of syntax trees (the same in main.js and
 * new.js): one line per node, children below their parent, each child line
 * led by a connector that says whether it is the last child.
 */
module TreeOut {
  import opened Wrappers
  import opened Ast

  const ConnectChar := "| "
  const MiddleChar := "\U{251C}\U{2500}"
  const LastChar := "\U{2514}\U{2500}"

  /** The node's type, then its text in parentheses when it has one. */
  function Label(n: Node): string
  {
    TypeName(n.kind) + (if n.text.Some? then " (" + n.text.value + ")" else "")
  }

  /** What precedes a label after the indent: nothing for the root, else the connector. */
  function Head(root: bool, last: bool): string
  {
    if root then "" else if last then LastChar + " " else MiddleChar + " "
  }

  /** The indent handed to a node's children. */
  function Deeper(indent: string, root: bool, last: bool): string
  {
    if root then indent else if last then indent + "  " else indent + ConnectChar + " "
  }

  /**
   * `PrintSub(node, indent, root)`; `last` says whether the node is its
   * parent's last child (`IndexFromParent() < parent.childs.length - 1`
   * fails), which only matters when `root` is false.
   */
  function Sub(n: Node, indent: string, root: bool, last: bool): string
    decreases n, 0
  {
    indent + Head(root, last) + Label(n) + "\n" + Kids(n.childs, Deeper(indent, root, last), |n.childs|)
  }

  /** The text of the first `i` children, each printed as a non-root node. */
  function Kids(cs: seq<Node>, indent: string, i: nat): string
    requires i <= |cs|
    decreases cs, i
  {
    if i == 0 then "" else Kids(cs, indent, i - 1) + Sub(cs[i - 1], indent, false, i - 1 == |cs| - 1)
  }

  /** `Print(node)`. */
  function Print(n: Node): string
  {
    Sub(n, "", true, true)
  }

  // ---------------------------------------------------------------------
  // The printer as the source runs it

  method PrintSub(node: Node, indent: string, root: bool, last: bool) returns (result: string)
    ensures result == Sub(node, indent, root, last)
    decreases node, 0
  {
    var ind := Deeper(indent, root, last);
    result := indent + Head(root, last) + Label(node) + "\n";
    ghost var top := result;
    var i := 0;
    while i < |node.childs|
      invariant 0 <= i <= |node.childs|
      invariant result == top + Kids(node.childs, ind, i)
    {
      var sub := PrintSub(node.childs[i], ind, false, i == |node.childs| - 1);
      KidsNext(node.childs, ind, i, sub);
      AppendAssoc(top, Kids(node.childs, ind, i), sub);
      result := result + sub;
      i := i + 1;
    }
  }

  /** One more child printed: its text follows the text of those before it. */
  lemma KidsNext(cs: seq<Node>, indent: string, i: nat, sub: string)
    requires i < |cs| && sub == Sub(cs[i], indent, false, i == |cs| - 1)
    ensures Kids(cs, indent, i + 1) == Kids(cs, indent, i) + sub
  {
  }

  method PrintTree(node: Node) returns (result: string)
    ensures result == Print(node)
  {
    result := PrintSub(node, "", true, true);
  }

  // ---------------------------------------------------------------------
  // One line per node, in pre-order

  /** The nodes of a tree in pre-order: a node, then each child's subtree in turn. */
  function PreOrder(n: Node): (r: seq<Node>)
    decreases n, 0
  {
    [n] + PreKids(n.childs, |n.childs|)
  }

  function PreKids(cs: seq<Node>, i: nat): seq<Node>
    requires i <= |cs|
    decreases cs, i
  {
    if i == 0 then [] else PreKids(cs, i - 1) + PreOrder(cs[i - 1])
  }

  /** The lines of `Sub` one by one. */
  function Rows(n: Node, indent: string, root: bool, last: bool): seq<string>
    decreases n, 0
  {
    [indent + Head(root, last) + Label(n) + "\n"] + KidRows(n.childs, Deeper(indent, root, last), |n.childs|)
  }

  function KidRows(cs: seq<Node>, indent: string, i: nat): seq<string>
    requires i <= |cs|
    decreases cs, i
  {
    if i == 0 then [] else KidRows(cs, indent, i - 1) + Rows(cs[i - 1], indent, false, i - 1 == |cs| - 1)
  }

  function Concat(ss: seq<string>): string
  {
    if ss == [] then "" else Concat(ss[..|ss| - 1]) + ss[|ss| - 1]
  }

  lemma {:induction false} ConcatAppend(a: seq<string>, b: seq<string>)
    ensures Concat(a + b) == Concat(a) + Concat(b)
    decreases |b|
  {
    if b == [] {
      assert a + b == a;
    } else {
      assert (a + b)[..|a + b| - 1] == a + b[..|b| - 1];
      ConcatAppend(a, b[..|b| - 1]);
      AppendAssoc(Concat(a), Concat(b[..|b| - 1]), b[|b| - 1]);
    }
  }

  lemma AppendAssoc(a: string, b: string, c: string)
    ensures a + b + c == a + (b + c)
  {
  }

  lemma ConcatOne(s: string)
    ensures Concat([s]) == s
  {
    assert [s][..0] == [];
  }

  /** The printed text is its rows laid end to end. */
  lemma {:induction false} SubRows(n: Node, indent: string, root: bool, last: bool)
    ensures Sub(n, indent, root, last) == Concat(Rows(n, indent, root, last))
    decreases n, 0
  {
    var head := indent + Head(root, last) + Label(n) + "\n";
    var ind := Deeper(indent, root, last);
    KidsRows(n.childs, ind, |n.childs|);
    ConcatAppend([head], KidRows(n.childs, ind, |n.childs|));
    ConcatOne(head);
  }

  lemma {:induction false} KidsRows(cs: seq<Node>, indent: string, i: nat)
    requires i <= |cs|
    ensures Kids(cs, indent, i) == Concat(KidRows(cs, indent, i))
    decreases cs, i
  {
    if i > 0 {
      KidsRows(cs, indent, i - 1);
      SubRows(cs[i - 1], indent, false, i - 1 == |cs| - 1);
      KidRowsConcat(cs, indent, i);
    }
  }

  lemma KidRowsConcat(cs: seq<Node>, indent: string, i: nat)
    requires 0 < i <= |cs|
    ensures Concat(KidRows(cs, indent, i)) == Concat(KidRows(cs, indent, i - 1)) + Concat(Rows(cs[i - 1], indent, false, i - 1 == |cs| - 1))
  {
    ConcatAppend(KidRows(cs, indent, i - 1), Rows(cs[i - 1], indent, false, i - 1 == |cs| - 1));
  }

  predicate EndsWith(s: string, suffix: string)
  {
    |suffix| <= |s| && s[|s| - |suffix|..] == suffix
  }

  /** Row `k` ends with the label of the `k`-th node in pre-order and a newline. */
  predicate Matches(rows: seq<string>, nodes: seq<Node>)
  {
    |rows| == |nodes| && forall k :: 0 <= k < |rows| ==> EndsWith(rows[k], Label(nodes[k]) + "\n")
  }

  lemma MatchesAppend(a: seq<string>, b: seq<Node>, c: seq<string>, d: seq<Node>)
    requires Matches(a, b) && Matches(c, d)
    ensures Matches(a + c, b + d)
  {
    forall k | 0 <= k < |a + c|
      ensures EndsWith((a + c)[k], Label((b + d)[k]) + "\n")
    {
      if k < |a| {
        assert (a + c)[k] == a[k] && (b + d)[k] == b[k];
      } else {
        assert (a + c)[k] == c[k - |a|] && (b + d)[k] == d[k - |a|];
      }
    }
  }

  /**
   * The rows of a subtree are its pre-order nodes one for one: as many rows
   * as nodes, and row `k` ends with node `k`'s label and a newline.
   */
  lemma {:induction false} RowsPreOrder(n: Node, indent: string, root: bool, last: bool)
    ensures Matches(Rows(n, indent, root, last), PreOrder(n))
    ensures |Rows(n, indent, root, last)| == Size(n)
    decreases n, 0
  {
    var head := indent + Head(root, last) + Label(n) + "\n";
    var ind := Deeper(indent, root, last);
    KidRowsPreOrder(n.childs, ind, |n.childs|);
    assert EndsWith(head, Label(n) + "\n");
    assert Matches([head], [n]);
    MatchesAppend([head], [n], KidRows(n.childs, ind, |n.childs|), PreKids(n.childs, |n.childs|));
  }

  lemma {:induction false} KidRowsPreOrder(cs: seq<Node>, indent: string, i: nat)
    requires i <= |cs|
    ensures Matches(KidRows(cs, indent, i), PreKids(cs, i))
    ensures |KidRows(cs, indent, i)| == SizeKids(cs, i)
    decreases cs, i
  {
    if i > 0 {
      KidRowsPreOrder(cs, indent, i - 1);
      RowsPreOrder(cs[i - 1], indent, false, i - 1 == |cs| - 1);
      MatchesAppend(KidRows(cs, indent, i - 1), PreKids(cs, i - 1),
                    Rows(cs[i - 1], indent, false, i - 1 == |cs| - 1), PreOrder(cs[i - 1]));
    }
  }

  /** No line break inside any text of the tree. */
  predicate NoBreaks(n: Node)
    decreases n, 0
  {
    (n.text.Some? ==> '\n' !in n.text.value) && NoBreaksKids(n.childs, |n.childs|)
  }

  predicate NoBreaksKids(cs: seq<Node>, i: nat)
    requires i <= |cs|
    decreases cs, i
  {
    i == 0 || (NoBreaksKids(cs, i - 1) && NoBreaks(cs[i - 1]))
  }

  /** A newline-terminated line: one break, at its end. */
  predicate IsLine(s: string)
  {
    s != [] && s[|s| - 1] == '\n' && '\n' !in s[..|s| - 1]
  }

  predicate AllLines(rows: seq<string>)
  {
    forall k :: 0 <= k < |rows| ==> IsLine(rows[k])
  }

  lemma AllLinesAppend(a: seq<string>, b: seq<string>)
    requires AllLines(a) && AllLines(b)
    ensures AllLines(a + b)
  {
    forall k | 0 <= k < |a + b|
      ensures IsLine((a + b)[k])
    {
      if k < |a| {
        assert (a + b)[k] == a[k];
      } else {
        assert (a + b)[k] == b[k - |a|];
      }
    }
  }

  lemma HeadLine(indent: string, root: bool, last: bool, n: Node)
    requires '\n' !in indent && (n.text.Some? ==> '\n' !in n.text.value)
    ensures IsLine(indent + Head(root, last) + Label(n) + "\n")
  {
    var s := indent + Head(root, last) + Label(n);
    assert (s + "\n")[..|s|] == s;
    assert '\n' !in Head(root, last);
    assert '\n' !in Label(n) by {
      TypeNameLine(n.kind);
      if n.text.Some? {
        assert Label(n) == TypeName(n.kind) + " (" + n.text.value + ")";
      }
    }
  }

  /** With no break in the tree or the indent, every row is one line. */
  lemma {:induction false} RowsAreLines(n: Node, indent: string, root: bool, last: bool)
    requires NoBreaks(n) && '\n' !in indent
    ensures AllLines(Rows(n, indent, root, last))
    decreases n, 0
  {
    var ind := Deeper(indent, root, last);
    HeadLine(indent, root, last, n);
    assert '\n' !in ind;
    KidRowsAreLines(n.childs, ind, |n.childs|);
    AllLinesAppend([indent + Head(root, last) + Label(n) + "\n"], KidRows(n.childs, ind, |n.childs|));
  }

  lemma {:induction false} KidRowsAreLines(cs: seq<Node>, indent: string, i: nat)
    requires i <= |cs| && NoBreaksKids(cs, i) && '\n' !in indent
    ensures AllLines(KidRows(cs, indent, i))
    decreases cs, i
  {
    if i > 0 {
      KidRowsAreLines(cs, indent, i - 1);
      RowsAreLines(cs[i - 1], indent, false, i - 1 == |cs| - 1);
      AllLinesAppend(KidRows(cs, indent, i - 1), Rows(cs[i - 1], indent, false, i - 1 == |cs| - 1));
    }
  }

  /**
   * The printed tree is `Size(n)` newline-terminated lines laid end to end,
   * the `k`-th one ending with the label of the `k`-th node in pre-order;
   * the first line is the root's label alone.
   */
  lemma PrintLines(n: Node)
    requires NoBreaks(n)
    ensures var rows := Rows(n, "", true, true);
      Print(n) == Concat(rows) && |rows| == Size(n) && AllLines(rows) &&
      Matches(rows, PreOrder(n)) && rows[0] == Label(n) + "\n"
  {
    SubRows(n, "", true, true);
    RowsPreOrder(n, "", true, true);
    RowsAreLines(n, "", true, true);
  }
}
