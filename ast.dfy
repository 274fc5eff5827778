/**
 * The syntax tree of main.js and new.js.  The parsers and the compilers
 * only ever build fresh nodes and read them back, so they are modelled on
 * the immutable `Node`; the `AstNode` class models the node object itself,
 * with its parent link and its `AddChild` / `RemoveChild` updates.
 */
module Ast {
  import opened Wrappers

  /** The `type` a parser gives a node; `TypeName` is the string itself. */
  datatype Tag =
    | Root | Text | Number | Str | Identifier
    | Plus | Minus | Less | Equal | Div | Set | Assign
    | Func | If | Else | Out | EmptySemicolon | Statement | Expression

  function TypeName(t: Tag): string
  {
    match t
    case Root => "root"
    case Text => "text"
    case Number => "number"
    case Str => "string"
    case Identifier => "identifier"
    case Plus => "plus"
    case Minus => "minus"
    case Less => "less"
    case Equal => "equal"
    case Div => "div"
    case Set => "set"
    case Assign => "assign"
    case Func => "func"
    case If => "if"
    case Else => "else"
    case Out => "out"
    case EmptySemicolon => "empty(semicolon)"
    case Statement => "statement"
    case Expression => "expression"
  }

  /** No type name holds a line break. */
  lemma TypeNameLine(t: Tag)
    ensures '\n' !in TypeName(t)
  {
  }

  /** A node: its type, its `text` (`null` as `None`) and its children in order. */
  datatype Node = Node(kind: Tag, text: Option<string>, childs: seq<Node>)

  /** A node without children. */
  function Leaf(kind: Tag, text: Option<string>): Node
  {
    Node(kind, text, [])
  }

  /** `new AstNode(type, text, child1, child2)`: the children that are not `null`, in order. */
  function Make(kind: Tag, text: Option<string>, child1: Option<Node>, child2: Option<Node>): (n: Node)
    ensures |n.childs| == (if child1.Some? then 1 else 0) + (if child2.Some? then 1 else 0)
    ensures child1.Some? ==> n.childs[0] == child1.value
    ensures child2.Some? ==> n.childs[|n.childs| - 1] == child2.value
  {
    Node(kind, text, (if child1.Some? then [child1.value] else []) + (if child2.Some? then [child2.value] else []))
  }

  /** The number of nodes of a tree. */
  function Size(n: Node): (r: nat)
    ensures r >= 1
    decreases n, 0
  {
    1 + SizeKids(n.childs, |n.childs|)
  }

  /** The number of nodes under the first `i` children. */
  function SizeKids(cs: seq<Node>, i: nat): nat
    requires i <= |cs|
    decreases cs, i
  {
    if i == 0 then 0 else SizeKids(cs, i - 1) + Size(cs[i - 1])
  }

  /** `Array.prototype.indexOf`: the first position holding `x`, or -1. */
  function IndexOf<T(==)>(s: seq<T>, x: T): (r: int)
    ensures r == -1 <==> x !in s
    ensures r >= 0 ==> r < |s| && s[r] == x && x !in s[..r]
  {
    if s == [] then -1
    else if s[0] == x then 0
    else
      var k := IndexOf(s[1..], x);
      assert s[1..][..(if k < 0 then 0 else k)] == s[1..(if k < 0 then 1 else k + 1)];
      if k < 0 then -1 else k + 1
  }

  /**
   * The node object.  `delete this.childs[child]` uses an object as an
   * array key and removes nothing, so a child taken from another parent
   * stays listed there too.
   */
  class AstNode {
    var kind: Tag
    var text: Option<string>
    var parent: AstNode?
    var childs: seq<AstNode>

    /** `new AstNode(type, text, child1, child2)`: each non-null child is added in turn. */
    constructor (kind: Tag, text: Option<string>, child1: AstNode?, child2: AstNode?)
      modifies child1, child2
      ensures this.kind == kind && this.text == text && parent == null
      ensures childs == (if child1 != null then [child1] else []) + (if child2 != null then [child2] else [])
      ensures child1 != null ==> child1.parent == this
      ensures child2 != null ==> child2.parent == this
      ensures child1 != null ==> child1.kind == old(child1.kind) && child1.childs == old(child1.childs)
      ensures child2 != null ==> child2.kind == old(child2.kind) && child2.childs == old(child2.childs)
    {
      this.kind := kind;
      this.text := text;
      parent := null;
      childs := [];
      new;
      if child1 != null {
        AddChild(child1);
      }
      if child2 != null {
        AddChild(child2);
      }
    }

    /** `AddChild`: ignores `null`; otherwise appends the child and makes this node its parent. */
    method AddChild(child: AstNode?)
      modifies this, child
      ensures child == null ==> childs == old(childs) && parent == old(parent)
      ensures child != null ==> childs == old(childs) + [child] && child.parent == this
      ensures child != null && child != this ==> parent == old(parent)
      ensures child != null && child != this ==> child.childs == old(child.childs)
      ensures kind == old(kind) && text == old(text)
      ensures child != null ==> child.kind == old(child.kind) && child.text == old(child.text)
      ensures child != null && child !in old(childs) ==> IndexIn(child) == |old(childs)|
    {
      if child == null {
        return;
      }
      childs := childs + [child];
      child.parent := this;
      assert child !in old(childs) ==> IndexOf(childs, child) == |old(childs)| by {
        if child !in old(childs) {
          assert childs[..|old(childs)|] == old(childs);
        }
      }
    }

    /** `RemoveChild`: the child list is left as it is; the child forgets this parent. */
    method RemoveChild(child: AstNode)
      modifies child
      ensures child.parent == (if old(child.parent) == this then null else old(child.parent))
      ensures child != this ==> childs == old(childs)
      ensures child.childs == old(child.childs) && child.kind == old(child.kind)
    {
      if child.parent == this {
        child.parent := null;
      }
    }

    /** `GetChild(index)`: `undefined` (`None`) past the end. */
    function GetChild(index: int): (r: Option<AstNode>)
      reads this
      ensures r.Some? <==> 0 <= index < |childs|
      ensures r.Some? ==> r.value == childs[index]
    {
      if 0 <= index < |childs| then Some(childs[index]) else None
    }

    /** The position of `child` among this node's children, -1 when absent. */
    function IndexIn(child: AstNode): int
      reads this
    {
      IndexOf(childs, child)
    }

    /** `IndexFromParent`: -1 without a parent, otherwise the first position in the parent's list. */
    function IndexFromParent(): (r: int)
      reads this, parent
      ensures parent == null ==> r == -1
      ensures parent != null && this in parent.childs ==> 0 <= r < |parent.childs| && parent.childs[r] == this
      ensures parent != null && this !in parent.childs ==> r == -1
    {
      if parent == null then -1 else parent.IndexIn(this)
    }
  }
}
