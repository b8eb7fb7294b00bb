/**
 * The parse tree of parse_tree.c. A node owns its children; the children are kept as tree values,
 * so handing a node to a parent (or taking it back) moves the value.
 */
module ParseTrees {
  import opened Wrappers
  import opened Lexer

  /** `NodeTy`. */
  datatype NodeTy = TerminalNode | NonTerminalNode

  /** `SLRSymbol`: the non-terminal of an inner node, or the token of a leaf. */
  datatype Symbol = NtSymbol(nt: char) | TokenSymbol(token: Token)

  /** A node and everything below it: a symbol (none for the parser's forest root), a kind, the children in order. */
  datatype Tree = Tree(symbol: Option<Symbol>, ty: NodeTy, children: seq<Tree>)

  /** The children after `parse_tree_node_remove_last`: the child taken, and those left. */
  function RemovedLast(children: seq<Tree>): (r: (Option<Tree>, seq<Tree>))
    ensures children == [] ==> r == (None, children)
    ensures children != [] ==> r.0 == Some(children[|children| - 1]) && r.1 + [r.0.value] == children
  {
    if children == [] then (None, children) else (Some(children[|children| - 1]), children[..|children| - 1])
  }

  /** `remove_last` undoes `add_last`. */
  lemma RemoveLastUndoesAddLast(children: seq<Tree>, child: Tree)
    ensures RemovedLast(children + [child]) == (Some(child), children)
  {
    assert (children + [child])[..|children|] == children;
  }

  /** `ParseTreeNode`. A NULL `children` deque and an empty one are both the empty sequence. */
  class ParseTreeNode {
    const symbol: Option<Symbol>
    const ty: NodeTy
    var children: seq<Tree>

    /** The node with everything below it. */
    function Value(): Tree
      reads this
    {
      Tree(symbol, ty, children)
    }

    /** `parse_tree_node_init`: a node with no children. */
    constructor (sym: Option<Symbol>, ty: NodeTy)
      ensures symbol == sym && this.ty == ty && children == []
    {
      symbol := sym;
      this.ty := ty;
      children := [];
    }

    /** `parse_tree_node_add_first`: `child` becomes the first child; the others keep their order. */
    method AddFirst(child: Tree)
      modifies this
      ensures children == [child] + old(children)
    {
      children := [child] + children;
    }

    /** `parse_tree_node_add_last`: `child` becomes the last child; the others keep their order. */
    method AddLast(child: Tree)
      modifies this
      ensures children == old(children) + [child]
    {
      children := children + [child];
    }

    /** `parse_tree_node_remove_last`: nothing (and no change) without children, else the last child, taken off. */
    method RemoveLast() returns (out: Option<Tree>)
      modifies this
      ensures (out, children) == RemovedLast(old(children))
    {
      if children == [] {
        return None;
      }
      out := Some(children[|children| - 1]);
      children := children[..|children| - 1];
    }
  }

  /** `struct ParseTree`. */
  class ParseTree {
    var root: ParseTreeNode?

    /** `parse_tree_init`: the given node is the root. */
    constructor (node: ParseTreeNode?)
      ensures root == node
    {
      root := node;
    }
  }
}
