/**
 * The syntax tree of the backtracking parser: nodes with a symbol, an
 * identifier, an optional token value, an ordered list of children and a
 * link to the parent (`Nodo`), and the pass that hangs an `ε` leaf under
 * every childless nonterminal node (`agregar_epsilon_a_hojas`).
 *
 * A heap node carries two ghost fields: `shape`, the tree below it as a
 * value, and `repr`, the nodes of that tree. `Valid()` says that the
 * children form a tree whose parent links point back up, and that `shape`
 * is what the fields say.
 */
module SyntaxTree {
  import opened Wrappers

  /** A tree as a value: what a node and its descendants hold, without the parent links. */
  datatype Tree = Tree(symbol: string, id: string, value: Option<string>, children: seq<Tree>)

  class Node {
    const symbol: string        // `etiqueta`
    const id: string            // `identificador`
    const value: Option<string> // `valor`, None for Python's None
    var children: seq<Node>     // `hijos`
    var parent: Node?           // `padre`
    ghost var shape: Tree
    ghost var repr: set<Node>

    ghost predicate Valid()
      reads this`children, this`shape, this`repr, repr`children, repr`shape, repr`repr, (repr - {this})`parent
      decreases repr
    {
      && this in repr
      && shape.symbol == symbol && shape.id == id && shape.value == value
      && |shape.children| == |children|
      && (forall i :: 0 <= i < |children| ==>
            && children[i] in repr && children[i].repr <= repr && this !in children[i].repr
            && children[i].parent == this && children[i].Valid() && shape.children[i] == children[i].shape)
      && (forall i, j :: 0 <= i < j < |children| ==> children[i].repr !! children[j].repr)
    }

    /** `Nodo(etiqueta, identificador, valor)`: no children and no parent. */
    constructor (symbol: string, id: string, value: Option<string>)
      ensures this.symbol == symbol && this.id == id && this.value == value
      ensures children == [] && parent == null
      ensures Valid() && repr == {this} && shape == Tree(symbol, id, value, [])
    {
      this.symbol, this.id, this.value := symbol, id, value;
      children, parent := [], null;
      shape, repr := Tree(symbol, id, value, []), {this};
    }

    /**
     * `agregar_hijo`: the child goes at the end of the children and its
     * parent becomes this node; no other field changes. When both sides are
     * trees and share no node, the result is again a tree whose shape has
     * the child's shape as its last subtree.
     */
    method AddChild(child: Node)
      modifies this`children, this`shape, this`repr, child`parent
      ensures children == old(children) + [child] && child.parent == this
      ensures repr == old(repr) + old(child.repr)
      ensures shape == old(shape).(children := old(shape.children) + [old(child.shape)])
      ensures old(Valid() && child.Valid() && repr !! child.repr) ==> Valid()
    {
      ghost var valid := Valid() && child.Valid() && repr !! child.repr;
      children := children + [child];
      child.parent := this;
      shape := shape.(children := shape.children + [child.shape]);
      repr := repr + child.repr;
      if valid {
        assert child.Valid();
        forall i | 0 <= i < |old(children)|
          ensures children[i].Valid()
        {
          assert children[i] == old(children)[i];
        }
      }
    }

    /** The node is a tree again once its ghost fields describe children that are trees. */
    lemma Reassemble()
      requires this in repr && shape.symbol == symbol && shape.id == id && shape.value == value
      requires |shape.children| == |children|
      requires forall i :: 0 <= i < |children| ==>
        && children[i] in repr && children[i].repr <= repr && this !in children[i].repr
        && children[i].parent == this && children[i].Valid() && shape.children[i] == children[i].shape
      requires forall i, j :: 0 <= i < j < |children| ==> children[i].repr !! children[j].repr
      ensures Valid()
    {
    }

    /** `es_hoja`. */
    predicate IsLeaf()
      reads this`children
    {
      |children| == 0
    }

    /** A node is a leaf exactly when the tree it stands for has no subtrees. */
    lemma LeafShape()
      requires Valid()
      ensures IsLeaf() <==> shape.children == []
    {
    }
  }

  // ---------------------------------------------------------------------------
  // The epsilon pass on values
  // ---------------------------------------------------------------------------

  const EpsilonSymbol: string := "ε"

  /** The node `Nodo("ε", f'N{nodo.identificador}_epsilon')` hung under `t`. */
  function EpsilonLeaf(t: Tree): Tree {
    Tree(EpsilonSymbol, "N" + t.id + "_epsilon", None, [])
  }

  /** What `agregar_epsilon_a_hojas` makes of a tree. */
  function Decorate(t: Tree, nonterminals: set<string>): Tree
    decreases t, 1
  {
    if t.children == [] && t.symbol in nonterminals then t.(children := [EpsilonLeaf(t)])
    else t.(children := DecorateAll(t.children, nonterminals))
  }

  function DecorateAll(ts: seq<Tree>, nonterminals: set<string>): (r: seq<Tree>)
    ensures |r| == |ts|
    decreases ts, 0
  {
    if ts == [] then [] else [Decorate(ts[0], nonterminals)] + DecorateAll(ts[1..], nonterminals)
  }

  lemma {:induction false} DecorateAllAt(ts: seq<Tree>, nonterminals: set<string>, i: nat)
    requires i < |ts|
    ensures DecorateAll(ts, nonterminals)[i] == Decorate(ts[i], nonterminals)
    decreases i
  {
    if i > 0 {
      DecorateAllAt(ts[1..], nonterminals, i - 1);
    }
  }

  /** The leaves of a tree, left to right. */
  function Leaves(t: Tree): seq<Tree>
    decreases t, 1
  {
    if t.children == [] then [t] else LeavesAll(t.children)
  }

  function LeavesAll(ts: seq<Tree>): seq<Tree>
    decreases ts, 0
  {
    if ts == [] then [] else Leaves(ts[0]) + LeavesAll(ts[1..])
  }

  /** What the pass does to one leaf: a nonterminal leaf gets its `ε` child, which is then the leaf. */
  function LeafAfter(l: Tree, nonterminals: set<string>): Tree {
    if l.symbol in nonterminals then EpsilonLeaf(l) else l
  }

  function LeavesAfter(ls: seq<Tree>, nonterminals: set<string>): (r: seq<Tree>)
    ensures |r| == |ls|
  {
    if ls == [] then [] else [LeafAfter(ls[0], nonterminals)] + LeavesAfter(ls[1..], nonterminals)
  }

  lemma {:induction false} LeavesAfterAppend(a: seq<Tree>, b: seq<Tree>, nonterminals: set<string>)
    ensures LeavesAfter(a + b, nonterminals) == LeavesAfter(a, nonterminals) + LeavesAfter(b, nonterminals)
  {
    if a != [] {
      assert (a + b)[1..] == a[1..] + b;
      LeavesAfterAppend(a[1..], b, nonterminals);
    } else {
      assert a + b == b;
    }
  }

  /**
   * After the pass, the leaves are the old leaves in the same order, except
   * that each leaf labelled with a nonterminal is replaced by the one `ε`
   * node hung under it: every such leaf gets exactly one `ε` child and all
   * other leaves are left as they were.
   */
  lemma {:induction false} DecorateLeaves(t: Tree, nonterminals: set<string>)
    ensures Leaves(Decorate(t, nonterminals)) == LeavesAfter(Leaves(t), nonterminals)
    decreases t, 1
  {
    if t.children == [] && t.symbol in nonterminals {
      assert LeavesAll([EpsilonLeaf(t)]) == [EpsilonLeaf(t)] + LeavesAll([]);
    } else if t.children != [] {
      DecorateAllLeaves(t.children, nonterminals);
    }
  }

  lemma {:induction false} DecorateAllLeaves(ts: seq<Tree>, nonterminals: set<string>)
    ensures LeavesAll(DecorateAll(ts, nonterminals)) == LeavesAfter(LeavesAll(ts), nonterminals)
    decreases ts, 0
  {
    if ts != [] {
      DecorateLeaves(ts[0], nonterminals);
      DecorateAllLeaves(ts[1..], nonterminals);
      LeavesAfterAppend(Leaves(ts[0]), LeavesAll(ts[1..]), nonterminals);
    }
  }

  /** The pass never changes the root's symbol, identifier or value. */
  lemma DecorateRoot(t: Tree, nonterminals: set<string>)
    ensures var d := Decorate(t, nonterminals);
      d.symbol == t.symbol && d.id == t.id && d.value == t.value && |d.children| >= |t.children|
  {
  }

  // ---------------------------------------------------------------------------
  // The epsilon pass on the heap
  // ---------------------------------------------------------------------------

  /**
   * `agregar_epsilon_a_hojas(nodo, dot, no_terminales)`: a childless node
   * labelled with a nonterminal gets one new `ε` child; any other node
   * passes the call on to each of its children, in order. Only the nodes of
   * the tree change, and only by gaining children; parent links of the old
   * nodes stay as they were.
   */
  method AddEpsilonToLeaves(n: Node, nonterminals: set<string>)
    requires n.Valid()
    modifies n.repr`children, n.repr`shape, n.repr`repr
    ensures n.Valid() && n.shape == Decorate(old(n.shape), nonterminals)
    ensures old(n.repr) <= n.repr && fresh(n.repr - old(n.repr))
    decreases n.repr, 1
  {
    if n.IsLeaf() && n.symbol in nonterminals {
      var epsilon := new Node(EpsilonSymbol, "N" + n.id + "_epsilon", None);
      n.AddChild(epsilon);
      assert n.shape.children == [EpsilonLeaf(old(n.shape))];
    } else {
      DecorateChildren(n, nonterminals);
    }
  }

  /** The `for hijo in nodo.hijos` branch of the pass. */
  method DecorateChildren(n: Node, nonterminals: set<string>)
    requires n.Valid() && !(n.IsLeaf() && n.symbol in nonterminals)
    modifies n.repr`children, n.repr`shape, n.repr`repr
    ensures n.Valid() && n.shape == Decorate(old(n.shape), nonterminals)
    ensures old(n.repr) <= n.repr && fresh(n.repr - old(n.repr))
    decreases n.repr, 0
  {
    ghost var kids, before, added := n.children, n.shape.children, {};
    var i := 0;
    while i < |n.children|
      modifies (n.repr - {n})`children, (n.repr - {n})`shape, (n.repr - {n})`repr
      invariant 0 <= i <= |kids| && fresh(added)
      invariant Progress(n, kids, before, i, added, nonterminals)
    {
      added := DecorateChild(n, kids, before, i, added, nonterminals);
      i := i + 1;
    }
    FinishDecoration(n, kids, before, added, nonterminals);
  }

  /** After the loop: the shape and footprint of `n` catch up with its decorated children (ghost bookkeeping). */
  ghost method FinishDecoration(n: Node, kids: seq<Node>, before: seq<Tree>, added: set<Node>, nonterminals: set<string>)
    requires Progress(n, kids, before, |kids|, added, nonterminals) && n.children == kids && n !in added
    requires n in n.repr && n.shape.symbol == n.symbol && n.shape.id == n.id && n.shape.value == n.value
    requires n.shape.children == before
    requires forall k :: 0 <= k < |kids| ==> kids[k].parent == n
    modifies n`shape, n`repr
    ensures n.Valid() && n.shape == old(n.shape).(children := DecorateAll(before, nonterminals))
    ensures n.repr == old(n.repr) + added
  {
    forall k | 0 <= k < |kids|
      ensures kids[k].shape == DecorateAll(before, nonterminals)[k]
    {
      DecorateAllAt(before, nonterminals, k);
    }
    n.shape := n.shape.(children := DecorateAll(before, nonterminals));
    n.repr := n.repr + added;
    n.Reassemble();
  }

  /** How far the loop over the children of `n` has got: the first `i` children are decorated. */
  ghost predicate Progress(n: Node, kids: seq<Node>, before: seq<Tree>, i: nat, added: set<Node>, nonterminals: set<string>)
    reads n`repr, set k | 0 <= k < |kids| :: kids[k], (n.repr + added)`children, (n.repr + added)`shape, (n.repr + added)`repr, (n.repr + added)`parent
  {
    && |before| == |kids| && i <= |kids|
    && (forall k :: 0 <= k < |kids| ==> kids[k].repr <= n.repr + added && kids[k].Valid() && n !in kids[k].repr)
    && (forall k :: 0 <= k < |kids| ==>
        if k < i then kids[k].shape == Decorate(before[k], nonterminals)
        else kids[k].shape == before[k] && kids[k].repr <= n.repr - {n})
    && (forall j, k :: 0 <= j < k < |kids| ==> kids[j].repr !! kids[k].repr)
  }

  /** One turn of that loop. */
  method DecorateChild(n: Node, ghost kids: seq<Node>, ghost before: seq<Tree>, i: nat, ghost added: set<Node>, nonterminals: set<string>)
    returns (ghost added': set<Node>)
    requires Progress(n, kids, before, i, added, nonterminals) && i < |kids| && n.children == kids
    modifies kids[i].repr`children, kids[i].repr`shape, kids[i].repr`repr
    ensures Progress(n, kids, before, i + 1, added', nonterminals)
    ensures added <= added' && fresh(added' - added)
    decreases kids[i].repr, 2
  {
    ghost var r := kids[i].repr;
    AddEpsilonToLeaves(n.children[i], nonterminals);
    added' := added + (kids[i].repr - r);
    forall k | 0 <= k < |kids| && k != i
      ensures kids[k].repr == old(kids[k].repr) && kids[k].shape == old(kids[k].shape) && kids[k].Valid()
    {
      assert old(kids[k].repr) !! r;
    }
  }
}
