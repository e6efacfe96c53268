/**
 * The searches of the symbol-table builder over a syntax tree: the first
 * node with a symbol (`buscarNodo`), the values below a node
 * (`obtener_descendientes`), the text of the siblings after a node
 * (`obtener_hermanos`), the value after a `RETORNAR` (`buscarValor`), the
 * identifiers below a node (`BuscarParametros`) and the value after the
 * `IGUAL` of an assignment (`buscar_valores_asignacion`).
 *
 * They read the tree and change nothing, so they are functions on the
 * tree a node stands for (its `shape`). A node's siblings are its parent's
 * children after it; a search that finds a node hands back those siblings
 * along with it.
 */
module TreeQueries {
  import opened Wrappers
  import opened SyntaxTree

  const ReturnSymbol: string := "RETORNAR"
  const AssignmentSymbol: string := "ASIGNACION"
  const EqualsSymbol: string := "IGUAL"
  const IdentifierSymbol: string := "IDENTIFICADOR"
  /** The value `obtener_descendientes` leaves out. */
  const AtValue: string := "@"

  /** Every node of a tree, each before its children, the children in order. */
  function Preorder(t: Tree): seq<Tree>
    decreases t, 1
  {
    [t] + PreorderAll(t.children)
  }

  function PreorderAll(ts: seq<Tree>): seq<Tree>
    decreases ts, 0
  {
    if ts == [] then [] else Preorder(ts[0]) + PreorderAll(ts[1..])
  }

  // ---------------------------------------------------------------------------
  // buscarNodo
  // ---------------------------------------------------------------------------

  /** A node a search found, with the siblings that follow it under its parent. */
  datatype Located = Located(node: Tree, later: seq<Tree>)

  /**
   * `buscarNodo(nodo, nombre)` on a node whose later siblings are `later`:
   * the node itself when its symbol is `nombre`, otherwise the first find
   * among its children, in order.
   */
  function FindNode(t: Tree, name: string, later: seq<Tree>): (r: Option<Located>)
    ensures r.Some? ==> r.value.node.symbol == name
    decreases t, 1
  {
    if t.symbol == name then Some(Located(t, later)) else FindAmong(t.children, name)
  }

  function FindAmong(ts: seq<Tree>, name: string): (r: Option<Located>)
    ensures r.Some? ==> r.value.node.symbol == name
    decreases ts, 0
  {
    if ts == [] then None
    else match FindNode(ts[0], name, ts[1..])
      case Some(l) => Some(l)
      case None => FindAmong(ts[1..], name)
  }

  /** The first node of a list with the symbol: a search in a flat list. */
  function FirstWith(nodes: seq<Tree>, name: string): Option<Tree> {
    if nodes == [] then None else if nodes[0].symbol == name then Some(nodes[0]) else FirstWith(nodes[1..], name)
  }

  lemma {:induction false} FirstWithAppend(a: seq<Tree>, b: seq<Tree>, name: string)
    ensures FirstWith(a + b, name) == if FirstWith(a, name).Some? then FirstWith(a, name) else FirstWith(b, name)
  {
    if a != [] {
      assert (a + b)[1..] == a[1..] + b;
      FirstWithAppend(a[1..], b, name);
    } else {
      assert a + b == b;
    }
  }

  function NodeOf(r: Option<Located>): Option<Tree> {
    if r.Some? then Some(r.value.node) else None
  }

  /** The search finds the first node in preorder with the symbol, and None when there is none. */
  lemma {:induction false} FindNodeFirst(t: Tree, name: string, later: seq<Tree>)
    ensures NodeOf(FindNode(t, name, later)) == FirstWith(Preorder(t), name)
    decreases t, 1
  {
    if t.symbol != name {
      FindAmongFirst(t.children, name);
      assert Preorder(t)[1..] == PreorderAll(t.children);
    }
  }

  lemma {:induction false} FindAmongFirst(ts: seq<Tree>, name: string)
    ensures NodeOf(FindAmong(ts, name)) == FirstWith(PreorderAll(ts), name)
    decreases ts, 0
  {
    if ts != [] {
      FindNodeFirst(ts[0], name, ts[1..]);
      FindAmongFirst(ts[1..], name);
      FirstWithAppend(Preorder(ts[0]), PreorderAll(ts[1..]), name);
    }
  }

  /** `nodo` is the child of `parent` at `i`, followed by `later`: what `padre.hijos[index + 1:]` gives. */
  predicate ChildAt(parent: Tree, i: int, node: Tree, later: seq<Tree>) {
    0 <= i < |parent.children| && parent.children[i] == node && parent.children[i + 1..] == later
  }

  /**
   * A node found below the root is the child of a node of the tree at some
   * position, and the siblings handed back are the children after it.
   */
  lemma {:induction false} FindNodeSiblings(t: Tree, name: string, later: seq<Tree>)
    ensures var r := FindNode(t, name, later);
      && (t.symbol == name ==> r == Some(Located(t, later)))
      && (t.symbol != name && r.Some? ==>
            exists p, i :: p in Preorder(t) && ChildAt(p, i, r.value.node, r.value.later))
    decreases t, 1
  {
    if t.symbol != name {
      FindAmongSiblings(t, t.children, name);
    }
  }

  /** The same for the search among the last children of `parent`. */
  lemma {:induction false} FindAmongSiblings(parent: Tree, ts: seq<Tree>, name: string)
    requires |ts| <= |parent.children| && ts == parent.children[|parent.children| - |ts|..]
    ensures var r := FindAmong(ts, name);
      r.Some? ==> exists p, i :: p in [parent] + PreorderAll(ts) && ChildAt(p, i, r.value.node, r.value.later)
    decreases ts, 0
  {
    if ts != [] {
      var k := |parent.children| - |ts|;
      assert parent.children[k] == ts[0] && parent.children[k + 1..] == ts[1..];
      var f := FindNode(ts[0], name, ts[1..]);
      FindNodeSiblings(ts[0], name, ts[1..]);
      if f.Some? {
        if ts[0].symbol == name {
          assert ChildAt(parent, k, f.value.node, f.value.later);
        } else {
          var p, i :| p in Preorder(ts[0]) && ChildAt(p, i, f.value.node, f.value.later);
          assert p in [parent] + PreorderAll(ts);
        }
      } else {
        FindAmongSiblings(parent, ts[1..], name);
        var r := FindAmong(ts[1..], name);
        if r.Some? {
          var p, i :| p in [parent] + PreorderAll(ts[1..]) && ChildAt(p, i, r.value.node, r.value.later);
          assert p in [parent] + PreorderAll(ts);
        }
      }
    }
  }

  // ---------------------------------------------------------------------------
  // obtener_descendientes and obtener_hermanos
  // ---------------------------------------------------------------------------

  /** The value of a node, if it has one other than `@`. */
  function OwnValue(t: Tree): seq<string> {
    if t.value.Some? && t.value.value != AtValue then [t.value.value] else []
  }

  /** `obtener_descendientes`: the values of a node and of all nodes below it, in preorder, without `@`. */
  function Descendants(t: Tree): (r: seq<string>)
    ensures forall k :: 0 <= k < |r| ==> r[k] != AtValue
    decreases t, 1
  {
    OwnValue(t) + DescendantsAll(t.children)
  }

  function DescendantsAll(ts: seq<Tree>): (r: seq<string>)
    ensures forall k :: 0 <= k < |r| ==> r[k] != AtValue
    decreases ts, 0
  {
    if ts == [] then [] else Descendants(ts[0]) + DescendantsAll(ts[1..])
  }

  /** The values of a list of nodes, one by one. */
  function ValuesOf(nodes: seq<Tree>): seq<string> {
    if nodes == [] then [] else OwnValue(nodes[0]) + ValuesOf(nodes[1..])
  }

  lemma {:induction false} ValuesOfAppend(a: seq<Tree>, b: seq<Tree>)
    ensures ValuesOf(a + b) == ValuesOf(a) + ValuesOf(b)
  {
    if a != [] {
      assert (a + b)[1..] == a[1..] + b;
      ValuesOfAppend(a[1..], b);
    } else {
      assert a + b == b;
    }
  }

  /** The descendants of a node are the values of its subtree's nodes, read in preorder. */
  lemma {:induction false} DescendantsInPreorder(t: Tree)
    ensures Descendants(t) == ValuesOf(Preorder(t))
    decreases t, 1
  {
    DescendantsAllInPreorder(t.children);
    ValuesOfAppend([t], PreorderAll(t.children));
  }

  lemma {:induction false} DescendantsAllInPreorder(ts: seq<Tree>)
    ensures DescendantsAll(ts) == ValuesOf(PreorderAll(ts))
    decreases ts, 0
  {
    if ts != [] {
      DescendantsInPreorder(ts[0]);
      DescendantsAllInPreorder(ts[1..]);
      ValuesOfAppend(Preorder(ts[0]), PreorderAll(ts[1..]));
    }
  }

  /** `''.join(...)`. */
  function Concat(parts: seq<string>): string {
    if parts == [] then "" else parts[0] + Concat(parts[1..])
  }

  /**
   * `obtener_hermanos` on a node whose parent's children after it are
   * `later` (none for a node without a parent): the values below those
   * siblings, joined. The final filter of `None` and `@` removes nothing,
   * since `Descendants` holds neither.
   */
  function SiblingText(later: seq<Tree>): string {
    Concat(DescendantsAll(later))
  }

  // ---------------------------------------------------------------------------
  // buscarValor
  // ---------------------------------------------------------------------------

  /**
   * `buscarValor`: at a `RETORNAR` node, the text of its later siblings;
   * elsewhere the first non-empty result among the children, in order.
   * An empty text counts as nothing found, as Python's `if resultado:` does.
   */
  function ReturnValue(t: Tree, later: seq<Tree>): (r: Option<string>)
    ensures t.symbol != ReturnSymbol && r.Some? ==> r.value != ""
    decreases t, 1
  {
    if t.symbol == ReturnSymbol then Some(SiblingText(later)) else ReturnAmong(t.children)
  }

  function ReturnAmong(ts: seq<Tree>): (r: Option<string>)
    ensures r.Some? ==> r.value != ""
    decreases ts, 0
  {
    if ts == [] then None
    else
      var r := ReturnValue(ts[0], ts[1..]);
      if r.Some? && r.value != "" then r else ReturnAmong(ts[1..])
  }

  /** Below a node with no `RETORNAR`, nothing is found. */
  lemma {:induction false} NoReturnNoValue(t: Tree, later: seq<Tree>)
    requires FindNode(t, ReturnSymbol, later).None?
    ensures ReturnValue(t, later).None?
    decreases t, 1
  {
    NoReturnAmong(t.children);
  }

  lemma {:induction false} NoReturnAmong(ts: seq<Tree>)
    requires FindAmong(ts, ReturnSymbol).None?
    ensures ReturnAmong(ts).None?
    decreases ts, 0
  {
    if ts != [] {
      NoReturnNoValue(ts[0], ts[1..]);
      NoReturnAmong(ts[1..]);
    }
  }

  /**
   * The value found is that of the first `RETORNAR` in preorder whenever
   * its siblings hold any text: `buscarValor` and `buscarNodo` agree.
   */
  lemma {:induction false} ReturnValueFirst(t: Tree, later: seq<Tree>)
    requires t.symbol != ReturnSymbol
    requires FindNode(t, ReturnSymbol, later).Some? && SiblingText(FindNode(t, ReturnSymbol, later).value.later) != ""
    ensures ReturnValue(t, later) == Some(SiblingText(FindNode(t, ReturnSymbol, later).value.later))
    decreases t, 1
  {
    ReturnAmongFirst(t.children);
  }

  lemma {:induction false} ReturnAmongFirst(ts: seq<Tree>)
    requires FindAmong(ts, ReturnSymbol).Some? && SiblingText(FindAmong(ts, ReturnSymbol).value.later) != ""
    ensures ReturnAmong(ts) == Some(SiblingText(FindAmong(ts, ReturnSymbol).value.later))
    decreases ts, 0
  {
    var f := FindNode(ts[0], ReturnSymbol, ts[1..]);
    if f.Some? {
      if ts[0].symbol != ReturnSymbol {
        ReturnValueFirst(ts[0], ts[1..]);
      }
    } else {
      NoReturnNoValue(ts[0], ts[1..]);
      ReturnAmongFirst(ts[1..]);
    }
  }

  // ---------------------------------------------------------------------------
  // BuscarParametros and buscar_valores_asignacion
  // ---------------------------------------------------------------------------

  /** The values of the nodes of a list whose symbol is `IDENTIFICADOR`. */
  function IdentifiersOf(nodes: seq<Tree>): seq<Option<string>> {
    if nodes == [] then []
    else (if nodes[0].symbol == IdentifierSymbol then [nodes[0].value] else []) + IdentifiersOf(nodes[1..])
  }

  lemma {:induction false} IdentifiersOfAppend(a: seq<Tree>, b: seq<Tree>)
    ensures IdentifiersOf(a + b) == IdentifiersOf(a) + IdentifiersOf(b)
  {
    if a != [] {
      assert (a + b)[1..] == a[1..] + b;
      IdentifiersOfAppend(a[1..], b);
    } else {
      assert a + b == b;
    }
  }

  /** `BuscarParametros`: the values of the `IDENTIFICADOR` nodes of a subtree, in preorder; none for no node. */
  function Parameters(t: Option<Tree>): seq<Option<string>> {
    if t.None? then [] else ParametersOf(t.value)
  }

  function ParametersOf(t: Tree): seq<Option<string>>
    decreases t, 1
  {
    (if t.symbol == IdentifierSymbol then [t.value] else []) + ParametersAll(t.children)
  }

  function ParametersAll(ts: seq<Tree>): seq<Option<string>>
    decreases ts, 0
  {
    if ts == [] then [] else ParametersOf(ts[0]) + ParametersAll(ts[1..])
  }

  /** The parameters are the identifiers of the subtree read in preorder. */
  lemma {:induction false} ParametersInPreorder(t: Tree)
    ensures ParametersOf(t) == IdentifiersOf(Preorder(t))
    decreases t, 1
  {
    ParametersAllInPreorder(t.children);
    IdentifiersOfAppend([t], PreorderAll(t.children));
  }

  lemma {:induction false} ParametersAllInPreorder(ts: seq<Tree>)
    ensures ParametersAll(ts) == IdentifiersOf(PreorderAll(ts))
    decreases ts, 0
  {
    if ts != [] {
      ParametersInPreorder(ts[0]);
      ParametersAllInPreorder(ts[1..]);
      IdentifiersOfAppend(Preorder(ts[0]), PreorderAll(ts[1..]));
    }
  }

  /**
   * `buscar_valores_asignacion`: on an `ASIGNACION` node, the text of the
   * siblings after its first `IGUAL`; on any other node, or without an
   * `IGUAL`, the empty string.
   */
  function AssignmentValue(t: Tree): string {
    if t.symbol != AssignmentSymbol then ""
    else match FindNode(t, EqualsSymbol, [])
      case None => ""
      case Some(l) => SiblingText(l.later)
  }

  /**
   * The `IGUAL` of an assignment lies strictly below it, so it has a parent
   * in the tree, and the text is that of the parent's children after it.
   */
  lemma AssignmentSiblings(t: Tree)
    requires t.symbol == AssignmentSymbol && FindNode(t, EqualsSymbol, []).Some?
    ensures var l := FindNode(t, EqualsSymbol, []).value;
      && l.node.symbol == EqualsSymbol
      && (exists p, i :: p in Preorder(t) && ChildAt(p, i, l.node, l.later))
      && AssignmentValue(t) == SiblingText(l.later)
  {
    FindNodeSiblings(t, EqualsSymbol, []);
  }
}
