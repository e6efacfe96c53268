/**
 * The parser of `generar_arbol_sintactico` and `obtener_raiz` on heap
 * nodes. `TreeBuilder` holds what the nested functions of those two share:
 * the grammar, the tokens and the node counter `contador_nodos`. Every
 * method is proved to build the tree the functions of TreeParser describe.
 */
module TreeBuilding {
  import opened Wrappers
  import opened Text
  import opened Grammar
  import opened SyntaxTree
  import opened TreeParser

  /**
   * Nodes that are trees of their own inside `made`, without a parent and
   * sharing no node: the `hijos` of a production.
   */
  ghost predicate Forest(kids: seq<Node>, shapes: seq<Tree>, made: set<Node>)
    reads made
  {
    && |kids| == |shapes|
    && (forall i :: 0 <= i < |kids| ==> kids[i] in made && kids[i].repr <= made)
    && (forall i :: 0 <= i < |kids| ==> kids[i].Valid() && kids[i].parent == null && kids[i].shape == shapes[i])
    && (forall i, j :: 0 <= i < j < |kids| ==> kids[i].repr !! kids[j].repr)
  }

  /** Taking the first tree out of a forest leaves a forest in what remains. */
  lemma ForestTail(kids: seq<Node>, shapes: seq<Tree>, made: set<Node>)
    requires Forest(kids, shapes, made) && kids != []
    ensures Forest(kids[1..], shapes[1..], made - kids[0].repr)
  {
    forall i | 1 <= i < |kids| ensures kids[i] !in kids[0].repr {
      assert kids[i] in kids[i].repr;
    }
  }

  /** A new tree that shares no node with a forest joins it at the end. */
  lemma ForestAppend(kids: seq<Node>, shapes: seq<Tree>, made: set<Node>, child: Node)
    requires Forest(kids, shapes, made)
    requires child in child.repr && child.Valid() && child.parent == null && child.repr !! made
    ensures Forest(kids + [child], shapes + [child.shape], made + child.repr)
  {
  }

  /** A call of `parser` that gave `r` in the functions returned `raised`, `node` and `next`. */
  ghost predicate Delivers(r: Parsed, raised: Option<ParseError>, node: Node?, next: nat, counter: nat)
    reads if node == null then {} else {node} + node.repr
  {
    && (r.Raised? ==> raised == Some(r.error) && node == null)
    && (r.Parsed? ==> raised == None && next == r.index && counter == r.counter && (node == null <==> r.tree.None?))
    && (node != null ==> node in node.repr && node.Valid() && node.parent == null && r.Parsed? && r.tree == Some(node.shape))
  }

  /** A production that gave `r` in the functions left `raised`, `matched`, `kids` and `next`. */
  ghost predicate Collected(r: Expanded, raised: Option<ParseError>, matched: bool, kids: seq<Node>, next: nat,
                            counter: nat, made: set<Node>)
    reads made
  {
    && (r.ExpandRaised? ==> raised == Some(r.error))
    && (r.Unmatched? ==> raised == None && !matched && counter == r.counter)
    && (r.Matched? ==> raised == None && matched && next == r.index && counter == r.counter && Forest(kids, r.children, made))
  }

  class TreeBuilder {
    const grammar: Productions
    const tokens: seq<string>
    var counter: nat  // `contador_nodos`

    constructor (grammar: Productions, tokens: seq<string>)
      ensures this.grammar == grammar && this.tokens == tokens && counter == 0
    {
      this.grammar, this.tokens := grammar, tokens;
      counter := 0;
    }

    /** `agregar_nodo`: a new childless node named after the counter, which moves on by one. */
    method AddNode(symbol: string, value: Option<string>) returns (node: Node)
      modifies this`counter
      ensures fresh(node) && node.Valid() && node.repr == {node} && node.parent == null
      ensures node.shape == Tree(symbol, NodeId(old(counter)), value, [])
      ensures counter == old(counter) + 1
    {
      node := new Node(symbol, "N" + NatToString(counter), value);
      counter := counter + 1;
    }

    /** `evaluar_prioridad`. */
    method Priority(production: seq<string>, index: nat) returns (matches: nat)
      ensures matches == Score(grammar, production, tokens, index)
    {
      matches := 0;
      while matches < |production| && index + matches < |tokens| && Fits(grammar, production[matches], tokens[index + matches])
        invariant matches <= |production|
        invariant Score(grammar, production, tokens, index) == matches + Score(grammar, production[matches..], tokens, index + matches)
      {
        assert production[matches..][1..] == production[matches + 1..];
        matches := matches + 1;
      }
    }

    /** `sorted(producciones, key=evaluar_prioridad, reverse=True)`. */
    method SortProductions(ps: seq<seq<string>>, index: nat) returns (sorted: seq<seq<string>>)
      ensures sorted == Tried(grammar, ps, tokens, index)
    {
      var scores: seq<nat> := [];
      for k := 0 to |ps|
        invariant |scores| == k && forall j :: 0 <= j < k ==> scores[j] == Score(grammar, ps[j], tokens, index)
      {
        var score := Priority(ps[k], index);
        scores := scores + [score];
      }
      assert scores == Scores(grammar, ps, tokens, index);
      sorted := Candidates(ps, Ranking(scores));
    }

    /** `nodo_actual = agregar_nodo(no_terminal)` and the `agregar_hijo` loop over the children. */
    method Attach(nt: string, kids: seq<Node>, ghost shapes: seq<Tree>, ghost made: set<Node>) returns (node: Node)
      requires Forest(kids, shapes, made)
      modifies this`counter, made`parent
      ensures fresh(node) && node.Valid() && node.parent == null && counter == old(counter) + 1
      ensures node.shape == Tree(nt, NodeId(old(counter)), None, shapes)
      ensures node.repr <= made + {node}
    {
      node := AddNode(nt, None);
      ghost var rest := made;
      for k := 0 to |kids|
        invariant fresh(node) && node.Valid() && node.parent == null && node.repr <= made + {node}
        invariant counter == old(counter) + 1
        invariant node.shape == Tree(nt, NodeId(old(counter)), None, shapes[..k])
        invariant rest <= made && node.repr !! rest
        invariant Forest(kids[k..], shapes[k..], rest)
      {
        ForestTail(kids[k..], shapes[k..], rest);
        assert kids[k..][0] == kids[k] && kids[k..][1..] == kids[k + 1..] && shapes[k..][1..] == shapes[k + 1..];
        ghost var rest' := rest - kids[k].repr;
        assert node !in rest' && kids[k] !in rest';
        node.AddChild(kids[k]);
        rest := rest';
        assert shapes[..k + 1] == shapes[..k] + [shapes[k]];
      }
      assert shapes[..|kids|] == shapes;
    }

    /**
     * The `for simbolo in produccion` loop: the children of the production
     * when it matches, the flag `exito`, and the index after it.
     */
    method ExpandProduction(body: seq<string>, index: nat, depth: nat)
      returns (raised: Option<ParseError>, matched: bool, kids: seq<Node>, next: nat, ghost made: set<Node>)
      modifies this`counter
      ensures Collected(Expand(grammar, tokens, body, [], index, old(counter), depth), raised, matched, kids, next, counter, made)
      ensures fresh(made)
      decreases depth, 1
    {
      ghost var start := counter;
      ghost var shapes: seq<Tree> := [];
      kids, next, made := [], index, {};
      var k := 0;
      while k < |body|
        invariant 0 <= k <= |body|
        invariant Forest(kids, shapes, made) && fresh(made)
        invariant Expand(grammar, tokens, body, [], index, start, depth) == Expand(grammar, tokens, body[k..], shapes, next, counter, depth)
      {
        assert body[k..][0] == body[k] && body[k..][1..] == body[k + 1..];
        var symbol := body[k];
        if symbol in grammar {
          var failure, child, after := ParseSymbol(symbol, next, depth);
          if failure.Some? {
            return failure, false, [], next, {};
          }
          if child == null {
            return None, false, [], next, {};
          }
          ForestAppend(kids, shapes, made, child);
          kids, shapes, next, made := kids + [child], shapes + [child.shape], after, made + child.repr;
        } else if symbol == Epsilon {
        } else if next < |tokens| && HasPrefix(tokens[next], symbol + ":") {
          if !WellFormedToken(tokens[next]) {
            return Some(TokenNotSplit(tokens[next])), false, [], next, {};
          }
          var leaf := AddNode(TokenType(tokens[next]), Some(TokenValue(tokens[next])));
          ForestAppend(kids, shapes, made, leaf);
          kids, shapes, next, made := kids + [leaf], shapes + [leaf.shape], next + 1, made + leaf.repr;
        } else {
          return None, false, [], next, {};
        }
        k := k + 1;
      }
      return None, true, kids, next, made;
    }

    /**
     * `parser(no_terminal, tokens, index)`, with room for `depth` more nested
     * calls before Python's recursion limit: the node it returns is a new
     * tree without a parent, and it is the tree `Parse` describes.
     */
    method ParseSymbol(nt: string, index: nat, depth: nat) returns (raised: Option<ParseError>, node: Node?, next: nat)
      modifies this`counter
      ensures Delivers(Parse(grammar, tokens, nt, index, old(counter), depth), raised, node, next, counter)
      ensures node != null ==> fresh(node.repr)
      decreases depth, 0
    {
      if depth == 0 {
        return Some(RecursionLimit), null, index;
      }
      if nt !in grammar {
        return None, null, index;
      }
      var candidates := SortProductions(grammar[nt], index);
      var fallback := MentionsEpsilon(grammar[nt]);
      var k := 0;
      while k < |candidates|
        invariant 0 <= k <= |candidates|
        invariant Parse(grammar, tokens, nt, index, old(counter), depth)
               == TryProductions(grammar, tokens, nt, candidates[k..], fallback, index, counter, depth - 1)
      {
        assert candidates[k..][0] == candidates[k] && candidates[k..][1..] == candidates[k + 1..];
        ghost var before := counter;
        var failure, matched, kids, after, made := ExpandProduction(candidates[k], index, depth - 1);
        if failure.Some? {
          return failure, null, index;
        }
        if matched {
          ghost var shapes := Expand(grammar, tokens, candidates[k], [], index, before, depth - 1).children;
          node := Attach(nt, kids, shapes, made);
          return None, node, after;
        }
        k := k + 1;
      }
      if fallback {
        node := AddNode(nt, None);
        return None, node, index;
      }
      return None, null, index;
    }
  }

  /** `obtener_raiz`: the tree of `PROGRAMA` from the first token, with the counter at zero. */
  method ObtainRoot(grammar: Productions, tokens: seq<string>, depth: nat) returns (raised: Option<ParseError>, root: Node?)
    ensures var r := Parse(grammar, tokens, "PROGRAMA", 0, 0, depth);
      && (r.Raised? ==> raised == Some(r.error) && root == null)
      && (r.Parsed? ==> raised == None && (root == null <==> r.tree.None?))
      && (root != null ==> root.Valid() && root.parent == null && r.Parsed? && r.tree == Some(root.shape))
    ensures root != null ==> fresh(root.repr)
  {
    var builder := new TreeBuilder(grammar, tokens);
    var next;
    raised, root, next := builder.ParseSymbol("PROGRAMA", 0, depth);
  }

  /**
   * `generar_arbol_sintactico`: the tree of `PROGRAMA`, with an `ε` leaf hung
   * under every childless node whose symbol is a listed nonterminal.
   */
  method BuildTree(grammar: Productions, tokens: seq<string>, nonterminals: set<string>, depth: nat)
    returns (raised: Option<ParseError>, root: Node?)
    ensures var r := Parse(grammar, tokens, "PROGRAMA", 0, 0, depth);
      && (r.Raised? ==> raised == Some(r.error) && root == null)
      && (r.Parsed? ==> raised == None && (root == null <==> r.tree.None?))
      && (root != null ==> root.Valid() && r.Parsed? && r.tree.Some? && root.shape == Decorate(r.tree.value, nonterminals))
    ensures root != null ==> fresh(root.repr)
  {
    raised, root := ObtainRoot(grammar, tokens, depth);
    if root != null {
      AddEpsilonToLeaves(root, nonterminals);
    }
  }
}
