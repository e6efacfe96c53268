/**
 * The backtracking parser that builds the syntax tree: the grammar map read
 * from rule lines (`cargar_gramatica`), the lookahead score of a production
 * (`evaluar_prioridad`), the order in which productions are tried (a stable
 * sort by descending score), and the recursive parser itself
 * (`generar_arbol_sintactico`'s nested `parser`, and its copy `obtener_raiz`).
 *
 * The parser is given here as functions on tree values; `TreeBuilder` in
 * tree_builder.dfy builds the same trees out of heap nodes.
 */
module TreeParser {
  import opened Wrappers
  import opened Text
  import opened Grammar
  import opened SyntaxTree

  /** `gramatica`: every head with its productions, each a list of symbols. */
  type Productions = map<string, seq<seq<string>>>

  // ---------------------------------------------------------------------------
  // Reading the grammar
  // ---------------------------------------------------------------------------

  /** `[simbolo.strip() for simbolo in ...]`. */
  function StripAll(ws: seq<string>): (r: seq<string>)
    ensures |r| == |ws| && forall i :: 0 <= i < |ws| ==> r[i] == Strip(ws[i])
  {
    seq(|ws|, i requires 0 <= i < |ws| => Strip(ws[i]))
  }

  /** The words of a split hold no whitespace, so stripping them again changes nothing. */
  lemma StripAllWords(s: string)
    ensures StripAll(SplitWords(s)) == SplitWords(s)
  {
    SplitWordsShape(s);
    var ws := SplitWords(s);
    forall i | 0 <= i < |ws| ensures Strip(ws[i]) == ws[i] {
      StrippedIsFixed(ws[i]);
    }
  }

  /** The symbols of the production on a rule line. */
  function LineSymbols(r: Rule): seq<string> {
    StripAll(SplitWords(r.rhs))
  }

  /** One turn of the loop of `cargar_gramatica`: a line with `->` adds a production to its head. */
  function AddLine(g: Productions, line: string): Result<Productions, RuleError> {
    if !HasArrow(line) then Success(g)
    else match ParseRule(line)
      case Failure(e) => Failure(e)
      case Success(r) =>
        Success(if r.lhs in g then g[r.lhs := g[r.lhs] + [LineSymbols(r)]] else g[r.lhs := [LineSymbols(r)]])
  }

  /** The grammar map of the first lines, or the error of the first line whose `split('->')` has not two parts. */
  function Grouped(lines: seq<string>): Result<Productions, RuleError>
    decreases |lines|
  {
    if lines == [] then Success(map[])
    else match Grouped(lines[..|lines| - 1])
      case Failure(e) => Failure(e)
      case Success(g) => AddLine(g, lines[|lines| - 1])
  }

  /** An error on a line ends the reading: later lines do not matter. */
  lemma {:induction false} GroupedFailureStays(lines: seq<string>, n: nat)
    requires n <= |lines| && Grouped(lines[..n]).Failure?
    ensures Grouped(lines) == Grouped(lines[..n])
    decreases |lines| - n
  {
    if n < |lines| {
      assert lines[..n + 1][..n] == lines[..n];
      GroupedFailureStays(lines, n + 1);
    } else {
      assert lines[..n] == lines;
    }
  }

  /** `cargar_gramatica` on the lines of the file. */
  method LoadGrammar(lines: seq<string>) returns (result: Result<Productions, RuleError>)
    ensures result == Grouped(lines)
  {
    var grammar: Productions := map[];
    for i := 0 to |lines|
      invariant Grouped(lines[..i]) == Success(grammar)
    {
      assert lines[..i + 1][..i] == lines[..i];
      var line := lines[i];
      if HasArrow(line) {
        var parts := ParseRule(line);
        if parts.Failure? {
          GroupedFailureStays(lines, i + 1);
          return Failure(parts.error);
        }
        var head, symbols := parts.value.lhs, LineSymbols(parts.value);
        if head in grammar {
          grammar := grammar[head := grammar[head] + [symbols]];
        } else {
          grammar := grammar[head := [symbols]];
        }
      }
    }
    assert lines[..|lines|] == lines;
    return Success(grammar);
  }

  /** The line holds a rule with head `h`. */
  predicate RuleLineOf(line: string, h: string) {
    HasArrow(line) && ParseRule(line).Success? && ParseRule(line).value.lhs == h
  }

  /** The productions of `h`, in the order of their lines. */
  function ProductionsOf(lines: seq<string>, h: string): seq<seq<string>>
    decreases |lines|
  {
    if lines == [] then []
    else
      var line := lines[|lines| - 1];
      ProductionsOf(lines[..|lines| - 1], h) + (if RuleLineOf(line, h) then [LineSymbols(ParseRule(line).value)] else [])
  }

  /** Reading succeeds exactly when every line with `->` has exactly one. */
  lemma {:induction false} GroupedSucceeds(lines: seq<string>)
    ensures Grouped(lines).Success? <==> forall i :: 0 <= i < |lines| && HasArrow(lines[i]) ==> ParseRule(lines[i]).Success?
    decreases |lines|
  {
    if lines != [] {
      var init := lines[..|lines| - 1];
      GroupedSucceeds(init);
      assert forall i :: 0 <= i < |init| ==> init[i] == lines[i];
    }
  }

  /**
   * After a successful reading, the heads are the heads of the rule lines,
   * and each head's productions are its lines' productions in file order;
   * lines without `->` are ignored.
   */
  lemma {:induction false} GroupedProductions(lines: seq<string>, h: string)
    requires Grouped(lines).Success?
    ensures h in Grouped(lines).value <==> ProductionsOf(lines, h) != []
    ensures h in Grouped(lines).value ==> Grouped(lines).value[h] == ProductionsOf(lines, h)
    decreases |lines|
  {
    if lines != [] {
      var init, line := lines[..|lines| - 1], lines[|lines| - 1];
      assert Grouped(init).Success?;
      GroupedProductions(init, h);
      if HasArrow(line) {
        var r := ParseRule(line).value;
        if h == r.lhs {
          assert RuleLineOf(line, h);
        } else {
          assert !RuleLineOf(line, h);
        }
      } else {
        assert !RuleLineOf(line, h);
      }
    }
  }

  // ---------------------------------------------------------------------------
  // Lookahead score and the order of the productions
  // ---------------------------------------------------------------------------

  /** `simbolo in gramatica or re.match(f'{simbolo}:.*', token)`. */
  predicate Fits(g: Productions, symbol: string, token: string) {
    symbol in g || HasPrefix(token, symbol + ":")
  }

  /**
   * `evaluar_prioridad`: the number of leading symbols of the production
   * that are nonterminals or match the token type at the same offset from
   * `index`; it counts no further than the production or the tokens reach,
   * and stops at the first symbol that fits neither.
   */
  function Score(g: Productions, p: seq<string>, tokens: seq<string>, index: nat): (n: nat)
    ensures n <= |p| && (n > 0 ==> index + n <= |tokens|)
    ensures forall j :: 0 <= j < n ==> Fits(g, p[j], tokens[index + j])
    ensures n < |p| && index + n < |tokens| ==> !Fits(g, p[n], tokens[index + n])
    decreases |p|
  {
    if p == [] || index >= |tokens| then 0
    else if Fits(g, p[0], tokens[index]) then 1 + Score(g, p[1..], tokens, index + 1)
    else 0
  }

  /** The score of every production, in order: the sort keys. */
  function Scores(g: Productions, ps: seq<seq<string>>, tokens: seq<string>, index: nat): (r: seq<nat>)
    ensures |r| == |ps| && forall i :: 0 <= i < |ps| ==> r[i] == Score(g, ps[i], tokens, index)
  {
    seq(|ps|, i requires 0 <= i < |ps| => Score(g, ps[i], tokens, index))
  }

  /** `a` comes before `b` in `sorted(..., reverse=True)`: a higher score, or the same score and earlier. */
  predicate Before(scores: seq<nat>, a: nat, b: nat)
    requires a < |scores| && b < |scores|
  {
    scores[a] > scores[b] || (scores[a] == scores[b] && a < b)
  }

  predicate Indices(order: seq<nat>, n: nat) {
    forall i :: 0 <= i < |order| ==> order[i] < n
  }

  /** Insert index `k` after every entry whose score is at least that of `k`. */
  function Insert(scores: seq<nat>, k: nat, order: seq<nat>): (r: seq<nat>)
    requires k < |scores| && Indices(order, |scores|)
    ensures |r| == |order| + 1 && Indices(r, |scores|)
    ensures forall x :: x in r <==> x == k || x in order
  {
    if order == [] then [k]
    else if scores[order[0]] >= scores[k] then [order[0]] + Insert(scores, k, order[1..])
    else [k] + order
  }

  /** The positions of the productions in the order `sorted(..., key=..., reverse=True)` returns them. */
  function Ranking(scores: seq<nat>): (order: seq<nat>)
    ensures |order| == |scores| && Indices(order, |scores|)
    decreases |scores|
  {
    if scores == [] then []
    else Insert(scores, |scores| - 1, Ranking(scores[..|scores| - 1]))
  }

  /** In order by `Before`: descending score, and ties in their original order. */
  predicate Ranked(scores: seq<nat>, order: seq<nat>)
    requires Indices(order, |scores|)
  {
    forall i, j :: 0 <= i < j < |order| ==> Before(scores, order[i], order[j])
  }

  lemma {:induction false} InsertRanked(scores: seq<nat>, k: nat, order: seq<nat>)
    requires k < |scores| && Indices(order, |scores|) && Ranked(scores, order)
    requires forall i :: 0 <= i < |order| ==> order[i] < k
    ensures Ranked(scores, Insert(scores, k, order))
  {
    if order != [] && scores[order[0]] >= scores[k] {
      InsertRanked(scores, k, order[1..]);
      var r := Insert(scores, k, order);
      forall i, j | 0 <= i < j < |r| ensures Before(scores, r[i], r[j]) {
        if i == 0 {
          assert r[j] in Insert(scores, k, order[1..]);
          assert r[j] == k || r[j] in order[1..];
        }
      }
    }
  }

  /**
   * The ranking is the stable descending sort of the positions by score:
   * every position appears once, higher scores come first, and equal
   * scores keep their original order.
   */
  lemma {:induction false} RankingSorted(scores: seq<nat>)
    ensures Ranked(scores, Ranking(scores))
    ensures forall k: nat :: k < |scores| <==> k in Ranking(scores)
    decreases |scores|
  {
    if scores != [] {
      var n := |scores| - 1;
      var init := scores[..n];
      RankingSorted(init);
      var order := Ranking(init);
      assert forall i :: 0 <= i < |order| ==> order[i] < n;
      forall i, j | 0 <= i < j < |order| ensures Before(scores, order[i], order[j]) {
        assert Before(init, order[i], order[j]);
      }
      InsertRanked(scores, n, order);
      assert Ranking(scores) == Insert(scores, n, order);
      forall k: nat ensures k < |scores| <==> k in Ranking(scores) {
        assert k in Ranking(scores) <==> k == n || k in order;
      }
    }
  }

  /** A ranked order names no position twice. */
  lemma RankedDistinct(scores: seq<nat>, order: seq<nat>)
    requires Indices(order, |scores|) && Ranked(scores, order)
    ensures forall i, j :: 0 <= i < j < |order| ==> order[i] != order[j]
  {
  }

  /** The productions in the order they are tried. */
  function Candidates(ps: seq<seq<string>>, order: seq<nat>): (r: seq<seq<string>>)
    requires Indices(order, |ps|)
    ensures |r| == |order| && forall i :: 0 <= i < |order| ==> r[i] == ps[order[i]]
  {
    seq(|order|, i requires 0 <= i < |order| => ps[order[i]])
  }

  function Tried(g: Productions, ps: seq<seq<string>>, tokens: seq<string>, index: nat): seq<seq<string>> {
    Candidates(ps, Ranking(Scores(g, ps, tokens, index)))
  }

  /** The productions are tried in descending score, ties in file order, each once. */
  lemma TriedOrder(g: Productions, ps: seq<seq<string>>, tokens: seq<string>, index: nat)
    ensures var order := Ranking(Scores(g, ps, tokens, index));
      && Tried(g, ps, tokens, index) == Candidates(ps, order)
      && (forall k: nat :: k < |ps| <==> k in order)
      && forall i, j :: 0 <= i < j < |order| ==>
           var a, b := Score(g, ps[order[i]], tokens, index), Score(g, ps[order[j]], tokens, index);
           a > b || (a == b && order[i] < order[j])
  {
    RankingSorted(Scores(g, ps, tokens, index));
  }

  // ---------------------------------------------------------------------------
  // The parser on values
  // ---------------------------------------------------------------------------

  /** `f'N{contador_nodos}'`. */
  function NodeId(counter: nat): string {
    "N" + NatToString(counter)
  }

  /** The exceptions that end the parse: Python's recursion limit, and a token `split(':')` cannot unpack. */
  datatype ParseError = RecursionLimit | TokenNotSplit(token: string)

  /** What a call of `parser` gives back, with the node counter after it. */
  datatype Parsed = Parsed(tree: Option<Tree>, index: nat, counter: nat) | Raised(error: ParseError)

  /** What trying one production gives: its children, or failure, with the node counter after it. */
  datatype Expanded =
    | Matched(children: seq<Tree>, index: nat, counter: nat)
    | Unmatched(counter: nat)
    | ExpandRaised(error: ParseError)

  /** `"''" in [simbolo for produccion in ... for simbolo in produccion]`. */
  predicate MentionsEpsilon(ps: seq<seq<string>>) {
    exists i :: 0 <= i < |ps| && Epsilon in ps[i]
  }

  /**
   * `parser(no_terminal, tokens, index)` with `counter` nodes made so far
   * and room for `depth` more nested calls: an unknown nonterminal gives
   * None; otherwise the productions are tried in order of their score, the
   * first that matches gives a node labelled by the nonterminal, and when
   * none matches a production that mentions `''` gives a childless node.
   */
  function Parse(g: Productions, tokens: seq<string>, nt: string, index: nat, counter: nat, depth: nat): Parsed
    decreases depth, 0
  {
    if depth == 0 then Raised(RecursionLimit)
    else if nt !in g then Parsed(None, index, counter)
    else TryProductions(g, tokens, nt, Tried(g, g[nt], tokens, index), MentionsEpsilon(g[nt]), index, counter, depth - 1)
  }

  /** The `for produccion in producciones` loop and the `''` fallback after it. */
  function TryProductions(g: Productions, tokens: seq<string>, nt: string, candidates: seq<seq<string>>,
                          fallback: bool, index: nat, counter: nat, depth: nat): Parsed
    decreases depth, 2, |candidates|
  {
    if candidates == [] then
      if fallback then Parsed(Some(Tree(nt, NodeId(counter), None, [])), index, counter + 1)
      else Parsed(None, index, counter)
    else match Expand(g, tokens, candidates[0], [], index, counter, depth)
      case ExpandRaised(e) => Raised(e)
      case Unmatched(c) => TryProductions(g, tokens, nt, candidates[1..], fallback, index, c, depth)
      case Matched(children, j, c) => Parsed(Some(Tree(nt, NodeId(c), None, children)), j, c + 1)
  }

  /** The `for simbolo in produccion` loop, from the children and the index reached so far. */
  function Expand(g: Productions, tokens: seq<string>, body: seq<string>, children: seq<Tree>,
                  index: nat, counter: nat, depth: nat): Expanded
    decreases depth, 1, |body|
  {
    if body == [] then Matched(children, index, counter)
    else
      var s := body[0];
      if s in g then
        match Parse(g, tokens, s, index, counter, depth)
        case Raised(e) => ExpandRaised(e)
        case Parsed(None, _, c) => Unmatched(c)
        case Parsed(Some(t), j, c) => Expand(g, tokens, body[1..], children + [t], j, c, depth)
      else if s == Epsilon then Expand(g, tokens, body[1..], children, index, counter, depth)
      else if index < |tokens| && HasPrefix(tokens[index], s + ":") then
        if !WellFormedToken(tokens[index]) then ExpandRaised(TokenNotSplit(tokens[index]))
        else
          var leaf := Tree(TokenType(tokens[index]), NodeId(counter), Some(TokenValue(tokens[index])), []);
          Expand(g, tokens, body[1..], children + [leaf], index + 1, counter + 1, depth)
      else Unmatched(counter)
  }


  // ---------------------------------------------------------------------------
  // What the parser gives back
  // ---------------------------------------------------------------------------

  /** The tokens under a tree, left to right, in their `TYPE:value` form. */
  function Yield(t: Tree): seq<string>
    decreases t, 1
  {
    (if t.value.Some? then [t.symbol + ":" + t.value.value] else []) + YieldAll(t.children)
  }

  function YieldAll(ts: seq<Tree>): seq<string>
    decreases ts, 0
  {
    if ts == [] then [] else Yield(ts[0]) + YieldAll(ts[1..])
  }

  lemma {:induction false} YieldAllAppend(ts: seq<Tree>, t: Tree)
    ensures YieldAll(ts + [t]) == YieldAll(ts) + Yield(t)
  {
    if ts != [] {
      assert (ts + [t])[1..] == ts[1..] + [t];
      YieldAllAppend(ts[1..], t);
    } else {
      assert YieldAll([t]) == Yield(t) + YieldAll([]);
    }
  }

  /**
   * A call neither moves back in the tokens nor in the node counter; when it
   * gives no tree it has consumed nothing, and when it gives one, the tree is
   * a node of the nonterminal without a value whose tokens are exactly the
   * tokens consumed.
   */
  lemma {:induction false} ParseConsumes(g: Productions, tokens: seq<string>, nt: string, index: nat, counter: nat, depth: nat)
    requires index <= |tokens|
    ensures var r := Parse(g, tokens, nt, index, counter, depth);
      r.Parsed? ==>
        && index <= r.index <= |tokens| && counter <= r.counter
        && (r.tree.None? ==> r.index == index)
        && (r.tree.Some? ==>
              && r.tree.value.symbol == nt && r.tree.value.value.None?
              && Yield(r.tree.value) == tokens[index..r.index])
    decreases depth, 0, 0, 0
  {
    if depth > 0 && nt in g {
      TryConsumes(g, tokens, nt, Tried(g, g[nt], tokens, index), MentionsEpsilon(g[nt]), index, counter, depth - 1);
    }
  }

  lemma {:induction false} TryConsumes(g: Productions, tokens: seq<string>, nt: string, candidates: seq<seq<string>>,
                                        fallback: bool, index: nat, counter: nat, depth: nat)
    requires index <= |tokens|
    ensures var r := TryProductions(g, tokens, nt, candidates, fallback, index, counter, depth);
      r.Parsed? ==>
        && index <= r.index <= |tokens| && counter <= r.counter
        && (r.tree.None? ==> r.index == index)
        && (r.tree.Some? ==>
              && r.tree.value.symbol == nt && r.tree.value.value.None?
              && Yield(r.tree.value) == tokens[index..r.index])
    decreases depth, 2, |candidates|, 0
  {
    if candidates == [] {
      if fallback {
        assert Yield(Tree(nt, NodeId(counter), None, [])) == [];
      }
    } else {
      ExpandConsumes(g, tokens, candidates[0], [], index, counter, depth);
      match Expand(g, tokens, candidates[0], [], index, counter, depth)
      case ExpandRaised(_) =>
      case Unmatched(c) =>
        TryConsumes(g, tokens, nt, candidates[1..], fallback, index, c, depth);
      case Matched(children, j, c) =>
        assert Yield(Tree(nt, NodeId(c), None, children)) == YieldAll(children);
    }
  }

  /** A production matched from `index` goes on past the tokens its new children cover. */
  predicate ExpandConsumed(r: Expanded, tokens: seq<string>, children: seq<Tree>, index: nat, counter: nat) {
    && (r.Matched? ==>
          && index <= r.index <= |tokens| && counter <= r.counter
          && YieldAll(r.children) == YieldAll(children) + tokens[index..r.index])
    && (r.Unmatched? ==> counter <= r.counter)
  }

  lemma {:induction false} ExpandConsumes(g: Productions, tokens: seq<string>, body: seq<string>, children: seq<Tree>,
                                           index: nat, counter: nat, depth: nat)
    requires index <= |tokens|
    ensures ExpandConsumed(Expand(g, tokens, body, children, index, counter, depth), tokens, children, index, counter)
    decreases depth, 1, |body|, 1
  {
    if body == [] {
      assert tokens[index..index] == [];
    } else if body[0] in g {
      NonterminalConsumes(g, tokens, body, children, index, counter, depth);
    } else if body[0] == Epsilon {
      ExpandConsumes(g, tokens, body[1..], children, index, counter, depth);
    } else if index < |tokens| && HasPrefix(tokens[index], body[0] + ":") && WellFormedToken(tokens[index]) {
      TokenConsumes(g, tokens, body, children, index, counter, depth);
    }
  }

  /** What the rest of a production consumes after a new child `t` covering `tokens[index..j]`. */
  lemma ConsumedAfter(r: Expanded, tokens: seq<string>, children: seq<Tree>, t: Tree, index: nat, j: nat,
                      counter: nat, c: nat)
    requires index <= j <= |tokens| && counter <= c && Yield(t) == tokens[index..j]
    requires ExpandConsumed(r, tokens, children + [t], j, c)
    ensures ExpandConsumed(r, tokens, children, index, counter)
  {
    YieldAllAppend(children, t);
    if r.Matched? {
      assert tokens[index..r.index] == tokens[index..j] + tokens[j..r.index];
      assert YieldAll(r.children) == YieldAll(children) + (Yield(t) + tokens[j..r.index]);
    }
  }

  /** `ExpandConsumes` when the production goes on with a nonterminal. */
  lemma {:induction false} NonterminalConsumes(g: Productions, tokens: seq<string>, body: seq<string>, children: seq<Tree>,
                                                index: nat, counter: nat, depth: nat)
    requires index <= |tokens| && body != [] && body[0] in g
    ensures ExpandConsumed(Expand(g, tokens, body, children, index, counter, depth), tokens, children, index, counter)
    decreases depth, 1, |body|, 0
  {
    ParseConsumes(g, tokens, body[0], index, counter, depth);
    var p := Parse(g, tokens, body[0], index, counter, depth);
    if p.Parsed? && p.tree.Some? {
      var t, j, c := p.tree.value, p.index, p.counter;
      ExpandConsumes(g, tokens, body[1..], children + [t], j, c, depth);
      var r := Expand(g, tokens, body[1..], children + [t], j, c, depth);
      ConsumedAfter(r, tokens, children, t, index, j, counter, c);
      assert Expand(g, tokens, body, children, index, counter, depth) == r;
    }
  }

  /** `ExpandConsumes` when the production goes on with a terminal that matches the next token. */
  lemma {:induction false} TokenConsumes(g: Productions, tokens: seq<string>, body: seq<string>, children: seq<Tree>,
                                          index: nat, counter: nat, depth: nat)
    requires body != [] && body[0] !in g && body[0] != Epsilon
    requires index < |tokens| && HasPrefix(tokens[index], body[0] + ":") && WellFormedToken(tokens[index])
    ensures ExpandConsumed(Expand(g, tokens, body, children, index, counter, depth), tokens, children, index, counter)
    decreases depth, 1, |body|, 0
  {
    var token := tokens[index];
    var leaf := Tree(TokenType(token), NodeId(counter), Some(TokenValue(token)), []);
    MatchedTokenType(token, body[0]);
    assert Yield(leaf) == [token] == tokens[index..index + 1];
    ExpandConsumes(g, tokens, body[1..], children + [leaf], index + 1, counter + 1, depth);
    var r := Expand(g, tokens, body[1..], children + [leaf], index + 1, counter + 1, depth);
    ConsumedAfter(r, tokens, children, leaf, index, index + 1, counter, counter + 1);
    assert Expand(g, tokens, body, children, index, counter, depth) == r;
  }

  /** The symbols of a production that become children: all but a `''` that names no nonterminal. */
  function Kept(g: Productions, p: seq<string>): seq<string> {
    if p == [] then []
    else (if p[0] !in g && p[0] == Epsilon then [] else [p[0]]) + Kept(g, p[1..])
  }

  function Symbols(ts: seq<Tree>): (r: seq<string>)
    ensures |r| == |ts| && forall i :: 0 <= i < |ts| ==> r[i] == ts[i].symbol
  {
    seq(|ts|, i requires 0 <= i < |ts| => ts[i].symbol)
  }

  /** A matched production contributes one child per kept symbol, labelled by that symbol. */
  lemma {:induction false} ExpandShape(g: Productions, tokens: seq<string>, body: seq<string>, children: seq<Tree>,
                                        index: nat, counter: nat, depth: nat)
    requires index <= |tokens|
    ensures var r := Expand(g, tokens, body, children, index, counter, depth);
      r.Matched? ==> Symbols(r.children) == Symbols(children) + Kept(g, body)
    decreases |body|
  {
    if body != [] {
      var s := body[0];
      if s in g {
        ParseConsumes(g, tokens, s, index, counter, depth);
        match Parse(g, tokens, s, index, counter, depth)
        case Raised(_) =>
        case Parsed(None, _, _) =>
        case Parsed(Some(t), j, c) =>
          ExpandShape(g, tokens, body[1..], children + [t], j, c, depth);
          assert Symbols(children + [t]) == Symbols(children) + [s];
      } else if s == Epsilon {
        ExpandShape(g, tokens, body[1..], children, index, counter, depth);
      } else if index < |tokens| && HasPrefix(tokens[index], s + ":") && WellFormedToken(tokens[index]) {
        var token := tokens[index];
        var leaf := Tree(TokenType(token), NodeId(counter), Some(TokenValue(token)), []);
        MatchedTokenType(token, s);
        ExpandShape(g, tokens, body[1..], children + [leaf], index + 1, counter + 1, depth);
        assert Symbols(children + [leaf]) == Symbols(children) + [s];
      }
    }
  }

  /**
   * A tree from the loop over the productions is the fallback node, childless
   * and consuming nothing, or the node of one of the candidates, with one
   * child per kept symbol. With the fallback allowed the result is never None.
   */
  lemma {:induction false} TryShape(g: Productions, tokens: seq<string>, nt: string, candidates: seq<seq<string>>,
                                     fallback: bool, index: nat, counter: nat, depth: nat)
    requires index <= |tokens|
    ensures var r := TryProductions(g, tokens, nt, candidates, fallback, index, counter, depth);
      && (r.Parsed? && r.tree.Some? ==>
            || (fallback && r.tree.value.children == [] && r.index == index)
            || exists i :: 0 <= i < |candidates| && Symbols(r.tree.value.children) == Kept(g, candidates[i]))
      && (r.Parsed? && fallback ==> r.tree.Some?)
    decreases |candidates|
  {
    if candidates != [] {
      ExpandShape(g, tokens, candidates[0], [], index, counter, depth);
      match Expand(g, tokens, candidates[0], [], index, counter, depth)
      case ExpandRaised(_) =>
      case Unmatched(c) =>
        TryShape(g, tokens, nt, candidates[1..], fallback, index, c, depth);
        var r := TryProductions(g, tokens, nt, candidates[1..], fallback, index, c, depth);
        if r.Parsed? && r.tree.Some? && !(fallback && r.tree.value.children == [] && r.index == index) {
          var i :| 0 <= i < |candidates[1..]| && Symbols(r.tree.value.children) == Kept(g, candidates[1..][i]);
          assert candidates[1..][i] == candidates[i + 1];
        }
      case Matched(children, j, c) =>
        var r := TryProductions(g, tokens, nt, candidates, fallback, index, counter, depth);
        assert r.tree.value.children == children;
        assert Symbols([]) + Kept(g, candidates[0]) == Kept(g, candidates[0]);
        assert 0 < |candidates| && Symbols(r.tree.value.children) == Kept(g, candidates[0]);
    }
  }

  /**
   * `parser` on a nonterminal: with room left, an unknown nonterminal gives
   * None at the same index; a known one gives its node, whose children follow
   * one of its productions, or its childless node when some production
   * mentions `''`; when one does, it never gives None.
   */
  lemma ParseShape(g: Productions, tokens: seq<string>, nt: string, index: nat, counter: nat, depth: nat)
    requires index <= |tokens|
    ensures var r := Parse(g, tokens, nt, index, counter, depth);
      && (depth > 0 && nt !in g ==> r == Parsed(None, index, counter))
      && (r.Parsed? && r.tree.Some? ==>
            && nt in g
            && (|| (MentionsEpsilon(g[nt]) && r.tree.value.children == [] && r.index == index)
                || exists i :: 0 <= i < |g[nt]| && Symbols(r.tree.value.children) == Kept(g, g[nt][i])))
      && (r.Parsed? && nt in g && MentionsEpsilon(g[nt]) ==> r.tree.Some?)
  {
    if depth > 0 && nt in g {
      var ps := g[nt];
      var cands := Tried(g, ps, tokens, index);
      var order := Ranking(Scores(g, ps, tokens, index));
      TryShape(g, tokens, nt, cands, MentionsEpsilon(ps), index, counter, depth - 1);
      var r := Parse(g, tokens, nt, index, counter, depth);
      if r.Parsed? && r.tree.Some? && !(MentionsEpsilon(ps) && r.tree.value.children == [] && r.index == index) {
        var i :| 0 <= i < |cands| && Symbols(r.tree.value.children) == Kept(g, cands[i]);
        assert cands[i] == ps[order[i]];
      }
    }
  }
}
