/**
 * Filling the symbol table from the syntax tree: `agregarSimbolos`, which
 * declares every function with its parameters and every assigned variable,
 * and `recorrer_nodos`, which declares as functions the values of the
 * nodes with a given symbol.
 *
 * Each walk is given twice: as a function on the dictionary, which the
 * lemmas speak about, and as a method that updates a `SymbolTable` object
 * in place, proved to leave the dictionary the function describes.
 */
module SymbolResolver {
  import opened Wrappers
  import opened SyntaxTree
  import opened TreeQueries
  import opened SymbolTables

  const FunctionSymbol: string := "FUNCION"
  const ParametersSymbol: string := "PARAMETROS"
  const InstructionsSymbol: string := "INSTRUCCIONES"
  const FunctionKind: string := "Function"
  const VariableKind: string := "Variable"

  type Table = map<string, Symbol>

  /**
   * What stops a walk: a function without an identifier (`nombre.valor` on
   * None), a name node without a value, and a declaration the table refuses.
   */
  datatype ResolveError = NoIdentifier | NoValue | Rejected(error: TableError)

  /** The number of nodes of a tree: what the walks decrease. */
  function Size(t: Tree): nat
    decreases t, 1
  {
    1 + SizeAll(t.children)
  }

  function SizeAll(ts: seq<Tree>): nat
    decreases ts, 0
  {
    if ts == [] then 0 else Size(ts[0]) + SizeAll(ts[1..])
  }

  lemma {:induction false} SizeOfChild(ts: seq<Tree>, i: nat)
    requires i < |ts|
    ensures Size(ts[i]) <= SizeAll(ts)
    decreases i
  {
    if i > 0 {
      SizeOfChild(ts[1..], i - 1);
    }
  }

  /** A node found strictly below a node is smaller than it. */
  lemma {:induction false} FoundSmaller(t: Tree, name: string, later: seq<Tree>)
    requires t.symbol != name && FindNode(t, name, later).Some?
    ensures Size(FindNode(t, name, later).value.node) < Size(t)
    decreases t, 1
  {
    FoundAmongSmaller(t.children, name);
  }

  lemma {:induction false} FoundAmongSmaller(ts: seq<Tree>, name: string)
    requires FindAmong(ts, name).Some?
    ensures Size(FindAmong(ts, name).value.node) <= SizeAll(ts)
    decreases ts, 0
  {
    var f := FindNode(ts[0], name, ts[1..]);
    if f.Some? {
      if ts[0].symbol != name {
        FoundSmaller(ts[0], name, ts[1..]);
      }
    } else {
      FoundAmongSmaller(ts[1..], name);
    }
  }

  // ---------------------------------------------------------------------------
  // agregarSimbolos on the dictionary
  // ---------------------------------------------------------------------------

  /** `if TablaSimbolos.buscar_simbolo(n) is None: TablaSimbolos.agregar_simbolo(...)`, which then cannot raise. */
  function DeclareIfAbsent(table: Table, s: Symbol): Table {
    if s.name in table then table else table[s.name := s]
  }

  /** The loop over the parameters of a function, declared as variables of the function's scope. */
  function DeclareParameters(table: Table, params: seq<Option<string>>, scope: string): Result<Table, ResolveError>
    decreases |params|
  {
    if params == [] then Success(table)
    else if params[0].None? then Failure(NoValue)
    else DeclareParameters(DeclareIfAbsent(table, Symbol(params[0].value, VariableKind, false, None, None, scope)), params[1..], scope)
  }

  /** The parameters of a `FUNCION` node: `BuscarParametros(buscarNodo(nodo, "PARAMETROS"))`. */
  function FunctionParameters(t: Tree): seq<Option<string>> {
    Parameters(NodeOf(FindNode(t, ParametersSymbol, [])))
  }

  /** The name of a function or of an assigned variable: the value of the first `IDENTIFICADOR`. */
  function FirstIdentifier(t: Tree): Result<string, ResolveError> {
    match FindNode(t, IdentifierSymbol, [])
    case None => Failure(NoIdentifier)
    case Some(l) => if l.node.value.None? then Failure(NoValue) else Success(l.node.value.value)
  }

  /** What `agregarSimbolos` does at a `FUNCION` node before it visits the children. */
  function RegisterFunction(table: Table, t: Tree, scope: string): Result<Table, ResolveError>
    requires t.symbol == FunctionSymbol
    decreases Size(t), 1
  {
    match FirstIdentifier(t)
    case Failure(e) => Failure(e)
    case Success(f) =>
      var params := FunctionParameters(t);
      var declared := DeclareIfAbsent(table, Symbol(f, FunctionKind, true, Some(params), ReturnValue(t, []), scope));
      match DeclareParameters(declared, params, f)
      case Failure(e) => Failure(e)
      case Success(withParams) =>
        match FindNode(t, InstructionsSymbol, [])
        case None => Success(withParams)
        case Some(ins) =>
          FoundSmaller(t, InstructionsSymbol, []);
          RegisterAll(withParams, ins.node.children, f)
  }

  /** What `agregarSimbolos` does at an `ASIGNACION` node before it visits the children. */
  function RegisterAssignment(table: Table, t: Tree, scope: string): (r: Result<Table, ResolveError>)
    ensures FindNode(t, IdentifierSymbol, []).None? ==> r == Success(table)
    ensures FindNode(t, IdentifierSymbol, []).Some? ==> (r.Failure? <==> FirstIdentifier(t).Failure?)
    ensures r.Success? && FindNode(t, IdentifierSymbol, []).Some? ==>
      var x := FirstIdentifier(t).value;
      && r.value.Keys == table.Keys + {x}
      && r.value[x].value == Some(AssignmentValue(t))
      && (x in table ==> r.value[x].(value := table[x].value) == table[x])
      && (x !in table ==> r.value[x] == Symbol(x, VariableKind, false, None, Some(AssignmentValue(t)), scope))
      && forall k :: k in table && k != x ==> r.value[k] == table[k]
  {
    if FindNode(t, IdentifierSymbol, []).None? then Success(table)
    else match FirstIdentifier(t)
      case Failure(e) => Failure(e)
      case Success(x) =>
        var v := Some(AssignmentValue(t));
        if x !in table then Success(table[x := Symbol(x, VariableKind, false, None, v, scope)])
        else Success(table[x := table[x].(value := v)])
  }

  /** `agregarSimbolos(nodo, ambito)`. */
  function Register(table: Table, t: Tree, scope: string): Result<Table, ResolveError>
    decreases Size(t), 2
  {
    var head :=
      if t.symbol == FunctionSymbol then RegisterFunction(table, t, scope)
      else if t.symbol == AssignmentSymbol then RegisterAssignment(table, t, scope)
      else Success(table);
    match head
    case Failure(e) => Failure(e)
    case Success(next) => RegisterAll(next, t.children, scope)
  }

  /** `for hijo in ...hijos: agregarSimbolos(hijo, ambito)`. */
  function RegisterAll(table: Table, ts: seq<Tree>, scope: string): Result<Table, ResolveError>
    decreases SizeAll(ts), 3
  {
    if ts == [] then Success(table)
    else match Register(table, ts[0], scope)
      case Failure(e) => Failure(e)
      case Success(next) => RegisterAll(next, ts[1..], scope)
  }

  // ---------------------------------------------------------------------------
  // What registering keeps
  // ---------------------------------------------------------------------------

  /** `after` has every symbol of `before`, changed in its value at most. */
  predicate Extends(before: Table, after: Table) {
    forall k :: k in before ==> k in after && after[k].(value := before[k].value) == before[k]
  }

  lemma ExtendsTransitive(a: Table, b: Table, c: Table)
    requires Extends(a, b) && Extends(b, c)
    ensures Extends(a, c)
  {
    forall k | k in a ensures k in c && c[k].(value := a[k].value) == a[k] {
      assert c[k].(value := b[k].value) == b[k];
    }
  }

  lemma {:induction false} DeclareParametersExtends(table: Table, params: seq<Option<string>>, scope: string)
    ensures var r := DeclareParameters(table, params, scope);
      r.Success? ==>
        && Extends(table, r.value)
        && (forall k :: k in table ==> r.value[k] == table[k])
        && (forall i :: 0 <= i < |params| ==> params[i].Some? && params[i].value in r.value)
        && forall k :: k in r.value && k !in table ==> r.value[k] == Symbol(k, VariableKind, false, None, None, scope)
    decreases |params|
  {
    if params != [] && params[0].Some? {
      var declared := DeclareIfAbsent(table, Symbol(params[0].value, VariableKind, false, None, None, scope));
      DeclareParametersExtends(declared, params[1..], scope);
      var r := DeclareParameters(table, params, scope);
      if r.Success? {
        ExtendsTransitive(table, declared, r.value);
        assert forall i :: 1 <= i < |params| ==> params[i] == params[1..][i - 1];
      }
    }
  }

  /**
   * Registering never removes a symbol and changes nothing of a symbol
   * already there but its value, so every scope keeps its names.
   */
  lemma {:induction false} RegisterExtends(table: Table, t: Tree, scope: string)
    ensures var r := Register(table, t, scope); r.Success? ==> Extends(table, r.value)
    decreases Size(t), 2
  {
    var head :=
      if t.symbol == FunctionSymbol then RegisterFunction(table, t, scope)
      else if t.symbol == AssignmentSymbol then RegisterAssignment(table, t, scope)
      else Success(table);
    if t.symbol == FunctionSymbol {
      RegisterFunctionExtends(table, t, scope);
    }
    if head.Success? {
      RegisterAllExtends(head.value, t.children, scope);
      var r := Register(table, t, scope);
      if r.Success? {
        ExtendsTransitive(table, head.value, r.value);
      }
    }
  }

  lemma {:induction false} RegisterAllExtends(table: Table, ts: seq<Tree>, scope: string)
    ensures var r := RegisterAll(table, ts, scope); r.Success? ==> Extends(table, r.value)
    decreases SizeAll(ts), 3
  {
    if ts != [] {
      RegisterExtends(table, ts[0], scope);
      var first := Register(table, ts[0], scope);
      if first.Success? {
        RegisterAllExtends(first.value, ts[1..], scope);
        var r := RegisterAll(table, ts, scope);
        if r.Success? {
          ExtendsTransitive(table, first.value, r.value);
        }
      }
    }
  }

  /**
   * At a `FUNCION` node the function's name and every one of its parameters
   * end up declared, and nothing already declared is lost. A function that
   * was not declared before becomes a function symbol of the caller's scope
   * holding its parameters and the `buscarValor` text, and a parameter that
   * was not declared before becomes a variable of the function's scope; only
   * their values can change afterwards, through assignments in the body.
   */
  lemma {:induction false} RegisterFunctionExtends(table: Table, t: Tree, scope: string)
    requires t.symbol == FunctionSymbol
    ensures var r := RegisterFunction(table, t, scope);
      r.Success? ==>
        && Extends(table, r.value)
        && FirstIdentifier(t).Success? && FirstIdentifier(t).value in r.value
        && forall i :: 0 <= i < |FunctionParameters(t)| ==> FunctionParameters(t)[i].Some? && FunctionParameters(t)[i].value in r.value
    ensures var r := RegisterFunction(table, t, scope);
      r.Success? && FirstIdentifier(t).value !in table ==>
        var f := FirstIdentifier(t).value;
        r.value[f].(value := ReturnValue(t, [])) == Symbol(f, FunctionKind, true, Some(FunctionParameters(t)), ReturnValue(t, []), scope)
    ensures var r := RegisterFunction(table, t, scope);
      r.Success? ==>
        var f, params := FirstIdentifier(t).value, FunctionParameters(t);
        forall i :: 0 <= i < |params| && params[i].Some? && params[i].value !in table && params[i].value != f ==>
          r.value[params[i].value].(value := None) == Symbol(params[i].value, VariableKind, false, None, None, f)
    decreases Size(t), 1
  {
    if FirstIdentifier(t).Success? {
      var f := FirstIdentifier(t).value;
      var params := FunctionParameters(t);
      var declared := DeclareIfAbsent(table, Symbol(f, FunctionKind, true, Some(params), ReturnValue(t, []), scope));
      DeclareParametersExtends(declared, params, f);
      var withParams := DeclareParameters(declared, params, f);
      if withParams.Success? {
        ExtendsTransitive(table, declared, withParams.value);
        var ins := FindNode(t, InstructionsSymbol, []);
        if ins.Some? {
          FoundSmaller(t, InstructionsSymbol, []);
          RegisterAllExtends(withParams.value, ins.value.node.children, f);
          var r := RegisterFunction(table, t, scope);
          if r.Success? {
            ExtendsTransitive(table, withParams.value, r.value);
            forall i | 0 <= i < |params| && params[i].Some? && params[i].value !in table && params[i].value != f
              ensures r.value[params[i].value].(value := None) == Symbol(params[i].value, VariableKind, false, None, None, f)
            {
              assert params[i].value !in declared;
              assert r.value[params[i].value].(value := withParams.value[params[i].value].value) == withParams.value[params[i].value];
            }
          }
        }
      }
    }
  }

  /**
   * What `agregarSimbolos` leaves for one node it visits: a `FUNCION` node's
   * name and parameters, and the name an `ASIGNACION` node assigns, are keys
   * of the table.
   */
  predicate Registered(n: Tree, table: Table) {
    && (n.symbol == FunctionSymbol ==>
          && FirstIdentifier(n).Success? && FirstIdentifier(n).value in table
          && forall i :: 0 <= i < |FunctionParameters(n)| ==> FunctionParameters(n)[i].Some? && FunctionParameters(n)[i].value in table)
    && (n.symbol == AssignmentSymbol && FindNode(n, IdentifierSymbol, []).Some? ==>
          FirstIdentifier(n).Success? && FirstIdentifier(n).value in table)
  }

  lemma RegisteredKept(n: Tree, before: Table, after: Table)
    requires Registered(n, before) && Extends(before, after)
    ensures Registered(n, after)
  {
  }

  /**
   * A walk that succeeds leaves every function below its root declared with
   * all its parameters, and every assigned name declared, however deep.
   */
  lemma {:induction false} RegisterDeclaresAll(table: Table, t: Tree, scope: string)
    ensures var r := Register(table, t, scope);
      r.Success? ==> forall n :: n in Preorder(t) ==> Registered(n, r.value)
    decreases Size(t), 2
  {
    var head :=
      if t.symbol == FunctionSymbol then RegisterFunction(table, t, scope)
      else if t.symbol == AssignmentSymbol then RegisterAssignment(table, t, scope)
      else Success(table);
    if t.symbol == FunctionSymbol {
      RegisterFunctionExtends(table, t, scope);
    }
    if head.Success? {
      assert Registered(t, head.value);
      RegisterAllExtends(head.value, t.children, scope);
      RegisterAllDeclaresAll(head.value, t.children, scope);
      var r := Register(table, t, scope);
      if r.Success? {
        RegisteredKept(t, head.value, r.value);
        assert Preorder(t) == [t] + PreorderAll(t.children);
      }
    }
  }

  lemma {:induction false} RegisterAllDeclaresAll(table: Table, ts: seq<Tree>, scope: string)
    ensures var r := RegisterAll(table, ts, scope);
      r.Success? ==> forall n :: n in PreorderAll(ts) ==> Registered(n, r.value)
    decreases SizeAll(ts), 3
  {
    if ts != [] {
      RegisterDeclaresAll(table, ts[0], scope);
      var first := Register(table, ts[0], scope);
      if first.Success? {
        RegisterAllDeclaresAll(first.value, ts[1..], scope);
        RegisterAllExtends(first.value, ts[1..], scope);
        var r := RegisterAll(table, ts, scope);
        if r.Success? {
          forall n | n in Preorder(ts[0]) ensures Registered(n, r.value) {
            RegisteredKept(n, first.value, r.value);
          }
          assert PreorderAll(ts) == Preorder(ts[0]) + PreorderAll(ts[1..]);
        }
      }
    }
  }

  /**
   * A function the walk meets at its root is in the table afterwards with all
   * its parameters; when it was new, it stays a function symbol of the
   * caller's scope with its parameters, whatever the rest of the walk does.
   */
  lemma RegisterDeclaresFunction(table: Table, t: Tree, scope: string)
    requires t.symbol == FunctionSymbol
    ensures var r := Register(table, t, scope);
      r.Success? ==>
        && FirstIdentifier(t).Success? && FirstIdentifier(t).value in r.value
        && (forall i :: 0 <= i < |FunctionParameters(t)| ==> FunctionParameters(t)[i].Some? && FunctionParameters(t)[i].value in r.value)
        && (FirstIdentifier(t).value !in table ==>
              var f := FirstIdentifier(t).value;
              r.value[f].(value := ReturnValue(t, [])) == Symbol(f, FunctionKind, true, Some(FunctionParameters(t)), ReturnValue(t, []), scope))
  {
    RegisterFunctionExtends(table, t, scope);
    var head := RegisterFunction(table, t, scope);
    if head.Success? {
      RegisterAllExtends(head.value, t.children, scope);
      var r := Register(table, t, scope);
      if r.Success? {
        var f := FirstIdentifier(t).value;
        assert r.value[f].(value := head.value[f].value) == head.value[f];
      }
    }
  }

  // ---------------------------------------------------------------------------
  // agregarSimbolos on the table object
  // ---------------------------------------------------------------------------

  /** A walk that gave `r` on the dictionary raised `raised` and left the dictionary `now`. */
  predicate Outcome(r: Result<Table, ResolveError>, raised: Option<ResolveError>, now: Table) {
    && (r.Failure? ==> raised == Some(r.error))
    && (r.Success? ==> raised == None && now == r.value)
  }

  /**
   * `agregarSimbolos(nodo, ambito)` on `TablaSimbolos`: it leaves the
   * dictionary `Register` describes, and a consistent table stays
   * consistent.
   */
  method RegisterSymbols(table: SymbolTable, t: Tree, scope: string) returns (raised: Option<ResolveError>)
    modifies table`table
    ensures Outcome(Register(old(table.table), t, scope), raised, table.table)
    ensures old(table.Valid()) && raised.None? ==> table.Valid()
    ensures raised.None? ==> forall n :: n in Preorder(t) ==> Registered(n, table.table)
    decreases Size(t), 2
  {
    ghost var before := table.table;
    RegisterExtends(before, t, scope);
    RegisterDeclaresAll(before, t, scope);
    if t.symbol == FunctionSymbol {
      raised := RegisterFunctionNode(table, t, scope);
      if raised.Some? {
        return;
      }
    } else if t.symbol == AssignmentSymbol {
      raised := RegisterAssignmentNode(table, t, scope);
      if raised.Some? {
        return;
      }
    }
    raised := RegisterEach(table, t.children, scope);
  }

  /** `for hijo in ...hijos: agregarSimbolos(hijo, ambito)`. */
  method RegisterEach(table: SymbolTable, ts: seq<Tree>, scope: string) returns (raised: Option<ResolveError>)
    modifies table`table
    ensures Outcome(RegisterAll(old(table.table), ts, scope), raised, table.table)
    decreases SizeAll(ts), 3
  {
    for k := 0 to |ts|
      invariant RegisterAll(old(table.table), ts, scope) == RegisterAll(table.table, ts[k..], scope)
    {
      assert ts[k..][0] == ts[k] && ts[k..][1..] == ts[k + 1..];
      SizeOfChild(ts, k);
      raised := RegisterSymbols(table, ts[k], scope);
      if raised.Some? {
        return;
      }
    }
    return None;
  }

  /** The `FUNCION` branch of `agregarSimbolos`. */
  method RegisterFunctionNode(table: SymbolTable, t: Tree, scope: string) returns (raised: Option<ResolveError>)
    requires t.symbol == FunctionSymbol
    modifies table`table
    ensures Outcome(RegisterFunction(old(table.table), t, scope), raised, table.table)
    decreases Size(t), 1
  {
    var value := ReturnValue(t, []);
    var params := FunctionParameters(t);
    var name := FindNode(t, IdentifierSymbol, []);
    if name.None? {
      return Some(NoIdentifier);
    }
    if name.value.node.value.None? {
      return Some(NoValue);
    }
    var f := name.value.node.value.value;
    if table.Lookup(f).None? {
      var rejected := table.AddSymbol(f, FunctionKind, true, Some(params), value, scope);
    }
    ghost var declared := table.table;
    for k := 0 to |params|
      invariant DeclareParameters(declared, params, f) == DeclareParameters(table.table, params[k..], f)
    {
      assert params[k..][0] == params[k] && params[k..][1..] == params[k + 1..];
      if params[k].None? {
        return Some(NoValue);
      }
      if table.Lookup(params[k].value).None? {
        var rejected := table.AddSymbol(params[k].value, VariableKind, false, None, None, f);
      }
    }
    var instructions := FindNode(t, InstructionsSymbol, []);
    if instructions.Some? {
      FoundSmaller(t, InstructionsSymbol, []);
      raised := RegisterEach(table, instructions.value.node.children, f);
    } else {
      raised := None;
    }
  }

  /** The `ASIGNACION` branch of `agregarSimbolos`: a new variable, or a new value for a known name. */
  method RegisterAssignmentNode(table: SymbolTable, t: Tree, scope: string) returns (raised: Option<ResolveError>)
    modifies table`table
    ensures Outcome(RegisterAssignment(old(table.table), t, scope), raised, table.table)
  {
    var identifier := FindNode(t, IdentifierSymbol, []);
    if identifier.Some? {
      if identifier.value.node.value.None? {
        return Some(NoValue);
      }
      var x := identifier.value.node.value.value;
      var v := AssignmentValue(t);
      if table.Lookup(x).None? {
        var rejected := table.AddSymbol(x, VariableKind, false, None, Some(v), scope);
      } else {
        table.table := table.table[x := table.table[x].(value := Some(v))];
      }
    }
    return None;
  }

  // ---------------------------------------------------------------------------
  // recorrer_nodos
  // ---------------------------------------------------------------------------

  /** The dictionary and `simbolos_agregados` after a walk. */
  datatype Visited = Visited(table: Table, added: set<string>)

  /**
   * `recorrer_nodos`: every node labelled `name` that is not below another
   * one has its value declared as a function, once, with `parameters`,
   * `value` and `scope`; the nodes not labelled `name` are walked through.
   */
  function Visit(table: Table, t: Tree, parameters: Option<seq<Option<string>>>, value: Option<string>,
                 name: Option<string>, scope: string, added: set<string>): Result<Visited, ResolveError>
    decreases t, 1
  {
    if Some(t.symbol) != name then VisitAll(table, t.children, parameters, value, name, scope, added)
    else if t.value.None? then Failure(NoValue)
    else if t.value.value in added then Success(Visited(table, added))
    else match AddSymbolTo(table, Symbol(t.value.value, FunctionKind, true, parameters, value, scope))
      case Failure(e) => Failure(Rejected(e))
      case Success(next) => Success(Visited(next, added + {t.value.value}))
  }

  function VisitAll(table: Table, ts: seq<Tree>, parameters: Option<seq<Option<string>>>, value: Option<string>,
                    name: Option<string>, scope: string, added: set<string>): Result<Visited, ResolveError>
    decreases ts, 0
  {
    if ts == [] then Success(Visited(table, added))
    else match Visit(table, ts[0], parameters, value, name, scope, added)
      case Failure(e) => Failure(e)
      case Success(v) => VisitAll(v.table, ts[1..], parameters, value, name, scope, v.added)
  }

  /**
   * What a successful walk adds: the names it newly marks, each the value
   * of a node labelled `name`, are exactly the new keys, each holds the
   * function symbol built from the arguments, and nothing else changes.
   */
  predicate VisitAdded(table: Table, added: set<string>, r: Visited, nodes: seq<Tree>,
                       parameters: Option<seq<Option<string>>>, value: Option<string>, name: Option<string>, scope: string) {
    && added <= r.added
    && r.table.Keys == table.Keys + (r.added - added)
    && (forall k :: k in r.added - added ==> r.table[k] == Symbol(k, FunctionKind, true, parameters, value, scope))
    && (forall k :: k in table && k !in r.added - added ==> r.table[k] == table[k])
    && NamedIn(r.added - added, nodes, name)
  }

  /** Every name in `names` is the value of one of `nodes` labelled `name`. */
  predicate NamedIn(names: set<string>, nodes: seq<Tree>, name: Option<string>) {
    forall k :: k in names ==> exists n :: n in nodes && Some(n.symbol) == name && n.value == Some(k)
  }

  /** Two walks one after the other add what each adds. */
  lemma VisitAddedCompose(table: Table, added: set<string>, v: Visited, r: Visited, first: seq<Tree>, rest: seq<Tree>,
                          parameters: Option<seq<Option<string>>>, value: Option<string>, name: Option<string>, scope: string)
    requires VisitAdded(table, added, v, first, parameters, value, name, scope)
    requires VisitAdded(v.table, v.added, r, rest, parameters, value, name, scope)
    ensures VisitAdded(table, added, r, first + rest, parameters, value, name, scope)
  {
    forall k | k in r.added - added
      ensures exists n :: n in first + rest && Some(n.symbol) == name && n.value == Some(k)
    {
      if k in v.added - added {
        var n :| n in first && Some(n.symbol) == name && n.value == Some(k);
        assert n in first + rest;
      } else {
        var n :| n in rest && Some(n.symbol) == name && n.value == Some(k);
        assert n in first + rest;
      }
    }
  }

  lemma {:induction false} VisitAdds(table: Table, t: Tree, parameters: Option<seq<Option<string>>>, value: Option<string>,
                                     name: Option<string>, scope: string, added: set<string>)
    ensures var r := Visit(table, t, parameters, value, name, scope, added);
      r.Success? ==> VisitAdded(table, added, r.value, Preorder(t), parameters, value, name, scope)
    decreases t, 1
  {
    if Some(t.symbol) != name {
      VisitAllAdds(table, t.children, parameters, value, name, scope, added);
    } else if t.value.Some? && t.value.value !in added {
      var r := Visit(table, t, parameters, value, name, scope, added);
      if r.Success? {
        assert r.value.added - added == {t.value.value};
        assert t in Preorder(t);
      }
    }
  }

  lemma {:induction false} VisitAllAdds(table: Table, ts: seq<Tree>, parameters: Option<seq<Option<string>>>, value: Option<string>,
                                        name: Option<string>, scope: string, added: set<string>)
    ensures var r := VisitAll(table, ts, parameters, value, name, scope, added);
      r.Success? ==> VisitAdded(table, added, r.value, PreorderAll(ts), parameters, value, name, scope)
    decreases ts, 0
  {
    if ts != [] {
      VisitAdds(table, ts[0], parameters, value, name, scope, added);
      var first := Visit(table, ts[0], parameters, value, name, scope, added);
      if first.Success? {
        var v := first.value;
        VisitAllAdds(v.table, ts[1..], parameters, value, name, scope, v.added);
        var r := VisitAll(table, ts, parameters, value, name, scope, added);
        if r.Success? {
          VisitAddedCompose(table, added, v, r.value, Preorder(ts[0]), PreorderAll(ts[1..]), parameters, value, name, scope);
        }
      }
    }
  }

  /**
   * The nodes labelled `name` that the walk reaches: `t` itself when it has
   * the label, and otherwise those reached below its children, in order.
   */
  function Reached(t: Tree, name: Option<string>): seq<Tree>
    decreases t, 1
  {
    if Some(t.symbol) == name then [t] else ReachedAll(t.children, name)
  }

  function ReachedAll(ts: seq<Tree>, name: Option<string>): seq<Tree>
    decreases ts, 0
  {
    if ts == [] then [] else Reached(ts[0], name) + ReachedAll(ts[1..], name)
  }

  /**
   * The converse of `VisitAdds`: a walk that succeeds marks the value of
   * every labelled node it reaches, and each such name not marked before
   * the walk is declared in the table.
   */
  lemma {:induction false} VisitMarksAll(table: Table, t: Tree, parameters: Option<seq<Option<string>>>, value: Option<string>,
                                         name: Option<string>, scope: string, added: set<string>)
    ensures var r := Visit(table, t, parameters, value, name, scope, added);
      r.Success? ==> forall n :: n in Reached(t, name) ==>
        && n.value.Some? && n.value.value in r.value.added
        && (n.value.value !in added ==> n.value.value in r.value.table)
    decreases t, 1
  {
    if Some(t.symbol) != name {
      VisitAllMarksAll(table, t.children, parameters, value, name, scope, added);
    }
  }

  lemma {:induction false} VisitAllMarksAll(table: Table, ts: seq<Tree>, parameters: Option<seq<Option<string>>>, value: Option<string>,
                                            name: Option<string>, scope: string, added: set<string>)
    ensures var r := VisitAll(table, ts, parameters, value, name, scope, added);
      r.Success? ==> forall n :: n in ReachedAll(ts, name) ==>
        && n.value.Some? && n.value.value in r.value.added
        && (n.value.value !in added ==> n.value.value in r.value.table)
    decreases ts, 0
  {
    if ts != [] {
      VisitMarksAll(table, ts[0], parameters, value, name, scope, added);
      var first := Visit(table, ts[0], parameters, value, name, scope, added);
      if first.Success? {
        var v := first.value;
        VisitAdds(table, ts[0], parameters, value, name, scope, added);
        VisitAllMarksAll(v.table, ts[1..], parameters, value, name, scope, v.added);
        VisitAllAdds(v.table, ts[1..], parameters, value, name, scope, v.added);
        var r := VisitAll(table, ts, parameters, value, name, scope, added);
        if r.Success? {
          forall n | n in Reached(ts[0], name)
            ensures n.value.Some? && n.value.value in r.value.added && (n.value.value !in added ==> n.value.value in r.value.table)
          {
            assert n.value.value in v.added;
            if n.value.value !in added {
              assert n.value.value in v.table;
            }
          }
          assert ReachedAll(ts, name) == Reached(ts[0], name) + ReachedAll(ts[1..], name);
        }
      }
    }
  }

  /** `recorrer_nodos` on `TablaSimbolos`, with `simbolos_agregados` passed in and handed back. */
  method VisitNodes(table: SymbolTable, t: Tree, parameters: Option<seq<Option<string>>>, value: Option<string>,
                    name: Option<string>, scope: string, added: set<string>)
    returns (raised: Option<ResolveError>, marked: set<string>)
    modifies table`table
    ensures var r := Visit(old(table.table), t, parameters, value, name, scope, added);
      && (r.Failure? ==> raised == Some(r.error))
      && (r.Success? ==> raised == None && table.table == r.value.table && marked == r.value.added)
    decreases t
  {
    if Some(t.symbol) != name {
      marked := added;
      for k := 0 to |t.children|
        invariant Visit(old(table.table), t, parameters, value, name, scope, added)
               == VisitAll(table.table, t.children[k..], parameters, value, name, scope, marked)
      {
        assert t.children[k..][0] == t.children[k] && t.children[k..][1..] == t.children[k + 1..];
        raised, marked := VisitNodes(table, t.children[k], parameters, value, name, scope, marked);
        if raised.Some? {
          return;
        }
      }
      return None, marked;
    }
    if t.value.None? {
      return Some(NoValue), added;
    }
    if t.value.value !in added {
      var rejected := table.AddSymbol(t.value.value, FunctionKind, true, parameters, value, scope);
      if rejected.Some? {
        return Some(Rejected(rejected.value)), added;
      }
      return None, added + {t.value.value};
    }
    return None, added;
  }
}
