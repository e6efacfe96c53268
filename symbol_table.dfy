/**
 * The symbol table (`TablaDeSimbolos`): a dictionary from names to symbols
 * and a stack of open scopes, each the set of names declared in it as
 * local variables. `Valid()` is what the operations keep: every name of an
 * open scope is in the dictionary and no name belongs to two open scopes.
 * It is what makes closing a scope never miss a name.
 */
module SymbolTables {
  import opened Wrappers

  /** The scope a symbol gets when none is named. */
  const GlobalScope: string := "Global"

  /** `Simbolo`: a variable or a function, with its parameters and its value when it has them. */
  datatype Symbol = Symbol(name: string, kind: string, isFunction: bool,
                           parameters: Option<seq<Option<string>>>, value: Option<string>, scope: string)

  /** The exceptions the table raises, one per `raise` of its methods, and the `KeyError` of `del`. */
  datatype TableError =
    | AlreadyInScope(name: string, scope: string)  // ValueError of agregar_simbolo
    | NoOpenScope                                  // ValueError of finalizar_ambito
    | MissingKey(name: string)                     // KeyError of `del self.tabla[simbolo]`
    | NoActiveScope                                // ValueError of agregar_variable_local
    | AlreadyDeclared(name: string)                // ValueError of agregar_variable_local
    | WrongType(name: string, expected: string, found: string)  // TypeError of verificar_tipo
    | Undeclared(name: string)                     // NameError of verificar_tipo

  /** What `agregar_simbolo` makes of the dictionary: refused when the name is already declared in the same scope. */
  function AddSymbolTo(table: map<string, Symbol>, s: Symbol): (r: Result<map<string, Symbol>, TableError>)
    ensures r.Failure? <==> s.name in table && table[s.name].scope == s.scope
    ensures r.Success? ==> r.value.Keys == table.Keys + {s.name} && r.value[s.name] == s
    ensures r.Success? ==> forall k :: k in table && k != s.name ==> r.value[k] == table[k]
  {
    if s.name in table && table[s.name].scope == s.scope then Failure(AlreadyInScope(s.name, s.scope))
    else Success(table[s.name := s])
  }

  class SymbolTable {
    var table: map<string, Symbol>   // `tabla`
    var scopes: seq<set<string>>     // `ambitos`

    ghost predicate Valid()
      reads this`table, this`scopes
    {
      && (forall k, n :: 0 <= k < |scopes| && n in scopes[k] ==> n in table)
      && (forall k, l :: 0 <= k < l < |scopes| ==> scopes[k] !! scopes[l])
    }

    constructor ()
      ensures table == map[] && scopes == [] && Valid()
    {
      table, scopes := map[], [];
    }

    /** `buscar_simbolo`: `self.tabla.get(nombre, None)`. */
    function Lookup(name: string): (r: Option<Symbol>)
      reads this`table
      ensures r.Some? <==> name in table
      ensures r.Some? ==> r.value == table[name]
    {
      if name in table then Some(table[name]) else None
    }

    /** `verificar_tipo`: no error exactly when the name is declared with the expected type. */
    function CheckType(name: string, expected: string): (r: Option<TableError>)
      reads this`table
      ensures r.None? <==> Lookup(name).Some? && Lookup(name).value.kind == expected
      ensures Lookup(name).None? ==> r == Some(Undeclared(name))
      ensures Lookup(name).Some? && Lookup(name).value.kind != expected ==>
        r == Some(WrongType(name, expected, Lookup(name).value.kind))
    {
      match Lookup(name)
      case None => Some(Undeclared(name))
      case Some(s) => if s.kind != expected then Some(WrongType(name, expected, s.kind)) else None
    }

    /**
     * `agregar_simbolo`: refused when the name is already declared in the
     * same scope; otherwise the symbol is stored under its name, replacing a
     * symbol of another scope. Afterwards the name has the new symbol and
     * passes the type check for its type, and no other name changes.
     */
    method AddSymbol(name: string, kind: string, isFunction: bool, parameters: Option<seq<Option<string>>>,
                     value: Option<string>, scope: string) returns (raised: Option<TableError>)
      modifies this`table
      ensures var r := AddSymbolTo(old(table), Symbol(name, kind, isFunction, parameters, value, scope));
        && (r.Failure? ==> raised == Some(r.error) && table == old(table))
        && (r.Success? ==> raised == None && table == r.value)
      ensures raised.Some? <==> old(Lookup(name)).Some? && old(Lookup(name)).value.scope == scope
      ensures raised.None? ==> CheckType(name, kind).None?
      ensures forall other :: other != name ==> Lookup(other) == old(Lookup(other))
      ensures old(Valid()) ==> Valid()
    {
      if name in table && table[name].scope == scope {
        return Some(AlreadyInScope(name, scope));
      }
      table := table[name := Symbol(name, kind, isFunction, parameters, value, scope)];
      return None;
    }

    /** `declarar_ambito`: a new, empty scope on top. */
    method OpenScope()
      modifies this`scopes
      ensures scopes == old(scopes) + [{}]
      ensures old(Valid()) ==> Valid()
    {
      scopes := scopes + [{}];
    }

    /**
     * `finalizar_ambito`: pops the top scope and deletes its names from the
     * dictionary one by one, in no fixed order; with no scope open it
     * raises. A name of the scope missing from the dictionary raises a
     * `KeyError` midway; the table invariant rules that out.
     */
    method CloseScope() returns (raised: Option<TableError>)
      modifies this`table, this`scopes
      ensures old(scopes) == [] ==> raised == Some(NoOpenScope) && table == old(table) && scopes == old(scopes)
      ensures old(scopes) != [] ==> scopes == old(scopes)[..|old(scopes)| - 1]
      ensures old(scopes) != [] ==> (raised.None? <==> old(scopes)[|old(scopes)| - 1] <= old(table).Keys)
      ensures old(scopes) != [] && raised.None? ==> table == old(table) - old(scopes)[|old(scopes)| - 1]
      ensures old(scopes) != [] && raised.Some? ==>
        exists n :: n in old(scopes)[|old(scopes)| - 1] && n !in old(table) && raised == Some(MissingKey(n))
      ensures old(Valid()) && old(scopes) != [] ==> raised.None?
      ensures old(Valid()) ==> Valid()
    {
      if scopes == [] {
        return Some(NoOpenScope);
      }
      var closing := scopes[|scopes| - 1];
      scopes := scopes[..|scopes| - 1];
      var remaining := closing;
      while remaining != {}
        modifies this`table
        invariant remaining <= closing && closing - remaining <= old(table).Keys
        invariant table == old(table) - (closing - remaining)
        decreases |remaining|
      {
        var n :| n in remaining;
        if n !in table {
          return Some(MissingKey(n));
        }
        table := table - {n};
        remaining := remaining - {n};
      }
      return None;
    }

    /**
     * `agregar_variable_local`: needs an open scope and a name not declared
     * anywhere; the variable goes into the dictionary, with the default
     * scope `Global` of `Simbolo`, and its name into the top scope.
     */
    method AddLocal(name: string, kind: string, value: Option<string>) returns (raised: Option<TableError>)
      modifies this`table, this`scopes
      ensures old(scopes) == [] ==> raised == Some(NoActiveScope)
      ensures old(scopes) != [] && name in old(table) ==> raised == Some(AlreadyDeclared(name))
      ensures raised.Some? ==> table == old(table) && scopes == old(scopes)
      ensures old(scopes) != [] && name !in old(table) ==>
        && raised == None
        && table == old(table)[name := Symbol(name, kind, false, None, value, GlobalScope)]
        && scopes == old(scopes)[|old(scopes)| - 1 := old(scopes)[|old(scopes)| - 1] + {name}]
      ensures raised.None? ==> CheckType(name, kind).None?
      ensures old(Valid()) ==> Valid()
    {
      if scopes == [] {
        return Some(NoActiveScope);
      }
      if name in table {
        return Some(AlreadyDeclared(name));
      }
      table := table[name := Symbol(name, kind, false, None, value, GlobalScope)];
      scopes := scopes[|scopes| - 1 := scopes[|scopes| - 1] + {name}];
      return None;
    }
  }

  /**
   * A local variable lives exactly as long as its scope: opening a scope,
   * declaring a new name in it and closing it again leaves the table as it
   * was.
   */
  method LocalLifetime(t: SymbolTable, name: string, kind: string, value: Option<string>) returns (raised: Option<TableError>)
    requires t.Valid() && name !in t.table
    modifies t
    ensures raised.None? && t.Valid() && t.table == old(t.table) && t.scopes == old(t.scopes)
  {
    t.OpenScope();
    raised := t.AddLocal(name, kind, value);
    assert t.table == old(t.table)[name := Symbol(name, kind, false, None, value, GlobalScope)];
    raised := t.CloseScope();
    assert t.table == old(t.table);
  }
}
