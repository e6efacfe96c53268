# LL(1) compiler front end, modelled in Dafny

This project models the core of a small compiler front end written in
Python. The front end reads a context-free grammar of rule lines
`LHS -> S1 .. Sn`, where `''` stands for the empty string. Its core has
four parts, each modelled in the form the source uses:

- **Grammar analysis** (`completo/Tabla_Sintactica.py`). This part is
  imperative and modelled with methods. It collects the alphabet, the
  nonterminals and the terminals. It computes FIRST and FOLLOW by repeating
  passes over the rules and computes FIRST of a production body. It then
  fills the LL(1) decision table, where a later rule overwrites an earlier
  one in the same cell.
  - Modules: `FirstSets`, `FollowSets`, `RuleTable`.
  - Each method is proved equal to a fold or closure function, and the
    properties are proved about those functions.
- **Table-driven parser** (`completo/AnalizadorSintactico.py`). `LLParser`
  collects its symbol lists. `parse_input` then runs a stack machine over
  the tokens with `$` appended. It writes one trace row per step and stops
  at the first error row.
  - Module: `TableParser`.
  - `LLParser` is a class. One loop iteration is the function `Step`, and
    `ParseInput` is proved to run `Parse`.
- **Backtracking tree parser** (`completo/Generar_Arbol.py`, with a copy
  without graphviz in `Tabla_Simbolos.py`). It groups the rule lines by
  head. It scores each production by how many of its leading symbols fit
  the lookahead, and tries the productions in a stable sort by descending
  score. It builds `Nodo` trees with parent links, then hangs an `ε` leaf
  under every childless nonterminal node.
  - Modules: `SyntaxTree`, `TreeParser`, `TreeBuilding`.
  - The nodes are heap objects (`SyntaxTree.Node`), and the parser that
    builds them (`TreeBuilding.TreeBuilder`) is proved to build the trees
    that the functions of `TreeParser` describe.
- **Symbol table** (`Tabla_Simbolos.py`). `TablaDeSimbolos` is a class
  holding a dictionary of symbols and a stack of scopes. There are read-only
  searches over the syntax tree. There are two walks that fill the table:
  `agregarSimbolos` and `recorrer_nodos`.
  - Modules: `SymbolTables`, `TreeQueries`, `SymbolResolver`.
  - The module-level table `TablaSimbolos` (`Tabla_Simbolos.py:159`)
    becomes an explicit `SymbolTable` object that the walks update.

`Text` models Python's `strip`, `split`, `split('->')`, the `re.match`
prefix test on tokens and the decimal node ids. `Grammar` models one rule
line. `Wrappers` holds `Option` and `Result`.

Two behaviours of the code are worth knowing before reading the model:

- `collect_follows` can stop before the fixed point, because its flag only
  notices growth inherited from the head (see Findings).
- `agregarSimbolos` never opens or closes a scope. It registers functions in
  the scope it was called with, which is `Global` only at the top level.

## Model

| member | source | states |
|---|---|---|
| Text.Strip | completo/Tabla_Sintactica.py:23-25 | `strip()`: the input is whitespace, the result, then whitespace, and the result neither starts nor ends with whitespace. Whitespace is Python's `isspace` set, including `\xa0`, U+3000 and the other Unicode spaces. |
| Text.SplitWords | completo/Tabla_Sintactica.py:25 | Definition of `split()` with no separator: the maximal runs of non-whitespace, in order. `SplitWordsShape`, `SplitWordsOfJoin` and `UnicodeSpaceSeparates` state its properties. |
| Text.UnicodeSpaceSeparates | completo/Tabla_Sintactica.py:25 | A no-break space and an ideographic space separate words and are stripped, as in Python. |
| Text.TokenType | completo/Generar_Arbol.py:80 | Definition of `token.split(':')[0]` for a token with one colon. `MatchedTokenType` states its property. |
| Text.TokenValue | completo/Generar_Arbol.py:80 | Definition of `token.split(':')[1]` for a token with one colon. `MatchedTokenType` states its property. |
| Text.MatchedTokenType | completo/Generar_Arbol.py:79-80 | When a well-formed token passes the `re.match(f'{s}:.*')` test, its type is `s` and the token reads `s:value`. |
| Text.NatToStringInjective | completo/Generar_Arbol.py:54 | Different node counters give different ids `N{k}`. |
| Text.SplitWordsOfJoin | completo/Tabla_Sintactica.py:25 | `split()` of words joined by blanks gives the words back. |
| Grammar.ParseRule | completo/Tabla_Sintactica.py:22-25 | Definition of one rule line: `split('->')` into exactly two parts, both stripped. `ParseRuleSides` and `ParsedRuleShape` state its properties. |
| Grammar.ParseRuleSides | completo/Tabla_Sintactica.py:22-25 | A rule line parses exactly when it holds one `->`. The two sides are then the stripped text around that arrow. A line with no arrow or with two arrows fails, as the tuple unpacking raises. |
| Grammar.ParsedRuleShape | completo/Tabla_Sintactica.py:22-25 | The sides of a parsed rule are stripped and contain no arrow. |
| Grammar.RuleTextRoundTrip | completo/Tabla_Sintactica.py:95 | The cell text `nt -> rhs` written for a rule parses back to that same rule. |
| Grammar.ParsedRuleTextRoundTrip | completo/AnalizadorSintactico.py:81-82 | If a cell is parsed, printed as text and parsed again, the result is the same rule. |
| FirstSets.CollectAlphabetAndNonterminals | completo/Tabla_Sintactica.py:18-28 | The alphabet is every body symbol and the nonterminals are the heads. The terminals are the alphabet minus the nonterminals, so the two are disjoint. `''`, when it is not a head, is one of the terminals. |
| FirstSets.CollectFirsts | completo/Tabla_Sintactica.py:31-55 | Fails exactly when some rule has an empty body (`symbols[0]`). Otherwise the result is keyed by the nonterminals and holds only terminals and `''`. No rule can add to it, and it lies below every other assignment that no rule can add to (least fixed point). |
| FirstSets.EpsilonRuleNullable | completo/Tabla_Sintactica.py:40-42 | A rule whose body starts with `''` puts `''` into FIRST of its head. |
| FirstSets.NullableChainNotNullable | completo/Tabla_Sintactica.py:43-54 | The loop never adds `''` for a body made only of nullable nonterminals. With `A -> B` and `B -> ''`, FIRST(A) is empty. |
| FirstSets.BodyFirst | completo/Tabla_Sintactica.py:103-114 | Definition of FIRST of a body: the FIRST sets of the leading nullable nonterminals without `''`, then the first terminal or non-nullable nonterminal, and `''` when the whole body is nullable. The three lemmas below characterise it. |
| FirstSets.BodyFirstMembers | completo/Tabla_Sintactica.py:103-114 | A symbol is in FIRST of a body exactly when the scan reaches, through nullable nonterminals, a symbol that contributes it. `''` is in it exactly when the whole body is nullable. |
| FirstSets.BodyFirstStopsAtTerminal | completo/Tabla_Sintactica.py:105-108 | The scan stops at the first terminal it reaches, and nothing after that terminal matters. |
| FirstSets.BodyFirstNullable | completo/Tabla_Sintactica.py:109-113 | `''` is in FIRST of a body exactly when every symbol is a nonterminal whose FIRST holds `''`, or the scan reaches a `''` terminal. In particular, an empty body gives `{''}`. |
| FirstSets.CollectFirstsForDevelopment | completo/Tabla_Sintactica.py:103-114 | The loop with its `break`s and its `else` computes FIRST of the body. |
| FollowSets.Follows | completo/Tabla_Sintactica.py:58-83 | Definition of `collect_follows` (flag as written) and of its corrected form: passes repeated from the initial sets while the flag is raised. The lemmas below state its properties. |
| FollowSets.StartFollowedByEnd | completo/Tabla_Sintactica.py:59-61 | FOLLOW fails exactly on a grammar without rules (`rules[0]`). Otherwise it gives a set for every nonterminal, and `$` is in FOLLOW of the first rule's head. |
| FollowSets.CollectFollows | completo/Tabla_Sintactica.py:58-83 | The loop computes `Follows(..., false)`: passes over every occurrence, repeated while the source's flag is raised. Its result has a set for every nonterminal and `$` after the start symbol. In `A -> .. B t ..` the terminal `t` is in FOLLOW(B). In `A -> .. B C ..`, FIRST(C) without `''` is in FOLLOW(B). Only inheriting FOLLOW(A) can be missed (see Findings). |
| FollowSets.FollowsNextClosed | completo/Tabla_Sintactica.py:71-77 | With either flag, the result holds the next-symbol contribution of every occurrence: a following terminal, or FIRST of a following nonterminal without `''`. Every pass visits every occurrence and the sets only grow. |
| FollowSets.FollowsBelowClosed | completo/Tabla_Sintactica.py:69-82 | Soundness: whatever either loop puts into a FOLLOW set is in that set for every assignment that is closed under the three occurrence rules and has `$` after the start symbol. |
| FollowSets.CorrectedFollowsClosed | completo/Tabla_Sintactica.py:69-82 | With the corrected flag the result is closed under the occurrence rules. A following terminal, FIRST of a following nonterminal minus `''`, and FOLLOW of the head (when the occurrence is last or the next FIRST holds `''`) are all in the occurrence's FOLLOW set. |
| FollowSets.CollectFollowsCorrected | completo/Tabla_Sintactica.py:62-82 | The corrected loop computes `Follows(..., true)`, and its result is closed. Together with soundness, it is the least closed assignment. |
| FollowSets.FollowsAsWrittenStopsEarly | completo/Tabla_Sintactica.py:62-82 | On the grammar in Findings, the loop as written stops after one pass with FOLLOW(B) empty. |
| FollowSets.FollowsCorrectedOnFlagGrammar | completo/Tabla_Sintactica.py:62-82 | On the same grammar, the corrected loop puts `c` into FOLLOW(B). |
| RuleTable.EnterCellsEffect | completo/Tabla_Sintactica.py:93-99 | Entering a rule writes its text into exactly the given cells of its head's row. Every other cell keeps its value. |
| RuleTable.TableCell | completo/Tabla_Sintactica.py:86-100 | A cell holds the text `nt -> rhs` of the last rule that writes it. A cell no rule writes is present exactly for the terminals and `$`, and holds `''`. |
| RuleTable.LastWriterExists | completo/Tabla_Sintactica.py:88-99 | A cell that some rule writes has a last writer. |
| RuleTable.OnlyWriter | completo/Tabla_Sintactica.py:93-99 | A cell written by a single rule holds that rule's text. |
| RuleTable.WriteCells | completo/Tabla_Sintactica.py:93-95 | The cell-writing loop writes the text into every cell it is given. |
| RuleTable.MakeRuleTable | completo/Tabla_Sintactica.py:86-100 | The loop over the rules builds `RuleTableOf`: the initial table with each rule's cells entered in rule order. |
| RuleTable.EnterRule | completo/Tabla_Sintactica.py:88-99 | One turn of that loop enters one more rule into the fold. |
| RuleTable.Loaded | completo/AnalizadorSintactico.py:46-55 | Loading keeps every row and keeps exactly the non-empty cells, unchanged. |
| RuleTable.LoadedCell | completo/AnalizadorSintactico.py:46-55 | After the table is written and loaded, a cell is present exactly when some rule writes it. It parses back to its last writer. |
| TableParser.CollectedNonterminals | completo/AnalizadorSintactico.py:30-37 | The nonterminals are each head once, in first-appearance order, starting with the first rule's head. |
| TableParser.CollectedAlphabet | completo/AnalizadorSintactico.py:39-42 | The alphabet is each body symbol other than `''` once, in first-appearance order. |
| TableParser.CollectedTerminals | completo/AnalizadorSintactico.py:44 | The terminals are the alphabet entries that are not nonterminals, each once, in alphabet order. |
| TableParser.LLParser.constructor | completo/AnalizadorSintactico.py:7-18 | The parser keeps the rules, tokens and table. Its three symbol lists are those collected from empty lists. |
| TableParser.LLParser.CollectAlphabetAndSymbols | completo/AnalizadorSintactico.py:30-44 | The nested loops append each new head and each new non-`''` symbol, and then the terminals are filtered out of the alphabet. |
| TableParser.LLParser.AddSymbols | completo/AnalizadorSintactico.py:39-42 | The inner loop appends the new non-`''` symbols of one body. |
| TableParser.LookupRule | completo/AnalizadorSintactico.py:66 | The rule is `""` for a symbol that is not a nonterminal, `None` for a missing cell, and the cell text otherwise. |
| TableParser.Step | completo/AnalizadorSintactico.py:64-94 | Definition of one iteration of the `parse_input` loop. The `Step…` lemmas below state each branch. |
| TableParser.Parse | completo/AnalizadorSintactico.py:57-96 | Definition of `parse_input` with a step budget: it starts on `['$', nonterminals[0]]` and runs `Step`. `RunRows` and `ExampleAccepted` state its properties. |
| TableParser.StepMatch | completo/AnalizadorSintactico.py:68-70 | A top equal to the token type is consumed. The cursor moves by one, nothing is pushed and one trace row is added. If the rule column needs an `rhs` that was never bound, the step raises instead. |
| TableParser.StepExpand | completo/AnalizadorSintactico.py:77-84 | A nonterminal with a rule is replaced by the rule's body, pushed reversed so that the body's first symbol is the new top. A `''` body pushes nothing. The cursor stays, and the row names the rule. |
| TableParser.StepMismatch | completo/AnalizadorSintactico.py:71-76 | A terminal or `$` that does not match appends the mismatch row and stops. |
| TableParser.StepNoRule | completo/AnalizadorSintactico.py:78-80 | A nonterminal with no cell for the token appends the no-rule row and stops. |
| TableParser.StepUnknown | completo/AnalizadorSintactico.py:85-87 | Any other symbol appends the unknown-symbol row and stops. |
| TableParser.StepAccept | completo/AnalizadorSintactico.py:89-94 | `$` meeting `$` is consumed, and its row says `Accept`. |
| TableParser.StepPastInput | completo/AnalizadorSintactico.py:65 | Popping with the cursor past the input raises the `IndexError`. |
| TableParser.StepRows | completo/AnalizadorSintactico.py:63-94 | Each step keeps the earlier rows and adds one three-column row, one error row, or (when it raises) none. |
| TableParser.RunRows | completo/AnalizadorSintactico.py:63-94 | A run extends its rows by trace rows, and an error row can only come last. The loop stops at the first error. |
| TableParser.ExampleAccepted | completo/AnalizadorSintactico.py:57-94 | `S -> a` on the input `a:1` gives three rows: expand, match, `Accept`. |
| TableParser.Iterate | completo/AnalizadorSintactico.py:64-94 | One loop iteration is `Step`. |
| TableParser.LLParser.ParseInput | completo/AnalizadorSintactico.py:57-96 | `parse_input` is `Parse`: it starts on `['$', nonterminals[0]]` with the tokens followed by `('$','$')` and runs `Step` until the stack empties, an error row stops it, or an exception ends it. |
| SyntaxTree.Node.constructor | completo/Generar_Arbol.py:5-10 | A new node has its label, id and value, no children and no parent. |
| SyntaxTree.Node.AddChild | completo/Generar_Arbol.py:12-14 | The child is appended at the end of `hijos` and its parent becomes the receiver. Nothing else changes, and two disjoint trees stay a tree. |
| SyntaxTree.Node.LeafShape | completo/Generar_Arbol.py:16-17 | A node is a leaf exactly when its tree has no subtrees. |
| SyntaxTree.Decorate | completo/Generar_Arbol.py:125-133 | Definition of `agregar_epsilon_a_hojas` on tree values. `DecorateLeaves` and `DecorateRoot` state its properties. |
| SyntaxTree.DecorateLeaves | completo/Generar_Arbol.py:125-133 | After the pass, the leaves are the old leaves in the same order. Each leaf labelled with a listed nonterminal is replaced by its one new `ε` child, and every other leaf is unchanged. |
| SyntaxTree.DecorateRoot | completo/Generar_Arbol.py:125-133 | The pass keeps the root's label, id and value. |
| SyntaxTree.AddEpsilonToLeaves | completo/Generar_Arbol.py:125-133 | The pass on heap nodes leaves a tree whose shape is `Decorate` of the old one. It only adds new nodes. |
| SyntaxTree.DecorateChildren | completo/Generar_Arbol.py:131-133 | The loop over the children decorates each child in turn. |
| TreeParser.Grouped | completo/Generar_Arbol.py:19-31 | Definition of `cargar_gramatica` on lines: the productions of each head in file order, or the error of the first bad line. `GroupedSucceeds` and `GroupedProductions` state its properties. |
| TreeParser.LoadGrammar | completo/Generar_Arbol.py:19-31 | Reading the lines gives `Grouped`, or the error of the first line whose `split('->')` does not give two parts. |
| TreeParser.GroupedSucceeds | completo/Generar_Arbol.py:23-24 | Reading succeeds exactly when every line with `->` has exactly one. |
| TreeParser.GroupedProductions | completo/Generar_Arbol.py:22-30 | The heads are those of the rule lines. Each head's productions are its lines' symbols in file order, and other lines are ignored. |
| TreeParser.GroupedFailureStays | completo/Generar_Arbol.py:24 | A bad line ends the reading, so later lines do not matter. |
| TreeParser.StripAllWords | completo/Generar_Arbol.py:26 | Stripping the words of a split changes nothing. |
| TreeParser.Score | completo/Generar_Arbol.py:101-113 | The score is at most the length of the production and the number of tokens left. Every counted symbol is a nonterminal or matches its token, and the first uncounted one (if in range) fits neither. |
| TreeParser.RankingSorted | completo/Generar_Arbol.py:64 | The order holds every position once, by descending score, with ties in their original order (stable sort). |
| TreeParser.TriedOrder | completo/Generar_Arbol.py:64 | The productions are tried in that order. |
| TreeParser.Parse | completo/Generar_Arbol.py:59-99 | Definition of `parser`: `None` for an unknown nonterminal, otherwise the productions tried in ranked order. `ParseConsumes` and `ParseShape` state its properties. |
| TreeParser.TryProductions | completo/Generar_Arbol.py:65-99 | Definition of the loop over the productions and the `''` fallback after it. `TryShape` states its properties. |
| TreeParser.Expand | completo/Generar_Arbol.py:69-86 | Definition of the loop over one production's symbols. `ExpandShape` states its properties. |
| TreeParser.ParseConsumes | completo/Generar_Arbol.py:59-99 | `parser` never moves the index or the node counter back. A `None` result consumes nothing. A node is labelled with the nonterminal and has no value, and its leaves' tokens are exactly the tokens consumed. |
| TreeParser.ExpandShape | completo/Generar_Arbol.py:69-86 | A matched production gives one child per symbol other than a plain `''`, labelled by that symbol and in production order. |
| TreeParser.TryShape | completo/Generar_Arbol.py:65-99 | A node from the loop is either the fallback node, childless and consuming nothing, or follows one candidate production. With the fallback available the result is never `None`. |
| TreeParser.ParseShape | completo/Generar_Arbol.py:59-99 | An unknown nonterminal gives `None` at the same index. A known one gives a node that follows one of its productions, or its childless node when some production mentions `''`, in which case the result is never `None`. |
| TreeBuilding.TreeBuilder.AddNode | completo/Generar_Arbol.py:52-57 | A new parentless leaf named `N{counter}`, and the counter moves by one. |
| TreeBuilding.TreeBuilder.Priority | completo/Generar_Arbol.py:101-113 | The counting loop computes `Score`. |
| TreeBuilding.TreeBuilder.SortProductions | completo/Generar_Arbol.py:64 | The sorted productions are `Tried`. |
| TreeBuilding.TreeBuilder.Attach | completo/Generar_Arbol.py:89-91 | The new node gets the children in order, and its shape has their shapes as subtrees. |
| TreeBuilding.TreeBuilder.ExpandProduction | completo/Generar_Arbol.py:66-86 | The loop over a production's symbols gives the children, the `exito` flag and the index, as `Expand` describes. |
| TreeBuilding.TreeBuilder.ParseSymbol | completo/Generar_Arbol.py:59-99 | `parser` returns a new parentless tree whose shape is the tree `Parse` gives, or `None` or the exception that `Parse` gives. |
| TreeBuilding.ObtainRoot | Tabla_Simbolos.py:4-68 | The root is the tree `Parse` gives for `PROGRAMA` at index 0 with the counter at 0. |
| TreeBuilding.BuildTree | completo/Generar_Arbol.py:47-123 | Builds the same root and then decorates it: its shape is `Decorate` of the parsed tree. |
| TreeQueries.FindNode | Tabla_Simbolos.py:161-170 | A node that `buscarNodo` finds carries the label asked for. `FindNodeFirst` and `FindNodeSiblings` state the rest. |
| TreeQueries.SiblingText | Tabla_Simbolos.py:189-209 | Definition of `obtener_hermanos`: the joined values below the later siblings. `DescendantsInPreorder` states what it joins. |
| TreeQueries.FindNodeFirst | Tabla_Simbolos.py:161-170 | `buscarNodo` finds the first node in preorder with the label, or `None`. |
| TreeQueries.FindNodeSiblings | Tabla_Simbolos.py:189-196 | A node found below the root is a child of some node of the tree, and the siblings handed back are that parent's children after it (`hijos[index + 1:]`). |
| TreeQueries.Descendants | Tabla_Simbolos.py:211-222 | `obtener_descendientes` never lists `@`. |
| TreeQueries.DescendantsInPreorder | Tabla_Simbolos.py:211-222 | It lists the values other than `None` and `@` of the subtree, in preorder. |
| TreeQueries.ReturnValue | Tabla_Simbolos.py:172-187 | Below a node that is not `RETORNAR`, what `buscarValor` finds is never empty: an empty text does not count. |
| TreeQueries.NoReturnNoValue | Tabla_Simbolos.py:172-187 | With no `RETORNAR` below a node, nothing is found. |
| TreeQueries.ReturnValueFirst | Tabla_Simbolos.py:172-187 | When the first `RETORNAR` in preorder has sibling text, that text is what `buscarValor` returns. |
| TreeQueries.ParametersOf | Tabla_Simbolos.py:237-249 | Definition of `BuscarParametros`. `ParametersInPreorder` states its property. |
| TreeQueries.ParametersInPreorder | Tabla_Simbolos.py:237-249 | `BuscarParametros` lists the values of the `IDENTIFICADOR` nodes of the subtree, in preorder. |
| TreeQueries.AssignmentValue | Tabla_Simbolos.py:251-272 | Definition of `buscar_valores_asignacion`: the text after the first `IGUAL` of an `ASIGNACION`, and `''` otherwise. `AssignmentSiblings` states its property. |
| TreeQueries.AssignmentSiblings | Tabla_Simbolos.py:251-272 | The `IGUAL` of an `ASIGNACION` lies strictly below it, so it has a parent, and the value is the text of that parent's children after it. |
| SymbolTables.AddSymbolTo | Tabla_Simbolos.py:92-101 | Refused exactly when the name is declared in the same scope. Otherwise the name maps to the new symbol, replacing one of another scope, and no other name changes. |
| SymbolTables.SymbolTable.constructor | Tabla_Simbolos.py:88-90 | An empty dictionary and no scopes. |
| SymbolTables.SymbolTable.Lookup | Tabla_Simbolos.py:103-105 | The symbol, or `None` exactly when the name is absent. |
| SymbolTables.SymbolTable.CheckType | Tabla_Simbolos.py:131-138 | `NameError` for an absent name, `TypeError` for another type, and no error exactly when the name has the expected type. |
| SymbolTables.SymbolTable.AddSymbol | Tabla_Simbolos.py:92-101 | The dictionary becomes `AddSymbolTo`, or stays as it was when that refuses. Afterwards the name passes the type check, other names are untouched, and the table invariant is kept. |
| SymbolTables.SymbolTable.OpenScope | Tabla_Simbolos.py:107-109 | Pushes an empty scope. |
| SymbolTables.SymbolTable.CloseScope | Tabla_Simbolos.py:111-117 | Raises with no open scope. Otherwise it pops the top scope and deletes exactly its names. A name missing from the dictionary raises a `KeyError`, which the table invariant rules out. |
| SymbolTables.SymbolTable.AddLocal | Tabla_Simbolos.py:119-129 | Raises with no open scope or an existing name. Otherwise it inserts a `Global` variable and records the name in the top scope only. |
| SymbolTables.LocalLifetime | Tabla_Simbolos.py:107-129 | Opening a scope, declaring a new local in it and closing it leaves the table as it was. |
| SymbolResolver.Register | Tabla_Simbolos.py:275-315 | Definition of `agregarSimbolos` on the dictionary. `RegisterExtends` and `RegisterDeclaresAll` state its properties. |
| SymbolResolver.RegisterFunction | Tabla_Simbolos.py:276-296 | Definition of the `FUNCION` branch. `RegisterFunctionExtends` states its properties. |
| SymbolResolver.RegisterAssignment | Tabla_Simbolos.py:298-311 | An assignment to a new name adds a variable with the assigned value. An assignment to an existing name changes only its `valor`, and no other entry changes. |
| SymbolResolver.DeclareParametersExtends | Tabla_Simbolos.py:286-290 | Every parameter ends up declared. New entries are variables scoped to the function, and existing entries are untouched. |
| SymbolResolver.RegisterFunctionExtends | Tabla_Simbolos.py:276-296 | At a `FUNCION` node the function name and all its parameters end up declared. Nothing already declared is lost or changed beyond its value. A function name that was new holds, up to its value, the `Function` symbol with `es_funcion` set, the `BuscarParametros` list, the `buscarValor` text and the caller's scope. A parameter that was new (and is not the function's own name) holds, up to its value, a `Variable` of the function's scope. |
| SymbolResolver.RegisterDeclaresFunction | Tabla_Simbolos.py:276-296 | The whole walk from a `FUNCION` node leaves its name and parameters declared. When the name was new, the walk below it, including the body's assignments, changes only the entry's value: it stays the `Function` symbol of the caller's scope with its parameters. |
| SymbolResolver.RegisterDeclaresAll | Tabla_Simbolos.py:275-315 | After a successful walk, every node of the tree, however deep, has been registered. For a `FUNCION` node, its `IDENTIFICADOR` and every one of its parameters are keys of the table. For an `ASIGNACION` node with an `IDENTIFICADOR`, the assigned name is a key. |
| SymbolResolver.RegisterAllDeclaresAll | Tabla_Simbolos.py:313-315 | The same holds for every node below a list of children walked in turn. |
| SymbolResolver.RegisterExtends | Tabla_Simbolos.py:275-315 | The walk never removes a symbol and changes only the values of existing symbols. |
| SymbolResolver.RegisterSymbols | Tabla_Simbolos.py:275-315 | `agregarSimbolos` leaves the dictionary that `Register` describes and keeps a consistent table consistent. When it does not raise, every function of the tree is declared with all its parameters, and so is every assigned name, at any depth. |
| SymbolResolver.RegisterEach | Tabla_Simbolos.py:313-315 | The loop over the children is `RegisterAll`. |
| SymbolResolver.RegisterFunctionNode | Tabla_Simbolos.py:276-296 | The `FUNCION` branch is `RegisterFunction`. |
| SymbolResolver.RegisterAssignmentNode | Tabla_Simbolos.py:298-311 | The `ASIGNACION` branch is `RegisterAssignment`. |
| SymbolResolver.Visit | Tabla_Simbolos.py:225-235 | Definition of `recorrer_nodos` on the dictionary and the marked set. `VisitAdds` and `VisitMarksAll` state its properties. |
| SymbolResolver.VisitAdds | Tabla_Simbolos.py:225-235 | The names a walk newly marks are exactly the new keys, and each is the value of a node with the label. Each holds the function symbol built from the arguments, and nothing else changes. |
| SymbolResolver.VisitMarksAll | Tabla_Simbolos.py:225-235 | Conversely, after a walk that succeeds, every node with the label that the walk reaches has a value, and that value is marked. If the name was not marked before the walk, it is declared in the table. The walk stops descending at a node with the label. |
| SymbolResolver.VisitNodes | Tabla_Simbolos.py:225-235 | `recorrer_nodos` leaves the dictionary and the marked set that `Visit` describes. |

## Left out

- File I/O is not modelled. This covers `read_grammar`, `write_csv`,
  `write_nonterminals`, the loaders of `LLParser`, `cargar_gramatica`'s
  `open`, `cargar_tokens`, `cargar_no_terminales` and the trace CSV export.
  Rules, lines, tokens and the loaded table are parameters instead.
  `RuleTable.Loaded` states what the CSV round trip keeps.
- Graphviz calls, every `print`, `imprimir_tabla`, `imprimirNodos`,
  `Simbolo.__repr__` and the `main` functions produce output only.
- `completo/Lexer_Python_ES.py` is not part of this model. It is a wrapper
  over a lexer library, and its tokens are inputs here in the `TYPE:value`
  form.
- `completo/pruebaSPIM.py` is not part of this model. It walks Python's own
  `ast` to emit assembly and is unrelated to the grammar core.
- `re.match(f'{simbolo}:.*', token)` is modelled as the prefix test
  "`token` starts with `simbolo:`". Regex metacharacters in a symbol are not
  modelled.
- `collect_alphabet_and_nonterminals` returns lists built from sets in
  Python's arbitrary order, so the model returns sets.
- FirstSets.CollectFirsts, FollowSets.CollectFollows,
  FirstSets.CollectFirstsForDevelopment and RuleTable.MakeRuleTable require
  the symbol sets that the other functions of the file produce. With other
  sets the source raises `KeyError`, and that path is not modelled.
- TableParser.LLParser.ParseInput is run with a step budget (`fuel`) and
  returns `Suspended` when the budget runs out. The source loop need not end
  on every table, and that is not modelled.
- TreeParser.Parse takes a `depth` bound standing for Python's recursion
  limit and gives `RecursionLimit` when it is reached. The exact frame
  count of the interpreter is not modelled.
- SymbolResolver.Register and SymbolResolver.Visit stop with `NoValue` at a
  name node without a value. There, the source would look up and store the
  key `None`. Trees built by the parser give every token leaf a value.
- SymbolTables.SymbolTable.CloseScope does not say which names were already
  deleted when the `KeyError` is raised, because set iteration order is
  unspecified.
- TreeQueries.FindNode hands back the later siblings of the node it finds.
  It does not follow `padre` and call `hijos.index`. The two agree on trees
  whose nodes are distinct objects, which is what the parser builds.
- Function-scoped names are not removed after `agregarSimbolos`. The source
  never opens or closes a scope there, so the model claims no scope
  isolation.

## Findings

| source | as written | input that shows it | evidently intended | confidence | as-written member | corrected member |
|---|---|---|---|---|---|---|
| completo/Tabla_Sintactica.py:62-82 | `not_done` is raised only when inheriting FOLLOW of the head grows a set (line 82). Growth from the next symbol (lines 75 and 77) leaves it down, so the loop can stop before the fixed point. | Rules `S -> y`, `A -> x B`, `S -> A c`, `B -> ''` with FIRST(S) = {y, x}, FIRST(A) = {x}, FIRST(B) = {''}. The first pass adds `c` to FOLLOW(A) only after `A -> x B` was visited, and the flag stays down. The result has FOLLOW(B) = {}, though `B` ends `A -> x B` and `c` is in FOLLOW(A). | Repeat passes until no set grows, so that every occurrence rule holds of the result. | high (not executed) | FollowSets.FollowsAsWrittenStopsEarly | FollowSets.CollectFollowsCorrected |
