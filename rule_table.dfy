/**
 * The LL(1) decision table of `make_rule_table` in
 * completo/Tabla_Sintactica.py: a dictionary of dictionaries from a
 * nonterminal and a lookahead symbol to the text `"A -> body"` of the rule
 * to expand, filled rule by rule so that a later rule overwrites an earlier
 * one in the same cell.
 */
module RuleTable {
  import opened Wrappers
  import opened Text
  import opened Grammar
  import opened FirstSets

  /** `rule_table[nonterminal][symbol]`, the text of a rule or the empty string. */
  type Table = map<string, map<string, string>>

  /** The columns every row starts with: the terminals and `$`. */
  function Columns(terminals: set<string>): set<string> {
    terminals + {EndMarker}
  }

  /** The table before any rule is entered: an empty cell for every nonterminal and column. */
  function InitialTable(nonterminals: set<string>, terminals: set<string>): Table {
    map nt | nt in nonterminals :: map t | t in Columns(terminals) :: ""
  }

  /**
   * What `make_rule_table` looks up for a rule: its head is a row, FIRST of
   * its body can be computed, and FOLLOW of its head exists when that FIRST
   * holds epsilon.
   */
  predicate RuleReady(nonterminals: set<string>, terminals: set<string>, firsts: Sets, follows: Sets, r: Rule) {
    && r.lhs in nonterminals
    && DevKnown(firsts, terminals, r.Body())
    && (Epsilon in BodyFirst(firsts, terminals, r.Body()) ==> r.lhs in follows)
  }

  /** Every rule is ready, stated rule by rule from the last one back. */
  predicate TableInputs(rules: seq<Rule>, nonterminals: set<string>, terminals: set<string>, firsts: Sets, follows: Sets)
    decreases |rules|
  {
    |rules| == 0 ||
    (&& TableInputs(rules[..|rules| - 1], nonterminals, terminals, firsts, follows)
     && RuleReady(nonterminals, terminals, firsts, follows, rules[|rules| - 1]))
  }

  /** The inputs are ready exactly when each rule is. */
  lemma {:induction false} TableInputsEach(rules: seq<Rule>, nonterminals: set<string>, terminals: set<string>, firsts: Sets, follows: Sets)
    ensures TableInputs(rules, nonterminals, terminals, firsts, follows) <==>
      forall k :: 0 <= k < |rules| ==> RuleReady(nonterminals, terminals, firsts, follows, rules[k])
    decreases |rules|
  {
    if |rules| > 0 {
      var init := rules[..|rules| - 1];
      TableInputsEach(init, nonterminals, terminals, firsts, follows);
      assert forall k :: 0 <= k < |init| ==> init[k] == rules[k];
    }
  }

  /**
   * The cells of its head's row that rule `r` writes: FIRST of its body
   * other than epsilon, and all of FOLLOW of its head when that FIRST holds
   * epsilon.
   */
  function Targets(nonterminals: set<string>, terminals: set<string>, firsts: Sets, follows: Sets, r: Rule): set<string>
    requires RuleReady(nonterminals, terminals, firsts, follows, r)
  {
    var d := BodyFirst(firsts, terminals, r.Body());
    (d - {Epsilon}) + (if Epsilon in d then follows[r.lhs] else {})
  }

  /** The same text in every cell of `cells`. */
  function Fill(cells: set<string>, text: string): map<string, string> {
    map c | c in cells :: text
  }

  /** Row `nt` of `T` with `text` written into every cell of `cells` (a table without that row is left alone). */
  function EnterCells(T: Table, nt: string, cells: set<string>, text: string): Table {
    if nt in T then T[nt := T[nt] + Fill(cells, text)] else T
  }

  /** Writing cells changes exactly those cells, adding the ones the row lacked. */
  lemma EnterCellsEffect(T: Table, nt: string, cells: set<string>, text: string, nt': string, t: string)
    ensures var E := EnterCells(T, nt, cells, text);
      && E.Keys == T.Keys
      && (nt' == nt && nt in T && t in cells ==> t in E[nt'] && E[nt'][t] == text)
      && (nt' in T && !(nt' == nt && t in cells) ==> (t in E[nt'] <==> t in T[nt']) && (t in T[nt'] ==> E[nt'][t] == T[nt'][t]))
  {
  }

  /** Two writes of the same text into one row are one write of both sets of cells. */
  lemma EnterCellsTwice(T: Table, nt: string, a: set<string>, b: set<string>, text: string)
    requires nt in T
    ensures EnterCells(EnterCells(T, nt, a, text), nt, b, text) == EnterCells(T, nt, a + b, text)
  {
    var E := EnterCells(EnterCells(T, nt, a, text), nt, b, text);
    assert E[nt] == T[nt] + Fill(a + b, text);
  }

  /** What entering one rule does: write `text` into the cells `cells` of row `row`. */
  datatype Entry = Entry(row: string, cells: set<string>, text: string)

  /** The entry of rule `r`: its head's row, its targets and its text. */
  function EntryOf(nonterminals: set<string>, terminals: set<string>, firsts: Sets, follows: Sets, r: Rule): Entry
    requires RuleReady(nonterminals, terminals, firsts, follows, r)
  {
    Entry(r.lhs, Targets(nonterminals, terminals, firsts, follows, r), r.Text())
  }

  /** The entries of the rules, in rule order. */
  function Entries(rules: seq<Rule>, nonterminals: set<string>, terminals: set<string>, firsts: Sets, follows: Sets)
    : (es: seq<Entry>)
    requires TableInputs(rules, nonterminals, terminals, firsts, follows)
    ensures |es| == |rules|
    decreases |rules|
  {
    if |rules| == 0 then [] else
      Entries(rules[..|rules| - 1], nonterminals, terminals, firsts, follows)
      + [EntryOf(nonterminals, terminals, firsts, follows, rules[|rules| - 1])]
  }

  /** Entry `q` is the entry of rule `q`. */
  lemma {:induction false} EntryAt(rules: seq<Rule>, nonterminals: set<string>, terminals: set<string>, firsts: Sets, follows: Sets,
                                   q: nat)
    requires TableInputs(rules, nonterminals, terminals, firsts, follows) && q < |rules|
    ensures RuleReady(nonterminals, terminals, firsts, follows, rules[q])
    ensures Entries(rules, nonterminals, terminals, firsts, follows)[q] == EntryOf(nonterminals, terminals, firsts, follows, rules[q])
    decreases |rules|
  {
    var init := rules[..|rules| - 1];
    if q < |rules| - 1 {
      EntryAt(init, nonterminals, terminals, firsts, follows, q);
      assert init[q] == rules[q];
    }
  }

  /** `T` after the first `k` entries, in order. */
  function Fold(T: Table, es: seq<Entry>, k: nat): (R: Table)
    requires k <= |es|
    ensures R.Keys == T.Keys
    decreases k
  {
    if k == 0 then T else EnterCells(Fold(T, es, k - 1), es[k - 1].row, es[k - 1].cells, es[k - 1].text)
  }

  /** Entry `q` writes cell `(nt, t)`. */
  predicate Hits(es: seq<Entry>, q: nat, nt: string, t: string)
    requires q < |es|
  {
    es[q].row == nt && t in es[q].cells
  }

  /** Entry `q` is the last of the first `k` entries to write cell `(nt, t)`. */
  predicate LastHit(es: seq<Entry>, k: nat, q: nat, nt: string, t: string)
    requires k <= |es|
  {
    q < k && Hits(es, q, nt, t) && forall p :: q < p < k ==> !Hits(es, p, nt, t)
  }

  /** A written cell holds what its last writer wrote. */
  lemma {:induction false} FoldWritten(T: Table, es: seq<Entry>, k: nat, q: nat, nt: string, t: string)
    requires k <= |es| && nt in T && LastHit(es, k, q, nt, t)
    ensures nt in Fold(T, es, k) && t in Fold(T, es, k)[nt] && Fold(T, es, k)[nt][t] == es[q].text
    decreases k
  {
    var P := Fold(T, es, k - 1);
    EnterCellsEffect(P, es[k - 1].row, es[k - 1].cells, es[k - 1].text, nt, t);
    if q < k - 1 {
      assert !Hits(es, k - 1, nt, t);
      assert LastHit(es, k - 1, q, nt, t);
      FoldWritten(T, es, k - 1, q, nt, t);
    }
  }

  /** A cell that no entry writes is as it was. */
  lemma {:induction false} FoldUnwritten(T: Table, es: seq<Entry>, k: nat, nt: string, t: string)
    requires k <= |es| && nt in T
    requires forall p :: 0 <= p < k ==> !Hits(es, p, nt, t)
    ensures var R := Fold(T, es, k);
      (t in R[nt] <==> t in T[nt]) && (t in T[nt] ==> R[nt][t] == T[nt][t])
    decreases k
  {
    if k > 0 {
      FoldUnwritten(T, es, k - 1, nt, t);
      assert !Hits(es, k - 1, nt, t);
      EnterCellsEffect(Fold(T, es, k - 1), es[k - 1].row, es[k - 1].cells, es[k - 1].text, nt, t);
    }
  }

  /** A cell that some entry writes has a last writer. */
  lemma {:induction false} LastHitExists(es: seq<Entry>, k: nat, p: nat, nt: string, t: string)
    requires k <= |es| && p < k && Hits(es, p, nt, t)
    ensures exists q :: LastHit(es, k, q, nt, t)
    decreases k
  {
    if Hits(es, k - 1, nt, t) {
      assert LastHit(es, k, k - 1, nt, t);
    } else {
      LastHitExists(es, k - 1, p, nt, t);
      var q :| LastHit(es, k - 1, q, nt, t);
      assert LastHit(es, k, q, nt, t);
    }
  }

  /** The table of `make_rule_table`: every rule entered in order into the initial table. */
  function RuleTableOf(rules: seq<Rule>, nonterminals: set<string>, terminals: set<string>, firsts: Sets, follows: Sets)
    : (T: Table)
    requires TableInputs(rules, nonterminals, terminals, firsts, follows)
    ensures T.Keys == nonterminals
  {
    var es := Entries(rules, nonterminals, terminals, firsts, follows);
    Fold(InitialTable(nonterminals, terminals), es, |es|)
  }

  /** Rule `q` writes cell `(nt, t)`. */
  predicate Writes(rules: seq<Rule>, nonterminals: set<string>, terminals: set<string>, firsts: Sets, follows: Sets,
                   q: nat, nt: string, t: string)
    requires q < |rules| && TableInputs(rules, nonterminals, terminals, firsts, follows)
  {
    EntryAt(rules, nonterminals, terminals, firsts, follows, q);
    rules[q].lhs == nt && t in Targets(nonterminals, terminals, firsts, follows, rules[q])
  }

  /** Rule `q` is the last rule to write cell `(nt, t)`. */
  predicate LastWriter(rules: seq<Rule>, nonterminals: set<string>, terminals: set<string>, firsts: Sets, follows: Sets,
                       q: nat, nt: string, t: string)
    requires TableInputs(rules, nonterminals, terminals, firsts, follows)
  {
    && q < |rules|
    && Writes(rules, nonterminals, terminals, firsts, follows, q, nt, t)
    && forall p :: q < p < |rules| ==> !Writes(rules, nonterminals, terminals, firsts, follows, p, nt, t)
  }

  /**
   * The cells of the finished table: a cell that some rule writes holds
   * the text of the last rule that writes it; any other cell exists
   * exactly when it is one of the initial columns, and is empty.
   */
  lemma TableCell(rules: seq<Rule>, nonterminals: set<string>, terminals: set<string>, firsts: Sets, follows: Sets,
                  nt: string, t: string)
    requires TableInputs(rules, nonterminals, terminals, firsts, follows) && nt in nonterminals
    ensures var T := RuleTableOf(rules, nonterminals, terminals, firsts, follows);
      forall q: nat :: LastWriter(rules, nonterminals, terminals, firsts, follows, q, nt, t) ==>
        t in T[nt] && T[nt][t] == rules[q].Text()
    ensures var T := RuleTableOf(rules, nonterminals, terminals, firsts, follows);
      (forall p: nat :: p < |rules| ==> !Writes(rules, nonterminals, terminals, firsts, follows, p, nt, t)) ==>
        (t in T[nt] <==> t in Columns(terminals)) && (t in T[nt] ==> T[nt][t] == "")
  {
    var es := Entries(rules, nonterminals, terminals, firsts, follows);
    var T0 := InitialTable(nonterminals, terminals);
    forall q: nat | LastWriter(rules, nonterminals, terminals, firsts, follows, q, nt, t)
      ensures t in Fold(T0, es, |es|)[nt] && Fold(T0, es, |es|)[nt][t] == rules[q].Text()
    {
      EntryAt(rules, nonterminals, terminals, firsts, follows, q);
      forall p | q < p < |es| ensures !Hits(es, p, nt, t) {
        EntryAt(rules, nonterminals, terminals, firsts, follows, p);
        assert !Writes(rules, nonterminals, terminals, firsts, follows, p, nt, t);
      }
      FoldWritten(T0, es, |es|, q, nt, t);
    }
    if forall p: nat :: p < |rules| ==> !Writes(rules, nonterminals, terminals, firsts, follows, p, nt, t) {
      forall p | 0 <= p < |es| ensures !Hits(es, p, nt, t) {
        EntryAt(rules, nonterminals, terminals, firsts, follows, p);
        assert !Writes(rules, nonterminals, terminals, firsts, follows, p, nt, t);
      }
      FoldUnwritten(T0, es, |es|, nt, t);
    }
  }

  /** A cell that some rule writes has a last writer. */
  lemma LastWriterExists(rules: seq<Rule>, nonterminals: set<string>, terminals: set<string>, firsts: Sets, follows: Sets,
                         p: nat, nt: string, t: string)
    requires TableInputs(rules, nonterminals, terminals, firsts, follows)
    requires p < |rules| && Writes(rules, nonterminals, terminals, firsts, follows, p, nt, t)
    ensures exists q: nat :: LastWriter(rules, nonterminals, terminals, firsts, follows, q, nt, t)
  {
    var es := Entries(rules, nonterminals, terminals, firsts, follows);
    EntryAt(rules, nonterminals, terminals, firsts, follows, p);
    assert Hits(es, p, nt, t);
    LastHitExists(es, |es|, p, nt, t);
    var q: nat :| LastHit(es, |es|, q, nt, t);
    EntryAt(rules, nonterminals, terminals, firsts, follows, q);
    forall p' | q < p' < |rules| ensures !Writes(rules, nonterminals, terminals, firsts, follows, p', nt, t) {
      EntryAt(rules, nonterminals, terminals, firsts, follows, p');
      assert !Hits(es, p', nt, t);
    }
    assert LastWriter(rules, nonterminals, terminals, firsts, follows, q, nt, t);
  }

  /** In an LL(1) grammar no cell has two writers, so each written cell names its only rule. */
  lemma OnlyWriter(rules: seq<Rule>, nonterminals: set<string>, terminals: set<string>, firsts: Sets, follows: Sets,
                   q: nat, nt: string, t: string)
    requires TableInputs(rules, nonterminals, terminals, firsts, follows) && nt in nonterminals
    requires q < |rules| && Writes(rules, nonterminals, terminals, firsts, follows, q, nt, t)
    requires forall p :: 0 <= p < |rules| && p != q ==> !Writes(rules, nonterminals, terminals, firsts, follows, p, nt, t)
    ensures var T := RuleTableOf(rules, nonterminals, terminals, firsts, follows);
      t in T[nt] && T[nt][t] == rules[q].Text()
  {
    assert LastWriter(rules, nonterminals, terminals, firsts, follows, q, nt, t);
    TableCell(rules, nonterminals, terminals, firsts, follows, nt, t);
  }

  /**
   * Writes `text` into every cell of row `nt` named in `cells` except those
   * in `except`: the loops `for symbol in ...: rule_table[nonterminal][symbol] = ...`.
   */
  method WriteCells(table: Table, nt: string, cells: set<string>, except: set<string>, text: string)
    returns (table': Table)
    requires nt in table
    ensures table' == EnterCells(table, nt, cells - except, text)
  {
    table' := table;
    var remaining := cells;
    EnterCellsNone(table, nt, text);
    assert (cells - remaining) - except == {};
    while remaining != {}
      invariant remaining <= cells
      invariant table' == EnterCells(table, nt, (cells - remaining) - except, text)
      decreases remaining
    {
      var symbol :| symbol in remaining;
      ghost var done := (cells - remaining) - except;
      if symbol !in except {
        EnterCellsAdd(table, nt, done, symbol, text);
        table' := table'[nt := table'[nt][symbol := text]];
        assert (cells - (remaining - {symbol})) - except == done + {symbol};
      } else {
        assert (cells - (remaining - {symbol})) - except == done;
      }
      remaining := remaining - {symbol};
    }
    assert cells - remaining == cells;
  }

  /** Writing no cells leaves the table as it is. */
  lemma EnterCellsNone(T: Table, nt: string, text: string)
    requires nt in T
    ensures EnterCells(T, nt, {}, text) == T
  {
    assert T[nt] + Fill({}, text) == T[nt];
  }

  /** Writing one more cell. */
  lemma EnterCellsAdd(T: Table, nt: string, cells: set<string>, c: string, text: string)
    requires nt in T
    ensures var E := EnterCells(T, nt, cells, text);
      E[nt := E[nt][c := text]] == EnterCells(T, nt, cells + {c}, text)
  {
    var E := EnterCells(T, nt, cells, text);
    assert E[nt][c := text] == T[nt] + Fill(cells + {c}, text);
  }

  /** `make_rule_table`: the initial table, then each rule's cells in rule order. */
  method MakeRuleTable(rules: seq<Rule>, nonterminals: set<string>, terminals: set<string>, firsts: Sets, follows: Sets)
    returns (table: Table)
    requires TableInputs(rules, nonterminals, terminals, firsts, follows)
    ensures table == RuleTableOf(rules, nonterminals, terminals, firsts, follows)
  {
    table := InitialTable(nonterminals, terminals);
    ghost var start := table;
    ghost var es := Entries(rules, nonterminals, terminals, firsts, follows);
    for k := 0 to |rules|
      invariant table == Fold(start, es, k)
    {
      table := EnterRule(rules, nonterminals, terminals, firsts, follows, table, k);
    }
  }

  /** Entering rule `k` takes the table after the first `k` rules to the table after `k + 1`. */
  lemma FoldStep(rules: seq<Rule>, nonterminals: set<string>, terminals: set<string>, firsts: Sets, follows: Sets, k: nat)
    requires TableInputs(rules, nonterminals, terminals, firsts, follows) && k < |rules|
    ensures RuleReady(nonterminals, terminals, firsts, follows, rules[k])
    ensures var es := Entries(rules, nonterminals, terminals, firsts, follows);
      var T0 := InitialTable(nonterminals, terminals);
      && rules[k].lhs in Fold(T0, es, k)
      && Fold(T0, es, k + 1) == EnterCells(Fold(T0, es, k), rules[k].lhs,
           Targets(nonterminals, terminals, firsts, follows, rules[k]), rules[k].Text())
  {
    EntryAt(rules, nonterminals, terminals, firsts, follows, k);
  }

  /** The body of the loop over the rules of `make_rule_table`, for rule `k`. */
  method EnterRule(rules: seq<Rule>, nonterminals: set<string>, terminals: set<string>, firsts: Sets, follows: Sets,
                   table: Table, k: nat)
    returns (table': Table)
    requires TableInputs(rules, nonterminals, terminals, firsts, follows) && k < |rules|
    requires table == Fold(InitialTable(nonterminals, terminals), Entries(rules, nonterminals, terminals, firsts, follows), k)
    ensures table' == Fold(InitialTable(nonterminals, terminals), Entries(rules, nonterminals, terminals, firsts, follows), k + 1)
  {
    FoldStep(rules, nonterminals, terminals, firsts, follows, k);
    var r := rules[k];
    var nonterminal := r.lhs;
    var symbols := r.Body();
    var developmentFirsts := CollectFirstsForDevelopment(symbols, firsts, terminals);
    table' := WriteCells(table, nonterminal, developmentFirsts, {Epsilon}, r.Text());
    if Epsilon in developmentFirsts {
      table' := WriteCells(table', nonterminal, follows[nonterminal], {}, r.Text());
      assert follows[nonterminal] - {} == follows[nonterminal];
      EnterCellsTwice(table, nonterminal, developmentFirsts - {Epsilon}, follows[nonterminal], r.Text());
    } else {
      assert developmentFirsts - {Epsilon} == (developmentFirsts - {Epsilon}) + {};
    }
  }

  // ---------------------------------------------------------------------------
  // The table as the parser reads it back
  // ---------------------------------------------------------------------------

  /** `_load_rule_table` of completo/AnalizadorSintactico.py keeps only the non-empty cells. */
  function Loaded(T: Table): (L: Table)
    ensures L.Keys == T.Keys
    ensures forall nt, t :: nt in T && t in T[nt] && T[nt][t] != "" ==> t in L[nt] && L[nt][t] == T[nt][t]
    ensures forall nt, t :: nt in L && t in L[nt] ==> t in T[nt] && T[nt][t] != ""
  {
    map nt | nt in T :: map t | t in T[nt] && T[nt][t] != "" :: T[nt][t]
  }

  /**
   * A grammar line parsed by both stages: the rule text the table stores
   * for it is exactly what the parser splits at its arrow.
   */
  predicate FromLines(rules: seq<Rule>) {
    forall q :: 0 <= q < |rules| ==>
      IsStripped(rules[q].lhs) && IsStripped(rules[q].rhs) && !HasArrow(rules[q].lhs) && !HasArrow(rules[q].rhs)
  }

  /**
   * After the whole grammar is entered, the parser finds a rule for
   * `(nt, t)` exactly when some rule writes that cell, and reading the cell
   * back gives its last writer.
   */
  lemma LoadedCell(rules: seq<Rule>, nonterminals: set<string>, terminals: set<string>, firsts: Sets, follows: Sets,
                   nt: string, t: string)
    requires TableInputs(rules, nonterminals, terminals, firsts, follows) && FromLines(rules) && nt in nonterminals
    ensures var L := Loaded(RuleTableOf(rules, nonterminals, terminals, firsts, follows));
      && nt in L
      && (t in L[nt] <==> exists p: nat :: p < |rules| && Writes(rules, nonterminals, terminals, firsts, follows, p, nt, t))
      && forall q: nat :: LastWriter(rules, nonterminals, terminals, firsts, follows, q, nt, t) ==>
           t in L[nt] && ParseRule(L[nt][t]) == Success(rules[q])
  {
    var T := RuleTableOf(rules, nonterminals, terminals, firsts, follows);
    var L := Loaded(T);
    TableCell(rules, nonterminals, terminals, firsts, follows, nt, t);
    if exists p: nat :: p < |rules| && Writes(rules, nonterminals, terminals, firsts, follows, p, nt, t) {
      var p: nat :| p < |rules| && Writes(rules, nonterminals, terminals, firsts, follows, p, nt, t);
      LastWriterExists(rules, nonterminals, terminals, firsts, follows, p, nt, t);
      var q: nat :| LastWriter(rules, nonterminals, terminals, firsts, follows, q, nt, t);
      assert |rules[q].Text()| >= 4;
    }
    forall q: nat | LastWriter(rules, nonterminals, terminals, firsts, follows, q, nt, t)
      ensures t in L[nt] && ParseRule(L[nt][t]) == Success(rules[q])
    {
      assert |rules[q].Text()| >= 4;
      RuleTextRoundTrip(rules[q]);
    }
  }
}
