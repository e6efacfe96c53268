/**
 * The table-driven LL(1) parser `LLParser` of completo/AnalizadorSintactico.py:
 * the symbol lists it derives from the grammar, and `parse_input`, a stack
 * machine that writes one trace row per step and stops at the first error.
 * The rule table and the tokens are inputs; reading them from files is not
 * part of this model.
 */
module TableParser {
  import opened Wrappers
  import opened Text
  import opened Grammar

  // ---------------------------------------------------------------------------
  // Lists without duplicates, in first-appearance order
  // ---------------------------------------------------------------------------

  /** `if x not in acc: acc.append(x)`. */
  function Add(acc: seq<string>, x: string): seq<string> {
    if x in acc then acc else acc + [x]
  }

  /** `acc` after `Add` of every element of `xs`, in order. */
  function AddAll(acc: seq<string>, xs: seq<string>): seq<string>
    decreases |xs|
  {
    if xs == [] then acc else Add(AddAll(acc, xs[..|xs| - 1]), xs[|xs| - 1])
  }

  predicate Distinct(xs: seq<string>) {
    forall i, j :: 0 <= i < j < |xs| ==> xs[i] != xs[j]
  }

  /** The position of the first occurrence of `x` in `xs`. */
  function FirstIndex(xs: seq<string>, x: string): (k: nat)
    requires x in xs
    ensures k < |xs| && xs[k] == x && x !in xs[..k]
  {
    if xs[0] == x then 0 else
      var k := FirstIndex(xs[1..], x);
      assert xs[..k + 1] == [xs[0]] + xs[1..][..k];
      k + 1
  }

  /** The first occurrence of `x` in `xs` is also its first occurrence in any longer list. */
  lemma FirstIndexExtend(xs: seq<string>, ys: seq<string>, x: string)
    requires x in xs
    ensures FirstIndex(xs + ys, x) == FirstIndex(xs, x)
  {
    var k := FirstIndex(xs, x);
    var k' := FirstIndex(xs + ys, x);
    InPrefix(xs + ys, k, k');
    InPrefix(xs, k', k);
  }

  lemma InPrefix(s: seq<string>, i: int, j: int)
    ensures 0 <= i < j <= |s| ==> s[i] in s[..j]
  {
    if 0 <= i < j <= |s| {
      assert s[..j][i] == s[i];
    }
  }

  /**
   * `AddAll` keeps `acc` in front, adds exactly the elements of `xs` that
   * `acc` lacks, adds each once, and adds them in the order of their first
   * occurrence in `xs`.
   */
  lemma {:induction false} AddAllFirstAppearance(acc: seq<string>, xs: seq<string>)
    ensures var r := AddAll(acc, xs);
      && |acc| <= |r| && r[..|acc|] == acc
      && (forall x :: x in r <==> x in acc || x in xs)
      && (forall i :: |acc| <= i < |r| ==> r[i] !in acc && r[i] in xs)
      && (Distinct(acc) ==> Distinct(r))
      && (forall i, j :: |acc| <= i < j < |r| ==> FirstIndex(xs, r[i]) < FirstIndex(xs, r[j]))
    decreases |xs|
  {
    if xs != [] {
      var init, x := xs[..|xs| - 1], xs[|xs| - 1];
      assert xs == init + [x];
      AddAllFirstAppearance(acc, init);
      var p := AddAll(acc, init);
      forall i | |acc| <= i < |p| ensures FirstIndex(xs, p[i]) == FirstIndex(init, p[i]) {
        FirstIndexExtend(init, [x], p[i]);
      }
      if x !in p {
        var r := p + [x];
        assert x !in init;
        assert FirstIndex(xs, x) == |init|;
        assert r[..|acc|] == p[..|acc|];
        forall i, j | |acc| <= i < j < |r| ensures FirstIndex(xs, r[i]) < FirstIndex(xs, r[j]) {
          if j < |p| {
            assert r[i] == p[i] && r[j] == p[j];
          } else {
            assert r[i] == p[i];
          }
        }
      }
    }
  }

  /** Adding one list and then another is adding their concatenation. */
  lemma {:induction false} AddAllAppend(acc: seq<string>, xs: seq<string>, ys: seq<string>)
    ensures AddAll(AddAll(acc, xs), ys) == AddAll(acc, xs + ys)
    decreases |ys|
  {
    if ys == [] {
      assert xs + ys == xs;
    } else {
      var init := ys[..|ys| - 1];
      AddAllAppend(acc, xs, init);
      assert (xs + ys)[..|xs + ys| - 1] == xs + init;
    }
  }

  /** The elements of `xs` that are not in `ys`, in order (`[s for s in xs if s not in ys]`). */
  function Outside(xs: seq<string>, ys: seq<string>): (r: seq<string>)
    ensures forall x :: x in r <==> x in xs && x !in ys
    decreases |xs|
  {
    if xs == [] then []
    else Outside(xs[..|xs| - 1], ys) + (if xs[|xs| - 1] in ys then [] else [xs[|xs| - 1]])
  }

  /** `Outside` keeps the order of `xs`: it never reorders or repeats what it keeps. */
  lemma {:induction false} OutsideDistinct(xs: seq<string>, ys: seq<string>)
    requires Distinct(xs)
    ensures var o := Outside(xs, ys);
      && Distinct(o)
      && forall i, j :: 0 <= i < j < |o| ==> FirstIndex(xs, o[i]) < FirstIndex(xs, o[j])
    decreases |xs|
  {
    if xs != [] {
      var init, last := xs[..|xs| - 1], xs[|xs| - 1];
      assert xs == init + [last];
      assert Distinct(init) by {
        forall i, j | 0 <= i < j < |init| ensures init[i] != init[j] {
          assert init[i] == xs[i] && init[j] == xs[j];
        }
      }
      OutsideDistinct(init, ys);
      assert last !in init;
      var p := Outside(init, ys);
      forall i | 0 <= i < |p| ensures FirstIndex(xs, p[i]) == FirstIndex(init, p[i]) < |init| {
        FirstIndexExtend(init, [last], p[i]);
      }
      if last !in ys {
        var o := p + [last];
        assert FirstIndex(xs, last) == |init|;
        forall i, j | 0 <= i < j < |o| ensures FirstIndex(xs, o[i]) < FirstIndex(xs, o[j]) {
          assert o[i] == p[i];
          if j < |p| {
            assert o[j] == p[j];
          }
        }
      }
    }
  }

  // ---------------------------------------------------------------------------
  // The symbol lists of `_collect_alphabet_and_symbols`
  // ---------------------------------------------------------------------------

  /** The heads of the rules, in rule order. */
  function HeadList(rules: seq<Rule>): (hs: seq<string>)
    ensures |hs| == |rules| && forall i :: 0 <= i < |rules| ==> hs[i] == rules[i].lhs
    decreases |rules|
  {
    if rules == [] then [] else HeadList(rules[..|rules| - 1]) + [rules[|rules| - 1].lhs]
  }

  /** The symbols of a body other than the epsilon marker, in order. */
  function NonEpsilon(body: seq<string>): (r: seq<string>)
    ensures forall x :: x in r <==> x in body && x != Epsilon
    decreases |body|
  {
    if body == [] then []
    else NonEpsilon(body[..|body| - 1]) + (if body[|body| - 1] == Epsilon then [] else [body[|body| - 1]])
  }

  /** Every body symbol other than the epsilon marker, rule by rule and in body order. */
  function SymbolList(rules: seq<Rule>): seq<string>
    decreases |rules|
  {
    if rules == [] then [] else SymbolList(rules[..|rules| - 1]) + NonEpsilon(rules[|rules| - 1].Body())
  }

  /** The symbol list holds exactly the body symbols other than `''`. */
  lemma {:induction false} SymbolListMembers(rules: seq<Rule>)
    ensures forall x :: x in SymbolList(rules) <==> x != Epsilon && exists i :: 0 <= i < |rules| && x in rules[i].Body()
    decreases |rules|
  {
    if rules != [] {
      var init := rules[..|rules| - 1];
      SymbolListMembers(init);
      assert forall i :: 0 <= i < |init| ==> init[i] == rules[i];
    }
  }

  /** `r` lists each element of `xs` once, in the order of first appearance in `xs`. */
  predicate ListsOnce(r: seq<string>, xs: seq<string>) {
    && Distinct(r)
    && (forall i :: 0 <= i < |r| ==> r[i] in xs)
    && (forall i :: 0 <= i < |xs| ==> xs[i] in r)
    && (forall i, j :: 0 <= i < j < |r| ==> FirstIndex(xs, r[i]) < FirstIndex(xs, r[j]))
  }

  /** Adding everything to an empty list lists each element once, in first-appearance order. */
  lemma AddAllListsOnce(xs: seq<string>)
    ensures ListsOnce(AddAll([], xs), xs)
  {
    AddAllFirstAppearance([], xs);
  }

  /** A list in first-appearance order starts with the first element of what it lists. */
  lemma ListsOnceHead(r: seq<string>, xs: seq<string>)
    requires ListsOnce(r, xs) && |xs| > 0
    ensures |r| > 0 && r[0] == xs[0]
  {
    assert xs[0] in r;
    var i :| 0 <= i < |r| && r[i] == xs[0];
    assert FirstIndex(xs, xs[0]) == 0;
  }

  /**
   * The nonterminals `_collect_alphabet_and_symbols` collects into an empty
   * list: each head once, in first-appearance order, starting with the head
   * of the first rule.
   */
  lemma CollectedNonterminals(rules: seq<Rule>)
    ensures var nts := AddAll([], HeadList(rules));
      && ListsOnce(nts, HeadList(rules))
      && (forall x :: x in nts <==> exists i :: 0 <= i < |rules| && rules[i].lhs == x)
      && (|rules| > 0 ==> |nts| > 0 && nts[0] == rules[0].lhs)
  {
    var heads := HeadList(rules);
    AddAllListsOnce(heads);
    var nts := AddAll([], heads);
    forall x ensures x in nts <==> exists i :: 0 <= i < |rules| && rules[i].lhs == x {
      if x in nts {
        var i :| 0 <= i < |heads| && heads[i] == x;
      }
    }
    if |rules| > 0 {
      ListsOnceHead(nts, heads);
    }
  }

  /**
   * The alphabet it collects into an empty list: each body symbol other
   * than `''` once, in first-appearance order.
   */
  lemma CollectedAlphabet(rules: seq<Rule>)
    ensures var alphabet := AddAll([], SymbolList(rules));
      && ListsOnce(alphabet, SymbolList(rules))
      && (forall x :: x in alphabet <==> x != Epsilon && exists i :: 0 <= i < |rules| && x in rules[i].Body())
  {
    AddAllListsOnce(SymbolList(rules));
    SymbolListMembers(rules);
    AddAllFirstAppearance([], SymbolList(rules));
  }

  /** Its terminals: alphabet entries that are no nonterminal, each once, in alphabet order. */
  lemma CollectedTerminals(alphabet: seq<string>, nonterminals: seq<string>)
    requires Distinct(alphabet)
    ensures Distinct(Outside(alphabet, nonterminals))
    ensures forall x :: x in Outside(alphabet, nonterminals) <==> x in alphabet && x !in nonterminals
    ensures forall i, j :: 0 <= i < j < |Outside(alphabet, nonterminals)| ==>
      FirstIndex(alphabet, Outside(alphabet, nonterminals)[i]) < FirstIndex(alphabet, Outside(alphabet, nonterminals)[j])
  {
    OutsideDistinct(alphabet, nonterminals);
  }

  // ---------------------------------------------------------------------------
  // The machine of `parse_input`
  // ---------------------------------------------------------------------------

  /** A token of the input, `(type, value)`. */
  datatype Token = Token(kind: string, value: string)

  /** The end-of-input token `('$', '$')`. */
  const EndToken: Token := Token(EndMarker, EndMarker)

  /** How a token shows in the trace: `f"{type}:{value}"`. */
  function TokenText(t: Token): string {
    t.kind + ":" + t.value
  }

  function TokenTexts(ts: seq<Token>): (r: seq<string>)
    ensures |r| == |ts| && forall i :: 0 <= i < |ts| ==> r[i] == TokenText(ts[i])
  {
    seq(|ts|, i requires 0 <= i < |ts| => TokenText(ts[i]))
  }

  type Row = seq<string>

  /** What the parser reads: its symbol lists, the loaded rule table and the input with `$` appended. */
  datatype Machine = Machine(nonterminals: seq<string>, terminals: seq<string>,
                             table: map<string, map<string, string>>, input: seq<Token>)

  /** The value of `rule` in one step: `""` for a symbol that is no nonterminal, `None`, or a cell. */
  datatype Lookup = NotNonterminal | NoRule | Cell(text: string)

  function LookupRule(m: Machine, top: string, kind: string): (l: Lookup)
    ensures l.NotNonterminal? <==> top !in m.nonterminals
    ensures l.NoRule? <==> top in m.nonterminals && !(top in m.table && kind in m.table[top])
    ensures l.Cell? ==> top in m.table && kind in m.table[top] && l.text == m.table[top][kind]
  {
    if top !in m.nonterminals then NotNonterminal
    else if top in m.table && kind in m.table[top] then Cell(m.table[top][kind])
    else NoRule
  }

  /** Python's truth value of `rule`. */
  predicate Truthy(l: Lookup) {
    l.Cell? && l.text != ""
  }

  /** The exceptions that end `parse_input` abnormally. */
  datatype Crash =
    | NoStartSymbol          // IndexError of `self.nonterminals[0]`
    | InputExhausted         // IndexError of `input_tokens[index]`
    | MalformedCell(text: string)  // ValueError of `_, rhs = rule.split('->')`
    | UnboundRhs             // NameError of `rhs` before any rule was expanded

  /** The loop state: the stack (top last), the cursor, the trace rows and the last `rhs`, stripped. */
  datatype Config = Config(stack: seq<string>, index: nat, rows: seq<Row>, rhs: Option<string>)

  datatype StepResult = Next(config: Config) | Halt(rows: seq<Row>) | Fail(crash: Crash, rows: seq<Row>)

  datatype Outcome =
    | Finished(rows: seq<Row>)       // the stack emptied, or an error row ended the loop
    | Crashed(crash: Crash, rows: seq<Row>)
    | Suspended(config: Config)      // still running after the given number of steps

  const MismatchMessage: string := "Error: terminal mismatch."
  const UnknownMessage: string := "Error: unknown symbol on stack."

  function NoRuleMessage(top: string, kind: string): string {
    "Error: no rule for nonterminal '" + top + "' with token '" + kind + "'"
  }

  /** The third column of a trace row. */
  function RuleColumn(top: string, kind: string, rule: Lookup, rhs: string): string {
    if Truthy(rule) then top + " -> " + rhs
    else if top == EndMarker && kind == EndMarker then "Accept"
    else ""
  }

  /** The row written after a step: the stack, the remaining input and the rule column. */
  function TraceRow(m: Machine, stack: seq<string>, index: nat, ruleColumn: string): Row
    requires index <= |m.input|
  {
    [Join(stack, " "), Join(TokenTexts(m.input[index..]), " "), ruleColumn]
  }

  /** Record the step; the rule column needs `rhs` exactly when `rule` is truthy. */
  function Record(m: Machine, c: Config, top: string, kind: string, rule: Lookup): StepResult
    requires c.index <= |m.input|
  {
    if Truthy(rule) && c.rhs.None? then Fail(UnboundRhs, c.rows)
    else
      var rhs := if c.rhs.Some? then c.rhs.value else "";
      Next(c.(rows := c.rows + [TraceRow(m, c.stack, c.index, RuleColumn(top, kind, rule, rhs))]))
  }

  /** What `stack.extend(reversed(symbols))` does unless the body is `['']`. */
  function Push(stack: seq<string>, body: seq<string>): seq<string> {
    if body != [Epsilon] then stack + Reversed(body) else stack
  }

  function Reversed(s: seq<string>): (r: seq<string>)
    ensures |r| == |s| && forall i :: 0 <= i < |s| ==> r[i] == s[|s| - 1 - i]
    decreases |s|
  {
    if s == [] then [] else Reversed(s[1..]) + [s[0]]
  }

  /** One iteration of the loop of `parse_input` on a non-empty stack. */
  function Step(m: Machine, c: Config): StepResult
    requires |c.stack| > 0 && c.index <= |m.input|
  {
    var top := c.stack[|c.stack| - 1];
    var stack := c.stack[..|c.stack| - 1];
    if c.index >= |m.input| then Fail(InputExhausted, c.rows)
    else
      var kind := m.input[c.index].kind;
      var rule := LookupRule(m, top, kind);
      if top == kind then
        Record(m, c.(stack := stack, index := c.index + 1), top, kind, rule)
      else if top in m.terminals || top == EndMarker then
        Halt(c.rows + [[MismatchMessage]])
      else if top in m.nonterminals then
        if rule.NoRule? then Halt(c.rows + [[NoRuleMessage(top, kind)]])
        else match ParseRule(rule.text)
          case Failure(_) => Fail(MalformedCell(rule.text), c.rows)
          case Success(r) => Record(m, c.(stack := Push(stack, r.Body()), rhs := Some(r.rhs)), top, kind, rule)
      else
        Halt(c.rows + [[UnknownMessage]])
  }

  /** The cursor never passes the end of the input. */
  predicate InRange(m: Machine, c: Config) {
    c.index <= |m.input|
  }

  lemma StepInRange(m: Machine, c: Config)
    requires |c.stack| > 0 && InRange(m, c)
    ensures Step(m, c).Next? ==> InRange(m, Step(m, c).config)
  {
  }


  /** The popped symbol and the current token type of a step. */
  function Top(c: Config): string
    requires |c.stack| > 0
  {
    c.stack[|c.stack| - 1]
  }

  function Popped(c: Config): seq<string>
    requires |c.stack| > 0
  {
    c.stack[..|c.stack| - 1]
  }

  /** A step that goes on appends exactly one three-column trace row and keeps the earlier rows. */
  predicate OneRowMore(c: Config, c': Config) {
    |c'.rows| == |c.rows| + 1 && c'.rows[..|c.rows|] == c.rows && |c'.rows[|c.rows|]| == 3
  }

  /**
   * A top that equals the current token type is consumed: the cursor moves
   * by one, nothing is pushed, and one trace row is written (unless the rule
   * column needs an `rhs` that was never set).
   */
  lemma StepMatch(m: Machine, c: Config)
    requires |c.stack| > 0 && c.index < |m.input| && Top(c) == m.input[c.index].kind
    ensures var rule := LookupRule(m, Top(c), m.input[c.index].kind);
      Step(m, c).Fail? <==> Truthy(rule) && c.rhs.None?
    ensures Step(m, c).Fail? ==> Step(m, c) == Fail(UnboundRhs, c.rows)
    ensures Step(m, c).Next? ==>
      var c' := Step(m, c).config;
      && c'.stack == Popped(c) && c'.index == c.index + 1 && c'.rhs == c.rhs && OneRowMore(c, c')
  {
  }

  /**
   * A nonterminal with a well-formed table rule is replaced by the rule's
   * body, pushed reversed so that its first symbol is the new top; a body
   * `['']` pushes nothing. The cursor stays, and the trace row names the rule.
   */
  lemma StepExpand(m: Machine, c: Config, r: Rule)
    requires |c.stack| > 0 && c.index < |m.input|
    requires var top, kind := Top(c), m.input[c.index].kind;
      && top != kind && top !in m.terminals && top != EndMarker && top in m.nonterminals
      && top in m.table && kind in m.table[top] && ParseRule(m.table[top][kind]) == Success(r)
    ensures Step(m, c).Next?
    ensures var c' := Step(m, c).config;
      && c'.stack == (if r.Body() == [Epsilon] then Popped(c) else Popped(c) + Reversed(r.Body()))
      && c'.index == c.index && c'.rhs == Some(r.rhs) && OneRowMore(c, c')
      && c'.rows == c.rows + [TraceRow(m, c'.stack, c.index, Top(c) + " -> " + r.rhs)]
    ensures var c' := Step(m, c).config;
      r.Body() != [Epsilon] && |r.Body()| > 0 ==> c'.stack[|c'.stack| - 1] == r.Body()[0]
  {
    var text := m.table[Top(c)][m.input[c.index].kind];
    assert text != "";
  }

  /** A terminal or `$` that does not match the current token ends the loop with a mismatch row. */
  lemma StepMismatch(m: Machine, c: Config)
    requires |c.stack| > 0 && c.index < |m.input|
    requires Top(c) != m.input[c.index].kind && (Top(c) in m.terminals || Top(c) == EndMarker)
    ensures Step(m, c) == Halt(c.rows + [[MismatchMessage]])
  {
  }

  /** A nonterminal without a rule for the current token ends the loop with a no-rule row. */
  lemma StepNoRule(m: Machine, c: Config)
    requires |c.stack| > 0 && c.index < |m.input|
    requires var top, kind := Top(c), m.input[c.index].kind;
      && top != kind && top !in m.terminals && top != EndMarker && top in m.nonterminals
      && !(top in m.table && kind in m.table[top])
    ensures Step(m, c) == Halt(c.rows + [[NoRuleMessage(Top(c), m.input[c.index].kind)]])
  {
  }

  /** A symbol that is neither the token type, a terminal, `$` nor a nonterminal ends the loop with an error row. */
  lemma StepUnknown(m: Machine, c: Config)
    requires |c.stack| > 0 && c.index < |m.input|
    requires var top := Top(c);
      top != m.input[c.index].kind && top !in m.terminals && top != EndMarker && top !in m.nonterminals
    ensures Step(m, c) == Halt(c.rows + [[UnknownMessage]])
  {
  }

  /** `$` meeting the end token is consumed and recorded as `Accept`. */
  lemma StepAccept(m: Machine, c: Config)
    requires |c.stack| > 0 && c.index < |m.input| && Top(c) == EndMarker && m.input[c.index].kind == EndMarker
    requires EndMarker !in m.nonterminals
    ensures Step(m, c).Next?
    ensures var c' := Step(m, c).config;
      c'.stack == Popped(c) && c'.index == c.index + 1 && OneRowMore(c, c') && c'.rows[|c.rows|][2] == "Accept"
  {
  }

  /** Popping with the cursor past the input is the `IndexError` of `input_tokens[index]`. */
  lemma StepPastInput(m: Machine, c: Config)
    requires |c.stack| > 0 && c.index == |m.input|
    ensures Step(m, c) == Fail(InputExhausted, c.rows)
  {
  }

  /** The loop of `parse_input` run for at most `fuel` iterations. */
  function Run(m: Machine, c: Config, fuel: nat): Outcome
    requires InRange(m, c)
    decreases fuel, 0
  {
    if |c.stack| == 0 then Finished(c.rows)
    else if fuel == 0 then Suspended(c)
    else
      StepInRange(m, c);
      Continue(m, Step(m, c), fuel - 1)
  }

  /** After a step: go on from the new state, or end the loop (`break`) or the program (an exception). */
  function Continue(m: Machine, step: StepResult, fuel: nat): Outcome
    requires step.Next? ==> InRange(m, step.config)
    decreases fuel, 1
  {
    match step
    case Next(c') => Run(m, c', fuel)
    case Halt(rows) => Finished(rows)
    case Fail(crash, rows) => Crashed(crash, rows)
  }

  /** A one-column row holding one of the three error messages. */
  ghost predicate IsErrorRow(row: Row) {
    && |row| == 1
    && (row[0] == MismatchMessage || row[0] == UnknownMessage || exists top, kind :: row[0] == NoRuleMessage(top, kind))
  }

  /** Rows that are all three-column trace rows, except that the last may be an error row. */
  ghost predicate TraceRows(rows: seq<Row>, mayEndInError: bool) {
    && (forall i :: 0 <= i < |rows| - 1 ==> |rows[i]| == 3)
    && (|rows| > 0 ==> |rows[|rows| - 1]| == 3 || (mayEndInError && IsErrorRow(rows[|rows| - 1])))
  }

  /** Every step keeps the earlier rows, and adds one trace row, one error row or none. */
  lemma StepRows(m: Machine, c: Config)
    requires |c.stack| > 0 && InRange(m, c)
    ensures Step(m, c).Next? ==> OneRowMore(c, Step(m, c).config)
    ensures Step(m, c).Halt? ==> exists row :: IsErrorRow(row) && Step(m, c).rows == c.rows + [row]
    ensures Step(m, c).Fail? ==> Step(m, c).rows == c.rows
  {
    if c.index < |m.input| {
      var top, kind := Top(c), m.input[c.index].kind;
      if top != kind && top !in m.terminals && top != EndMarker && top in m.nonterminals
         && !(top in m.table && kind in m.table[top]) {
        assert IsErrorRow([NoRuleMessage(top, kind)]);
      }
    }
  }

  /** The rows an outcome holds. */
  function RowsOf(o: Outcome): seq<Row> {
    match o
    case Finished(rows) => rows
    case Crashed(_, rows) => rows
    case Suspended(c) => c.rows
  }

  /** `o` keeps `rows0` and adds trace rows, ending in an error row only if the loop stopped. */
  ghost predicate GrowsBy(rows0: seq<Row>, o: Outcome) {
    var rows := RowsOf(o);
    |rows0| <= |rows| && rows[..|rows0|] == rows0 && TraceRows(rows[|rows0|..], o.Finished?)
  }

  /**
   * The rows of a run extend the rows it started with by trace rows, one
   * per step, and an error row can only come last: the loop stops at the
   * first error.
   */
  lemma {:induction false} RunRows(m: Machine, c: Config, fuel: nat)
    requires InRange(m, c)
    ensures GrowsBy(c.rows, Run(m, c, fuel))
    decreases fuel, 0
  {
    if |c.stack| > 0 && fuel > 0 {
      StepInRange(m, c);
      StepRows(m, c);
      ContinueRows(m, c.rows, Step(m, c), fuel - 1);
    } else {
      assert c.rows[|c.rows|..] == [];
    }
  }

  lemma {:induction false} ContinueRows(m: Machine, rows0: seq<Row>, step: StepResult, fuel: nat)
    requires step.Next? ==> InRange(m, step.config)
    requires step.Next? ==> |step.config.rows| == |rows0| + 1 && step.config.rows[..|rows0|] == rows0
                            && |step.config.rows[|rows0|]| == 3
    requires step.Halt? ==> exists row :: IsErrorRow(row) && step.rows == rows0 + [row]
    requires step.Fail? ==> step.rows == rows0
    ensures GrowsBy(rows0, Continue(m, step, fuel))
    decreases fuel, 1
  {
    match step
    case Next(c') =>
      RunRows(m, c', fuel);
      var rows, n := RowsOf(Run(m, c', fuel)), |rows0|;
      assert rows[n..] == [rows[n]] + rows[n + 1..];
      assert rows[n + 1..] == rows[|c'.rows|..];
    case Halt(rows) =>
      var row :| IsErrorRow(row) && rows == rows0 + [row];
      assert rows[|rows0|..] == [row];
    case Fail(_, rows) =>
      assert rows[|rows0|..] == [];
  }

  /** The machine starts on `['$', nonterminals[0]]` at the first token, with no rows. */
  function Start(m: Machine): Config
    requires |m.nonterminals| > 0
  {
    Config([EndMarker, m.nonterminals[0]], 0, [], None)
  }

  /** `parse_input` with at most `fuel` iterations of its loop. */
  function Parse(m: Machine, fuel: nat): Outcome {
    if |m.nonterminals| == 0 then Crashed(NoStartSymbol, []) else Run(m, Start(m), fuel)
  }

  /** The grammar `S -> a` with its one-cell table, reading the single token `a:1`. */
  function ExampleMachine(): Machine {
    Machine(["S"], ["a"], map["S" := map["a" := "S -> a"]], [Token("a", "1"), EndToken])
  }

  /** The cell `S -> a` is the text of its rule, parses back to it, and the body is `[a]`. */
  lemma ExampleCell()
    ensures Rule("S", "a").Text() == "S -> a"
    ensures ParseRule("S -> a") == Success(Rule("S", "a")) && Rule("S", "a").Body() == ["a"]
  {
    assert !HasArrow("S") && !HasArrow("a");
    assert IsStripped("S") && IsStripped("a");
    RuleTextRoundTrip(Rule("S", "a"));
    assert IsWord("a");
    SplitOneWord("a");
  }

  lemma ExampleInput()
    ensures Join(TokenTexts(ExampleMachine().input), " ") == "a:1 $:$"
    ensures Join(TokenTexts(ExampleMachine().input[1..]), " ") == "$:$"
    ensures Join(TokenTexts(ExampleMachine().input[2..]), " ") == ""
  {
    var ts := TokenTexts(ExampleMachine().input);
    assert TokenText(Token("a", "1")) == "a:1" && TokenText(EndToken) == "$:$";
    assert ts == ["a:1", "$:$"];
    assert ts[1..] == ["$:$"];
  }

  /** The three rows of the example, as its trace writes them. */
  lemma ExampleRows()
    ensures TraceRow(ExampleMachine(), ["$", "a"], 0, "S -> a") == ["$ a", "a:1 $:$", "S -> a"]
    ensures TraceRow(ExampleMachine(), ["$"], 1, "") == ["$", "$:$", ""]
    ensures TraceRow(ExampleMachine(), [], 2, "Accept") == ["", "", "Accept"]
  {
    ExampleInput();
    assert ExampleMachine().input[0..] == ExampleMachine().input;
    assert Join(["$", "a"], " ") == "$ a";
  }

  /** First step: `S` is expanded by its cell, pushing `a`. */
  lemma ExampleExpand()
    ensures Step(ExampleMachine(), Start(ExampleMachine()))
         == Next(Config(["$", "a"], 0, [["$ a", "a:1 $:$", "S -> a"]], Some("a")))
  {
    ExampleExpandReady();
    ExpandStart(ExampleMachine(), Rule("S", "a"), "a");
    ExampleExpandRow(ExampleMachine(), Start(ExampleMachine()));
    var c' := Step(ExampleMachine(), Start(ExampleMachine())).config;
    assert c' == Config(["$", "a"], 0, [["$ a", "a:1 $:$", "S -> a"]], Some("a"));
  }

  /** Expanding the start symbol by a rule whose body is one symbol `a` leaves `$` and `a` on the stack. */
  lemma ExpandStart(m: Machine, r: Rule, a: string)
    requires |m.nonterminals| > 0 && |m.input| > 0
    requires var top, kind := m.nonterminals[0], m.input[0].kind;
      && top != kind && top !in m.terminals && top != EndMarker
      && top in m.table && kind in m.table[top] && ParseRule(m.table[top][kind]) == Success(r)
    requires r.Body() == [a] && a != Epsilon
    ensures Step(m, Start(m)).Next?
    ensures var c' := Step(m, Start(m)).config;
      c'.stack == [EndMarker, a] && c'.index == 0 && c'.rhs == Some(r.rhs)
  {
    var c := Start(m);
    ExpandSingle(m, c, r, a);
    assert Popped(c) + [a] == [EndMarker, a];
  }

  /** At the start of the example, `S` is on top, the token is `a`, and the cell holds `S -> a`. */
  lemma ExampleExpandReady()
    ensures var m, c := ExampleMachine(), Start(ExampleMachine());
      && |c.stack| > 0 && c.index < |m.input|
      && var top, kind := Top(c), m.input[c.index].kind;
      && top != kind && top !in m.terminals && top != EndMarker && top in m.nonterminals
      && top in m.table && kind in m.table[top] && ParseRule(m.table[top][kind]) == Success(Rule("S", "a"))
    ensures Rule("S", "a").Body() == ["a"]
  {
    ExampleCell();
  }

  /** Expanding by a rule whose body is one symbol `a` pushes exactly `a`. */
  lemma ExpandSingle(m: Machine, c: Config, r: Rule, a: string)
    requires |c.stack| > 0 && c.index < |m.input|
    requires var top, kind := Top(c), m.input[c.index].kind;
      && top != kind && top !in m.terminals && top != EndMarker && top in m.nonterminals
      && top in m.table && kind in m.table[top] && ParseRule(m.table[top][kind]) == Success(r)
    requires r.Body() == [a] && a != Epsilon
    ensures Step(m, c).Next?
    ensures var c' := Step(m, c).config;
      c'.stack == Popped(c) + [a] && c'.index == c.index && c'.rhs == Some(r.rhs)
  {
    StepExpand(m, c, r);
    assert Reversed([a]) == [a];
  }

  /** The row of the first step names the rule `S -> a`. */
  lemma ExampleExpandRow(m: Machine, c: Config)
    requires m == ExampleMachine() && c == Start(m)
    ensures Step(m, c).Next?
    ensures Step(m, c).config.rows == [["$ a", "a:1 $:$", "S -> a"]]
  {
    ExampleCell();
    ExampleRows();
    ExampleExpandReady();
    ExpandStart(m, Rule("S", "a"), "a");
    StepExpand(m, c, Rule("S", "a"));
    assert Top(c) + " -> " + "a" == Rule("S", "a").Text();
  }

  /** Second step: `a` matches the token `a:1`. */
  lemma ExampleMatch()
    ensures Step(ExampleMachine(), Config(["$", "a"], 0, [["$ a", "a:1 $:$", "S -> a"]], Some("a")))
         == Next(Config(["$"], 1, [["$ a", "a:1 $:$", "S -> a"], ["$", "$:$", ""]], Some("a")))
  {
    ExampleInput();
  }

  /** Third step: `$` matches the end marker and the row says `Accept`. */
  lemma ExampleAccept()
    ensures Step(ExampleMachine(), Config(["$"], 1, [["$ a", "a:1 $:$", "S -> a"], ["$", "$:$", ""]], Some("a")))
         == Next(Config([], 2, [["$ a", "a:1 $:$", "S -> a"], ["$", "$:$", ""], ["", "", "Accept"]], Some("a")))
  {
    ExampleInput();
  }

  /**
   * Parsing `a:1` with `S -> a` expands `S`, matches `a`, matches `$` and
   * accepts: three trace rows, the last one `Accept` with an empty stack and
   * no input left.
   */
  lemma ExampleAccepted()
    ensures Parse(ExampleMachine(), 3) == Finished([["$ a", "a:1 $:$", "S -> a"], ["$", "$:$", ""], ["", "", "Accept"]])
  {
    ExampleExpand();
    ExampleMatch();
    ExampleAccept();
  }

  /**
   * One iteration of the loop of `parse_input`: pop the top, read the
   * current token, then match it, expand it by its table rule or stop with
   * an error row; a step that does not stop writes its trace row.
   */
  method Iterate(m: Machine, stack: seq<string>, index: nat, rows: seq<Row>, rhs: Option<string>)
    returns (step: StepResult)
    requires |stack| > 0 && index <= |m.input|
    ensures step == Step(m, Config(stack, index, rows, rhs))
  {
    var stack, index, rows, rhs := stack, index, rows, rhs;
    var top := stack[|stack| - 1];
    stack := stack[..|stack| - 1];
    if index >= |m.input| {
      return Fail(InputExhausted, rows);
    }
    var currentTokenType := m.input[index].kind;
    var rule := LookupRule(m, top, currentTokenType);
    if top == currentTokenType {
      index := index + 1;
    } else if top in m.terminals || top == EndMarker {
      return Halt(rows + [[MismatchMessage]]);
    } else if top in m.nonterminals {
      if rule.NoRule? {
        return Halt(rows + [[NoRuleMessage(top, currentTokenType)]]);
      }
      var parts := ParseRule(rule.text);
      if parts.Failure? {
        return Fail(MalformedCell(rule.text), rows);
      }
      rhs := Some(parts.value.rhs);
      var symbols := parts.value.Body();
      if symbols != [Epsilon] {
        stack := stack + Reversed(symbols);
      }
    } else {
      return Halt(rows + [[UnknownMessage]]);
    }
    if Truthy(rule) && rhs.None? {
      return Fail(UnboundRhs, rows);
    }
    var ruleColumn := RuleColumn(top, currentTokenType, rule, if rhs.Some? then rhs.value else "");
    rows := rows + [[Join(stack, " "), Join(TokenTexts(m.input[index..]), " "), ruleColumn]];
    return Next(Config(stack, index, rows, rhs));
  }

  // ---------------------------------------------------------------------------
  // The class
  // ---------------------------------------------------------------------------

  class LLParser {
    var alphabet: seq<string>
    var nonterminals: seq<string>
    var terminals: seq<string>
    var rules: seq<Rule>
    var tokens: seq<Token>
    var ruleTable: map<string, map<string, string>>

    /**
     * A parser over already-split grammar lines, the token list and the
     * loaded rule table; the symbol lists are collected as `__init__` does.
     */
    constructor (rules: seq<Rule>, tokens: seq<Token>, ruleTable: map<string, map<string, string>>)
      ensures this.rules == rules && this.tokens == tokens && this.ruleTable == ruleTable
      ensures nonterminals == AddAll([], HeadList(rules))
      ensures alphabet == AddAll([], SymbolList(rules))
      ensures terminals == Outside(alphabet, nonterminals)
    {
      this.rules := rules;
      this.tokens := tokens;
      this.ruleTable := ruleTable;
      alphabet, nonterminals, terminals := [], [], [];
      new;
      CollectAlphabetAndSymbols();
    }

    /**
     * `_collect_alphabet_and_symbols`: append each new head to the
     * nonterminals and each new body symbol other than `''` to the alphabet,
     * then keep as terminals the alphabet entries that are not nonterminals.
     */
    method CollectAlphabetAndSymbols()
      modifies this`nonterminals, this`alphabet, this`terminals
      ensures nonterminals == AddAll(old(nonterminals), HeadList(rules))
      ensures alphabet == AddAll(old(alphabet), SymbolList(rules))
      ensures terminals == Outside(alphabet, nonterminals)
    {
      ghost var nts0, alphabet0 := nonterminals, alphabet;
      for i := 0 to |rules|
        modifies this`nonterminals, this`alphabet
        invariant nonterminals == AddAll(nts0, HeadList(rules[..i]))
        invariant alphabet == AddAll(alphabet0, SymbolList(rules[..i]))
      {
        assert rules[..i + 1][..i] == rules[..i];
        var nonterminal := rules[i].lhs;
        var development := rules[i].Body();
        if nonterminal !in nonterminals {
          nonterminals := nonterminals + [nonterminal];
        }
        AddSymbols(development);
        AddAllAppend(alphabet0, SymbolList(rules[..i]), NonEpsilon(development));
      }
      assert rules[..|rules|] == rules;
      terminals := Outside(alphabet, nonterminals);
    }

    /** The inner loop of `_collect_alphabet_and_symbols`: add the new symbols of one body other than `''`. */
    method AddSymbols(development: seq<string>)
      modifies this`alphabet
      ensures alphabet == AddAll(old(alphabet), NonEpsilon(development))
    {
      ghost var before := alphabet;
      for j := 0 to |development|
        invariant alphabet == AddAll(before, NonEpsilon(development[..j]))
      {
        assert development[..j + 1][..j] == development[..j];
        var symbol := development[j];
        if symbol != Epsilon {
          if symbol !in alphabet {
            alphabet := alphabet + [symbol];
          }
          assert NonEpsilon(development[..j + 1]) == NonEpsilon(development[..j]) + [symbol];
        } else {
          assert NonEpsilon(development[..j + 1]) == NonEpsilon(development[..j]);
        }
      }
      assert development[..|development|] == development;
    }

    /** The machine `parse_input` runs: the input is the tokens followed by `('$', '$')`. */
    function Setup(): Machine
      reads this
    {
      Machine(nonterminals, terminals, ruleTable, tokens + [EndToken])
    }

    /**
     * `parse_input`, stopped after `fuel` iterations: the stack starts as
     * `['$', nonterminals[0]]`, each iteration pops the top and matches,
     * expands or reports an error, and every step that does not stop the
     * loop writes one trace row.
     */
    method ParseInput(fuel: nat) returns (outcome: Outcome)
      ensures outcome == Parse(Setup(), fuel)
    {
      var m := Setup();
      if |nonterminals| == 0 {
        return Crashed(NoStartSymbol, []);
      }
      var stack := [EndMarker, nonterminals[0]];
      var index: nat := 0;
      var rows: seq<Row> := [];
      var rhs: Option<string> := None;
      var left := fuel;
      while |stack| > 0
        invariant index <= |m.input|
        invariant Run(m, Config(stack, index, rows, rhs), left) == Parse(m, fuel)
        decreases left
      {
        if left == 0 {
          return Suspended(Config(stack, index, rows, rhs));
        }
        var step := Iterate(m, stack, index, rows, rhs);
        match step
        case Halt(rows') =>
          return Finished(rows');
        case Fail(crash, rows') =>
          return Crashed(crash, rows');
        case Next(c) =>
          StepInRange(m, Config(stack, index, rows, rhs));
          stack, index, rows, rhs := c.stack, c.index, c.rows, c.rhs;
        left := left - 1;
      }
      return Finished(rows);
    }
  }
}
