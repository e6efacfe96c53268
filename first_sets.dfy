/**
 * The alphabet, the nonterminals and the FIRST sets of a grammar
 * (`collect_alphabet_and_nonterminals`, `collect_firsts` and
 * `collect_firsts_for_development` of completo/Tabla_Sintactica.py).
 */
module FirstSets {
  import opened Wrappers
  import opened Text
  import opened Grammar

  /** A symbol-indexed family of sets, as the dictionaries `{nt: set()}` of the source. */
  type Sets = map<string, set<string>>

  /** Every symbol of `body` lies in `a`. */
  predicate SymbolsIn(body: seq<string>, a: set<string>) {
    forall m :: 0 <= m < |body| ==> body[m] in a
  }

  /** Every rule head is a nonterminal, and every body symbol is a terminal, the epsilon marker or a nonterminal. */
  predicate Covered(rules: seq<Rule>, nonterminals: set<string>, terminals: set<string>) {
    forall i :: 0 <= i < |rules| ==>
      rules[i].lhs in nonterminals && SymbolsIn(rules[i].Body(), terminals + {Epsilon} + nonterminals)
  }

  /** `F` lies pointwise below `S`. */
  predicate Below(F: Sets, S: Sets) {
    forall nt :: nt in F ==> nt in S && F[nt] <= S[nt]
  }

  /** Every FIRST set holds only terminals and the epsilon marker. */
  predicate Bounded(F: Sets, terminals: set<string>) {
    forall nt :: nt in F ==> F[nt] <= terminals + {Epsilon}
  }

  // ---------------------------------------------------------------------------
  // collect_alphabet_and_nonterminals
  // ---------------------------------------------------------------------------

  lemma BodySymbolsSnoc(rules: seq<Rule>, r: Rule)
    ensures BodySymbols(rules + [r]) == BodySymbols(rules) + set s | s in r.Body()
    ensures Heads(rules + [r]) == Heads(rules) + {r.lhs}
  {
    var all := rules + [r];
    forall s | s in BodySymbols(all) ensures s in BodySymbols(rules) + set x | x in r.Body() {
      var q :| q in all && s in q.Body();
      if q != r { assert q in rules; }
    }
    forall s | s in BodySymbols(rules) ensures s in BodySymbols(all) {
      var q :| q in rules && s in q.Body();
      assert q in all;
    }
    assert r in all;
  }

  /**
   * The alphabet is every body symbol (the epsilon marker included), the
   * nonterminals are the heads, and the terminals are the alphabet minus the
   * nonterminals, so the two never meet.
   */
  method CollectAlphabetAndNonterminals(rules: seq<Rule>)
    returns (alphabet: set<string>, nonterminals: set<string>, terminals: set<string>)
    ensures alphabet == BodySymbols(rules) && nonterminals == Heads(rules)
    ensures terminals == alphabet - nonterminals && terminals !! nonterminals
    ensures Covered(rules, nonterminals, terminals)
    ensures Epsilon in alphabet && Epsilon !in nonterminals ==> Epsilon in terminals
  {
    alphabet, nonterminals := {}, {};
    var i := 0;
    while i < |rules|
      invariant 0 <= i <= |rules|
      invariant alphabet == BodySymbols(rules[..i])
      invariant nonterminals == Heads(rules[..i])
    {
      BodySymbolsSnoc(rules[..i], rules[i]);
      assert rules[..i + 1] == rules[..i] + [rules[i]];
      nonterminals := nonterminals + {rules[i].lhs};
      alphabet := alphabet + set s | s in rules[i].Body();
      i := i + 1;
    }
    assert rules[..i] == rules;
    terminals := alphabet - nonterminals;
    forall i | 0 <= i < |rules|
      ensures rules[i].lhs in nonterminals && SymbolsIn(rules[i].Body(), terminals + {Epsilon} + nonterminals)
    {
      assert rules[i] in rules;
      forall m | 0 <= m < |rules[i].Body()| ensures rules[i].Body()[m] in alphabet {
        assert rules[i].Body()[m] in rules[i].Body();
      }
    }
  }

  // ---------------------------------------------------------------------------
  // collect_firsts_for_development
  // ---------------------------------------------------------------------------

  /** The symbols that `collect_firsts_for_development` can look up: terminals and FIRST keys. */
  predicate DevKnown(F: Sets, terminals: set<string>, body: seq<string>) {
    SymbolsIn(body, terminals + F.Keys)
  }

  /**
   * FIRST of a production body: the FIRST sets of its leading nullable
   * nonterminals without epsilon, then the first terminal or the FIRST set of
   * the first non-nullable nonterminal, and epsilon when the whole body is
   * nullable (the `for ... else` of the source).
   */
  function BodyFirst(F: Sets, terminals: set<string>, body: seq<string>): set<string>
    requires DevKnown(F, terminals, body)
    decreases |body|
  {
    if body == [] then {Epsilon}
    else if body[0] in terminals then {body[0]}
    else
      (F[body[0]] - {Epsilon}) + (if Epsilon in F[body[0]] then BodyFirst(F, terminals, body[1..]) else {})
  }

  /** The first `j` symbols of `body` are nonterminals whose FIRST set holds epsilon. */
  predicate NullablePrefix(F: Sets, terminals: set<string>, body: seq<string>, j: nat)
    requires j <= |body| && DevKnown(F, terminals, body)
  {
    forall k :: 0 <= k < j ==> body[k] !in terminals && Epsilon in F[body[k]]
  }

  /** What symbol `s` itself contributes to FIRST of a body when the scan reaches it. */
  predicate Contributes(F: Sets, terminals: set<string>, s: string, x: string)
    requires s in terminals || s in F
  {
    if s in terminals then x == s else x in F[s] && x != Epsilon
  }

  /**
   * The members of FIRST of a body: what some symbol reached through a
   * nullable prefix contributes, and epsilon exactly when the whole body is
   * a nullable prefix.
   */
  lemma {:induction false} BodyFirstMembers(F: Sets, terminals: set<string>, body: seq<string>, x: string)
    requires DevKnown(F, terminals, body)
    ensures x in BodyFirst(F, terminals, body) <==>
      (x == Epsilon && NullablePrefix(F, terminals, body, |body|)) ||
      (exists j :: 0 <= j < |body| && NullablePrefix(F, terminals, body, j) && Contributes(F, terminals, body[j], x))
    decreases |body|
  {
    if body == [] {
    } else {
      var s, rest := body[0], body[1..];
      assert body[0] in terminals || body[0] in F;
      assert DevKnown(F, terminals, rest) by {
        forall m | 0 <= m < |rest| ensures rest[m] in terminals + F.Keys { assert rest[m] == body[m + 1]; }
      }
      if s in terminals {
        assert !NullablePrefix(F, terminals, body, |body|);
        forall j | 0 < j < |body| ensures !NullablePrefix(F, terminals, body, j) {}
        assert NullablePrefix(F, terminals, body, 0);
      } else if Epsilon !in F[s] {
        assert !NullablePrefix(F, terminals, body, |body|);
        forall j | 0 < j < |body| ensures !NullablePrefix(F, terminals, body, j) {}
        assert NullablePrefix(F, terminals, body, 0);
      } else {
        BodyFirstMembers(F, terminals, rest, x);
        forall j | 0 <= j <= |rest|
          ensures NullablePrefix(F, terminals, body, j + 1) <==> NullablePrefix(F, terminals, rest, j)
        {
          if NullablePrefix(F, terminals, rest, j) {
            forall k | 0 <= k < j + 1 ensures body[k] !in terminals && Epsilon in F[body[k]] {
              if k > 0 { assert body[k] == rest[k - 1]; }
            }
          }
          if NullablePrefix(F, terminals, body, j + 1) {
            forall k | 0 <= k < j ensures rest[k] !in terminals && Epsilon in F[rest[k]] {
              assert rest[k] == body[k + 1];
            }
          }
        }
        assert NullablePrefix(F, terminals, body, 0);
        assert NullablePrefix(F, terminals, body, 1);
        if x in BodyFirst(F, terminals, body) && !(x == Epsilon && NullablePrefix(F, terminals, body, |body|)) {
          if x in F[s] && x != Epsilon {
            assert Contributes(F, terminals, body[0], x);
          } else {
            var j :| 0 <= j < |rest| && NullablePrefix(F, terminals, rest, j) && Contributes(F, terminals, rest[j], x);
            assert body[j + 1] == rest[j];
            assert NullablePrefix(F, terminals, body, j + 1);
          }
        }
        if exists j :: 0 <= j < |body| && NullablePrefix(F, terminals, body, j) && Contributes(F, terminals, body[j], x) {
          var j :| 0 <= j < |body| && NullablePrefix(F, terminals, body, j) && Contributes(F, terminals, body[j], x);
          if j > 0 {
            assert rest[j - 1] == body[j];
            assert NullablePrefix(F, terminals, rest, j - 1);
          }
        }
      }
    }
  }

  /** `collect_firsts_for_development` stops at the first terminal: what follows it does not matter. */
  lemma {:induction false} BodyFirstStopsAtTerminal(F: Sets, terminals: set<string>, body: seq<string>, j: nat)
    requires DevKnown(F, terminals, body)
    requires j < |body| && NullablePrefix(F, terminals, body, j) && body[j] in terminals
    ensures DevKnown(F, terminals, body[..j + 1])
    ensures BodyFirst(F, terminals, body) == BodyFirst(F, terminals, body[..j + 1])
    ensures Epsilon in BodyFirst(F, terminals, body) <==> body[j] == Epsilon
    decreases j
  {
    var pre := body[..j + 1];
    assert DevKnown(F, terminals, pre) by {
      forall m | 0 <= m < |pre| ensures pre[m] in terminals + F.Keys { assert pre[m] == body[m]; }
    }
    if j == 0 {
      assert pre == [body[0]];
    } else {
      var rest := body[1..];
      assert DevKnown(F, terminals, rest) by {
        forall m | 0 <= m < |rest| ensures rest[m] in terminals + F.Keys { assert rest[m] == body[m + 1]; }
      }
      assert NullablePrefix(F, terminals, rest, j - 1) by {
        forall k | 0 <= k < j - 1 ensures rest[k] !in terminals && Epsilon in F[rest[k]] { assert rest[k] == body[k + 1]; }
      }
      assert body[0] !in terminals && Epsilon in F[body[0]];
      BodyFirstStopsAtTerminal(F, terminals, rest, j - 1);
      assert pre[1..] == rest[..j];
      assert Epsilon !in F[body[0]] - {Epsilon};
    }
  }

  /** A body with no symbols has FIRST `{''}`, and a body of nullable nonterminals has epsilon in FIRST. */
  lemma {:induction false} BodyFirstNullable(F: Sets, terminals: set<string>, body: seq<string>)
    requires DevKnown(F, terminals, body)
    ensures Epsilon in BodyFirst(F, terminals, body) <==>
      NullablePrefix(F, terminals, body, |body|) ||
      (exists j :: 0 <= j < |body| && NullablePrefix(F, terminals, body, j) && body[j] == Epsilon && Epsilon in terminals)
  {
    BodyFirstMembers(F, terminals, body, Epsilon);
  }

  /**
   * `collect_firsts_for_development`: the loop over the body with its
   * `break`s and its `else` branch computes FIRST of the body.
   */
  method CollectFirstsForDevelopment(development: seq<string>, firsts: Sets, terminals: set<string>)
    returns (result: set<string>)
    requires DevKnown(firsts, terminals, development)
    ensures result == BodyFirst(firsts, terminals, development)
  {
    result := {};
    var i := 0;
    while i < |development|
      invariant 0 <= i <= |development|
      invariant DevKnown(firsts, terminals, development[i..])
      invariant BodyFirst(firsts, terminals, development) == result + BodyFirst(firsts, terminals, development[i..])
    {
      var symbol := development[i];
      assert development[i..][0] == symbol;
      assert development[i..][1..] == development[i + 1..];
      if symbol in terminals {
        result := result + {symbol};
        return;
      }
      result := result + (firsts[symbol] - {Epsilon});
      if Epsilon !in firsts[symbol] {
        return;
      }
      i := i + 1;
    }
    result := result + {Epsilon};
  }

  // ---------------------------------------------------------------------------
  // collect_firsts
  // ---------------------------------------------------------------------------

  /** The symbols that `collect_firsts` can look up: terminals, the epsilon marker and FIRST keys. */
  predicate Known(F: Sets, terminals: set<string>, body: seq<string>) {
    SymbolsIn(body, terminals + {Epsilon} + F.Keys)
  }

  /**
   * What one visit of a rule in `collect_firsts` adds to FIRST of its head,
   * read against `F`: the scan stops at a terminal or the epsilon marker,
   * which it adds, or after a nonterminal without epsilon; unlike
   * `collect_firsts_for_development`, a run of nullable nonterminals to the
   * end of the body adds nothing more.
   */
  function Scan(F: Sets, terminals: set<string>, body: seq<string>): set<string>
    requires Known(F, terminals, body)
    decreases |body|
  {
    if body == [] then {}
    else if body[0] in terminals || body[0] == Epsilon then {body[0]}
    else
      assert Known(F, terminals, body[1..]) by {
        forall m | 0 <= m < |body| - 1 ensures body[1..][m] in terminals + {Epsilon} + F.Keys { assert body[1..][m] == body[m + 1]; }
      }
      (F[body[0]] - {Epsilon}) + (if Epsilon in F[body[0]] then Scan(F, terminals, body[1..]) else {})
  }

  /** Rule `r` adds nothing new to `S` when its scan is read against `S`. */
  predicate RuleClosed(S: Sets, terminals: set<string>, r: Rule) {
    r.lhs in S && Known(S, terminals, r.Body()) && Scan(S, terminals, r.Body()) <= S[r.lhs]
  }

  /** No rule adds anything new to `S`: a fixed point of the loop of `collect_firsts`. */
  predicate FirstClosed(S: Sets, rules: seq<Rule>, terminals: set<string>) {
    ClosedUpTo(S, rules, terminals, |rules|)
  }

  /** The first `k` rules can add nothing to `S`. */
  predicate ClosedUpTo(S: Sets, rules: seq<Rule>, terminals: set<string>, k: nat)
    requires k <= |rules|
  {
    forall i :: 0 <= i < k ==> RuleClosed(S, terminals, rules[i])
  }

  lemma ClosedExtend(S: Sets, rules: seq<Rule>, terminals: set<string>, k: nat)
    requires k < |rules| && ClosedUpTo(S, rules, terminals, k) && RuleClosed(S, terminals, rules[k])
    ensures ClosedUpTo(S, rules, terminals, k + 1)
  {
  }

  /** The first `k` rules have non-empty bodies. */
  predicate NonEmptyUpTo(rules: seq<Rule>, k: nat)
    requires k <= |rules|
  {
    forall i :: 0 <= i < k ==> rules[i].Body() != []
  }

  /** `F` lies below every fixed point over the nonterminals. */
  ghost predicate Least(F: Sets, rules: seq<Rule>, nonterminals: set<string>, terminals: set<string>) {
    forall S: Sets :: S.Keys == nonterminals && FirstClosed(S, rules, terminals) ==> Below(F, S)
  }

  /** The FIRST sets that `collect_firsts` promises: keyed by the nonterminals, bounded, closed and least. */
  ghost predicate IsFirstSets(F: Sets, rules: seq<Rule>, nonterminals: set<string>, terminals: set<string>) {
    && F.Keys == nonterminals
    && Bounded(F, terminals)
    && FirstClosed(F, rules, terminals)
    && Least(F, rules, nonterminals, terminals)
  }

  /** `symbols[0]` raising `IndexError` on a rule with an empty body. */
  datatype FirstError = EmptyBody(rule: Rule)

  /** The first `j` symbols are nonterminals whose FIRST set holds epsilon, so the scan went past them. */
  predicate ScanPrefix(F: Sets, terminals: set<string>, body: seq<string>, j: nat)
    requires j <= |body|
  {
    forall m :: 0 <= m < j ==> body[m] !in terminals && body[m] != Epsilon && body[m] in F && Epsilon in F[body[m]]
  }

  /** What the scan adds from position `j` on is part of what it adds from the start. */
  lemma {:induction false} ScanSuffix(S: Sets, terminals: set<string>, body: seq<string>, j: nat)
    requires j <= |body| && Known(S, terminals, body) && ScanPrefix(S, terminals, body, j)
    ensures Known(S, terminals, body[j..])
    ensures Scan(S, terminals, body[j..]) <= Scan(S, terminals, body)
    decreases j
  {
    assert Known(S, terminals, body[j..]) by {
      forall m | 0 <= m < |body| - j ensures body[j..][m] in terminals + {Epsilon} + S.Keys { assert body[j..][m] == body[j + m]; }
    }
    if j > 0 {
      var rest := body[1..];
      assert Known(S, terminals, rest) by {
        forall m | 0 <= m < |rest| ensures rest[m] in terminals + {Epsilon} + S.Keys { assert rest[m] == body[m + 1]; }
      }
      assert ScanPrefix(S, terminals, rest, j - 1) by {
        forall m | 0 <= m < j - 1 ensures rest[m] !in terminals && rest[m] != Epsilon && rest[m] in S && Epsilon in S[rest[m]] {
          assert rest[m] == body[m + 1];
        }
      }
      ScanSuffix(S, terminals, rest, j - 1);
      assert rest[j - 1..] == body[j..];
    }
  }

  /** The scan adds nothing outside `T` once its prefix contributions and its rest lie in `T`. */
  lemma {:induction false} ScanWithin(F: Sets, terminals: set<string>, body: seq<string>, j: nat, T: set<string>)
    requires j <= |body| && Known(F, terminals, body) && ScanPrefix(F, terminals, body, j)
    requires forall m :: 0 <= m < j ==> F[body[m]] - {Epsilon} <= T
    requires Known(F, terminals, body[j..]) && Scan(F, terminals, body[j..]) <= T
    ensures Scan(F, terminals, body) <= T
    decreases j
  {
    if j > 0 {
      var rest := body[1..];
      assert Known(F, terminals, rest) by {
        forall m | 0 <= m < |rest| ensures rest[m] in terminals + {Epsilon} + F.Keys { assert rest[m] == body[m + 1]; }
      }
      assert ScanPrefix(F, terminals, rest, j - 1) by {
        forall m | 0 <= m < j - 1 ensures rest[m] !in terminals && rest[m] != Epsilon && rest[m] in F && Epsilon in F[rest[m]] {
          assert rest[m] == body[m + 1];
        }
      }
      forall m | 0 <= m < j - 1 ensures F[rest[m]] - {Epsilon} <= T { assert rest[m] == body[m + 1]; }
      assert rest[j - 1..] == body[j..];
      ScanWithin(F, terminals, rest, j - 1, T);
      assert body[0] !in terminals && body[0] != Epsilon && Epsilon in F[body[0]];
    } else {
      assert body[j..] == body;
    }
  }

  /** Whatever the loop adds at position `j` of rule `k` is in the head's set of every fixed point above it. */
  lemma AddedIsBelowClosed(F: Sets, S: Sets, rules: seq<Rule>, terminals: set<string>, k: nat, j: nat, x: string)
    requires Below(F, S) && FirstClosed(S, rules, terminals)
    requires k < |rules| && j < |rules[k].Body()| && ScanPrefix(F, terminals, rules[k].Body(), j)
    requires var s := rules[k].Body()[j];
      ((s in terminals || s == Epsilon) && x == s) ||
      (s !in terminals && s != Epsilon && s in F && x in F[s] && x != Epsilon)
    ensures x in S[rules[k].lhs]
  {
    var body := rules[k].Body();
    assert RuleClosed(S, terminals, rules[k]);
    assert ScanPrefix(S, terminals, body, j);
    ScanSuffix(S, terminals, body, j);
    var tail := body[j..];
    assert tail[0] == body[j];
    assert x in Scan(S, terminals, tail);
  }

  /** The pairs (nonterminal, symbol of `u`) not yet in `F`: what the loop can still add. */
  function Missing(F: Sets, nonterminals: set<string>, u: set<string>): set<(string, string)> {
    set nt, t | nt in nonterminals && t in u && nt in F && t !in F[nt] :: (nt, t)
  }

  lemma MissingShrinks(F0: Sets, F: Sets, nonterminals: set<string>, u: set<string>)
    requires F0.Keys == F.Keys == nonterminals && Below(F0, F) && F != F0
    requires forall nt :: nt in F ==> F[nt] <= u
    ensures Missing(F, nonterminals, u) < Missing(F0, nonterminals, u)
  {
    var nt :| nt in F && F[nt] != F0[nt];
    var t :| t in F[nt] && t !in F0[nt];
    assert (nt, t) in Missing(F0, nonterminals, u);
  }

  lemma SubsetCard(a: set<string>, b: set<string>)
    requires a <= b
    ensures |a| <= |b|
    decreases |a|
  {
    if a != {} {
      var e :| e in a;
      SubsetCard(a - {e}, b - {e});
    }
  }

  lemma GrowsIff(a: set<string>, x: set<string>)
    ensures |a + x| > |a| <==> !(x <= a)
  {
    if x <= a {
      assert a + x == a;
    } else {
      var e :| e in x && e !in a;
      var b := a + x;
      SubsetCard(a, b - {e});
    }
  }

  /** The set the loop adds to FIRST of the head when its scan is at position `j`. */
  function Added(F: Sets, terminals: set<string>, body: seq<string>, j: nat): set<string>
    requires j < |body| && (body[j] in terminals || body[j] == Epsilon || body[j] in F)
  {
    if body[j] in terminals || body[j] == Epsilon then {body[j]} else F[body[j]] - {Epsilon}
  }

  /** One update of `collect_firsts` keeps the loop's invariants and grows `F` exactly when `add` is new. */
  lemma AddStep(F0: Sets, F: Sets, rules: seq<Rule>, nonterminals: set<string>, terminals: set<string>, k: nat, j: nat)
    requires Covered(rules, nonterminals, terminals)
    requires F.Keys == nonterminals && Bounded(F, terminals) && Least(F, rules, nonterminals, terminals) && Below(F0, F)
    requires F0.Keys == nonterminals
    requires k < |rules| && j < |rules[k].Body()| && ScanPrefix(F, terminals, rules[k].Body(), j)
    ensures rules[k].lhs in F && rules[k].Body()[j] in terminals + {Epsilon} + F.Keys
    ensures var nt, add := rules[k].lhs, Added(F, terminals, rules[k].Body(), j);
      var F' := F[nt := F[nt] + add];
      && F'.Keys == nonterminals && Bounded(F', terminals) && Least(F', rules, nonterminals, terminals)
      && Below(F0, F') && Below(F, F') && ScanPrefix(F', terminals, rules[k].Body(), j)
      && (F' != F0 <==> F != F0 || !(add <= F[nt]))
      && (add <= F[nt] ==> F' == F)
  {
    var body := rules[k].Body();
    var nt := rules[k].lhs;
    assert body[j] in terminals + {Epsilon} + nonterminals;
    var add := Added(F, terminals, body, j);
    var F' := F[nt := F[nt] + add];
    forall S: Sets | S.Keys == nonterminals && FirstClosed(S, rules, terminals) ensures Below(F', S) {
      forall x | x in add ensures x in S[nt] {
        AddedIsBelowClosed(F, S, rules, terminals, k, j, x);
      }
    }
    if F != F0 {
      var n :| n in F && F[n] != F0[n];
      assert F'[n] != F0[n];
    }
    if add <= F[nt] {
      assert F[nt] + add == F[nt];
      assert F' == F;
    }
  }

  lemma NonEmptyExtend(rules: seq<Rule>, k: nat)
    requires k < |rules| && NonEmptyUpTo(rules, k) && rules[k].Body() != []
    ensures NonEmptyUpTo(rules, k + 1)
  {
  }

  /**
   * One visit of rule `k` in a pass of `collect_firsts` (its body is not
   * empty): the FIRST sets after it and the `not_done` flag, which is set
   * exactly when the pass has grown the sets since `F0`.
   */
  method VisitRule(ghost F0: Sets, first: Sets, flag: bool, rules: seq<Rule>, nonterminals: set<string>,
                  terminals: set<string>, k: nat)
    returns (F: Sets, notDone: bool)
    requires Covered(rules, nonterminals, terminals) && k < |rules| && rules[k].Body() != []
    requires PassState(F0, first, flag, rules, nonterminals, terminals)
    ensures PassState(F0, F, notDone, rules, nonterminals, terminals)
    ensures !notDone ==> F == first && RuleClosed(F, terminals, rules[k])
  {
    F, notDone := first, flag;
    var rule := rules[k];
    var nt := rule.lhs;
    var symbols := rule.Body();
    if symbols[0] == Epsilon {
      AddStep(F0, F, rules, nonterminals, terminals, k, 0);
      notDone := notDone || Epsilon !in F[nt];
      F := F[nt := F[nt] + {Epsilon}];
      if !notDone {
        assert Scan(F, terminals, symbols) <= F[nt];
      }
    } else {
      F, notDone := ScanRule(F0, F, notDone, rules, nonterminals, terminals, k);
    }
  }

  /** What one pass of `collect_firsts` keeps: `F` stays below every closed assignment and `not_done` records growth. */
  ghost predicate PassState(F0: Sets, F: Sets, notDone: bool, rules: seq<Rule>, nonterminals: set<string>,
                            terminals: set<string>) {
    && F0.Keys == nonterminals
    && F.Keys == nonterminals && Bounded(F, terminals) && Least(F, rules, nonterminals, terminals)
    && Below(F0, F) && (notDone <==> F != F0)
  }

  /** `F` of every body symbol before `j`, less epsilon, is already in `F[nt]`. */
  predicate Absorbed(F: Sets, body: seq<string>, j: nat, nt: string)
    requires j <= |body| && nt in F && forall m :: 0 <= m < j ==> body[m] in F
  {
    forall m :: 0 <= m < j ==> F[body[m]] - {Epsilon} <= F[nt]
  }

  /**
   * One symbol of the `for symbol in symbols` scan: a terminal (or epsilon)
   * is added and ends the scan; a nonterminal adds its FIRST set less
   * epsilon and ends the scan unless it can derive epsilon.
   */
  method ScanStep(ghost F0: Sets, first: Sets, flag: bool, rules: seq<Rule>, nonterminals: set<string>,
                  terminals: set<string>, k: nat, j: nat)
    returns (F: Sets, notDone: bool, stop: bool)
    requires Covered(rules, nonterminals, terminals) && k < |rules| && j < |rules[k].Body()|
    requires PassState(F0, first, flag, rules, nonterminals, terminals)
    requires ScanPrefix(first, terminals, rules[k].Body(), j)
    requires rules[k].lhs in first && (!flag ==> Absorbed(first, rules[k].Body(), j, rules[k].lhs))
    ensures PassState(F0, F, notDone, rules, nonterminals, terminals)
    ensures !stop ==> ScanPrefix(F, terminals, rules[k].Body(), j + 1)
    ensures !notDone ==> F == first
    ensures !notDone && !stop ==> Absorbed(F, rules[k].Body(), j + 1, rules[k].lhs)
    ensures !notDone && stop ==> RuleClosed(F, terminals, rules[k])
  {
    F, notDone := first, flag;
    var nt := rules[k].lhs;
    var symbols := rules[k].Body();
    var symbol := symbols[j];
    AddStep(F0, F, rules, nonterminals, terminals, k, j);
    if symbol in terminals || symbol == Epsilon {
      notDone := notDone || symbol !in F[nt];
      F := F[nt := F[nt] + {symbol}];
      stop := true;
      if !notDone {
        assert Scan(F, terminals, symbols[j..]) <= F[nt] by { assert symbols[j..][0] == symbol; }
        ScanWithin(F, terminals, symbols, j, F[nt]);
      }
    } else {
      var oldSize := |F[nt]|;
      GrowsIff(F[nt], F[symbol] - {Epsilon});
      F := F[nt := F[nt] + (F[symbol] - {Epsilon})];
      notDone := notDone || |F[nt]| > oldSize;
      stop := Epsilon !in F[symbol];
      if !notDone && stop {
        assert Scan(F, terminals, symbols[j..]) <= F[nt] by { assert symbols[j..][0] == symbol; }
        ScanWithin(F, terminals, symbols, j, F[nt]);
      }
    }
  }

  /** The `for symbol in symbols` scan of a rule whose body does not start with epsilon. */
  method ScanRule(ghost F0: Sets, first: Sets, flag: bool, rules: seq<Rule>, nonterminals: set<string>,
                  terminals: set<string>, k: nat)
    returns (F: Sets, notDone: bool)
    requires Covered(rules, nonterminals, terminals) && k < |rules| && rules[k].Body() != []
    requires PassState(F0, first, flag, rules, nonterminals, terminals)
    ensures PassState(F0, F, notDone, rules, nonterminals, terminals)
    ensures !notDone ==> F == first && RuleClosed(F, terminals, rules[k])
  {
    F, notDone := first, flag;
    var nt := rules[k].lhs;
    var symbols := rules[k].Body();
    var j := 0;
    while j < |symbols|
      invariant 0 <= j <= |symbols|
      invariant PassState(F0, F, notDone, rules, nonterminals, terminals)
      invariant ScanPrefix(F, terminals, symbols, j)
      invariant !notDone ==> F == first && Absorbed(F, symbols, j, nt)
    {
      var stop;
      F, notDone, stop := ScanStep(F0, F, notDone, rules, nonterminals, terminals, k, j);
      if stop {
        return;
      }
      j := j + 1;
    }
    if !notDone {
      ScanWithin(F, terminals, symbols, j, F[nt]);
    }
  }

  /**
   * `collect_firsts`: the `while not_done` loop repeats passes over the rules
   * until a pass adds nothing. It fails on the first rule with an empty body;
   * otherwise its result is the least assignment, over the nonterminals, that
   * no rule can add to, and it holds only terminals and epsilon.
   */
  method CollectFirsts(rules: seq<Rule>, nonterminals: set<string>, terminals: set<string>)
    returns (r: Result<Sets, FirstError>)
    requires Covered(rules, nonterminals, terminals)
    ensures r.Failure? <==> exists i :: 0 <= i < |rules| && rules[i].Body() == []
    ensures r.Success? ==> IsFirstSets(r.value, rules, nonterminals, terminals)
  {
    var F: Sets := map nt | nt in nonterminals :: {};
    var notDone := true;
    ghost var passed := false;
    ghost var u := terminals + {Epsilon};
    while notDone
      invariant F.Keys == nonterminals && Bounded(F, terminals) && Least(F, rules, nonterminals, terminals)
      invariant passed ==> NonEmptyUpTo(rules, |rules|)
      invariant !passed ==> notDone
      invariant !notDone ==> FirstClosed(F, rules, terminals)
      decreases Missing(F, nonterminals, u), if notDone then 1 else 0
    {
      ghost var F0 := F;
      notDone := false;
      var k := 0;
      while k < |rules|
        invariant 0 <= k <= |rules|
        invariant PassState(F0, F, notDone, rules, nonterminals, terminals)
        invariant NonEmptyUpTo(rules, k)
        invariant !notDone ==> ClosedUpTo(F, rules, terminals, k)
      {
        var rule := rules[k];
        if rule.Body() == [] {
          return Failure(EmptyBody(rule));
        }
        ghost var before := F;
        F, notDone := VisitRule(F0, F, notDone, rules, nonterminals, terminals, k);
        NonEmptyExtend(rules, k);
        if !notDone {
          ClosedExtend(F, rules, terminals, k);
        }
        k := k + 1;
      }
      passed := true;
      if notDone {
        MissingShrinks(F0, F, nonterminals, u);
      }
    }
    r := Success(F);
  }

  /** A rule whose body starts with `''` puts epsilon into FIRST of its head in every closed assignment. */
  lemma EpsilonRuleNullable(F: Sets, rules: seq<Rule>, terminals: set<string>, i: nat)
    requires FirstClosed(F, rules, terminals)
    requires i < |rules| && rules[i].Body() != [] && rules[i].Body()[0] == Epsilon
    ensures rules[i].lhs in F && Epsilon in F[rules[i].lhs]
  {
    assert RuleClosed(F, terminals, rules[i]);
  }

  /**
   * Unlike `collect_firsts_for_development`, `collect_firsts` does not put
   * epsilon into FIRST of a head whose body is a run of nullable
   * nonterminals: for `A -> B` and `B -> ''` every result leaves FIRST(A)
   * empty, although A derives the empty string.
   */
  lemma {:induction false} NullableChainNotNullable(F: Sets)
    requires IsFirstSets(F, [Rule("A", "B"), Rule("B", Epsilon)], {"A", "B"}, {Epsilon})
    ensures F["A"] == {} && F["B"] == {Epsilon}
  {
    var rules := [Rule("A", "B"), Rule("B", Epsilon)];
    assert IsWord("B") && IsWord(Epsilon) by {
      assert !IsSpace('B') && !IsSpace('\'');
    }
    SplitWordsOfJoin(["B"]);
    SplitWordsOfJoin([Epsilon]);
    assert rules[0].Body() == ["B"];
    assert rules[1].Body() == [Epsilon];
    var S: Sets := map["A" := {}, "B" := {Epsilon}];
    assert Scan(S, {Epsilon}, ["B"][1..]) == {} by { assert ["B"][1..] == []; }
    assert RuleClosed(S, {Epsilon}, rules[0]);
    assert RuleClosed(S, {Epsilon}, rules[1]);
    assert FirstClosed(S, rules, {Epsilon});
    assert Below(F, S);
    assert F["B"] == {Epsilon} by {
      assert RuleClosed(F, {Epsilon}, rules[1]);
    }
  }
}
