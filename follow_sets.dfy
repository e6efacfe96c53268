/**
 * The FOLLOW sets of a grammar (`collect_follows` of
 * completo/Tabla_Sintactica.py): `$` follows the head of the first rule, and
 * passes over every nonterminal occurrence of every body repeat while the
 * `not_done` flag is raised.
 *
 * The pass itself is specified by a left fold over the occurrences
 * (`OccStep`, `RuleSweep`, `PassSweep`), and the repetition by `Iterate`.
 * Both are parametrised by which growth raises the flag: the source raises
 * it only when a FOLLOW set grows by inheriting FOLLOW of the rule's head
 * (`fixed == false`); the corrected loop raises it on any growth.
 */
module FollowSets {
  import opened Wrappers
  import opened Text
  import opened Grammar
  import opened FirstSets

  /** The `IndexError` of `rules[0]` on a grammar without rules. */
  datatype FollowError = NoRules

  /** What `collect_follows` looks up: every head is a nonterminal, and every nonterminal has a FIRST set. */
  predicate Inputs(rules: seq<Rule>, nonterminals: set<string>, firsts: Sets) {
    && (forall i :: 0 <= i < |rules| ==> rules[i].lhs in nonterminals)
    && nonterminals <= firsts.Keys
  }

  /** What the symbol after position `i` adds to FOLLOW of `body[i]`: FIRST of a nonterminal less epsilon, or the symbol itself. */
  function NextContribution(nonterminals: set<string>, firsts: Sets, body: seq<string>, i: nat): set<string>
    requires i < |body| && nonterminals <= firsts.Keys
  {
    if i + 1 < |body| then
      if body[i + 1] in nonterminals then firsts[body[i + 1]] - {Epsilon} else {body[i + 1]}
    else {}
  }

  /** `body[i]` is last, or FIRST of the next symbol (looked up with `firsts.get`) holds epsilon. */
  predicate Inherits(firsts: Sets, body: seq<string>, i: nat)
    requires i < |body|
  {
    i + 1 == |body| || (body[i + 1] in firsts && Epsilon in firsts[body[i + 1]])
  }

  /**
   * The FOLLOW sets after one occurrence, `flagged` when inheriting FOLLOW of
   * the head grew the set (the source's `not_done` update, which compares
   * sizes), and `grew` when the occurrence grew the set at all.
   */
  datatype Occ = Occ(follows: Sets, flagged: bool, grew: bool)

  /**
   * What inheriting FOLLOW of the head adds at `body[i]`. The source updates
   * an alias `follows_set` of FOLLOW of the symbol, so when the symbol is
   * the head itself it inherits its own, already updated, set: nothing new.
   */
  function Inherited(firsts: Sets, F: Sets, lhs: string, body: seq<string>, i: nat): set<string>
    requires i < |body| && lhs in F
  {
    if Inherits(firsts, body, i) && lhs != body[i] then F[lhs] else {}
  }

  /** One occurrence `body[i]` of a rule with head `lhs`: FOLLOW of a nonterminal gains both contributions. */
  function OccStep(nonterminals: set<string>, firsts: Sets, F: Sets, lhs: string, body: seq<string>, i: nat): (o: Occ)
    requires i < |body| && nonterminals <= firsts.Keys && F.Keys == nonterminals && lhs in nonterminals
    ensures o.follows.Keys == nonterminals
  {
    if body[i] !in nonterminals then Occ(F, false, false)
    else
      var s := body[i];
      var nc := NextContribution(nonterminals, firsts, body, i);
      var inh := Inherited(firsts, F, lhs, body, i);
      Occ(F[s := F[s] + nc + inh], !(inh <= F[s] + nc), !(nc + inh <= F[s]))
  }

  /** The FOLLOW sets during a pass and the `not_done` flag so far. */
  datatype Sweep = Sweep(follows: Sets, notDone: bool)

  /** The growth that raises the flag: only inherited growth as written, any growth once corrected. */
  function Flag(o: Occ, fixed: bool): bool {
    if fixed then o.grew else o.flagged
  }

  /** A pass over the first `i` positions of the body of `r`, starting from `st`. */
  function RuleSweep(nonterminals: set<string>, firsts: Sets, fixed: bool, st: Sweep, r: Rule, i: nat): (res: Sweep)
    requires i <= |r.Body()| && nonterminals <= firsts.Keys && st.follows.Keys == nonterminals && r.lhs in nonterminals
    ensures res.follows.Keys == nonterminals
    decreases i
  {
    if i == 0 then st
    else
      var prev := RuleSweep(nonterminals, firsts, fixed, st, r, i - 1);
      var o := OccStep(nonterminals, firsts, prev.follows, r.lhs, r.Body(), i - 1);
      Sweep(o.follows, prev.notDone || Flag(o, fixed))
  }

  /** A pass over the first `k` rules, starting from `st`. */
  function PassSweep(rules: seq<Rule>, nonterminals: set<string>, firsts: Sets, fixed: bool, st: Sweep, k: nat): (res: Sweep)
    requires k <= |rules| && Inputs(rules, nonterminals, firsts) && st.follows.Keys == nonterminals
    ensures res.follows.Keys == nonterminals
    decreases k
  {
    if k == 0 then st
    else
      var prev := PassSweep(rules, nonterminals, firsts, fixed, st, k - 1);
      RuleSweep(nonterminals, firsts, fixed, prev, rules[k - 1], |rules[k - 1].Body()|)
  }

  /** One whole pass of the `while not_done` loop, which first clears the flag. */
  function Pass(rules: seq<Rule>, nonterminals: set<string>, firsts: Sets, fixed: bool, F: Sets): (res: Sweep)
    requires Inputs(rules, nonterminals, firsts) && F.Keys == nonterminals
    ensures res.follows.Keys == nonterminals
  {
    PassSweep(rules, nonterminals, firsts, fixed, Sweep(F, false), |rules|)
  }

  /** Every value a FOLLOW set can take: `$`, the body symbols and the members of FIRST sets. */
  function Universe(rules: seq<Rule>, firsts: Sets): set<string> {
    {EndMarker} + BodySymbols(rules) + (set nt, x | nt in firsts && x in firsts[nt] :: x)
  }

  /** Every set of `F` lies in `u`. */
  predicate Within(F: Sets, u: set<string>) {
    forall nt :: nt in F ==> F[nt] <= u
  }

  /** `{nt: set()}` with `$` added to FOLLOW of the head of the first rule. */
  function InitialFollows(rules: seq<Rule>, nonterminals: set<string>): Sets
    requires |rules| > 0 && rules[0].lhs in nonterminals
  {
    (map nt | nt in nonterminals :: {})[rules[0].lhs := {EndMarker}]
  }

  /** `u` holds every body symbol and every member of a FIRST set. */
  predicate Closes(rules: seq<Rule>, firsts: Sets, u: set<string>) {
    && (forall k :: 0 <= k < |rules| ==> SymbolsIn(rules[k].Body(), u))
    && (forall nt :: nt in firsts ==> firsts[nt] <= u)
  }

  lemma UniverseCloses(rules: seq<Rule>, firsts: Sets)
    ensures Closes(rules, firsts, Universe(rules, firsts))
  {
    forall k, m | 0 <= k < |rules| && 0 <= m < |rules[k].Body()| ensures rules[k].Body()[m] in Universe(rules, firsts) {
      assert rules[k] in rules && rules[k].Body()[m] in rules[k].Body();
    }
  }

  /**
   * One occurrence only grows the FOLLOW sets, stays in the universe, and
   * the growth that raises either flag is real.
   */
  lemma OccGrows(nonterminals: set<string>, firsts: Sets, u: set<string>, F: Sets, lhs: string, body: seq<string>, i: nat)
    requires nonterminals <= firsts.Keys && F.Keys == nonterminals && lhs in nonterminals && i < |body|
    requires SymbolsIn(body, u) && (forall nt :: nt in firsts ==> firsts[nt] <= u) && Within(F, u)
    ensures var o := OccStep(nonterminals, firsts, F, lhs, body, i);
      && Below(F, o.follows) && Within(o.follows, u)
      && (o.flagged ==> o.grew) && (o.grew <==> !Below(o.follows, F))
  {
    if body[i] in nonterminals {
      var s := body[i];
      var nc := NextContribution(nonterminals, firsts, body, i);
      var inh := Inherited(firsts, F, lhs, body, i);
      assert nc <= u;
      var t := F[s] + nc + inh;
      assert !(nc + inh <= F[s]) <==> !(t <= F[s]);
      OccGrowth(F, s, t);
    }
  }

  /** Replacing `F[s]` by a superset `t` grows the sets exactly when `t` is larger. */
  lemma OccGrowth(F: Sets, s: string, t: set<string>)
    requires s in F && F[s] <= t
    ensures Below(F, F[s := t])
    ensures !(t <= F[s]) <==> !Below(F[s := t], F)
  {
    if !(t <= F[s]) {
      var x :| x in t && x !in F[s];
      assert x in F[s := t][s];
    }
  }

  /** Below is transitive. */
  lemma BelowTrans(A: Sets, B: Sets, C: Sets)
    requires Below(A, B) && Below(B, C)
    ensures Below(A, C)
  {
  }

  /** Growth past `A` survives further growth. */
  lemma NotBelowGrows(A: Sets, B: Sets, C: Sets)
    requires !Below(B, A) && Below(B, C) && B.Keys == A.Keys
    ensures !Below(C, A)
  {
    var nt, x :| nt in B && x in B[nt] && x !in A[nt];
    assert x in C[nt];
  }

  /** What a pass from `F0` keeps: it only grows, stays in the universe, and the flag means real growth. */
  predicate SweepFrom(F0: Sets, st: Sweep, u: set<string>) {
    Below(F0, st.follows) && Within(st.follows, u) && (st.notDone ==> !Below(st.follows, F0))
  }

  lemma {:induction false} RuleSweepGrows(rules: seq<Rule>, nonterminals: set<string>, firsts: Sets, fixed: bool,
                                         u: set<string>, F0: Sets, st: Sweep, k: nat, i: nat)
    requires Inputs(rules, nonterminals, firsts) && Closes(rules, firsts, u) && k < |rules| && i <= |rules[k].Body()|
    requires F0.Keys == st.follows.Keys == nonterminals && SweepFrom(F0, st, u)
    ensures SweepFrom(F0, RuleSweep(nonterminals, firsts, fixed, st, rules[k], i), u)
    decreases i
  {
    if i > 0 {
      RuleSweepGrows(rules, nonterminals, firsts, fixed, u, F0, st, k, i - 1);
      var prev := RuleSweep(nonterminals, firsts, fixed, st, rules[k], i - 1);
      assert SymbolsIn(rules[k].Body(), u);
      OccGrows(nonterminals, firsts, u, prev.follows, rules[k].lhs, rules[k].Body(), i - 1);
      var o := OccStep(nonterminals, firsts, prev.follows, rules[k].lhs, rules[k].Body(), i - 1);
      BelowTrans(F0, prev.follows, o.follows);
      if prev.notDone {
        NotBelowGrows(F0, prev.follows, o.follows);
      }
      if Flag(o, fixed) && !prev.notDone {
        if Below(o.follows, F0) {
          BelowTrans(o.follows, F0, prev.follows);
        }
      }
    }
  }

  lemma {:induction false} PassSweepGrows(rules: seq<Rule>, nonterminals: set<string>, firsts: Sets, fixed: bool,
                                         u: set<string>, F0: Sets, st: Sweep, k: nat)
    requires Inputs(rules, nonterminals, firsts) && Closes(rules, firsts, u) && k <= |rules|
    requires F0.Keys == st.follows.Keys == nonterminals && SweepFrom(F0, st, u)
    ensures SweepFrom(F0, PassSweep(rules, nonterminals, firsts, fixed, st, k), u)
    decreases k
  {
    if k > 0 {
      PassSweepGrows(rules, nonterminals, firsts, fixed, u, F0, st, k - 1);
      var prev := PassSweep(rules, nonterminals, firsts, fixed, st, k - 1);
      RuleSweepGrows(rules, nonterminals, firsts, fixed, u, F0, prev, k - 1, |rules[k - 1].Body()|);
    }
  }

  /** A pass only grows the FOLLOW sets, and when it raises the flag it has grown them. */
  lemma PassGrows(rules: seq<Rule>, nonterminals: set<string>, firsts: Sets, fixed: bool, F: Sets)
    requires Inputs(rules, nonterminals, firsts) && F.Keys == nonterminals && Within(F, Universe(rules, firsts))
    ensures var p := Pass(rules, nonterminals, firsts, fixed, F);
      Below(F, p.follows) && Within(p.follows, Universe(rules, firsts)) && (p.notDone ==> p.follows != F)
  {
    UniverseCloses(rules, firsts);
    PassSweepGrows(rules, nonterminals, firsts, fixed, Universe(rules, firsts), F, Sweep(F, false), |rules|);
  }

  /** Growth only removes pairs from `Missing`. */
  lemma MissingMonotone(F0: Sets, F: Sets, nonterminals: set<string>, u: set<string>)
    requires F0.Keys == F.Keys && Below(F0, F)
    ensures Missing(F, nonterminals, u) <= Missing(F0, nonterminals, u)
  {
  }

  /** The `while not_done` loop from `F`: passes repeat while the flag is raised, and the last pass's sets are returned. */
  function Iterate(rules: seq<Rule>, nonterminals: set<string>, firsts: Sets, fixed: bool, F: Sets): Sets
    requires Inputs(rules, nonterminals, firsts) && F.Keys == nonterminals && Within(F, Universe(rules, firsts))
    decreases Missing(F, nonterminals, Universe(rules, firsts))
  {
    var p := Pass(rules, nonterminals, firsts, fixed, F);
    PassGrows(rules, nonterminals, firsts, fixed, F);
    if p.notDone then
      MissingShrinks(F, p.follows, nonterminals, Universe(rules, firsts));
      Iterate(rules, nonterminals, firsts, fixed, p.follows)
    else p.follows
  }

  /** `collect_follows` (with `fixed` false) and its corrected form (with `fixed` true). */
  function Follows(rules: seq<Rule>, nonterminals: set<string>, firsts: Sets, fixed: bool): Result<Sets, FollowError>
    requires Inputs(rules, nonterminals, firsts)
  {
    if rules == [] then Failure(NoRules)
    else
      var F := InitialFollows(rules, nonterminals);
      assert Within(F, Universe(rules, firsts));
      Success(Iterate(rules, nonterminals, firsts, fixed, F))
  }

  // ---------------------------------------------------------------------------
  // Properties
  // ---------------------------------------------------------------------------

  lemma {:induction false} IterateGrows(rules: seq<Rule>, nonterminals: set<string>, firsts: Sets, fixed: bool, F: Sets)
    requires Inputs(rules, nonterminals, firsts) && F.Keys == nonterminals && Within(F, Universe(rules, firsts))
    ensures var r := Iterate(rules, nonterminals, firsts, fixed, F);
      r.Keys == nonterminals && Below(F, r)
    decreases Missing(F, nonterminals, Universe(rules, firsts))
  {
    var p := Pass(rules, nonterminals, firsts, fixed, F);
    PassGrows(rules, nonterminals, firsts, fixed, F);
    if p.notDone {
      MissingShrinks(F, p.follows, nonterminals, Universe(rules, firsts));
      IterateGrows(rules, nonterminals, firsts, fixed, p.follows);
      BelowTrans(F, p.follows, Iterate(rules, nonterminals, firsts, fixed, p.follows));
    }
  }

  /**
   * Both loops fail exactly on a grammar without rules, return a FOLLOW set
   * for every nonterminal, and put `$` into FOLLOW of the start symbol.
   */
  lemma StartFollowedByEnd(rules: seq<Rule>, nonterminals: set<string>, firsts: Sets, fixed: bool)
    requires Inputs(rules, nonterminals, firsts)
    ensures Follows(rules, nonterminals, firsts, fixed).Failure? <==> rules == []
    ensures Follows(rules, nonterminals, firsts, fixed).Success? ==>
      && Follows(rules, nonterminals, firsts, fixed).value.Keys == nonterminals
      && EndMarker in Follows(rules, nonterminals, firsts, fixed).value[rules[0].lhs]
  {
    if rules != [] {
      var F := InitialFollows(rules, nonterminals);
      assert Within(F, Universe(rules, firsts));
      IterateGrows(rules, nonterminals, firsts, fixed, F);
    }
  }

  /**
   * Occurrence `body[i]` of a rule with head `lhs` adds nothing to `S`: what
   * the next symbol contributes is in FOLLOW of `body[i]`, and so is all of
   * FOLLOW of the head when `body[i]` inherits it.
   */
  predicate OccClosed(nonterminals: set<string>, firsts: Sets, S: Sets, lhs: string, body: seq<string>, i: nat)
    requires i < |body| && nonterminals <= firsts.Keys && S.Keys == nonterminals && lhs in nonterminals
  {
    body[i] in nonterminals ==>
      && NextContribution(nonterminals, firsts, body, i) <= S[body[i]]
      && (Inherits(firsts, body, i) ==> S[lhs] <= S[body[i]])
  }

  /** No occurrence of any rule adds to `S`, and `$` follows the start symbol. */
  predicate FollowClosed(rules: seq<Rule>, nonterminals: set<string>, firsts: Sets, S: Sets)
    requires Inputs(rules, nonterminals, firsts) && S.Keys == nonterminals
  {
    && (|rules| > 0 ==> EndMarker in S[rules[0].lhs])
    && forall k, i :: 0 <= k < |rules| && 0 <= i < |rules[k].Body()| ==>
         OccClosed(nonterminals, firsts, S, rules[k].lhs, rules[k].Body(), i)
  }

  /** An occurrence grows nothing exactly when it is closed, and then it leaves the sets alone. */
  lemma OccUnchanged(rules: seq<Rule>, nonterminals: set<string>, firsts: Sets, F: Sets, k: nat, i: nat)
    requires Inputs(rules, nonterminals, firsts) && F.Keys == nonterminals
    requires k < |rules| && i < |rules[k].Body()|
    ensures var o := OccStep(nonterminals, firsts, F, rules[k].lhs, rules[k].Body(), i);
      (!o.grew <==> OccClosed(nonterminals, firsts, F, rules[k].lhs, rules[k].Body(), i)) && (!o.grew ==> o.follows == F)
  {
    var body, lhs := rules[k].Body(), rules[k].lhs;
    if body[i] in nonterminals {
      var s := body[i];
      var nc := NextContribution(nonterminals, firsts, body, i);
      var inh := Inherited(firsts, F, lhs, body, i);
      if nc + inh <= F[s] {
        assert F[s] + nc + inh == F[s];
        assert F[s := F[s] + nc + inh] == F;
      }
    }
  }

  /** The first `i` occurrences of rule `k` are closed in `S`. */
  predicate ClosedPrefix(rules: seq<Rule>, nonterminals: set<string>, firsts: Sets, S: Sets, k: nat, i: nat)
    requires Inputs(rules, nonterminals, firsts) && S.Keys == nonterminals && k < |rules| && i <= |rules[k].Body()|
  {
    forall j :: 0 <= j < i ==> OccClosed(nonterminals, firsts, S, rules[k].lhs, rules[k].Body(), j)
  }

  lemma {:induction false} RuleSweepUnchanged(rules: seq<Rule>, nonterminals: set<string>, firsts: Sets,
                                             F: Sets, k: nat, i: nat)
    requires Inputs(rules, nonterminals, firsts) && F.Keys == nonterminals && k < |rules| && i <= |rules[k].Body()|
    requires !RuleSweep(nonterminals, firsts, true, Sweep(F, false), rules[k], i).notDone
    ensures RuleSweep(nonterminals, firsts, true, Sweep(F, false), rules[k], i).follows == F
    ensures ClosedPrefix(rules, nonterminals, firsts, F, k, i)
    decreases i
  {
    if i > 0 {
      RuleSweepUnchanged(rules, nonterminals, firsts, F, k, i - 1);
      OccUnchanged(rules, nonterminals, firsts, F, k, i - 1);
    }
  }

  /** The first `k` rules are closed in `S`. */
  predicate ClosedRules(rules: seq<Rule>, nonterminals: set<string>, firsts: Sets, S: Sets, k: nat)
    requires Inputs(rules, nonterminals, firsts) && S.Keys == nonterminals && k <= |rules|
  {
    forall q :: 0 <= q < k ==> ClosedPrefix(rules, nonterminals, firsts, S, q, |rules[q].Body()|)
  }

  lemma {:induction false} PassSweepUnchanged(rules: seq<Rule>, nonterminals: set<string>, firsts: Sets, F: Sets, k: nat)
    requires Inputs(rules, nonterminals, firsts) && F.Keys == nonterminals && k <= |rules|
    requires !PassSweep(rules, nonterminals, firsts, true, Sweep(F, false), k).notDone
    ensures PassSweep(rules, nonterminals, firsts, true, Sweep(F, false), k) == Sweep(F, false)
    ensures ClosedRules(rules, nonterminals, firsts, F, k)
    decreases k
  {
    if k > 0 {
      PassSweepFlag(rules, nonterminals, firsts, Sweep(F, false), k);
      PassSweepUnchanged(rules, nonterminals, firsts, F, k - 1);
      PassSweepUnchangedStep(rules, nonterminals, firsts, F, k);
    }
  }

  /** A flag raised before the last rule of a prefix is still raised after it. */
  lemma PassSweepFlag(rules: seq<Rule>, nonterminals: set<string>, firsts: Sets, st: Sweep, k: nat)
    requires Inputs(rules, nonterminals, firsts) && st.follows.Keys == nonterminals && 0 < k <= |rules|
    ensures PassSweep(rules, nonterminals, firsts, true, st, k - 1).notDone ==>
      PassSweep(rules, nonterminals, firsts, true, st, k).notDone
  {
    var prev := PassSweep(rules, nonterminals, firsts, true, st, k - 1);
    RuleSweepFlag(nonterminals, firsts, true, prev, rules[k - 1], |rules[k - 1].Body()|);
  }

  /** The step of `PassSweepUnchanged`: an unflagged rule after an unchanged prefix. */
  lemma PassSweepUnchangedStep(rules: seq<Rule>, nonterminals: set<string>, firsts: Sets, F: Sets, k: nat)
    requires Inputs(rules, nonterminals, firsts) && F.Keys == nonterminals && 0 < k <= |rules|
    requires PassSweep(rules, nonterminals, firsts, true, Sweep(F, false), k - 1) == Sweep(F, false)
    requires ClosedRules(rules, nonterminals, firsts, F, k - 1)
    requires !PassSweep(rules, nonterminals, firsts, true, Sweep(F, false), k).notDone
    ensures PassSweep(rules, nonterminals, firsts, true, Sweep(F, false), k) == Sweep(F, false)
    ensures ClosedRules(rules, nonterminals, firsts, F, k)
  {
    RuleSweepUnchanged(rules, nonterminals, firsts, F, k - 1, |rules[k - 1].Body()|);
    ClosedRulesExtend(rules, nonterminals, firsts, F, k - 1);
  }

  lemma ClosedRulesExtend(rules: seq<Rule>, nonterminals: set<string>, firsts: Sets, S: Sets, k: nat)
    requires Inputs(rules, nonterminals, firsts) && S.Keys == nonterminals && k < |rules|
    requires ClosedRules(rules, nonterminals, firsts, S, k)
    requires ClosedPrefix(rules, nonterminals, firsts, S, k, |rules[k].Body()|)
    ensures ClosedRules(rules, nonterminals, firsts, S, k + 1)
  {
  }

  /** One more position of a rule's pass. */
  lemma RuleSweepStep(nonterminals: set<string>, firsts: Sets, fixed: bool, st: Sweep, r: Rule, i: nat)
    requires i < |r.Body()| && nonterminals <= firsts.Keys && st.follows.Keys == nonterminals && r.lhs in nonterminals
    ensures var prev := RuleSweep(nonterminals, firsts, fixed, st, r, i);
      var o := OccStep(nonterminals, firsts, prev.follows, r.lhs, r.Body(), i);
      RuleSweep(nonterminals, firsts, fixed, st, r, i + 1) == Sweep(o.follows, prev.notDone || Flag(o, fixed))
  {
  }

  /** A raised flag stays raised through a rule. */
  lemma {:induction false} RuleSweepFlag(nonterminals: set<string>, firsts: Sets, fixed: bool, st: Sweep, r: Rule, i: nat)
    requires i <= |r.Body()| && nonterminals <= firsts.Keys && st.follows.Keys == nonterminals && r.lhs in nonterminals
    ensures st.notDone ==> RuleSweep(nonterminals, firsts, fixed, st, r, i).notDone
    decreases i
  {
    if i > 0 {
      RuleSweepFlag(nonterminals, firsts, fixed, st, r, i - 1);
    }
  }

  /** The corrected loop stops at sets that no occurrence adds to. */
  lemma {:induction false} CorrectedIterateClosed(rules: seq<Rule>, nonterminals: set<string>, firsts: Sets, F: Sets)
    requires Inputs(rules, nonterminals, firsts) && F.Keys == nonterminals && Within(F, Universe(rules, firsts))
    ensures var r := Iterate(rules, nonterminals, firsts, true, F);
      r.Keys == nonterminals && ClosedRules(rules, nonterminals, firsts, r, |rules|)
    decreases Missing(F, nonterminals, Universe(rules, firsts))
  {
    var p := Pass(rules, nonterminals, firsts, true, F);
    PassGrows(rules, nonterminals, firsts, true, F);
    if p.notDone {
      MissingShrinks(F, p.follows, nonterminals, Universe(rules, firsts));
      CorrectedIterateClosed(rules, nonterminals, firsts, p.follows);
    } else {
      PassSweepUnchanged(rules, nonterminals, firsts, F, |rules|);
    }
  }

  /** The corrected FOLLOW sets are closed: no rule can add to them. */
  lemma CorrectedFollowsClosed(rules: seq<Rule>, nonterminals: set<string>, firsts: Sets)
    requires Inputs(rules, nonterminals, firsts) && Follows(rules, nonterminals, firsts, true).Success?
    ensures Follows(rules, nonterminals, firsts, true).value.Keys == nonterminals
    ensures FollowClosed(rules, nonterminals, firsts, Follows(rules, nonterminals, firsts, true).value)
  {
    var F := InitialFollows(rules, nonterminals);
    assert Within(F, Universe(rules, firsts));
    StartFollowedByEnd(rules, nonterminals, firsts, true);
    CorrectedIterateClosed(rules, nonterminals, firsts, F);
    var r := Follows(rules, nonterminals, firsts, true).value;
    forall k, i | 0 <= k < |rules| && 0 <= i < |rules[k].Body()|
      ensures OccClosed(nonterminals, firsts, r, rules[k].lhs, rules[k].Body(), i)
    {
      assert ClosedPrefix(rules, nonterminals, firsts, r, k, |rules[k].Body()|);
    }
  }

  /** Against closed sets `S`, an occurrence keeps the sets below `S`. */
  lemma OccBelow(rules: seq<Rule>, nonterminals: set<string>, firsts: Sets, F: Sets, S: Sets, k: nat, i: nat)
    requires Inputs(rules, nonterminals, firsts) && F.Keys == S.Keys == nonterminals
    requires k < |rules| && i < |rules[k].Body()| && Below(F, S)
    requires OccClosed(nonterminals, firsts, S, rules[k].lhs, rules[k].Body(), i)
    ensures Below(OccStep(nonterminals, firsts, F, rules[k].lhs, rules[k].Body(), i).follows, S)
  {
  }

  lemma {:induction false} RuleSweepBelow(rules: seq<Rule>, nonterminals: set<string>, firsts: Sets, fixed: bool,
                                         st: Sweep, S: Sets, k: nat, i: nat)
    requires Inputs(rules, nonterminals, firsts) && k < |rules| && i <= |rules[k].Body()|
    requires st.follows.Keys == S.Keys == nonterminals && Below(st.follows, S) && FollowClosed(rules, nonterminals, firsts, S)
    ensures Below(RuleSweep(nonterminals, firsts, fixed, st, rules[k], i).follows, S)
    decreases i
  {
    if i > 0 {
      RuleSweepBelow(rules, nonterminals, firsts, fixed, st, S, k, i - 1);
      var prev := RuleSweep(nonterminals, firsts, fixed, st, rules[k], i - 1);
      OccBelow(rules, nonterminals, firsts, prev.follows, S, k, i - 1);
    }
  }

  lemma {:induction false} PassSweepBelow(rules: seq<Rule>, nonterminals: set<string>, firsts: Sets, fixed: bool,
                                         st: Sweep, S: Sets, k: nat)
    requires Inputs(rules, nonterminals, firsts) && k <= |rules|
    requires st.follows.Keys == S.Keys == nonterminals && Below(st.follows, S) && FollowClosed(rules, nonterminals, firsts, S)
    ensures Below(PassSweep(rules, nonterminals, firsts, fixed, st, k).follows, S)
    decreases k
  {
    if k > 0 {
      PassSweepBelow(rules, nonterminals, firsts, fixed, st, S, k - 1);
      var prev := PassSweep(rules, nonterminals, firsts, fixed, st, k - 1);
      RuleSweepBelow(rules, nonterminals, firsts, fixed, prev, S, k - 1, |rules[k - 1].Body()|);
    }
  }

  lemma {:induction false} IterateBelow(rules: seq<Rule>, nonterminals: set<string>, firsts: Sets, fixed: bool, F: Sets, S: Sets)
    requires Inputs(rules, nonterminals, firsts) && F.Keys == S.Keys == nonterminals && Within(F, Universe(rules, firsts))
    requires Below(F, S) && FollowClosed(rules, nonterminals, firsts, S)
    ensures Below(Iterate(rules, nonterminals, firsts, fixed, F), S)
    decreases Missing(F, nonterminals, Universe(rules, firsts))
  {
    var p := Pass(rules, nonterminals, firsts, fixed, F);
    PassGrows(rules, nonterminals, firsts, fixed, F);
    PassSweepBelow(rules, nonterminals, firsts, fixed, Sweep(F, false), S, |rules|);
    if p.notDone {
      MissingShrinks(F, p.follows, nonterminals, Universe(rules, firsts));
      IterateBelow(rules, nonterminals, firsts, fixed, p.follows, S);
    }
  }

  /**
   * Both loops are sound: what they put into a FOLLOW set belongs to it in
   * every closed assignment. With the corrected flag the result is therefore
   * the least closed assignment.
   */
  lemma FollowsBelowClosed(rules: seq<Rule>, nonterminals: set<string>, firsts: Sets, fixed: bool, S: Sets)
    requires Inputs(rules, nonterminals, firsts) && Follows(rules, nonterminals, firsts, fixed).Success?
    requires S.Keys == nonterminals && FollowClosed(rules, nonterminals, firsts, S)
    ensures Below(Follows(rules, nonterminals, firsts, fixed).value, S)
  {
    var F := InitialFollows(rules, nonterminals);
    assert Within(F, Universe(rules, firsts));
    IterateBelow(rules, nonterminals, firsts, fixed, F, S);
  }

  /**
   * What the symbol after `body[j]` contributes is in FOLLOW of `body[j]`:
   * the first two occurrence rules, which do not depend on the flag.
   */
  predicate NextIn(nonterminals: set<string>, firsts: Sets, S: Sets, body: seq<string>, j: nat)
    requires j < |body| && nonterminals <= firsts.Keys && S.Keys == nonterminals
  {
    body[j] in nonterminals ==> NextContribution(nonterminals, firsts, body, j) <= S[body[j]]
  }

  /** Every occurrence of the first `k` rules has its next contribution in `S`. */
  predicate NextInRules(rules: seq<Rule>, nonterminals: set<string>, firsts: Sets, S: Sets, k: nat)
    requires Inputs(rules, nonterminals, firsts) && S.Keys == nonterminals && k <= |rules|
  {
    forall q, j :: 0 <= q < k && 0 <= j < |rules[q].Body()| ==> NextIn(nonterminals, firsts, S, rules[q].Body(), j)
  }

  /** A pass over part of a rule only grows the sets. */
  lemma {:induction false} RuleSweepMonotone(nonterminals: set<string>, firsts: Sets, fixed: bool, st: Sweep, r: Rule, i: nat)
    requires i <= |r.Body()| && nonterminals <= firsts.Keys && st.follows.Keys == nonterminals && r.lhs in nonterminals
    ensures Below(st.follows, RuleSweep(nonterminals, firsts, fixed, st, r, i).follows)
    decreases i
  {
    if i > 0 {
      RuleSweepMonotone(nonterminals, firsts, fixed, st, r, i - 1);
      var prev := RuleSweep(nonterminals, firsts, fixed, st, r, i - 1);
      var o := OccStep(nonterminals, firsts, prev.follows, r.lhs, r.Body(), i - 1);
      assert Below(prev.follows, o.follows);
      BelowTrans(st.follows, prev.follows, o.follows);
    }
  }

  /** After the pass has visited positions `0..i` of a rule, their next contributions are in place. */
  lemma {:induction false} RuleSweepNext(nonterminals: set<string>, firsts: Sets, fixed: bool, st: Sweep, r: Rule, i: nat)
    requires i <= |r.Body()| && nonterminals <= firsts.Keys && st.follows.Keys == nonterminals && r.lhs in nonterminals
    ensures forall j :: 0 <= j < i ==> NextIn(nonterminals, firsts, RuleSweep(nonterminals, firsts, fixed, st, r, i).follows, r.Body(), j)
    decreases i
  {
    if i > 0 {
      RuleSweepNext(nonterminals, firsts, fixed, st, r, i - 1);
      var prev := RuleSweep(nonterminals, firsts, fixed, st, r, i - 1);
      var o := OccStep(nonterminals, firsts, prev.follows, r.lhs, r.Body(), i - 1);
      assert Below(prev.follows, o.follows);
      forall j | 0 <= j < i ensures NextIn(nonterminals, firsts, o.follows, r.Body(), j) {
        if j < i - 1 {
          assert NextIn(nonterminals, firsts, prev.follows, r.Body(), j);
        }
      }
    }
  }

  /** After a pass over the first `k` rules, all their next contributions are in place. */
  lemma {:induction false} PassSweepNext(rules: seq<Rule>, nonterminals: set<string>, firsts: Sets, fixed: bool, st: Sweep, k: nat)
    requires Inputs(rules, nonterminals, firsts) && k <= |rules| && st.follows.Keys == nonterminals
    ensures NextInRules(rules, nonterminals, firsts, PassSweep(rules, nonterminals, firsts, fixed, st, k).follows, k)
    decreases k
  {
    if k > 0 {
      PassSweepNext(rules, nonterminals, firsts, fixed, st, k - 1);
      PassSweepNextStep(rules, nonterminals, firsts, fixed, PassSweep(rules, nonterminals, firsts, fixed, st, k - 1), k);
    }
  }

  /** The step of `PassSweepNext`: the pass over rule `k - 1` keeps the earlier contributions and adds its own. */
  lemma PassSweepNextStep(rules: seq<Rule>, nonterminals: set<string>, firsts: Sets, fixed: bool, prev: Sweep, k: nat)
    requires Inputs(rules, nonterminals, firsts) && 0 < k <= |rules| && prev.follows.Keys == nonterminals
    requires NextInRules(rules, nonterminals, firsts, prev.follows, k - 1)
    ensures var r := rules[k - 1];
      NextInRules(rules, nonterminals, firsts, RuleSweep(nonterminals, firsts, fixed, prev, r, |r.Body()|).follows, k)
  {
    var r := rules[k - 1];
    RuleSweepMonotone(nonterminals, firsts, fixed, prev, r, |r.Body()|);
    RuleSweepNext(nonterminals, firsts, fixed, prev, r, |r.Body()|);
    var res := RuleSweep(nonterminals, firsts, fixed, prev, r, |r.Body()|);
    forall q, j | 0 <= q < k && 0 <= j < |rules[q].Body()| ensures NextIn(nonterminals, firsts, res.follows, rules[q].Body(), j) {
      if q < k - 1 {
        assert NextIn(nonterminals, firsts, prev.follows, rules[q].Body(), j);
      }
    }
  }

  /** The last pass of the loop visits every occurrence, so its sets hold every next contribution. */
  lemma {:induction false} IterateNext(rules: seq<Rule>, nonterminals: set<string>, firsts: Sets, fixed: bool, F: Sets)
    requires Inputs(rules, nonterminals, firsts) && F.Keys == nonterminals && Within(F, Universe(rules, firsts))
    ensures var r := Iterate(rules, nonterminals, firsts, fixed, F);
      r.Keys == nonterminals && NextInRules(rules, nonterminals, firsts, r, |rules|)
    decreases Missing(F, nonterminals, Universe(rules, firsts))
  {
    var p := Pass(rules, nonterminals, firsts, fixed, F);
    PassGrows(rules, nonterminals, firsts, fixed, F);
    if p.notDone {
      MissingShrinks(F, p.follows, nonterminals, Universe(rules, firsts));
      IterateNext(rules, nonterminals, firsts, fixed, p.follows);
    } else {
      PassSweepNext(rules, nonterminals, firsts, fixed, Sweep(F, false), |rules|);
    }
  }

  /**
   * Whatever the flag, and so also for `collect_follows` as written: in
   * `A -> .. B t ..` the terminal `t` is in FOLLOW(B), and in
   * `A -> .. B C ..` FIRST(C) without `''` is in FOLLOW(B). Only the third
   * rule, inheriting FOLLOW(A), can be missed by the flag as written.
   */
  lemma FollowsNextClosed(rules: seq<Rule>, nonterminals: set<string>, firsts: Sets, fixed: bool)
    requires Inputs(rules, nonterminals, firsts)
    ensures var r := Follows(rules, nonterminals, firsts, fixed);
      r.Success? ==>
        && r.value.Keys == nonterminals
        && forall q, j :: 0 <= q < |rules| && 0 <= j < |rules[q].Body()| && rules[q].Body()[j] in nonterminals ==>
             NextContribution(nonterminals, firsts, rules[q].Body(), j) <= r.value[rules[q].Body()[j]]
  {
    if rules != [] {
      var F := InitialFollows(rules, nonterminals);
      assert Within(F, Universe(rules, firsts));
      IterateNext(rules, nonterminals, firsts, fixed, F);
      var r := Follows(rules, nonterminals, firsts, fixed).value;
      forall q, j | 0 <= q < |rules| && 0 <= j < |rules[q].Body()| && rules[q].Body()[j] in nonterminals
        ensures NextContribution(nonterminals, firsts, rules[q].Body(), j) <= r[rules[q].Body()[j]]
      {
        assert NextIn(nonterminals, firsts, r, rules[q].Body(), j);
      }
    }
  }

  // ---------------------------------------------------------------------------
  // The loops
  // ---------------------------------------------------------------------------

  /**
   * The body of `for i, symbol in enumerate(symbols)` for one position: the
   * alias `follows_set` is modelled by writing the updated set back before
   * FOLLOW of the head is read. Besides the source's flag it reports
   * whether the set grew at all.
   */
  method VisitOccurrence(nonterminals: set<string>, firsts: Sets, follows: Sets, nonterminal: string,
                         symbols: seq<string>, i: nat)
    returns (follows': Sets, flagged: bool, grew: bool)
    requires i < |symbols| && nonterminals <= firsts.Keys && follows.Keys == nonterminals && nonterminal in nonterminals
    ensures Occ(follows', flagged, grew) == OccStep(nonterminals, firsts, follows, nonterminal, symbols, i)
  {
    follows', flagged, grew := follows, false, false;
    var symbol := symbols[i];
    if symbol in nonterminals {
      var startSize := |follows[symbol]|;
      var followsSet := AddNext(nonterminals, firsts, follows[symbol], symbols, i);
      follows' := follows'[symbol := followsSet];
      if i + 1 == |symbols| || (symbols[i + 1] in firsts && Epsilon in firsts[symbols[i + 1]]) {
        assert Inherits(firsts, symbols, i);
        follows', followsSet, flagged := AddHeadFollows(follows', symbol, followsSet, nonterminal);
      }
      InheritedWrittenBack(firsts, follows, nonterminal, symbols, i, follows[symbol] + NextContribution(nonterminals, firsts, symbols, i));
      LargerIff(follows[symbol], followsSet);
      grew := |followsSet| > startSize;
    }
  }

  /** Adds the contribution of the symbol after position `i` to `followsSet`. */
  method AddNext(nonterminals: set<string>, firsts: Sets, followsSet: set<string>, symbols: seq<string>, i: nat)
    returns (s: set<string>)
    requires i < |symbols| && nonterminals <= firsts.Keys
    ensures s == followsSet + NextContribution(nonterminals, firsts, symbols, i)
  {
    s := followsSet;
    if i + 1 < |symbols| {
      var nextSymbol := symbols[i + 1];
      if nextSymbol in nonterminals {
        s := s + (firsts[nextSymbol] - {Epsilon});
      } else {
        s := s + {nextSymbol};
      }
    }
  }

  /**
   * `follows_set.update(follows[nonterminal])` on the set that is also
   * stored under `symbol`, with the source's size comparison as the flag.
   */
  method AddHeadFollows(follows: Sets, symbol: string, followsSet: set<string>, nonterminal: string)
    returns (follows': Sets, followsSet': set<string>, flagged: bool)
    requires symbol in follows && nonterminal in follows && follows[symbol] == followsSet
    ensures followsSet' == followsSet + follows[nonterminal]
    ensures follows' == follows[symbol := followsSet']
    ensures flagged <==> !(follows[nonterminal] <= followsSet)
  {
    var oldSize := |followsSet|;
    followsSet' := followsSet + follows[nonterminal];
    follows' := follows[symbol := followsSet'];
    LargerIff(followsSet, followsSet');
    assert followsSet' <= followsSet <==> follows[nonterminal] <= followsSet;
    flagged := |followsSet'| > oldSize;
  }

  /**
   * Reading FOLLOW of the head after the alias was written back adds what
   * `Inherited` says: nothing new when the head is the symbol itself.
   */
  lemma InheritedWrittenBack(firsts: Sets, F: Sets, lhs: string, body: seq<string>, i: nat, t: set<string>)
    requires i < |body| && lhs in F && body[i] in F && F[body[i]] <= t
    ensures Inherits(firsts, body, i) ==>
      t + F[body[i] := t][lhs] == t + Inherited(firsts, F, lhs, body, i)
      && (F[body[i] := t][lhs] <= t <==> Inherited(firsts, F, lhs, body, i) <= t)
    ensures !Inherits(firsts, body, i) ==> t == t + Inherited(firsts, F, lhs, body, i)
  {
  }

  /** A superset is larger exactly when it is not contained in the subset. */
  lemma LargerIff(a: set<string>, b: set<string>)
    requires a <= b
    ensures |b| > |a| <==> !(b <= a)
  {
    GrowsIff(a, b);
    assert a + b == b;
  }

  /** The `for i, symbol in enumerate(symbols)` loop over one rule. */
  method SweepRule(nonterminals: set<string>, firsts: Sets, fixed: bool, follows: Sets, notDone: bool, r: Rule)
    returns (follows': Sets, notDone': bool)
    requires nonterminals <= firsts.Keys && follows.Keys == nonterminals && r.lhs in nonterminals
    ensures Sweep(follows', notDone') == RuleSweep(nonterminals, firsts, fixed, Sweep(follows, notDone), r, |r.Body()|)
  {
    follows', notDone' := follows, notDone;
    var nonterminal := r.lhs;
    var symbols := r.Body();
    var i := 0;
    while i < |symbols|
      invariant 0 <= i <= |symbols|
      invariant Sweep(follows', notDone') == RuleSweep(nonterminals, firsts, fixed, Sweep(follows, notDone), r, i)
    {
      var flagged, grew;
      follows', flagged, grew := VisitOccurrence(nonterminals, firsts, follows', nonterminal, symbols, i);
      notDone' := notDone' || (if fixed then grew else flagged);
      i := i + 1;
    }
  }

  /** One pass over the rules from `follows`, as the source writes it or with the corrected flag. */
  method PassOver(rules: seq<Rule>, nonterminals: set<string>, firsts: Sets, fixed: bool, follows: Sets)
    returns (follows': Sets, notDone: bool)
    requires Inputs(rules, nonterminals, firsts) && follows.Keys == nonterminals
    ensures Sweep(follows', notDone) == Pass(rules, nonterminals, firsts, fixed, follows)
  {
    follows', notDone := follows, false;
    var k := 0;
    while k < |rules|
      invariant 0 <= k <= |rules|
      invariant Sweep(follows', notDone) == PassSweep(rules, nonterminals, firsts, fixed, Sweep(follows, false), k)
    {
      follows', notDone := SweepRule(nonterminals, firsts, fixed, follows', notDone, rules[k]);
      k := k + 1;
    }
  }

  /**
   * `collect_follows`: fails on a grammar without rules; otherwise starts
   * from `$` in FOLLOW of the first head and repeats passes while the
   * source's flag is raised.
   */
  method CollectFollows(rules: seq<Rule>, nonterminals: set<string>, firsts: Sets)
    returns (r: Result<Sets, FollowError>)
    requires Inputs(rules, nonterminals, firsts)
    ensures r == Follows(rules, nonterminals, firsts, false)
    ensures r.Success? ==>
      && r.value.Keys == nonterminals && EndMarker in r.value[rules[0].lhs]
      && forall q, j :: 0 <= q < |rules| && 0 <= j < |rules[q].Body()| && rules[q].Body()[j] in nonterminals ==>
           NextContribution(nonterminals, firsts, rules[q].Body(), j) <= r.value[rules[q].Body()[j]]
  {
    r := RunPasses(rules, nonterminals, firsts, false);
    StartFollowedByEnd(rules, nonterminals, firsts, false);
    FollowsNextClosed(rules, nonterminals, firsts, false);
  }

  /** The corrected `collect_follows`: the flag is raised by any growth, so the loop reaches the fixed point. */
  method CollectFollowsCorrected(rules: seq<Rule>, nonterminals: set<string>, firsts: Sets)
    returns (r: Result<Sets, FollowError>)
    requires Inputs(rules, nonterminals, firsts)
    ensures r == Follows(rules, nonterminals, firsts, true)
    ensures r.Success? ==> r.value.Keys == nonterminals && FollowClosed(rules, nonterminals, firsts, r.value)
  {
    r := RunPasses(rules, nonterminals, firsts, true);
    if r.Success? {
      CorrectedFollowsClosed(rules, nonterminals, firsts);
    }
  }

  /** The `while not_done` loop shared by both forms. */
  method RunPasses(rules: seq<Rule>, nonterminals: set<string>, firsts: Sets, fixed: bool)
    returns (r: Result<Sets, FollowError>)
    requires Inputs(rules, nonterminals, firsts)
    ensures r == Follows(rules, nonterminals, firsts, fixed)
  {
    if |rules| == 0 {
      return Failure(NoRules);
    }
    var follows: Sets := map nt | nt in nonterminals :: {};
    assert follows[rules[0].lhs] == {};
    follows := follows[rules[0].lhs := follows[rules[0].lhs] + {EndMarker}];
    assert follows == InitialFollows(rules, nonterminals) by {
      var init := InitialFollows(rules, nonterminals);
      assert follows.Keys == init.Keys;
      forall nt | nt in follows ensures follows[nt] == init[nt] {
      }
    }
    ghost var u := Universe(rules, firsts);
    ghost var result := Iterate(rules, nonterminals, firsts, fixed, follows);
    var notDone := true;
    while notDone
      invariant follows.Keys == nonterminals && Within(follows, u)
      invariant notDone ==> Iterate(rules, nonterminals, firsts, fixed, follows) == result
      invariant !notDone ==> follows == result
      decreases Missing(follows, nonterminals, u), if notDone then 1 else 0
    {
      ghost var before := follows;
      follows, notDone := PassOver(rules, nonterminals, firsts, fixed, follows);
      PassGrows(rules, nonterminals, firsts, fixed, before);
      MissingMonotone(before, follows, nonterminals, u);
      if notDone {
        MissingShrinks(before, follows, nonterminals, u);
      }
    }
    r := Success(follows);
  }

  // ---------------------------------------------------------------------------
  // The flag of collect_follows
  // ---------------------------------------------------------------------------

  /** The grammar `S -> y`, `A -> x B`, `S -> A c`, `B -> ''` and its FIRST sets. */
  function FlagGrammar(): seq<Rule> {
    [Rule("S", "y"), Rule("A", "x B"), Rule("S", "A c"), Rule("B", Epsilon)]
  }

  function FlagNonterminals(): set<string> {
    {"S", "A", "B"}
  }

  function FlagFirsts(): Sets {
    map["S" := {"y", "x"}, "A" := {"x"}, "B" := {Epsilon}]
  }

  /** The bodies of the four rules, as `split()` reads them. */
  lemma FlagBody0() ensures FlagGrammar()[0].Body() == ["y"] { SplitOneWord("y"); }
  lemma FlagBody1() ensures FlagGrammar()[1].Body() == ["x", "B"] { SplitTwoWords("x", "B"); }
  lemma FlagBody2() ensures FlagGrammar()[2].Body() == ["A", "c"] { SplitTwoWords("A", "c"); }
  lemma FlagBody3() ensures FlagGrammar()[3].Body() == [Epsilon] { SplitOneWord(Epsilon); }

  /** The first pass over the grammar starts from `{S: {$}}` ... */
  function FlagStart(): Sets {
    map["S" := {EndMarker}, "A" := {}, "B" := {}]
  }

  /** ... and ends with `c` in FOLLOW(A) only. */
  function FlagAfterPass(): Sets {
    map["S" := {EndMarker}, "A" := {"c"}, "B" := {}]
  }

  /** In the first pass, `A -> x B` changes nothing: FOLLOW(A) is still empty when B inherits it. */
  lemma FlagSecondRule()
    ensures RuleSweep(FlagNonterminals(), FlagFirsts(), false, Sweep(FlagStart(), false), FlagGrammar()[1],
                      |FlagGrammar()[1].Body()|) == Sweep(FlagStart(), false)
  {
    var rules, nts, firsts := FlagGrammar(), FlagNonterminals(), FlagFirsts();
    FlagBody1();
    var F := FlagStart();
    var st := Sweep(F, false);
    assert RuleSweep(nts, firsts, false, st, rules[1], 1) == st;
    assert OccStep(nts, firsts, F, "A", ["x", "B"], 1) == Occ(F, false, false) by {
      assert Inherited(firsts, F, "A", ["x", "B"], 1) == {};
      assert F["B"] + {} + {} == {};
      assert F["B" := {}] == F;
    }
  }

  /** `S -> A c` puts `c` into FOLLOW(A) without raising the flag. */
  lemma FlagThirdRule()
    ensures RuleSweep(FlagNonterminals(), FlagFirsts(), false, Sweep(FlagStart(), false), FlagGrammar()[2],
                      |FlagGrammar()[2].Body()|) == Sweep(FlagAfterPass(), false)
  {
    var rules, nts, firsts := FlagGrammar(), FlagNonterminals(), FlagFirsts();
    SplitTwoWords("A", "c");
    var F, F2 := FlagStart(), FlagAfterPass();
    assert OccStep(nts, firsts, F, "S", ["A", "c"], 0) == Occ(F2, false, true) by {
      FlagNextOfA();
      assert !Inherits(firsts, ["A", "c"], 0);
      assert F["A"] + {"c"} + {} == {"c"};
      assert F["A" := {"c"}] == F2;
    }
    assert RuleSweep(nts, firsts, false, Sweep(F, false), rules[2], 1) == Sweep(F2, false);
  }

  /**
   * As written, `collect_follows` stops after the first pass on this
   * grammar: `c` enters FOLLOW(A) only after `A -> x B` has been visited,
   * and adding it does not raise the flag, so FOLLOW(B) stays empty.
   */
  lemma {:induction false} FollowsAsWrittenStopsEarly()
    ensures Inputs(FlagGrammar(), FlagNonterminals(), FlagFirsts())
    ensures Follows(FlagGrammar(), FlagNonterminals(), FlagFirsts(), false) == Success(FlagAfterPass())
  {
    var rules, nts, firsts := FlagGrammar(), FlagNonterminals(), FlagFirsts();
    assert InitialFollows(rules, nts) == FlagStart();
    FlagFirstPass();
    assert |rules| == 4;
    FollowsAfterOnePass(rules, nts, firsts, false);
  }

  /** When the first pass does not raise the flag, FOLLOW is what that pass left. */
  lemma FollowsAfterOnePass(rules: seq<Rule>, nonterminals: set<string>, firsts: Sets, fixed: bool)
    requires Inputs(rules, nonterminals, firsts) && rules != []
    requires !Pass(rules, nonterminals, firsts, fixed, InitialFollows(rules, nonterminals)).notDone
    ensures Follows(rules, nonterminals, firsts, fixed)
         == Success(Pass(rules, nonterminals, firsts, fixed, InitialFollows(rules, nonterminals)).follows)
  {
    var F := InitialFollows(rules, nonterminals);
    assert Within(F, Universe(rules, firsts));
  }

  /** The first pass over the four rules, as written: growth but no flag. */
  lemma FlagFirstPass()
    ensures Inputs(FlagGrammar(), FlagNonterminals(), FlagFirsts())
    ensures PassSweep(FlagGrammar(), FlagNonterminals(), FlagFirsts(), false, Sweep(FlagStart(), false), 4)
         == Sweep(FlagAfterPass(), false)
  {
    FlagPassThree();
    FlagFourthRule();
  }

  /** `B -> ''` changes nothing. */
  lemma FlagFourthRule()
    ensures RuleSweep(FlagNonterminals(), FlagFirsts(), false, Sweep(FlagAfterPass(), false), FlagGrammar()[3],
                      |FlagGrammar()[3].Body()|) == Sweep(FlagAfterPass(), false)
  {
    FlagBody3();
  }

  /**
   * The first three rules: `S -> y` and `A -> x B` change nothing, and
   * `S -> A c` adds `c` to FOLLOW(A).
   */
  lemma FlagPassThree()
    ensures Inputs(FlagGrammar(), FlagNonterminals(), FlagFirsts())
    ensures PassSweep(FlagGrammar(), FlagNonterminals(), FlagFirsts(), false, Sweep(FlagStart(), false), 3)
         == Sweep(FlagAfterPass(), false)
  {
    var rules, nts, firsts := FlagGrammar(), FlagNonterminals(), FlagFirsts();
    assert Inputs(rules, nts, firsts);
    FlagBody0();
    FlagSecondRule();
    FlagThirdRule();
    var st := Sweep(FlagStart(), false);
    assert PassSweep(rules, nts, firsts, false, st, 1) == st;
    assert PassSweep(rules, nts, firsts, false, st, 2) == st;
  }

  /** The corrected loop puts `c` into FOLLOW(B), which the source's result leaves empty. */
  lemma FollowsCorrectedOnFlagGrammar()
    ensures Inputs(FlagGrammar(), FlagNonterminals(), FlagFirsts())
    ensures Follows(FlagGrammar(), FlagNonterminals(), FlagFirsts(), true).Success?
    ensures "B" in Follows(FlagGrammar(), FlagNonterminals(), FlagFirsts(), true).value
    ensures "c" in Follows(FlagGrammar(), FlagNonterminals(), FlagFirsts(), true).value["B"]
  {
    var rules, nts, firsts := FlagGrammar(), FlagNonterminals(), FlagFirsts();
    FlagBody1();
    FlagBody2();
    assert Inputs(rules, nts, firsts);
    CorrectedFollowsClosed(rules, nts, firsts);
    var r := Follows(rules, nts, firsts, true).value;
    assert OccClosed(nts, firsts, r, rules[2].lhs, rules[2].Body(), 0);
    assert OccClosed(nts, firsts, r, rules[1].lhs, rules[1].Body(), 1);
    FlagNextOfA();
  }

  /** In `S -> A c` the terminal `c` follows A. */
  lemma FlagNextOfA()
    ensures NextContribution(FlagNonterminals(), FlagFirsts(), ["A", "c"], 0) == {"c"}
  {
    assert "c" !in FlagNonterminals() by {
      assert "c"[0] != "S"[0] && "c"[0] != "A"[0] && "c"[0] != "B"[0];
    }
  }
}
