/**
 * Grammar lines of the form `LHS -> S1 .. Sn`, as every stage of the front end
 * reads them: `left, right = line.split('->')`, the head `left.strip()` and
 * the body `right.strip().split()`.
 */
module Grammar {
  import opened Wrappers
  import opened Text

  /** The marker the grammar writes for an empty production. */
  const Epsilon: string := "''"

  /** The end-of-input symbol of the LL(1) table and of the parser. */
  const EndMarker: string := "$"

  /** A grammar line split at its arrow, both sides stripped. */
  datatype Rule = Rule(lhs: string, rhs: string)
  {
    /** The production body, `rhs.strip().split()`. */
    function Body(): seq<string> {
      SplitWords(rhs)
    }

    /** The text `f"{lhs} -> {rhs}"` that the LL(1) table stores in its cells. */
    function Text(): string {
      lhs + " -> " + rhs
    }
  }

  /** The `ValueError` of `left, right = line.split('->')` on a line without exactly one arrow. */
  datatype RuleError = MalformedRule(line: string)

  /** `line` is `a -> b` with its only arrow at `k`, and `r` holds the stripped sides. */
  predicate SidesAt(line: string, k: nat, r: Rule) {
    && ArrowAt(line, k)
    && !HasArrow(line[..k]) && !HasArrow(line[k + 2..])
    && r == Rule(Strip(line[..k]), Strip(line[k + 2..]))
  }

  /** `line` holds at least two arrows that do not overlap. */
  predicate TwoArrows(line: string) {
    exists k :: 0 <= k < |line| && ArrowAt(line, k) && HasArrow(line[k + 2..])
  }

  /** The head and body of one grammar line: `left, right = line.split('->')`, both sides stripped. */
  function ParseRule(line: string): Result<Rule, RuleError> {
    var parts := SplitArrow(line);
    if |parts| == 2 then Success(Rule(Strip(parts[0]), Strip(parts[1]))) else Failure(MalformedRule(line))
  }

  /**
   * A line parses exactly when it holds one arrow, and then the rule holds
   * its stripped sides; the unpacking fails on a line with no arrow and on
   * one with two or more.
   */
  lemma ParseRuleSides(line: string)
    ensures ParseRule(line).Success? ==> exists k :: 0 <= k < |line| && SidesAt(line, k, ParseRule(line).value)
    ensures ParseRule(line).Failure? ==>
      ParseRule(line).error == MalformedRule(line) && (!HasArrow(line) || TwoArrows(line))
  {
    if |SplitArrow(line)| == 2 {
      SplitArrowTwo(line);
    } else {
      SplitArrowNotTwo(line);
    }
  }

  lemma SplitArrowTwo(line: string)
    requires |SplitArrow(line)| == 2
    ensures exists k :: 0 <= k < |line| && SidesAt(line, k, Rule(Strip(SplitArrow(line)[0]), Strip(SplitArrow(line)[1])))
  {
    match FirstArrow(line, 0)
    case None =>
    case Some(k) =>
      var tail := line[k + 2..];
      assert SplitArrow(line) == [line[..k]] + SplitArrow(tail);
      assert !HasArrow(tail);
      assert SplitArrow(tail) == [tail];
      assert SplitArrow(line)[0] == line[..k];
      assert SidesAt(line, k, Rule(Strip(SplitArrow(line)[0]), Strip(SplitArrow(line)[1])));
  }

  lemma SplitArrowNotTwo(line: string)
    requires |SplitArrow(line)| != 2
    ensures !HasArrow(line) || TwoArrows(line)
  {
    match FirstArrow(line, 0)
    case None =>
    case Some(k) =>
      var tail := line[k + 2..];
      assert SplitArrow(line) == [line[..k]] + SplitArrow(tail);
      assert HasArrow(tail);
  }

  /** A piece of an arrow-free string is arrow-free. */
  lemma NoArrowInside(s: string, i: nat, r: string)
    requires !HasArrow(s) && i + |r| <= |s| && s[i..i + |r|] == r
    ensures !HasArrow(r)
  {
    forall j | 0 <= j < |r| && ArrowAt(r, j) ensures false {
      assert ArrowAt(s, i + j);
    }
  }

  /** Stripping an arrow-free string leaves it arrow-free. */
  lemma StripNoArrow(s: string)
    requires !HasArrow(s)
    ensures !HasArrow(Strip(s))
  {
    var r := Strip(s);
    var i :| 0 <= i <= |s| && PaddedAt(s, i, r);
    NoArrowInside(s, i, r);
  }

  /** A successfully parsed line has stripped, arrow-free sides. */
  lemma {:induction false} ParsedRuleShape(line: string)
    requires ParseRule(line).Success?
    ensures IsStripped(ParseRule(line).value.lhs) && IsStripped(ParseRule(line).value.rhs)
    ensures !HasArrow(ParseRule(line).value.lhs) && !HasArrow(ParseRule(line).value.rhs)
  {
    var r := ParseRule(line).value;
    ParseRuleSides(line);
    var k :| 0 <= k < |line| && SidesAt(line, k, r);
    StripNoArrow(line[..k]);
    StripNoArrow(line[k + 2..]);
  }

  /** A rule whose sides are stripped and arrow-free is read back from its table text. */
  lemma {:induction false} RuleTextRoundTrip(r: Rule)
    requires IsStripped(r.lhs) && IsStripped(r.rhs) && !HasArrow(r.lhs) && !HasArrow(r.rhs)
    ensures ParseRule(r.Text()) == Success(r)
  {
    var a, b := r.lhs + " ", " " + r.rhs;
    assert !HasArrow(" ") by { assert forall k :: !ArrowAt(" ", k); }
    NoArrowAppend(r.lhs, " ");
    NoArrowAppend(" ", r.rhs);
    assert r.Text() == a + "->" + b;
    SplitArrowAround(a, b);
    assert SplitArrow(r.Text()) == [a, b];
    StripPadded(r.lhs);
    StripPadded(r.rhs);
  }

  /** So the text that the table stores for a parsed line parses back to the same rule. */
  lemma {:induction false} ParsedRuleTextRoundTrip(line: string)
    requires ParseRule(line).Success?
    ensures ParseRule(ParseRule(line).value.Text()) == ParseRule(line)
  {
    ParsedRuleShape(line);
    RuleTextRoundTrip(ParseRule(line).value);
  }

  /** The heads of the rules, `{rule.lhs}`. */
  function Heads(rules: seq<Rule>): set<string> {
    set r | r in rules :: r.lhs
  }

  /** Every symbol that occurs in some rule body. */
  function BodySymbols(rules: seq<Rule>): set<string> {
    set r, s | r in rules && s in r.Body() :: s
  }
}
