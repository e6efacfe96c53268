/**
 * The few pieces of Python string handling the front end relies on: `strip()`,
 * `split()` on whitespace, `split('->')`, `' '.join`, the `TYPE:value` token
 * split and the regular-expression prefix test used for token matching.
 */
module Text {
  import opened Wrappers

  /** Python's `str.isspace()` on one character. */
  predicate IsSpace(c: char) {
    || c == ' ' || c == '\t' || c == '\n' || c == '\r' || c == '\U{000B}' || c == '\U{000C}'
    || ('\U{001C}' <= c <= '\U{001F}') || c == '\U{0085}' || c == '\U{00A0}' || c == '\U{1680}'
    || ('\U{2000}' <= c <= '\U{200A}') || c == '\U{2028}' || c == '\U{2029}' || c == '\U{202F}'
    || c == '\U{205F}' || c == '\U{3000}'
  }

  predicate NoSpace(s: string) {
    forall i :: 0 <= i < |s| ==> !IsSpace(s[i])
  }

  predicate AllSpace(s: string) {
    forall i :: 0 <= i < |s| ==> IsSpace(s[i])
  }

  /** A string that `strip()` leaves alone. */
  predicate IsStripped(s: string) {
    s == [] || (!IsSpace(s[0]) && !IsSpace(s[|s| - 1]))
  }

  /** The index of the first non-whitespace character at or after `lo`. */
  function StripStart(s: string, lo: nat): (b: nat)
    requires lo <= |s|
    ensures lo <= b <= |s|
    ensures forall k :: lo <= k < b ==> IsSpace(s[k])
    ensures b == |s| || !IsSpace(s[b])
    decreases |s| - lo
  {
    if lo < |s| && IsSpace(s[lo]) then StripStart(s, lo + 1) else lo
  }

  /** One past the last non-whitespace character in `s[lo..hi]`, or `lo` if there is none. */
  function StripEnd(s: string, lo: nat, hi: nat): (e: nat)
    requires lo <= hi <= |s|
    ensures lo <= e <= hi
    ensures forall k :: e <= k < hi ==> IsSpace(s[k])
    ensures e == lo || !IsSpace(s[e - 1])
    decreases hi
  {
    if lo < hi && IsSpace(s[hi - 1]) then StripEnd(s, lo, hi - 1) else hi
  }

  /** `s` is whitespace, then `r` starting at index `i`, then whitespace. */
  predicate PaddedAt(s: string, i: nat, r: string) {
    && i + |r| <= |s| && s[i..i + |r|] == r
    && (forall k :: 0 <= k < i ==> IsSpace(s[k]))
    && (forall k :: i + |r| <= k < |s| ==> IsSpace(s[k]))
  }

  /**
   * Python's `str.strip()`: the input is some whitespace, the result, and some
   * more whitespace, and the result neither starts nor ends with whitespace.
   */
  function Strip(s: string): (r: string)
    ensures IsStripped(r)
    ensures exists i :: 0 <= i <= |s| && PaddedAt(s, i, r)
  {
    var b := StripStart(s, 0);
    var e := StripEnd(s, b, |s|);
    assert e > b ==> !IsSpace(s[b]);
    assert PaddedAt(s, b, s[b..e]);
    s[b..e]
  }

  lemma StrippedIsFixed(s: string)
    requires IsStripped(s)
    ensures Strip(s) == s
  {
  }

  /** A single leading or trailing blank, as `f"{a} -> {b}"` adds, is removed again by `strip()`. */
  lemma StripPadded(s: string)
    requires IsStripped(s)
    ensures Strip(" " + s) == s && Strip(s + " ") == s
  {
    var p := " " + s;
    assert StripStart(p, 0) == StripStart(p, 1);
    assert StripEnd(s + " ", 0, |s| + 1) == StripEnd(s + " ", 0, |s|);
  }

  /** The longest prefix of `s` that holds no whitespace. */
  function TakeWord(s: string): (w: string)
    ensures |w| <= |s| && w == s[..|w|] && NoSpace(w)
    ensures |w| == |s| || IsSpace(s[|w|])
  {
    if s == [] || IsSpace(s[0]) then [] else [s[0]] + TakeWord(s[1..])
  }

  predicate IsWord(w: string) {
    w != [] && NoSpace(w)
  }

  /** Python's `str.split()` with no separator: the maximal runs of non-whitespace, in order. */
  function SplitWords(s: string): seq<string>
    decreases |s|
  {
    if s == [] then []
    else if IsSpace(s[0]) then SplitWords(s[1..])
    else
      var w := TakeWord(s);
      [w] + SplitWords(s[|w|..])
  }

  /** Every piece of the split is a word, and there is none exactly when `s` is blank. */
  lemma {:induction false} SplitWordsShape(s: string)
    ensures forall i :: 0 <= i < |SplitWords(s)| ==> IsWord(SplitWords(s)[i])
    ensures AllSpace(s) <==> SplitWords(s) == []
    decreases |s|
  {
    if s == [] {
    } else if IsSpace(s[0]) {
      SplitWordsShape(s[1..]);
      assert AllSpace(s) <==> AllSpace(s[1..]) by {
        if AllSpace(s[1..]) {
          forall k | 0 <= k < |s| ensures IsSpace(s[k]) { if k > 0 { assert s[k] == s[1..][k - 1]; } }
        }
      }
    } else {
      var w := TakeWord(s);
      SplitWordsShape(s[|w|..]);
      assert w[0] == s[0];
    }
  }

  /** Python's `sep.join(parts)`. */
  function Join(parts: seq<string>, sep: string): string {
    if parts == [] then ""
    else if |parts| == 1 then parts[0]
    else parts[0] + sep + Join(parts[1..], sep)
  }

  lemma TakeWordOfJoin(w: string, rest: string)
    requires NoSpace(w)
    requires rest == [] || IsSpace(rest[0])
    ensures TakeWord(w + rest) == w
  {
    if w != [] {
      assert (w + rest)[1..] == w[1..] + rest;
      TakeWordOfJoin(w[1..], rest);
    }
  }

  /** A word followed by nothing or by whitespace is the first piece of the split. */
  lemma SplitWordsCons(w: string, rest: string)
    requires IsWord(w)
    requires rest == [] || IsSpace(rest[0])
    ensures SplitWords(w + rest) == [w] + SplitWords(rest)
  {
    var s := w + rest;
    assert s[0] == w[0];
    TakeWordOfJoin(w, rest);
    assert s[|w|..] == rest;
  }

  lemma SplitWordsBlank(s: string)
    ensures SplitWords(" " + s) == SplitWords(s)
  {
    assert (" " + s)[1..] == s;
  }

  lemma SplitWordsSpaced(w: string, j: string)
    requires IsWord(w)
    ensures SplitWords(w + (" " + j)) == [w] + SplitWords(j)
  {
    SplitWordsCons(w, " " + j);
    SplitWordsBlank(j);
  }

  /** A no-break space or an ideographic space separates and pads words as a blank does, as in Python. */
  lemma UnicodeSpaceSeparates()
    ensures SplitWords("A\U{00A0}x\U{3000}") == ["A", "x"]
    ensures Strip("\U{00A0}A\U{3000}") == "A"
  {
    SplitWordsCons("A", "\U{00A0}x\U{3000}");
    assert ("\U{00A0}x\U{3000}")[1..] == "x\U{3000}";
    SplitWordsCons("x", "\U{3000}");
    assert ("\U{3000}")[1..] == "";
    var p := "\U{00A0}A\U{3000}";
    assert StripStart(p, 0) == 1;
    assert StripEnd(p, 1, 3) == 2;
  }

  lemma JoinCons(ws: seq<string>, sep: string)
    requires |ws| >= 2
    ensures Join(ws, sep) == ws[0] + (sep + Join(ws[1..], sep))
  {
  }

  /** Splitting a blank-joined list of words gives the words back. */
  lemma {:induction false} SplitWordsOfJoin(ws: seq<string>)
    requires forall i :: 0 <= i < |ws| ==> IsWord(ws[i])
    ensures SplitWords(Join(ws, " ")) == ws
  {
    if ws == [] {
    } else if |ws| == 1 {
      SplitWordsCons(ws[0], "");
      assert ws[0] + "" == ws[0];
      assert SplitWords("") == [];
      assert ws == [ws[0]];
    } else {
      var j := Join(ws[1..], " ");
      JoinCons(ws, " ");
      SplitWordsSpaced(ws[0], j);
      SplitWordsOfJoin(ws[1..]);
      assert ws == [ws[0]] + ws[1..];
    }
  }

  /** A single word splits into itself. */
  lemma SplitOneWord(w: string)
    requires IsWord(w)
    ensures SplitWords(w) == [w]
  {
    SplitWordsOfJoin([w]);
  }

  /** Two words with one blank between them split into the two words. */
  lemma SplitTwoWords(v: string, w: string)
    requires IsWord(v) && IsWord(w)
    ensures SplitWords(v + " " + w) == [v, w]
  {
    SplitWordsOfJoin([v, w]);
    assert Join([v, w], " ") == v + " " + w by { assert [v, w][1..] == [w]; }
  }

  /** The separator of a grammar line, `->`, starts at position `k` of `s`. */
  predicate ArrowAt(s: string, k: int) {
    0 <= k && k + 1 < |s| && s[k] == '-' && s[k + 1] == '>'
  }

  /** Python's `'->' in s`. */
  predicate HasArrow(s: string) {
    exists k :: 0 <= k < |s| && ArrowAt(s, k)
  }

  function FirstArrow(s: string, from: nat): (r: Option<nat>)
    ensures r.Some? ==> from <= r.value && ArrowAt(s, r.value)
    ensures r.Some? ==> forall k :: from <= k < r.value ==> !ArrowAt(s, k)
    ensures r.None? ==> forall k :: from <= k ==> !ArrowAt(s, k)
    decreases |s| - from
  {
    if from + 1 >= |s| then None
    else if s[from] == '-' && s[from + 1] == '>' then Some(from)
    else FirstArrow(s, from + 1)
  }

  /** Python's `s.split('->')`: the pieces between the arrows, none holding an arrow. */
  function SplitArrow(s: string): (parts: seq<string>)
    ensures |parts| >= 1
    ensures forall i :: 0 <= i < |parts| ==> !HasArrow(parts[i])
    ensures !HasArrow(s) ==> parts == [s]
    ensures HasArrow(s) ==> |parts| >= 2
    decreases |s|
  {
    match FirstArrow(s, 0)
    case None => [s]
    case Some(k) =>
      var head := s[..k];
      assert !HasArrow(head) by {
        forall j | ArrowAt(head, j) ensures false { assert ArrowAt(s, j); }
      }
      [head] + SplitArrow(s[k + 2..])
  }

  /** Joining the pieces with `->` restores the line. */
  lemma {:induction false} SplitArrowJoin(s: string)
    ensures Join(SplitArrow(s), "->") == s
    decreases |s|
  {
    match FirstArrow(s, 0)
    case None =>
    case Some(k) =>
      var tail := s[k + 2..];
      SplitArrowJoin(tail);
      var rest := SplitArrow(tail);
      assert SplitArrow(s) == [s[..k]] + rest;
      assert Join(SplitArrow(s), "->") == s[..k] + "->" + Join(rest, "->");
      assert s == s[..k] + "->" + tail;
  }

  lemma NoArrowAppend(a: string, b: string)
    requires !HasArrow(a) && !HasArrow(b)
    requires a == [] || b == [] || a[|a| - 1] != '-' || b[0] != '>'
    ensures !HasArrow(a + b)
  {
    forall k | ArrowAt(a + b, k) ensures false {
      if k + 1 < |a| {
        assert ArrowAt(a, k);
      } else if k >= |a| {
        assert ArrowAt(b, k - |a|);
      }
    }
  }

  /** Splitting `a -> b` where `a` holds no arrow gives `a` and then the pieces of `b`. */
  lemma SplitArrowAround(a: string, b: string)
    requires !HasArrow(a)
    ensures SplitArrow(a + "->" + b) == [a] + SplitArrow(b)
  {
    var s := a + "->" + b;
    assert ArrowAt(s, |a|);
    forall k | 0 <= k < |a| ensures !ArrowAt(s, k) {
      if k + 1 < |a| {
        assert ArrowAt(s, k) ==> ArrowAt(a, k);
      }
    }
    assert FirstArrow(s, 0) == Some(|a|);
    assert s[..|a|] == a && s[|a| + 2..] == b;
  }

  /** Python's `s.startswith(p)`; also what `re.match(p + ':.*', s)` tests when `p` holds no pattern characters. */
  predicate HasPrefix(s: string, p: string) {
    |p| <= |s| && s[..|p|] == p
  }

  function CountChar(s: string, c: char): nat {
    if s == [] then 0 else (if s[0] == c then 1 else 0) + CountChar(s[1..], c)
  }

  /** The position of the first `c` in `s`, or `|s|` when there is none. */
  function IndexOfChar(s: string, c: char): (k: nat)
    ensures k <= |s|
    ensures k < |s| ==> s[k] == c
    ensures forall j :: 0 <= j < k ==> s[j] != c
  {
    if s == [] then 0 else if s[0] == c then 0 else 1 + IndexOfChar(s[1..], c)
  }

  lemma CountCharAppend(a: string, b: string, c: char)
    ensures CountChar(a + b, c) == CountChar(a, c) + CountChar(b, c)
  {
    if a != [] {
      assert (a + b)[0] == a[0];
      assert (a + b)[1..] == a[1..] + b;
      CountCharAppend(a[1..], b, c);
    } else {
      assert a + b == b;
    }
  }

  lemma IndexOfCharAppend(a: string, b: string, c: char)
    requires forall j :: 0 <= j < |a| ==> a[j] != c
    ensures IndexOfChar(a + b, c) == |a| + IndexOfChar(b, c)
  {
    if a != [] {
      assert (a + b)[0] == a[0];
      assert (a + b)[1..] == a[1..] + b;
      IndexOfCharAppend(a[1..], b, c);
    } else {
      assert a + b == b;
    }
  }

  lemma CountCharZero(s: string, c: char)
    ensures CountChar(s, c) == 0 <==> forall j :: 0 <= j < |s| ==> s[j] != c
  {
    if s != [] {
      CountCharZero(s[1..], c);
      assert forall j :: 1 <= j < |s| ==> s[j] == s[1..][j - 1];
    }
  }

  /** A token in the `TYPE:value` wire form holds exactly one colon, so `split(':')` yields two parts. */
  predicate WellFormedToken(t: string) {
    CountChar(t, ':') == 1
  }

  /** The part before the colon (`token.split(':')[0]`). */
  function TokenType(t: string): string
    requires WellFormedToken(t)
  {
    t[..IndexOfChar(t, ':')]
  }

  /** The part after the colon (`token.split(':')[1]`). */
  function TokenValue(t: string): string
    requires WellFormedToken(t)
  {
    CountCharZero(t, ':');
    t[IndexOfChar(t, ':') + 1..]
  }

  /**
   * A well-formed token that `re.match(f'{s}:.*', token)` accepts has type `s`,
   * and the token is `s`, a colon and its value.
   */
  lemma {:induction false} MatchedTokenType(t: string, s: string)
    requires WellFormedToken(t) && HasPrefix(t, s + ":")
    ensures TokenType(t) == s && t == s + ":" + TokenValue(t)
  {
    var rest := t[|s| + 1..];
    assert t == s + ":" + rest;
    CountCharAppend(s + ":", rest, ':');
    CountCharAppend(s, ":", ':');
    assert CountChar(":", ':') == 1;
    CountCharZero(s, ':');
    IndexOfCharAppend(s, ":" + rest, ':');
    assert t == s + (":" + rest);
    assert IndexOfChar(t, ':') == |s|;
  }

  function DigitChar(d: nat): char
    requires d < 10
  {
    "0123456789"[d]
  }

  /** Python's `str(n)` for a natural number, as in the node identifiers `f'N{n}'`. */
  function NatToString(n: nat): (s: string)
    ensures s != [] && forall i :: 0 <= i < |s| ==> '0' <= s[i] <= '9'
  {
    if n < 10 then [DigitChar(n)] else NatToString(n / 10) + [DigitChar(n % 10)]
  }

  function DigitsValue(s: string): nat
    requires forall i :: 0 <= i < |s| ==> '0' <= s[i] <= '9'
  {
    if s == [] then 0 else 10 * DigitsValue(s[..|s| - 1]) + ((s[|s| - 1] as int) - ('0' as int))
  }

  /** Reading the decimal digits back gives the number, so distinct numbers print differently. */
  lemma {:induction false} NatToStringRoundTrip(n: nat)
    ensures DigitsValue(NatToString(n)) == n
  {
    if n >= 10 {
      NatToStringRoundTrip(n / 10);
      var s := NatToString(n);
      assert s[..|s| - 1] == NatToString(n / 10);
    }
  }

  lemma NatToStringInjective(m: nat, n: nat)
    requires NatToString(m) == NatToString(n)
    ensures m == n
  {
    NatToStringRoundTrip(m);
    NatToStringRoundTrip(n);
  }
}
