/** The condition mini-language of `ConditionUtil`: a text is split on ` AND `,
    then on ` OR `, and each remaining leaf is substituted by PlaceholderAPI and
    read as `<left><operator><right>`.

    PlaceholderAPI substitution for the player at hand is the parameter
    `papi`; `Double.parseDouble` is the parameter `num`, which yields `None`
    where Java throws `NumberFormatException`. */
module Condition {
  import opened Wrappers
  import opened Strings

  // ---------------------------------------------------------------------
  // The leaf pattern ([^<>=!]+)\s*([<>=!]+)\s*([^<>=!]+), searched with find()
  // ---------------------------------------------------------------------

  predicate IsOpChar(c: char) { c == '<' || c == '>' || c == '=' || c == '!' }

  predicate NoOpChars(s: string) { forall k :: 0 <= k < |s| ==> !IsOpChar(s[k]) }

  /** The end of the run starting at `i` of characters that are operator
      characters (`op`) or are not (`!op`). */
  function RunEnd(s: string, i: nat, op: bool): (j: nat)
    requires i <= |s|
    ensures i <= j <= |s|
    ensures forall k :: i <= k < j ==> IsOpChar(s[k]) == op
    ensures j < |s| ==> IsOpChar(s[j]) != op
    decreases |s| - i
  {
    if i < |s| && IsOpChar(s[i]) == op then RunEnd(s, i + 1, op) else i
  }

  lemma SliceNoOpChars(s: string, i: nat, n: nat)
    requires i + n <= |s| && NoOpChars(s)
    ensures NoOpChars(s[i..i + n])
  {
    var t := s[i..i + n];
    forall k | 0 <= k < |t| ensures !IsOpChar(t[k]) {
      assert t[k] == s[i + k];
    }
  }

  lemma TrimNoOpChars(t: string)
    requires NoOpChars(t)
    ensures NoOpChars(Trim(t))
  {
    SliceNoOpChars(t, TrimFrom(t), |Trim(t)|);
  }

  /** The groups cut from three consecutive runs keep their kind. */
  lemma RunSlices(s: string, a: nat, b: nat, c: nat, d: nat)
    requires a <= b <= c <= d <= |s|
    requires forall k :: a <= k < b ==> !IsOpChar(s[k])
    requires forall k :: b <= k < c ==> IsOpChar(s[k])
    requires forall k :: c <= k < d ==> !IsOpChar(s[k])
    ensures NoOpChars(Trim(s[a..b])) && NoOpChars(Trim(s[c..d]))
    ensures forall k :: 0 <= k < c - b ==> IsOpChar(s[b..c][k])
  {
    var l, r := s[a..b], s[c..d];
    forall k | 0 <= k < |l| ensures !IsOpChar(l[k]) {
      assert l[k] == s[a + k];
    }
    forall k | 0 <= k < |r| ensures !IsOpChar(r[k]) {
      assert r[k] == s[c + k];
    }
    TrimNoOpChars(l);
    TrimNoOpChars(r);
  }

  /** The three groups of a match, each trimmed. */
  datatype Leaf = Leaf(left: string, op: string, right: string)

  /** The pattern can match somewhere: a non-operator character, later an
      operator character, later again a non-operator character. */
  predicate HasMatch(s: string) {
    exists i, j, k :: 0 <= i < j < k < |s| && !IsOpChar(s[i]) && IsOpChar(s[j]) && !IsOpChar(s[k])
  }

  /** The first match: after any leading operator characters, the run of
      non-operator characters, the run of operator characters after it and the
      run of non-operator characters after that; the rest of the text is not
      looked at. Group 3 may lose leading white space to `\s*`, which `trim`
      removes anyway. */
  function ParseLeaf(s: string): (r: Option<Leaf>)
    ensures r.Some? ==> |r.value.op| > 0 && forall k :: 0 <= k < |r.value.op| ==> IsOpChar(r.value.op[k])
    ensures r.Some? ==> NoOpChars(r.value.left) && NoOpChars(r.value.right)
  {
    var a := RunEnd(s, 0, true);
    var b := RunEnd(s, a, false);
    var c := RunEnd(s, b, true);
    var d := RunEnd(s, c, false);
    if a < b && b < c && c < d then
      RunSlices(s, a, b, c, d);
      Some(Leaf(Trim(s[a..b]), s[b..c], Trim(s[c..d])))
    else
      None
  }

  /** `matcher.find()` fails exactly when the text has no
      non-operator / operator / non-operator sequence. */
  lemma ParseLeafFindsMatch(s: string)
    ensures ParseLeaf(s).Some? <==> HasMatch(s)
  {
    var a := RunEnd(s, 0, true);
    var b := RunEnd(s, a, false);
    var c := RunEnd(s, b, true);
    var d := RunEnd(s, c, false);
    if a < b && b < c && c < d {
      assert !IsOpChar(s[a]) && IsOpChar(s[b]) && !IsOpChar(s[c]);
    }
    if HasMatch(s) {
      var i, j, k :| 0 <= i < j < k < |s| && !IsOpChar(s[i]) && IsOpChar(s[j]) && !IsOpChar(s[k]);
      assert a <= i;
      assert a < b <= j;
      assert b < c <= k;
      assert c < d;
    }
  }

  // ---------------------------------------------------------------------
  // Comparing the two sides
  // ---------------------------------------------------------------------

  /** The six operators the `switch` statements know. */
  predicate IsOperator(op: string) {
    op == "==" || op == "!=" || op == ">" || op == "<" || op == ">=" || op == "<="
  }

  function CompareNumbers(op: string, x: real, y: real): bool {
    if op == "==" then x == y
    else if op == "!=" then x != y
    else if op == ">" then x > y
    else if op == "<" then x < y
    else if op == ">=" then x >= y
    else if op == "<=" then x <= y
    else false
  }

  /** Numeric comparison when both sides are numbers, case-insensitive
      (in)equality otherwise. */
  function CompareLeaf(l: Leaf, num: string -> Option<real>): (r: bool)
    ensures r ==> IsOperator(l.op)
    ensures (num(l.left).None? || num(l.right).None?) && l.op != "==" && l.op != "!=" ==> !r
    ensures num(l.left).Some? && num(l.right).Some? && l.op == "==" ==> (r <==> num(l.left) == num(l.right))
    ensures (num(l.left).None? || num(l.right).None?) && l.op == "==" ==> (r <==> EqualsIgnoreCase(l.left, l.right))
    ensures (num(l.left).None? || num(l.right).None?) && l.op == "!=" ==> (r <==> !EqualsIgnoreCase(l.left, l.right))
  {
    var x, y := num(l.left), num(l.right);
    if x.Some? && y.Some? then CompareNumbers(l.op, x.value, y.value)
    else if l.op == "==" then EqualsIgnoreCase(l.left, l.right)
    else if l.op == "!=" then !EqualsIgnoreCase(l.left, l.right)
    else false
  }

  /** A leaf after substitution: false when the pattern does not match. */
  function LeafHolds(text: string, num: string -> Option<real>): (r: bool)
    ensures !HasMatch(text) ==> !r
  {
    ParseLeafFindsMatch(text);
    match ParseLeaf(text)
    case None => false
    case Some(l) => CompareLeaf(l, num)
  }

  // ---------------------------------------------------------------------
  // evaluate / evaluateAll / evaluateAny
  // ---------------------------------------------------------------------

  const AND := " AND "
  const OR := " OR "

  /** `ConditionUtil.evaluate` on a non-null text. */
  function EvalText(c: string, papi: string -> string, num: string -> Option<real>): bool
    decreases |c|
  {
    if c == "" then true
    else if Contains(c, AND) then
      var parts := Split(c, AND);
      forall k :: 0 <= k < |parts| ==> EvalText(Trim(parts[k]), papi, num)
    else if Contains(c, OR) then
      var parts := Split(c, OR);
      exists k :: 0 <= k < |parts| && EvalText(Trim(parts[k]), papi, num)
    else
      LeafHolds(papi(c), num)
  }

  /** `ConditionUtil.evaluate`; a null condition holds. */
  function Evaluate(c: Option<string>, papi: string -> string, num: string -> Option<real>): (r: bool)
    ensures c == None || c == Some("") ==> r
  {
    match c
    case None => true
    case Some(t) => EvalText(t, papi, num)
  }

  /** `ConditionUtil.evaluateAll`: every condition holds (vacuously for a
      null or empty list). */
  function EvaluateAll(cs: Option<seq<string>>, papi: string -> string, num: string -> Option<real>): (r: bool)
    ensures r <==> cs == None || forall k :: 0 <= k < |cs.value| ==> EvalText(cs.value[k], papi, num)
  {
    match cs
    case None => true
    case Some(list) => AllHold(list, papi, num)
  }

  function AllHold(cs: seq<string>, papi: string -> string, num: string -> Option<real>): (r: bool)
    ensures r <==> forall k :: 0 <= k < |cs| ==> EvalText(cs[k], papi, num)
  {
    if cs == [] then true
    else if !EvalText(cs[0], papi, num) then false
    else
      var rest := AllHold(cs[1..], papi, num);
      assert forall k :: 1 <= k < |cs| ==> cs[k] == cs[1..][k - 1];
      rest
  }

  /** `ConditionUtil.evaluateAny`: some condition holds, except that a null or
      empty list holds too. */
  function EvaluateAny(cs: Option<seq<string>>, papi: string -> string, num: string -> Option<real>): (r: bool)
    ensures r <==> cs == None || |cs.value| == 0 || exists k :: 0 <= k < |cs.value| && EvalText(cs.value[k], papi, num)
  {
    match cs
    case None => true
    case Some(list) => list == [] || SomeHolds(list, papi, num)
  }

  function SomeHolds(cs: seq<string>, papi: string -> string, num: string -> Option<real>): (r: bool)
    ensures r <==> exists k :: 0 <= k < |cs| && EvalText(cs[k], papi, num)
  {
    if cs == [] then false
    else if EvalText(cs[0], papi, num) then true
    else
      var rest := SomeHolds(cs[1..], papi, num);
      assert forall k :: 1 <= k < |cs| ==> cs[k] == cs[1..][k - 1];
      rest
  }

  // ---------------------------------------------------------------------
  // The structure of a condition, independent of any substitution
  // ---------------------------------------------------------------------

  /** A condition as a tree: the connectives come from the raw text only. */
  datatype Expr = Always | Test(text: string) | All(parts: seq<Expr>) | Any(parts: seq<Expr>)

  /** The tree read off the raw text, without PlaceholderAPI. */
  function Parse(c: string): Expr
    decreases |c|
  {
    if c == "" then Always
    else if Contains(c, AND) then
      var parts := Split(c, AND);
      All(seq(|parts|, k requires 0 <= k < |parts| => Parse(Trim(parts[k]))))
    else if Contains(c, OR) then
      var parts := Split(c, OR);
      Any(seq(|parts|, k requires 0 <= k < |parts| => Parse(Trim(parts[k]))))
    else
      Test(c)
  }

  /** The meaning of a tree: leaves are substituted and compared. */
  function Eval(e: Expr, papi: string -> string, num: string -> Option<real>): bool {
    match e
    case Always => true
    case Test(t) => LeafHolds(papi(t), num)
    case All(es) => forall k :: 0 <= k < |es| ==> Eval(es[k], papi, num)
    case Any(es) => exists k :: 0 <= k < |es| && Eval(es[k], papi, num)
  }

  /** Evaluating the text is evaluating its tree. */
  lemma {:induction false} EvalTextIsEvalParse(c: string, papi: string -> string, num: string -> Option<real>)
    ensures EvalText(c, papi, num) == Eval(Parse(c), papi, num)
    decreases |c|
  {
    if c != "" && Contains(c, AND) {
      var parts := Split(c, AND);
      var es := Parse(c).parts;
      assert |es| == |parts|;
      forall k | 0 <= k < |parts|
        ensures EvalText(Trim(parts[k]), papi, num) == Eval(es[k], papi, num)
      {
        assert es[k] == Parse(Trim(parts[k]));
        EvalTextIsEvalParse(Trim(parts[k]), papi, num);
      }
    } else if c != "" && Contains(c, OR) {
      var parts := Split(c, OR);
      var es := Parse(c).parts;
      assert |es| == |parts|;
      forall k | 0 <= k < |parts|
        ensures EvalText(Trim(parts[k]), papi, num) == Eval(es[k], papi, num)
      {
        assert es[k] == Parse(Trim(parts[k]));
        EvalTextIsEvalParse(Trim(parts[k]), papi, num);
      }
    }
  }

  /** A leaf text: non-empty and free of both connectives. */
  predicate IsLeafText(t: string) {
    t != "" && !Contains(t, AND) && !Contains(t, OR)
  }

  predicate Simple(e: Expr) {
    e.Always? || (e.Test? && IsLeafText(e.text))
  }

  predicate Disjunction(e: Expr) {
    Simple(e) || (e.Any? && forall k :: 0 <= k < |e.parts| ==> Simple(e.parts[k]))
  }

  /** A conjunction of disjunctions of leaves: ` OR ` binds tighter than
      ` AND `, and no connective nests deeper. */
  predicate Normal(e: Expr) {
    Disjunction(e) || (e.All? && forall k :: 0 <= k < |e.parts| ==> Disjunction(e.parts[k]))
  }

  lemma ContainsTrimmed(s: string, p: string)
    ensures Contains(Trim(s), p) ==> Contains(s, p)
  {
    var u := Trim(s);
    var from := TrimFrom(s);
    if Contains(u, p) {
      var i: nat :| i <= |u| && OccursAt(u, p, i);
      var to := TrimTo(s);
      assert u == s[from..to] && i + |p| <= to - from;
      var w, v := s[from + i..from + i + |p|], u[i..i + |p|];
      forall k | 0 <= k < |p| ensures w[k] == v[k] {
        assert u[i + k] == s[from + i + k];
      }
      assert w == v;
      assert OccursAt(s, p, from + i);
    }
  }

  /** A text without ` AND ` parses to a disjunction of leaves. */
  lemma ParseWithoutAnd(c: string)
    requires !Contains(c, AND)
    ensures Disjunction(Parse(c))
  {
    if c != "" && Contains(c, OR) {
      var parts := Split(c, OR);
      forall k | 0 <= k < |parts| ensures Simple(Parse(Trim(parts[k]))) {
        var p := parts[k];
        SplitPieceFree(c, OR, AND, k);
        ContainsTrimmed(p, AND);
        ContainsTrimmed(p, OR);
      }
    }
  }

  /** A piece of a split keeps the absence of any other word. */
  lemma SplitPieceFree(c: string, d: string, w: string, k: nat)
    requires |d| > 0 && !Contains(c, w) && k < |Split(c, d)|
    ensures !Contains(Split(c, d)[k], w)
  {
    if Contains(c, d) {
      var raw := SplitRaw(c, d);
      SplitRawPiecesWithout(c, d, w);
      assert Split(c, d)[k] == raw[k];
    }
  }

  /** No piece of a raw split holds a word the text does not hold. */
  lemma {:induction false} SplitRawPiecesWithout(s: string, d: string, w: string)
    requires |d| > 0 && !Contains(s, w)
    ensures forall k :: 0 <= k < |SplitRaw(s, d)| ==> !Contains(SplitRaw(s, d)[k], w)
    decreases |s|
  {
    if |s| >= |d| {
      if s[..|d|] == d {
        ContainsDrop(s, w, |d|);
        SplitRawPiecesWithout(s[|d|..], d, w);
        assert !Contains("", w) by { ContainsDrop(s, w, |s|); assert s[|s|..] == ""; }
      } else {
        ContainsTail(s, w);
        SplitRawPiecesWithout(s[1..], d, w);
        var t := SplitRaw(s[1..], d);
        var head := [s[0]] + t[0];
        SplitRawFirst(s[1..], d);
        assert StartsWith(s, head);
        forall i: nat | i <= |head| ensures !OccursAt(head, w, i) {
          OccursInPrefix(s, head, w, i);
        }
      }
    }
  }

  /** Every condition text has the shape of a conjunction of disjunctions. */
  lemma ParseIsNormal(c: string)
    ensures Normal(Parse(c))
  {
    if c != "" && Contains(c, AND) {
      var parts := Split(c, AND);
      forall k | 0 <= k < |parts| ensures Disjunction(Parse(Trim(parts[k]))) {
        ContainsTrimmed(parts[k], AND);
        ParseWithoutAnd(Trim(parts[k]));
      }
    } else {
      ParseWithoutAnd(c);
    }
  }

  /** Two substitutions that agree on every leaf of the tree. */
  predicate AgreeOn(e: Expr, papi1: string -> string, papi2: string -> string) {
    match e
    case Always => true
    case Test(t) => papi1(t) == papi2(t)
    case All(es) => forall k :: 0 <= k < |es| ==> AgreeOn(es[k], papi1, papi2)
    case Any(es) => forall k :: 0 <= k < |es| ==> AgreeOn(es[k], papi1, papi2)
  }

  lemma {:induction false} EvalLocal(e: Expr, papi1: string -> string, papi2: string -> string, num: string -> Option<real>)
    requires AgreeOn(e, papi1, papi2)
    ensures Eval(e, papi1, num) == Eval(e, papi2, num)
  {
    match e
    case Always =>
    case Test(t) =>
    case All(es) =>
      forall k | 0 <= k < |es| ensures Eval(es[k], papi1, num) == Eval(es[k], papi2, num) {
        EvalLocal(es[k], papi1, papi2, num);
      }
    case Any(es) =>
      forall k | 0 <= k < |es| ensures Eval(es[k], papi1, num) == Eval(es[k], papi2, num) {
        EvalLocal(es[k], papi1, papi2, num);
      }
  }

  /** Splitting happens on the raw text before substitution: the outcome only
      depends on what PlaceholderAPI makes of the raw leaf texts, so a
      substituted value can never introduce a connective. */
  lemma SubstitutionOnlyAtLeaves(c: string, papi1: string -> string, papi2: string -> string, num: string -> Option<real>)
    requires AgreeOn(Parse(c), papi1, papi2)
    ensures EvalText(c, papi1, num) == EvalText(c, papi2, num)
  {
    EvalTextIsEvalParse(c, papi1, num);
    EvalTextIsEvalParse(c, papi2, num);
    EvalLocal(Parse(c), papi1, papi2, num);
  }
}
