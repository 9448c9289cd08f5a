/**
  `getComparator` (index.js:120-142): the condition string is matched against
  the regular expression `/([<>=]*)(\d+)/`, which is neither anchored nor
  global, and the operator group selects one of six relational tests on the
  number the digit group spells.
 */
module Comparator {
  import opened Wrappers
  import opened JsText

  datatype Op = Eq | Neq | Lt | Lte | Gt | Gte

  /** A comparator of the engine's factory: a relational test against a threshold. */
  datatype Cmp = Cmp(op: Op, threshold: nat)

  /** Whether a column value passes the comparator. */
  predicate Matches(c: Cmp, x: real) {
    var t := c.threshold as real;
    match c.op
    case Eq => x == t
    case Neq => x != t
    case Lt => x < t
    case Lte => x <= t
    case Gt => x > t
    case Gte => x >= t
  }

  /** The character class `[<>=]`; `!` is not in it. */
  predicate IsOpChar(c: char) {
    c == '<' || c == '>' || c == '='
  }

  /** One successful `exec`: where the match starts and the text of its two groups. */
  datatype RegexMatch = RegexMatch(index: nat, ops: string, digits: string)

  /**
    The attempt of the regular expression at position `p`. The greedy `[<>=]*`
    first takes the maximal run of operator characters; backtracking to a
    shorter run would leave an operator character where `\d` must match, so
    the attempt succeeds exactly when that maximal run is followed by a digit.
   */
  function MatchAt(s: string, p: nat): (r: Option<RegexMatch>)
    requires p <= |s|
    ensures r.Some? <==>
      exists k :: p <= k < |s| && IsDigit(s[k]) && forall i :: p <= i < k ==> IsOpChar(s[i])
    ensures r.Some? ==>
      && r.value.index == p
      && p + |r.value.ops| < |s|
      && p + |r.value.ops| + |r.value.digits| <= |s|
      && r.value.ops == s[p..p + |r.value.ops|]
      && r.value.digits == s[p + |r.value.ops|..p + |r.value.ops| + |r.value.digits|]
  {
    var k := RunEnd(s, p, IsOpChar);
    if k < |s| && IsDigit(s[k]) then
      Some(RegexMatch(p, s[p..k], s[k..RunEnd(s, k, IsDigit)]))
    else
      assert forall k' :: p <= k' < |s| && IsDigit(s[k']) ==> k < k' && !IsOpChar(s[k]);
      None
  }

  /** `exec` from position `p` on: the attempts are made left to right and the first success wins. */
  function ExecFrom(s: string, p: nat): (r: Option<RegexMatch>)
    requires p <= |s|
    ensures r.None? ==> forall q :: p <= q <= |s| ==> MatchAt(s, q).None?
    ensures r.Some? ==>
      && p <= r.value.index <= |s|
      && MatchAt(s, r.value.index) == r
      && forall q :: p <= q < r.value.index ==> MatchAt(s, q).None?
    decreases |s| - p
  {
    match MatchAt(s, p)
    case Some(m) => Some(m)
    case None => if p == |s| then None else ExecFrom(s, p + 1)
  }

  /** `/([<>=]*)(\d+)/.exec(s)`. */
  function Exec(s: string): Option<RegexMatch> {
    ExecFrom(s, 0)
  }

  /** There is a match exactly when the string holds a digit. */
  lemma ExecFindsDigit(s: string)
    ensures Exec(s).None? <==> forall i :: 0 <= i < |s| ==> !IsDigit(s[i])
  {
    if Exec(s).None? {
      forall i | 0 <= i < |s|
        ensures !IsDigit(s[i])
      {
        assert MatchAt(s, i).None?;
      }
    }
  }

  /**
    The leftmost match is the first digit run of the string together with the
    maximal run of operator characters directly before it.
   */
  lemma ExecFindsFirstDigitRun(s: string, m: RegexMatch)
    requires Exec(s) == Some(m)
    ensures m.index + |m.ops| < |s|
    ensures forall i :: 0 <= i < m.index + |m.ops| ==> !IsDigit(s[i])
    ensures m.ops == s[m.index..m.index + |m.ops|]
    ensures forall i :: m.index <= i < m.index + |m.ops| ==> IsOpChar(s[i])
    ensures m.index == 0 || !IsOpChar(s[m.index - 1])
    ensures |m.digits| > 0 && m.index + |m.ops| + |m.digits| <= |s|
    ensures m.digits == s[m.index + |m.ops|..m.index + |m.ops| + |m.digits|]
    ensures forall i :: m.index + |m.ops| <= i < m.index + |m.ops| + |m.digits| ==> IsDigit(s[i])
    ensures m.index + |m.ops| + |m.digits| == |s| || !IsDigit(s[m.index + |m.ops| + |m.digits|])
    ensures forall i :: 0 <= i < |m.digits| ==> IsDigit(m.digits[i])
  {
    MatchShape(s, m);
    MatchLeftmost(s, m);
  }

  /** A successful attempt is a maximal operator run followed by a maximal, non-empty digit run. */
  lemma MatchShape(s: string, m: RegexMatch)
    requires m.index <= |s| && MatchAt(s, m.index) == Some(m)
    ensures m.index + |m.ops| < |s|
    ensures m.ops == s[m.index..m.index + |m.ops|]
    ensures forall i :: m.index <= i < m.index + |m.ops| ==> IsOpChar(s[i])
    ensures |m.digits| > 0 && m.index + |m.ops| + |m.digits| <= |s|
    ensures m.digits == s[m.index + |m.ops|..m.index + |m.ops| + |m.digits|]
    ensures forall i :: m.index + |m.ops| <= i < m.index + |m.ops| + |m.digits| ==> IsDigit(s[i])
    ensures m.index + |m.ops| + |m.digits| == |s| || !IsDigit(s[m.index + |m.ops| + |m.digits|])
    ensures forall i :: 0 <= i < |m.digits| ==> IsDigit(m.digits[i])
  {
    var p := m.index;
    var k := RunEnd(s, p, IsOpChar);
    assert k < |s| && IsDigit(s[k]);
    assert m.ops == s[p..k] && k == p + |m.ops|;
    var e := RunEnd(s, k, IsDigit);
    assert m.digits == s[k..e];
    assert k + |m.digits| == e;
  }

  /** The leftmost success: no digit lies before its digit run, and no operator character directly before it. */
  lemma MatchLeftmost(s: string, m: RegexMatch)
    requires Exec(s) == Some(m)
    ensures m.index + |m.ops| <= |s|
    ensures forall i :: 0 <= i < m.index + |m.ops| ==> !IsDigit(s[i])
    ensures m.index == 0 || !IsOpChar(s[m.index - 1])
  {
    var p := m.index;
    var k := RunEnd(s, p, IsOpChar);
    assert MatchAt(s, p) == Some(m);
    assert k == p + |m.ops|;
    forall i | 0 <= i < k
      ensures !IsDigit(s[i])
    {
      if i < p {
        assert MatchAt(s, i).None?;
      } else {
        assert IsOpChar(s[i]);
      }
    }
    if p > 0 {
      assert MatchAt(s, p - 1).None?;
    }
  }

  /** The `switch` on the operator group, `!=` included although the class never yields `!`. */
  function OpOf(ops: string): Option<Op> {
    if ops == "" || ops == "=" || ops == "==" then Some(Eq)
    else if ops == "!=" then Some(Neq)
    else if ops == "<" then Some(Lt)
    else if ops == "<=" then Some(Lte)
    else if ops == ">" then Some(Gt)
    else if ops == ">=" then Some(Gte)
    else None
  }

  /**
    `getComparator`: `None` is the `null` return. The threshold is the value of
    the digit group, which `parseFloat` reads as a decimal integer. No string
    yields the not-equal comparator.
   */
  function ParseComparator(s: string): (r: Option<Cmp>)
    ensures r.Some? ==> r.value.op != Neq
    ensures r.Some? ==> exists i :: 0 <= i < |s| && IsDigit(s[i])
  {
    ExecFindsDigit(s);
    match Exec(s)
    case None => None
    case Some(m) =>
      ExecFindsFirstDigitRun(s, m);
      match OpOf(m.ops)
      case None => None
      case Some(op) =>
        assert m.ops != "!=" by {
          assert |m.ops| == 2 ==> IsOpChar(m.ops[0]);
        }
        assert IsDigit(s[m.index + |m.ops|]);
        assert forall i :: 0 <= i < |m.digits| ==> IsRadixDigit(m.digits[i], 10);
        Some(Cmp(op, NumeralValue(m.digits, 10)))
  }

  /**
    Text around the condition does not matter: a prefix without digits that
    does not end in an operator character, and a suffix that does not
    continue the digit run, leave the match on the operator run and the
    digit run between them.
   */
  lemma ExecInContext(pre: string, ops: string, digits: string, post: string)
    requires forall i :: 0 <= i < |pre| ==> !IsDigit(pre[i])
    requires |pre| == 0 || !IsOpChar(pre[|pre| - 1])
    requires forall i :: 0 <= i < |ops| ==> IsOpChar(ops[i])
    requires |digits| > 0 && forall i :: 0 <= i < |digits| ==> IsDigit(digits[i])
    requires |post| == 0 || !IsDigit(post[0])
    ensures Exec(pre + ops + digits + post) == Some(RegexMatch(|pre|, ops, digits))
  {
    var s := pre + ops + digits + post;
    var d := |pre| + |ops|;
    var e := d + |digits|;
    assert s[|pre|..d] == ops && s[d..e] == digits;
    LayoutFacts(s, pre, ops, digits, post);
    ExecOnLayout(s, |pre|, d, e);
  }

  /**
    The match on a string laid out as digit-free text not ending in an
    operator character, an operator run `[a, d)`, and a maximal digit run
    `[d, e)`.
   */
  lemma ExecOnLayout(s: string, a: nat, d: nat, e: nat)
    requires a <= d < e <= |s|
    requires forall i :: 0 <= i < d ==> !IsDigit(s[i])
    requires forall i :: a <= i < d ==> IsOpChar(s[i])
    requires a == 0 || !IsOpChar(s[a - 1])
    requires forall i :: d <= i < e ==> IsDigit(s[i])
    requires e == |s| || !IsDigit(s[e])
    ensures Exec(s) == Some(RegexMatch(a, s[a..d], s[d..e]))
  {
    MatchAtLayout(s, a, d, e);
    forall q | 0 <= q < a
      ensures MatchAt(s, q).None?
    {
      NoMatchBeforeLayout(s, a, d, q);
    }
  }

  /** The attempt at the start of the operator run succeeds with that run and the digit run. */
  lemma MatchAtLayout(s: string, a: nat, d: nat, e: nat)
    requires a <= d < e <= |s|
    requires forall i :: a <= i < d ==> IsOpChar(s[i])
    requires forall i :: d <= i < e ==> IsDigit(s[i])
    requires e == |s| || !IsDigit(s[e])
    ensures MatchAt(s, a) == Some(RegexMatch(a, s[a..d], s[d..e]))
  {
    var k := RunEnd(s, a, IsOpChar);
    assert IsDigit(s[d]);
    assert k == d;
    MaximalRunsAgree(s, d, RunEnd(s, d, IsDigit), e);
  }

  /** An attempt before the operator run fails: its operator run stops at a character that is no digit. */
  lemma NoMatchBeforeLayout(s: string, a: nat, d: nat, q: nat)
    requires q < a <= d <= |s|
    requires forall i :: 0 <= i < d ==> !IsDigit(s[i])
    requires !IsOpChar(s[a - 1])
    ensures MatchAt(s, q).None?
  {
    var k := RunEnd(s, q, IsOpChar);
    assert k < a;
  }

  /** Two maximal digit runs from the same position end at the same place. */
  lemma MaximalRunsAgree(s: string, d: nat, f: nat, e: nat)
    requires d <= f <= |s| && d <= e <= |s|
    requires forall i :: d <= i < f ==> IsDigit(s[i])
    requires forall i :: d <= i < e ==> IsDigit(s[i])
    requires f == |s| || !IsDigit(s[f])
    requires e == |s| || !IsDigit(s[e])
    ensures f == e
  {
  }

  /** Where the parts of a concatenated condition string lie. */
  lemma LayoutFacts(s: string, pre: string, ops: string, digits: string, post: string)
    requires s == pre + ops + digits + post
    requires forall i :: 0 <= i < |pre| ==> !IsDigit(pre[i])
    requires |pre| == 0 || !IsOpChar(pre[|pre| - 1])
    requires forall i :: 0 <= i < |ops| ==> IsOpChar(ops[i])
    requires |digits| > 0 && forall i :: 0 <= i < |digits| ==> IsDigit(digits[i])
    requires |post| == 0 || !IsDigit(post[0])
    ensures forall i :: 0 <= i < |pre| + |ops| ==> !IsDigit(s[i])
    ensures forall i :: |pre| <= i < |pre| + |ops| ==> IsOpChar(s[i])
    ensures |pre| == 0 || !IsOpChar(s[|pre| - 1])
    ensures forall i :: |pre| + |ops| <= i < |pre| + |ops| + |digits| ==> IsDigit(s[i])
    ensures |s| == |pre| + |ops| + |digits| || !IsDigit(s[|pre| + |ops| + |digits|])
  {
    forall i | 0 <= i < |pre| + |ops|
      ensures !IsDigit(s[i])
    {
      if i < |pre| {
        assert s[i] == pre[i];
      } else {
        assert s[i] == ops[i - |pre|];
      }
    }
    forall i | |pre| <= i < |pre| + |ops|
      ensures IsOpChar(s[i])
    {
      assert s[i] == ops[i - |pre|];
    }
    forall i | |pre| + |ops| <= i < |pre| + |ops| + |digits|
      ensures IsDigit(s[i])
    {
      assert s[i] == digits[i - |pre| - |ops|];
    }
    if |pre| > 0 {
      assert s[|pre| - 1] == pre[|pre| - 1];
    }
    if |s| > |pre| + |ops| + |digits| {
      assert s[|pre| + |ops| + |digits|] == post[0];
    }
  }

  /**
    Text around the condition is ignored when it cannot take part in the
    match: digit-free text before it that does not end in `<`, `>` or `=`,
    and text after it that does not start with a digit.
   */
  lemma ParseIgnoresContext(pre: string, ops: string, digits: string, post: string)
    requires forall i :: 0 <= i < |pre| ==> !IsDigit(pre[i])
    requires |pre| == 0 || !IsOpChar(pre[|pre| - 1])
    requires forall i :: 0 <= i < |ops| ==> IsOpChar(ops[i])
    requires |digits| > 0 && forall i :: 0 <= i < |digits| ==> IsDigit(digits[i])
    requires |post| == 0 || !IsDigit(post[0])
    ensures ParseComparator(pre + ops + digits + post) == ParseComparator(ops + digits)
  {
    ExecInContext(pre, ops, digits, post);
    ParseFromMatch(pre + ops + digits + post, RegexMatch(|pre|, ops, digits));
    ExecInContext([], ops, digits, []);
    assert [] + ops + digits + [] == ops + digits;
    ParseFromMatch(ops + digits, RegexMatch(0, ops, digits));
  }

  /** The comparator is determined by the match: its operator run and its digit run. */
  lemma ParseFromMatch(s: string, m: RegexMatch)
    requires Exec(s) == Some(m)
    ensures forall i :: 0 <= i < |m.digits| ==> IsRadixDigit(m.digits[i], 10)
    ensures ParseComparator(s) ==
      if OpOf(m.ops).Some? then Some(Cmp(OpOf(m.ops).value, NumeralValue(m.digits, 10))) else None
  {
    ExecFindsFirstDigitRun(s, m);
  }

  /**
    The operator table of `getComparator`: no prefix, `=` and `==` give
    equality, `<`, `<=`, `>` and `>=` the matching order test, and every
    other run of operator characters is rejected. The threshold is the
    value of the digit run.
   */
  lemma ParseOperatorTable(ops: string, digits: string)
    requires forall i :: 0 <= i < |ops| ==> IsOpChar(ops[i])
    requires |digits| > 0 && forall i :: 0 <= i < |digits| ==> IsDigit(digits[i])
    ensures forall i :: 0 <= i < |digits| ==> IsRadixDigit(digits[i], 10)
    ensures ops == "" || ops == "=" || ops == "==" ==>
      ParseComparator(ops + digits) == Some(Cmp(Eq, NumeralValue(digits, 10)))
    ensures ops == "<" ==> ParseComparator(ops + digits) == Some(Cmp(Lt, NumeralValue(digits, 10)))
    ensures ops == "<=" ==> ParseComparator(ops + digits) == Some(Cmp(Lte, NumeralValue(digits, 10)))
    ensures ops == ">" ==> ParseComparator(ops + digits) == Some(Cmp(Gt, NumeralValue(digits, 10)))
    ensures ops == ">=" ==> ParseComparator(ops + digits) == Some(Cmp(Gte, NumeralValue(digits, 10)))
    ensures ops !in {"", "=", "==", "<", "<=", ">", ">="} ==> ParseComparator(ops + digits) == None
  {
    ParseOperatorDigits(ops, digits);
    if ops !in {"", "=", "==", "<", "<=", ">", ">="} {
      assert ops != "!=" by {
        assert |ops| == 2 ==> IsOpChar(ops[0]);
      }
    }
  }

  lemma ParseOperatorDigits(ops: string, digits: string)
    requires forall i :: 0 <= i < |ops| ==> IsOpChar(ops[i])
    requires |digits| > 0 && forall i :: 0 <= i < |digits| ==> IsDigit(digits[i])
    ensures forall i :: 0 <= i < |digits| ==> IsRadixDigit(digits[i], 10)
    ensures ParseComparator(ops + digits) ==
      if OpOf(ops).Some? then Some(Cmp(OpOf(ops).value, NumeralValue(digits, 10))) else None
  {
    ExecInContext([], ops, digits, []);
    assert [] + ops + digits + [] == ops + digits;
    ParseFromMatch(ops + digits, RegexMatch(0, ops, digits));
  }

  /** A string without a digit has no comparator. */
  lemma NoDigitNoComparator(s: string)
    requires forall i :: 0 <= i < |s| ==> !IsDigit(s[i])
    ensures ParseComparator(s) == None
  {
    ExecFindsDigit(s);
  }

  /**
    `!=n` is read as `=n`: the `!` lies outside the operator class, so the
    match starts after it and yields equality, never the not-equal test.
   */
  lemma NotEqualReadAsEqual(digits: string)
    requires |digits| > 0 && forall i :: 0 <= i < |digits| ==> IsDigit(digits[i])
    ensures forall i :: 0 <= i < |digits| ==> IsRadixDigit(digits[i], 10)
    ensures ParseComparator("!=" + digits) == Some(Cmp(Eq, NumeralValue(digits, 10)))
  {
    var pre, ops := "!", "=";
    assert !IsOpChar(pre[0]) && !IsDigit(pre[0]);
    var s := "!=" + digits;
    assert s == pre + ops + digits + "" by {
      assert pre + ops == "!=";
      assert pre + ops + digits + "" == (pre + ops) + digits;
    }
    ParseIgnoresContext(pre, ops, digits, "");
    ParseOperatorTable(ops, digits);
  }

  /** The fraction of `n.m` is dropped: the digit run stops at the point. */
  lemma FractionDropped(n: nat, m: nat)
    ensures ParseComparator(Decimal(n) + "." + Decimal(m)) == Some(Cmp(Eq, n))
  {
    var post := "." + Decimal(m);
    assert !IsDigit(post[0]);
    ParseIgnoresContext("", "", Decimal(n), post);
    assert "" + "" + Decimal(n) + post == Decimal(n) + "." + Decimal(m);
    ParseOperatorTable("", Decimal(n));
    assert "" + Decimal(n) == Decimal(n);
    DecimalRoundTrip(n);
  }

  /** Operator runs outside the table, such as `<>`, `=<` and `<<`, are rejected. */
  lemma UnknownOperatorsRejected(n: nat)
    ensures ParseComparator("<>" + Decimal(n)) == None
    ensures ParseComparator("=<" + Decimal(n)) == None
    ensures ParseComparator("<<" + Decimal(n)) == None
  {
    ParseOperatorTable("<>", Decimal(n));
    ParseOperatorTable("=<", Decimal(n));
    ParseOperatorTable("<<", Decimal(n));
  }

  /**
    A condition written as an operator and a decimal number yields a
    comparator that accepts exactly the values in the operator's relation
    to that number.
   */
  lemma ParsedComparatorSemantics(ops: string, n: nat, x: real)
    requires ops in {"", "=", "==", "<", "<=", ">", ">="}
    ensures ParseComparator(ops + Decimal(n)).Some?
    ensures ops == "" || ops == "=" || ops == "==" ==>
      (Matches(ParseComparator(ops + Decimal(n)).value, x) <==> x == n as real)
    ensures ops == "<" ==> (Matches(ParseComparator(ops + Decimal(n)).value, x) <==> x < n as real)
    ensures ops == "<=" ==> (Matches(ParseComparator(ops + Decimal(n)).value, x) <==> x <= n as real)
    ensures ops == ">" ==> (Matches(ParseComparator(ops + Decimal(n)).value, x) <==> x > n as real)
    ensures ops == ">=" ==> (Matches(ParseComparator(ops + Decimal(n)).value, x) <==> x >= n as real)
  {
    assert forall i :: 0 <= i < |ops| ==> IsOpChar(ops[i]);
    ParseOperatorTable(ops, Decimal(n));
    DecimalRoundTrip(n);
  }
}
