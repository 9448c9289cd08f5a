/**
  Limit resolution (index.js:59-60): `parseInt(query.limit) || 1000`, then
  any value outside 1..1000 falls back to 1000.
 */
module Limits {
  import opened Wrappers
  import opened JsText
  import opened Request

  const DefaultLimit: nat := 1000

  /** The string with its leading white space and line terminators removed. */
  function TrimStart(s: string): (r: string)
    ensures |r| <= |s| && r == s[|s| - |r|..]
    ensures forall i :: 0 <= i < |s| - |r| ==> IsJsSpace(s[i])
    ensures |r| == 0 || !IsJsSpace(r[0])
  {
    if |s| > 0 && IsJsSpace(s[0]) then TrimStart(s[1..]) else s
  }

  /** The value of the longest numeral of the radix at the start of `w`, `None` when there is none. */
  function LeadingNumeral(w: string, hex: bool): Option<nat> {
    var k := if hex then RunEnd(w, 0, IsHexDigit) else RunEnd(w, 0, IsDigit);
    if k == 0 then None else Some(NumeralValue(w[..k], if hex then 16 else 10))
  }

  /** An unsigned numeral: a `0x` or `0X` prefix selects radix 16, otherwise radix 10. */
  function ParseUnsigned(u: string): Option<nat> {
    if |u| >= 2 && u[0] == '0' && (u[1] == 'x' || u[1] == 'X') then LeadingNumeral(u[2..], true)
    else LeadingNumeral(u, false)
  }

  /** One optional sign, then an unsigned numeral. */
  function ParseSigned(t: string): Option<int> {
    if |t| > 0 && t[0] == '-' then
      match ParseUnsigned(t[1..])
      case None => None
      case Some(m) => Some(-(m as int))
    else if |t| > 0 && t[0] == '+' then
      match ParseUnsigned(t[1..])
      case None => None
      case Some(m) => Some(m as int)
    else
      match ParseUnsigned(t)
      case None => None
      case Some(m) => Some(m as int)
  }

  /**
    `parseInt(s)` with no radix, `None` for `NaN`: leading white space is
    skipped, one sign is taken, a `0x` or `0X` prefix selects radix 16, and
    the longest run of digits of the radix that follows is read.
   */
  function ParseInt(s: string): (r: Option<int>)
    ensures var t := TrimStart(s);
      |t| == 0 || (t[0] != '+' && t[0] != '-' && !IsDigit(t[0])) ==> r.None?
    ensures r.Some? && r.value < 0 ==> TrimStart(s)[0] == '-'
  {
    var t := TrimStart(s);
    SignedNaN(t);
    ParseSigned(t)
  }

  /** Text that starts with neither a sign nor a digit is `NaN`; only a minus sign gives a negative value. */
  lemma SignedNaN(t: string)
    ensures |t| == 0 || (t[0] != '+' && t[0] != '-' && !IsDigit(t[0])) ==> ParseSigned(t).None?
    ensures ParseSigned(t).Some? && ParseSigned(t).value < 0 ==> t[0] == '-'
  {
    if |t| > 0 && t[0] != '+' && t[0] != '-' {
      assert ParseSigned(t) == ParseUnsigned(t);
    }
  }

  /**
    The effective limit: the parsed integer when it lies in 1..1000, and
    1000 for `NaN`, zero, negative values and values above 1000.
   */
  function EffectiveLimit(parsed: Option<int>): (limit: nat)
    ensures 1 <= limit <= DefaultLimit
    ensures parsed.Some? && 1 <= parsed.value <= DefaultLimit ==> limit == parsed.value
    ensures !(parsed.Some? && 1 <= parsed.value <= DefaultLimit) ==> limit == DefaultLimit
  {
    var first := if parsed.None? || parsed.value == 0 then DefaultLimit else parsed.value;
    if first <= 0 || first > DefaultLimit then DefaultLimit else first
  }

  /**
    The limit of a query, from its `limit` property: the integer `parseInt`
    reads from it when that lies in 1..1000, and 1000 otherwise.
   */
  function ResolveLimit(q: Query): (limit: nat)
    ensures 1 <= limit <= DefaultLimit
    ensures var parsed := ParseInt(ToJsString(Lookup(q, "limit")));
      && (parsed.Some? && 1 <= parsed.value <= DefaultLimit ==> limit == parsed.value)
      && (!(parsed.Some? && 1 <= parsed.value <= DefaultLimit) ==> limit == DefaultLimit)
  {
    EffectiveLimit(ParseInt(ToJsString(Lookup(q, "limit"))))
  }

  /**
    `parseInt` reads a decimal numeral back as its value, whatever white
    space precedes it, whatever sign it carries and whatever text follows
    that does not continue it.
   */
  lemma ParseIntDecimal(space: string, sign: string, n: nat, rest: string)
    requires forall i :: 0 <= i < |space| ==> IsJsSpace(space[i])
    requires sign == "" || sign == "+" || sign == "-"
    requires |rest| == 0 || (!IsDigit(rest[0]) && rest[0] != 'x' && rest[0] != 'X')
    ensures ParseInt(space + sign + Decimal(n) + rest) == Some(if sign == "-" then -(n as int) else n)
  {
    var ds := Decimal(n);
    var u := ds + rest;
    var t := sign + u;
    assert space + sign + ds + rest == space + t;
    assert u[0] == ds[0];
    SignedStart(sign, u);
    TrimStartSkipsSpace(space, t);
    UnsignedDecimal(n, rest);
    SignedUnsigned(sign, u, n);
    assert ParseInt(space + t) == ParseSigned(t);
  }

  /** A sign followed by a digit does not start with white space. */
  lemma SignedStart(sign: string, u: string)
    requires sign == "" || sign == "+" || sign == "-"
    requires |u| > 0 && IsDigit(u[0])
    ensures !IsJsSpace((sign + u)[0])
  {
    if sign == "" {
      assert (sign + u)[0] == u[0];
    } else {
      assert (sign + u)[0] == sign[0];
    }
  }

  lemma SignedUnsigned(sign: string, u: string, m: nat)
    requires sign == "" || sign == "+" || sign == "-"
    requires |u| > 0 && IsDigit(u[0]) && ParseUnsigned(u) == Some(m)
    ensures ParseSigned(sign + u) == Some(if sign == "-" then -(m as int) else m as int)
  {
    var t := sign + u;
    if sign == "" {
      assert t == u;
    } else {
      assert t[1..] == u && t[0] == sign[0];
    }
  }

  lemma UnsignedDecimal(n: nat, rest: string)
    requires |rest| == 0 || (!IsDigit(rest[0]) && rest[0] != 'x' && rest[0] != 'X')
    ensures ParseUnsigned(Decimal(n) + rest) == Some(n)
  {
    var ds := Decimal(n);
    var u := ds + rest;
    assert !(|u| >= 2 && u[0] == '0' && (u[1] == 'x' || u[1] == 'X')) by {
      if |ds| == 1 {
        assert |u| >= 2 ==> u[1] == rest[0];
      } else {
        assert u[0] == ds[0];
      }
    }
    LeadingDecimal(n, rest);
  }

  /** The leading numeral of a rendered number followed by text that does not continue it is that number. */
  lemma LeadingDecimal(n: nat, rest: string)
    requires |rest| == 0 || !IsDigit(rest[0])
    ensures LeadingNumeral(Decimal(n) + rest, false) == Some(n)
  {
    var ds := Decimal(n);
    var u := ds + rest;
    DecimalRoundTrip(n);
    var k := RunEnd(u, 0, IsDigit);
    assert forall i :: 0 <= i < |ds| ==> u[i] == ds[i];
    assert |u| > |ds| ==> u[|ds|] == rest[0];
    assert forall i :: 0 <= i < |ds| ==> IsDigit(u[i]);
    assert k == |ds|;
    assert u[..k] == ds;
  }

  lemma {:induction false} TrimStartSkipsSpace(space: string, s: string)
    requires forall i :: 0 <= i < |space| ==> IsJsSpace(space[i])
    requires |s| == 0 || !IsJsSpace(s[0])
    ensures TrimStart(space + s) == s
  {
    if |space| > 0 {
      assert (space + s)[1..] == space[1..] + s;
      TrimStartSkipsSpace(space[1..], s);
    } else {
      assert space + s == s;
    }
  }

  /** Text that starts with neither white space, a sign nor a digit is `NaN`. */
  lemma ParseIntNaN(s: string)
    requires |s| > 0 && !IsJsSpace(s[0]) && s[0] != '+' && s[0] != '-' && !IsDigit(s[0])
    ensures ParseInt(s) == None
  {
    assert TrimStart(s) == s;
    assert RunEnd(s, 0, IsDigit) == 0;
    assert !(|s| >= 2 && s[0] == '0');
  }

  /** A missing `limit` is `parseInt(undefined)`, which is `NaN`: the limit is 1000. */
  lemma MissingLimitIsDefault(q: Query)
    requires forall i :: 0 <= i < |q| ==> q[i].0 != "limit"
    ensures ResolveLimit(q) == DefaultLimit
  {
    var text := ToJsString(Lookup(q, "limit"));
    assert text == "undefined";
    ParseIntNaN(text);
  }

  /** A `limit` written as a decimal number is used when it lies in 1..1000 and replaced by 1000 otherwise. */
  lemma DecimalLimit(q1: Query, n: nat, q2: Query)
    requires forall i :: 0 <= i < |q1| ==> q1[i].0 != "limit"
    ensures ResolveLimit(q1 + [("limit", Str(Decimal(n)))] + q2) == if 1 <= n <= DefaultLimit then n else DefaultLimit
  {
    LookupFindsFirst(q1, "limit", Str(Decimal(n)), q2);
    ParseIntOfDecimal(n);
  }

  /** A rendered number parses back to itself. */
  lemma ParseIntOfDecimal(n: nat)
    ensures ParseInt(Decimal(n)) == Some(n as int)
  {
    var ds := Decimal(n);
    assert TrimStart(ds) == ds by {
      assert IsDigit(ds[0]);
    }
    UnsignedDecimal(n, "");
    assert ds + "" == ds;
    assert ParseSigned(ds) == ParseUnsigned(ds);
  }

  lemma {:induction false} LookupFindsFirst(q1: Query, key: string, v: QueryValue, q2: Query)
    requires forall i :: 0 <= i < |q1| ==> q1[i].0 != key
    ensures Lookup(q1 + [(key, v)] + q2, key) == Some(v)
  {
    if |q1| > 0 {
      assert (q1 + [(key, v)] + q2)[1..] == q1[1..] + [(key, v)] + q2;
      LookupFindsFirst(q1[1..], key, v, q2);
    } else {
      assert q1 + [(key, v)] + q2 == [(key, v)] + q2;
    }
  }

  /**
    A `0x` or `0X` prefix makes `parseInt` read the longest hexadecimal
    numeral that follows in radix 16.
   */
  lemma ParseIntHex(x: char, digits: string, rest: string)
    requires x == 'x' || x == 'X'
    requires |digits| > 0 && forall i :: 0 <= i < |digits| ==> IsRadixDigit(digits[i], 16)
    requires |rest| == 0 || !IsRadixDigit(rest[0], 16)
    ensures ParseInt(['0', x] + (digits + rest)) == Some(NumeralValue(digits, 16) as int)
  {
    var w := digits + rest;
    var s := ['0', x] + w;
    TrimStartDigit(s);
    assert s[2..] == w;
    LeadingHex(digits, rest);
    assert ParseUnsigned(s) == Some(NumeralValue(digits, 16));
    SignlessReadsUnsigned(s, NumeralValue(digits, 16));
    assert ParseInt(s) == ParseSigned(s);
  }

  /** Text that starts with a digit has no white space to skip. */
  lemma TrimStartDigit(s: string)
    requires |s| > 0 && IsDigit(s[0])
    ensures TrimStart(s) == s
  {
    assert !IsJsSpace(s[0]);
  }

  /** Text without a sign is read as an unsigned numeral. */
  lemma SignlessReadsUnsigned(u: string, m: nat)
    requires |u| > 0 && u[0] != '-' && u[0] != '+'
    requires ParseUnsigned(u) == Some(m)
    ensures ParseSigned(u) == Some(m as int)
  {
  }

  /** The leading hexadecimal numeral of a run of hexadecimal digits followed by text that does not continue it is that run. */
  lemma LeadingHex(digits: string, rest: string)
    requires |digits| > 0 && forall i :: 0 <= i < |digits| ==> IsRadixDigit(digits[i], 16)
    requires |rest| == 0 || !IsRadixDigit(rest[0], 16)
    ensures LeadingNumeral(digits + rest, true) == Some(NumeralValue(digits, 16))
  {
    var w := digits + rest;
    assert forall i :: 0 <= i < |digits| ==> w[i] == digits[i];
    assert |w| > |digits| ==> w[|digits|] == rest[0];
    assert RunEnd(w, 0, IsHexDigit) == |digits|;
    assert w[..|digits|] == digits;
  }

  /**
    A `limit` written in hexadecimal with a `0x` or `0X` prefix is read in
    radix 16, and then checked against 1..1000 like any other value.
   */
  lemma HexLimit(q1: Query, x: char, digits: string, q2: Query)
    requires forall i :: 0 <= i < |q1| ==> q1[i].0 != "limit"
    requires x == 'x' || x == 'X'
    requires |digits| > 0 && forall i :: 0 <= i < |digits| ==> IsRadixDigit(digits[i], 16)
    ensures var n := NumeralValue(digits, 16);
      ResolveLimit(q1 + [("limit", Str(['0', x] + digits))] + q2) == if 1 <= n <= DefaultLimit then n else DefaultLimit
  {
    ParseIntHex(x, digits, "");
    assert digits + "" == digits;
    LookupFindsFirst(q1, "limit", Str(['0', x] + digits), q2);
  }

  /**
    A repeated `limit` parameter is the list of its values; `String` joins
    them with commas, and `parseInt` stops at the first comma, so the first
    value decides.
   */
  lemma RepeatedLimitReadsFirst(q1: Query, n: nat, more: seq<string>, q2: Query)
    requires forall i :: 0 <= i < |q1| ==> q1[i].0 != "limit"
    requires |more| > 0
    ensures ResolveLimit(q1 + [("limit", Arr([Decimal(n)] + more))] + q2) == if 1 <= n <= DefaultLimit then n else DefaultLimit
  {
    var items := [Decimal(n)] + more;
    LookupFindsFirst(q1, "limit", Arr(items), q2);
    var text := ToJsString(Some(Arr(items)));
    var ds := Decimal(n);
    var rest := text[|ds|..];
    assert rest[0] == ',';
    assert "" + "" + ds + rest == text;
    ParseIntDecimal("", "", n, rest);
  }
}
