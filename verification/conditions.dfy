/**
  The condition loop of `respond` (index.js:39-57): every property whose
  lower-cased name is a numeric field contributes one condition per element
  of its value, and one condition string that does not parse rejects the
  whole request.
 */
module Conditions {
  import opened Wrappers
  import opened JsText
  import opened Comparator
  import opened Request

  /** The entries of `NUMERIC_FIELDS`. */
  datatype Field = Em | Mw | Logp | Logs | Psa | Acc | Don | Rot | Ste

  function Name(f: Field): string {
    match f
    case Em => "em"
    case Mw => "mw"
    case Logp => "logp"
    case Logs => "logs"
    case Psa => "psa"
    case Acc => "acc"
    case Don => "don"
    case Rot => "rot"
    case Ste => "ste"
  }

  /** `NUMERIC_FIELDS`, in the order of the source. */
  const NumericFields: seq<Field> := [Em, Mw, Logp, Logs, Psa, Acc, Don, Rot, Ste]

  /** Where a field stands in `NUMERIC_FIELDS`. */
  function Position(f: Field): (j: nat)
    ensures j < |NumericFields| && NumericFields[j] == f
  {
    match f
    case Em => 0
    case Mw => 1
    case Logp => 2
    case Logs => 3
    case Psa => 4
    case Acc => 5
    case Don => 6
    case Rot => 7
    case Ste => 8
  }

  /** `fields.indexOf(k)`, as the field found rather than its position. */
  function FindField(k: string, fields: seq<Field>): Option<Field> {
    if |fields| == 0 then None
    else if Name(fields[0]) == k then Some(fields[0])
    else FindField(k, fields[1..])
  }

  /** The search finds a listed field of that name exactly when some entry has it. */
  lemma {:induction false} FindFieldFinds(k: string, fields: seq<Field>)
    ensures FindField(k, fields).Some? ==> FindField(k, fields).value in fields && Name(FindField(k, fields).value) == k
    ensures FindField(k, fields).None? <==> forall j :: 0 <= j < |fields| ==> Name(fields[j]) != k
  {
    if |fields| > 0 && Name(fields[0]) != k {
      FindFieldFinds(k, fields[1..]);
      assert forall j :: 1 <= j < |fields| ==> fields[1..][j - 1] == fields[j];
    }
  }

  /** No field carries a name exactly when no entry of `NUMERIC_FIELDS` does. */
  lemma NamesListed(k: string)
    ensures (forall j :: 0 <= j < |NumericFields| ==> Name(NumericFields[j]) != k) <==> (forall f :: Name(f) != k)
  {
    if forall j :: 0 <= j < |NumericFields| ==> Name(NumericFields[j]) != k {
      forall f
        ensures Name(f) != k
      {
        var j := Position(f);
        assert Name(NumericFields[j]) != k;
      }
    }
  }

  /**
    The numeric field a property name selects, if any: the test
    `~NUMERIC_FIELDS.indexOf(f.toLowerCase())` and the lower-cased name the
    condition carries.
   */
  function FieldOf(key: string): (r: Option<Field>)
    ensures r.Some? ==> Name(r.value) == AsciiLower(key)
    ensures r.None? <==> forall f :: Name(f) != AsciiLower(key)
  {
    var k := AsciiLower(key);
    var r := FindField(k, NumericFields);
    FindFieldFinds(k, NumericFields);
    NamesListed(k);
    r
  }

  /** Distinct fields have distinct names. */
  lemma NameInjective(f: Field, g: Field)
    requires Name(f) == Name(g)
    ensures f == g
  {
  }

  /** A property is read as the field whose name its lower-cased key spells. */
  lemma FieldOfName(f: Field, key: string)
    requires AsciiLower(key) == Name(f)
    ensures FieldOf(key) == Some(f)
  {
    NameInjective(FieldOf(key).value, f);
  }

  /** Every field is recognised under its own name, and `NUMERIC_FIELDS` lists each field once. */
  lemma FieldNamesRoundTrip(f: Field)
    ensures FieldOf(Name(f)) == Some(f)
    ensures f in NumericFields
    ensures forall g :: Name(g) == Name(f) ==> g == f
  {
    assert AsciiLower(Name(f)) == Name(f);
    FieldOfName(f, Name(f));
    forall g | Name(g) == Name(f) {
      NameInjective(f, g);
    }
  }

  /** No field name is longer than four characters, so longer keys such as `limit` or `smiles` are never conditions. */
  lemma LongKeyUnrecognised(key: string)
    requires |key| > 4
    ensures FieldOf(key) == None
  {
    assert forall f :: |Name(f)| <= 4 < |AsciiLower(key)|;
  }

  /** `{field: lowerF, match: comparator}`. */
  datatype Condition = Condition(field: Field, comparator: Cmp)

  /** The (field, condition string) pairs one property contributes, in element order. */
  function Expand(entry: (string, QueryValue)): (r: seq<(Field, string)>)
    ensures FieldOf(entry.0).None? ==> r == []
    ensures FieldOf(entry.0).Some? ==>
      && |r| == |Elements(entry.1)|
      && forall j :: 0 <= j < |r| ==> r[j] == (FieldOf(entry.0).value, Elements(entry.1)[j])
  {
    match FieldOf(entry.0)
    case None => []
    case Some(f) =>
      var els := Elements(entry.1);
      seq(|els|, j requires 0 <= j < |els| => (f, els[j]))
  }

  /**
    The pairs the two nested loops visit: properties in key order, and the
    elements of each property in list order.
   */
  function Pending(q: Query): seq<(Field, string)> {
    if |q| == 0 then [] else Expand(q[0]) + Pending(q[1..])
  }

  /** Key order is kept: the pairs of a concatenated query are those of its parts, in turn. */
  lemma {:induction false} PendingAppend(q1: Query, q2: Query)
    ensures Pending(q1 + q2) == Pending(q1) + Pending(q2)
  {
    if |q1| > 0 {
      assert (q1 + q2)[1..] == q1[1..] + q2;
      PendingAppend(q1[1..], q2);
    } else {
      assert q1 + q2 == q2;
    }
  }

  /** A single property contributes exactly its expansion. */
  lemma PendingSingle(entry: (string, QueryValue))
    ensures Pending([entry]) == Expand(entry)
  {
    assert [entry][1..] == [];
  }

  /** A recognised property with a single string value contributes that one string. */
  lemma ExpandString(key: string, f: Field, text: string)
    requires FieldOf(key) == Some(f)
    ensures Expand((key, Str(text))) == [(f, text)]
  {
  }

  /** A recognised property followed by an unrecognised one contributes only its own pairs. */
  lemma PendingBeforeUnrecognised(entry: (string, QueryValue), other: (string, QueryValue))
    requires FieldOf(other.0).None?
    ensures Pending([entry, other]) == Expand(entry)
  {
    assert [entry, other] == [entry] + [other];
    PendingAppend([entry], [other]);
    PendingSingle(entry);
    PendingSingle(other);
  }

  /** Every pending pair names a recognised property's field and one of that property's elements. */
  lemma {:induction false} PendingFrom(q: Query, i: nat)
    requires i < |Pending(q)|
    ensures exists k ::
      && 0 <= k < |q|
      && FieldOf(q[k].0) == Some(Pending(q)[i].0)
      && Pending(q)[i].1 in Elements(q[k].1)
  {
    var head := Expand(q[0]);
    if i < |head| {
      assert Pending(q)[i] == head[i];
      assert Elements(q[0].1)[i] == head[i].1;
    } else {
      PendingFrom(q[1..], i - |head|);
      var k :| 0 <= k < |q[1..]| && FieldOf(q[1..][k].0) == Some(Pending(q[1..])[i - |head|].0)
        && Pending(q[1..])[i - |head|].1 in Elements(q[1..][k].1);
      assert q[1..][k] == q[k + 1];
      assert Pending(q)[i] == Pending(q[1..])[i - |head|];
    }
  }

  predicate Parses(condition: string) {
    ParseComparator(condition).Some?
  }

  predicate AllParse(conditions: seq<string>) {
    forall j :: 0 <= j < |conditions| ==> Parses(conditions[j])
  }

  predicate PairsParse(pending: seq<(Field, string)>) {
    forall i :: 0 <= i < |pending| ==> Parses(pending[i].1)
  }

  predicate PropertiesParse(q: Query) {
    forall k :: 0 <= k < |q| && FieldOf(q[k].0).Some? ==> AllParse(Elements(q[k].1))
  }

  lemma PairsParseConcat(a: seq<(Field, string)>, b: seq<(Field, string)>)
    ensures PairsParse(a + b) <==> PairsParse(a) && PairsParse(b)
  {
    assert forall i :: 0 <= i < |a| ==> (a + b)[i] == a[i];
    assert forall i :: 0 <= i < |b| ==> (a + b)[|a| + i] == b[i];
  }

  lemma PropertiesParseCons(q: Query)
    requires |q| > 0
    ensures PropertiesParse(q) <==>
      (FieldOf(q[0].0).Some? ==> AllParse(Elements(q[0].1))) && PropertiesParse(q[1..])
  {
    assert forall k :: 1 <= k < |q| ==> q[1..][k - 1] == q[k];
  }

  /** Every pending string parses exactly when every element of every recognised property does. */
  lemma {:induction false} PendingAllParse(q: Query)
    ensures PairsParse(Pending(q)) <==> PropertiesParse(q)
  {
    if |q| > 0 {
      PendingAllParse(q[1..]);
      PairsParseConcat(Expand(q[0]), Pending(q[1..]));
      PropertiesParseCons(q);
    }
  }

  /**
    The conditions for a sequence of pairs: each string parsed in turn, the
    first one without a comparator rejecting the request with its text.
   */
  function ParseAll(pending: seq<(Field, string)>): (r: Result<seq<Condition>, RequestError>)
    ensures r.Success? <==> forall i :: 0 <= i < |pending| ==> Parses(pending[i].1)
    ensures r.Success? ==>
      && |r.value| == |pending|
      && forall i :: 0 <= i < |pending| ==>
           r.value[i].field == pending[i].0 && ParseComparator(pending[i].1) == Some(r.value[i].comparator)
    ensures r.Failure? ==>
      exists i ::
        && 0 <= i < |pending|
        && !Parses(pending[i].1)
        && r.error == WrongCondition(pending[i].1)
        && forall j :: 0 <= j < i ==> Parses(pending[j].1)
  {
    if |pending| == 0 then Success([])
    else
      match ParseComparator(pending[0].1)
      case None => Failure(WrongCondition(pending[0].1))
      case Some(c) =>
        match ParseAll(pending[1..])
        case Failure(e) =>
          assert forall j :: 1 <= j < |pending| ==> pending[1..][j - 1] == pending[j];
          Failure(e)
        case Success(rest) => Success([Condition(pending[0].0, c)] + rest)
  }

  /** A single pending pair whose string parses becomes a single condition. */
  lemma ParseAllSingle(f: Field, t: string, c: Cmp)
    requires ParseComparator(t) == Some(c)
    ensures ParseAll([(f, t)]) == Success([Condition(f, c)])
  {
    var p := [(f, t)];
    assert p[1..] == [];
    assert ParseAll(p[1..]) == Success([]);
    assert ParseAll(p) == Success([Condition(f, c)] + []);
    assert [Condition(f, c)] + [] == [Condition(f, c)];
  }

  /** The condition a pending pair yields: its field, and the comparator of its string. */
  predicate ConditionFor(pair: (Field, string), c: Condition) {
    c.field == pair.0 && ParseComparator(pair.1) == Some(c.comparator)
  }

  /**
    The conditions of a query: the request is rejected exactly when some
    element of a recognised property has no comparator, and then with the
    text of the first such element in key order and element order; otherwise there is one condition per pending
    pair, in order, carrying the pair's field and the comparator of its
    string.
   */
  function BuildConditions(q: Query): (r: Result<seq<Condition>, RequestError>)
    ensures r.Success? <==>
      forall k :: 0 <= k < |q| && FieldOf(q[k].0).Some? ==> AllParse(Elements(q[k].1))
    ensures r.Failure? ==>
      exists i ::
        && 0 <= i < |Pending(q)|
        && !Parses(Pending(q)[i].1)
        && r.error == WrongCondition(Pending(q)[i].1)
        && forall j :: 0 <= j < i ==> Parses(Pending(q)[j].1)
    ensures r.Success? ==>
      && |r.value| == |Pending(q)|
      && forall i :: 0 <= i < |r.value| ==> ConditionFor(Pending(q)[i], r.value[i])
  {
    PendingAllParse(q);
    ParseAll(Pending(q))
  }

  /**
    A rejected query is rejected with an element of one of its recognised
    properties that has no comparator.
   */
  lemma RejectionFromQuery(q: Query)
    ensures BuildConditions(q).Failure? ==>
      var e := BuildConditions(q).error;
      && e.WrongCondition?
      && !Parses(e.condition)
      && exists k :: 0 <= k < |q| && FieldOf(q[k].0).Some? && e.condition in Elements(q[k].1)
  {
    var r := BuildConditions(q);
    if r.Failure? {
      var i :| 0 <= i < |Pending(q)| && !Parses(Pending(q)[i].1) && r.error == WrongCondition(Pending(q)[i].1);
      PendingFrom(q, i);
    }
  }

  /** The conditions are those of the pending pairs, whatever the query they come from. */
  lemma BuildFromPending(q: Query, pending: seq<(Field, string)>)
    requires Pending(q) == pending
    ensures BuildConditions(q) == ParseAll(pending)
  {
  }

  /** A property whose name is not a numeric field, such as `limit` or `smiles`, adds no pair. */
  lemma PendingSkipsUnrecognised(q1: Query, key: string, v: QueryValue, q2: Query)
    requires FieldOf(key).None?
    ensures Pending(q1 + [(key, v)] + q2) == Pending(q1 + q2)
  {
    PendingAppend(q1 + [(key, v)], q2);
    PendingAppend(q1, [(key, v)]);
    PendingAppend(q1, q2);
    PendingSingle((key, v));
  }

  /** Hence such a property changes neither the conditions nor the rejection. */
  lemma UnrecognisedKeyIgnored(q1: Query, key: string, v: QueryValue, q2: Query)
    requires FieldOf(key).None?
    ensures BuildConditions(q1 + [(key, v)] + q2) == BuildConditions(q1 + q2)
  {
    PendingSkipsUnrecognised(q1, key, v, q2);
  }
}
