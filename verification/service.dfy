/**
  `respond` (index.js:37-118) without its side effects: the query is
  translated into conditions, a limit and an optional structure search; the
  external engine is a parameter that maps them to its post-search state;
  the response is assembled from that state.
 */
module Service {
  import opened Wrappers
  import opened JsText
  import opened Comparator
  import opened Request
  import opened Conditions
  import opened Limits
  import opened Structure
  import opened Assembly

  /** What `respond` hands to `crd.search`, with the limit it resolved. */
  datatype Plan<M> = Plan(conditions: seq<Condition>, limit: nat, structure: Option<StructureSearch<M>>)

  /** `{content: result}`. */
  datatype Response<I, V> = Response(content: seq<ResultRecord<I, V>>)

  /**
    The translation of a query, in the order of the source: conditions
    first, so that a wrong condition is reported even when the molecule is
    also malformed; then the limit; then the structure search, which
    carries the same limit. A molecule the parser rejects rejects the
    request with the parser's message.
   */
  function Translate<M>(
    q: Query,
    fromSmiles: QueryValue -> Result<M, string>,
    fromIDCode: QueryValue -> Result<M, string>
  ): (r: Result<Plan<M>, RequestError>)
    ensures r.Success? <==>
      BuildConditions(q).Success? && SelectStructureSearch(q, ResolveLimit(q), fromSmiles, fromIDCode).Success?
    ensures BuildConditions(q).Failure? ==> r == Failure(BuildConditions(q).error)
    ensures BuildConditions(q).Success? && SelectStructureSearch(q, ResolveLimit(q), fromSmiles, fromIDCode).Failure? ==>
      r == Failure(SelectStructureSearch(q, ResolveLimit(q), fromSmiles, fromIDCode).error)
    ensures r.Failure? && r.error.MoleculeError? ==> BuildConditions(q).Success? && WantsStructureSearch(q)
    ensures r.Success? ==>
      && BuildConditions(q) == Success(r.value.conditions)
      && r.value.limit == ResolveLimit(q)
      && 1 <= r.value.limit <= DefaultLimit
      && SelectStructureSearch(q, r.value.limit, fromSmiles, fromIDCode) == Success(r.value.structure)
      && (r.value.structure.Some? <==> WantsStructureSearch(q))
      && (r.value.structure.Some? ==> r.value.structure.value.limit == r.value.limit)
  {
    var conditions :- BuildConditions(q);
    var limit := ResolveLimit(q);
    var structure :- SelectStructureSearch(q, limit, fromSmiles, fromIDCode);
    Success(Plan(conditions, limit, structure))
  }

  /**
    The state `search` leaves must hold every row and column the assembly
    loops read for the plan's limit.
   */
  predicate SearchReadable<M, I, V>(
    q: Query,
    fromSmiles: QueryValue -> Result<M, string>,
    fromIDCode: QueryValue -> Result<M, string>,
    search: (seq<Condition>, Option<StructureSearch<M>>) -> EngineState<I, V>
  ) {
    var t := Translate(q, fromSmiles, fromIDCode);
    t.Success? ==> Readable(search(t.value.conditions, t.value.structure), t.value.limit)
  }

  /**
    `respond`: the request fails exactly when its translation fails, with
    the same error and no partial result; otherwise the content is the
    assembly of the engine's state after the search, so it holds at most
    `limit` records.
   */
  function Respond<M, I, V>(
    q: Query,
    fromSmiles: QueryValue -> Result<M, string>,
    fromIDCode: QueryValue -> Result<M, string>,
    search: (seq<Condition>, Option<StructureSearch<M>>) -> EngineState<I, V>
  ): (r: Result<Response<I, V>, RequestError>)
    requires SearchReadable(q, fromSmiles, fromIDCode, search)
    ensures r.Failure? <==> Translate(q, fromSmiles, fromIDCode).Failure?
    ensures r.Failure? ==> r.error == Translate(q, fromSmiles, fromIDCode).error
    ensures r.Success? ==>
      var p := Translate(q, fromSmiles, fromIDCode).value;
      && |r.value.content| <= p.limit <= DefaultLimit
      && r.value.content == Assemble(search(p.conditions, p.structure), p.limit)
  {
    var plan :- Translate(q, fromSmiles, fromIDCode);
    var post := search(plan.conditions, plan.structure);
    Success(Response(Assemble(post, plan.limit)))
  }

  /** The engine state of the numeric example: rows 0 and 1 match with `mw` 210 and 250, row 2 does not. */
  function NumericExampleState(): EngineState<nat, int> {
    var rows := [Row(0, "A", 0, 0), Row(1, "B", 1, 1), Row(2, "C", MaxValue, 2)];
    var col := [0, 0, 0];
    EngineState(3, rows, col, [210, 250, 300], col, col, col, col, col, col, col)
  }

  /** The query `{mw: '>=n', limit: '2'}`. */
  function NumericExampleQuery(n: nat): Query {
    [("mw", Str(">=" + Decimal(n))), ("limit", Str(Decimal(2)))]
  }

  /** Its one recognised property yields one `mw >= n` condition. */
  lemma NumericExampleConditions(n: nat)
    ensures BuildConditions(NumericExampleQuery(n)) == Success([Condition(Mw, Cmp(Gte, n))])
  {
    var q := NumericExampleQuery(n);
    var condition := ">=" + Decimal(n);
    assert ParseComparator(condition) == Some(Cmp(Gte, n)) by {
      assert forall i :: 0 <= i < 2 ==> IsOpChar(">="[i]);
      ParseOperatorTable(">=", Decimal(n));
      DecimalRoundTrip(n);
    }
    FieldNamesRoundTrip(Mw);
    assert FieldOf("mw") == Some(Mw) by {
      assert Name(Mw) == "mw";
    }
    LongKeyUnrecognised("limit");
    PendingBeforeUnrecognised(q[0], q[1]);
    ExpandString("mw", Mw, condition);
    BuildFromPending(q, [(Mw, condition)]);
    ParseAllSingle(Mw, condition, Cmp(Gte, n));
  }

  /** It translates into one `mw >= n` condition, limit 2 and no structure search. */
  lemma NumericExamplePlan<M>(n: nat, fromSmiles: QueryValue -> Result<M, string>, fromIDCode: QueryValue -> Result<M, string>)
    ensures Translate(NumericExampleQuery(n), fromSmiles, fromIDCode) == Success(Plan([Condition(Mw, Cmp(Gte, n))], 2, None))
  {
    NumericExampleConditions(n);
    NumericExampleLimit(n);
    NumericExampleNoSearchMode(n);
    PlainPlan(NumericExampleQuery(n), [Condition(Mw, Cmp(Gte, n))], fromSmiles, fromIDCode);
  }

  /** Its limit is 2. */
  lemma NumericExampleLimit(n: nat)
    ensures ResolveLimit(NumericExampleQuery(n)) == 2
  {
    var q := NumericExampleQuery(n);
    var head := [q[0]];
    assert |head[0].0| == 2;
    DecimalLimit(head, 2, []);
    assert head + [q[1]] + [] == q;
  }

  /** It names no search mode. */
  lemma NumericExampleNoSearchMode(n: nat)
    ensures Lookup(NumericExampleQuery(n), "searchMode") == None
  {
    var q := NumericExampleQuery(n);
    assert |q[0].0| == 2 && |q[1].0| == 5 && |"searchMode"| == 10;
  }

  /** A query without a search mode translates into its conditions and its limit alone. */
  lemma PlainPlan<M>(q: Query, conditions: seq<Condition>, fromSmiles: QueryValue -> Result<M, string>, fromIDCode: QueryValue -> Result<M, string>)
    requires BuildConditions(q) == Success(conditions)
    requires Lookup(q, "searchMode") == None
    ensures Translate(q, fromSmiles, fromIDCode) == Success(Plan(conditions, ResolveLimit(q), None))
  {
    assert SelectStructureSearch(q, ResolveLimit(q), fromSmiles, fromIDCode) == Success(None);
  }

  /** A query whose conditions and structure search both succeed translates into them, with its limit. */
  lemma TranslateOfParts<M>(
    q: Query,
    conditions: seq<Condition>,
    structure: Option<StructureSearch<M>>,
    fromSmiles: QueryValue -> Result<M, string>,
    fromIDCode: QueryValue -> Result<M, string>
  )
    requires BuildConditions(q) == Success(conditions)
    requires SelectStructureSearch(q, ResolveLimit(q), fromSmiles, fromIDCode) == Success(structure)
    ensures Translate(q, fromSmiles, fromIDCode) == Success(Plan(conditions, ResolveLimit(q), structure))
  {
  }

  /** A query that translates into a plan is answered with the assembly of the state the search leaves for it. */
  lemma RespondOfPlan<M, I, V>(
    q: Query,
    fromSmiles: QueryValue -> Result<M, string>,
    fromIDCode: QueryValue -> Result<M, string>,
    search: (seq<Condition>, Option<StructureSearch<M>>) -> EngineState<I, V>,
    plan: Plan<M>
  )
    requires Translate(q, fromSmiles, fromIDCode) == Success(plan)
    requires Readable(search(plan.conditions, plan.structure), plan.limit)
    ensures SearchReadable(q, fromSmiles, fromIDCode, search)
    ensures Respond(q, fromSmiles, fromIDCode, search) == Success(Response(Assemble(search(plan.conditions, plan.structure), plan.limit)))
  {
  }

  /** Rows 0 and 1 of the numeric example state are read; the sentinel of row 2 lies beyond limit 2. */
  lemma NumericExampleAssembly()
    ensures Readable(NumericExampleState(), 2)
    ensures |Assemble(NumericExampleState(), 2)| == 2
    ensures Assemble(NumericExampleState(), 2)[0].mw == 210
    ensures Assemble(NumericExampleState(), 2)[1].mw == 250
  {
    var e := NumericExampleState();
    assert MatchedCount(e, 2) == 2;
    assert Readable(e, 2);
  }

  /**
    Against that state the response holds two records, whose `mw` values
    are 210 and 250.
   */
  lemma NumericQueryExample<M>(fromSmiles: QueryValue -> Result<M, string>, fromIDCode: QueryValue -> Result<M, string>)
    ensures
      var search := (cs: seq<Condition>, ss: Option<StructureSearch<M>>) => NumericExampleState();
      var q := NumericExampleQuery(200);
      && SearchReadable(q, fromSmiles, fromIDCode, search)
      && Respond(q, fromSmiles, fromIDCode, search).Success?
      && |Respond(q, fromSmiles, fromIDCode, search).value.content| == 2
      && Respond(q, fromSmiles, fromIDCode, search).value.content[0].mw == 210
      && Respond(q, fromSmiles, fromIDCode, search).value.content[1].mw == 250
  {
    var search := (cs: seq<Condition>, ss: Option<StructureSearch<M>>) => NumericExampleState();
    var plan := Plan([Condition(Mw, Cmp(Gte, 200))], 2, None);
    NumericExamplePlan(200, fromSmiles, fromIDCode);
    NumericExampleAssembly();
    assert search(plan.conditions, plan.structure) == NumericExampleState();
    RespondOfPlan(NumericExampleQuery(200), fromSmiles, fromIDCode, search, plan);
  }

  /** The query `{smiles: 'c1ccccc1', searchMode: 'substructure', limit: '10'}`. */
  function StructureExampleQuery(): Query {
    [("smiles", Str("c1ccccc1")), ("searchMode", Str("substructure")), ("limit", Str(Decimal(10)))]
  }

  /** None of its properties is a numeric field, so it carries no condition. */
  lemma StructureExampleConditions()
    ensures BuildConditions(StructureExampleQuery()) == Success([])
  {
    var q := StructureExampleQuery();
    LongKeyUnrecognised("smiles");
    LongKeyUnrecognised("searchMode");
    LongKeyUnrecognised("limit");
    assert Pending(q) == [] by {
      assert q[1..][1..][1..] == [];
    }
    BuildFromPending(q, []);
  }

  /** Its limit is 10. */
  lemma StructureExampleLimit()
    ensures ResolveLimit(StructureExampleQuery()) == 10
  {
    var q := StructureExampleQuery();
    var head := q[..2];
    assert |head[0].0| == 6 && |head[1].0| == 10;
    DecimalLimit(head, 10, []);
    assert head + [q[2]] + [] == q;
  }

  /**
    It builds a substructure search on the parsed molecule with limit 10.
   */
  lemma StructureQueryExample(fromSmiles: QueryValue -> Result<nat, string>, fromIDCode: QueryValue -> Result<nat, string>, benzene: nat)
    requires fromSmiles(Str("c1ccccc1")) == Success(benzene)
    ensures Translate(StructureExampleQuery(), fromSmiles, fromIDCode) == Success(Plan([], 10, Some(StructureSearch(Str("substructure"), benzene, 10))))
  {
    var q := StructureExampleQuery();
    StructureExampleConditions();
    StructureExampleLimit();
    assert Lookup(q, "smiles") == Some(Str("c1ccccc1"));
    assert Lookup(q, "searchMode") == Some(Str("substructure"));
    SmilesSearch(q, 10, fromSmiles, fromIDCode, Str("substructure"), Str("c1ccccc1"), benzene);
    TranslateOfParts(q, [], Some(StructureSearch(Str("substructure"), benzene, 10)), fromSmiles, fromIDCode);
  }
}
