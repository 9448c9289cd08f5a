/**
  Result assembly (index.js:79-105). The engine's state after `crd.search`
  is an input: its matched-row count, its ranked rows and the nine property
  columns that a row's `sortid` indexes.
 */
module Assembly {
  import opened Conditions

  /** `MAX_VALUE`: the distance the engine gives a row that did not match. */
  const MaxValue: nat := 0xffffffff

  /** `crd.molecules[i]`: `{id, oclid, dist, sortid}`. */
  datatype Row<I> = Row(id: I, oclid: string, dist: nat, sortid: nat)

  /** The engine after a search: `crd.length`, `crd.molecules` and the columns `crd.em` to `crd.ste`. */
  datatype EngineState<I, V> = EngineState(
    length: nat,
    molecules: seq<Row<I>>,
    em: seq<V>, mw: seq<V>, logp: seq<V>, logs: seq<V>, psa: seq<V>,
    acc: seq<V>, don: seq<V>, rot: seq<V>, ste: seq<V>)

  function Column<I, V>(e: EngineState<I, V>, f: Field): seq<V> {
    match f
    case Em => e.em
    case Mw => e.mw
    case Logp => e.logp
    case Logs => e.logs
    case Psa => e.psa
    case Acc => e.acc
    case Don => e.don
    case Rot => e.rot
    case Ste => e.ste
  }

  /** `{type: 'oclid', value: mol.oclid}`. */
  datatype MolRef = MolRef(kind: string, value: string)

  /** One element of `content`. */
  datatype ResultRecord<I, V> = ResultRecord(
    id: I,
    mol: MolRef,
    em: V, mw: V, logp: V, logs: V, psa: V, acc: V, don: V, rot: V, ste: V)

  function Property<I, V>(r: ResultRecord<I, V>, f: Field): V {
    match f
    case Em => r.em
    case Mw => r.mw
    case Logp => r.logp
    case Logs => r.logs
    case Psa => r.psa
    case Acc => r.acc
    case Don => r.don
    case Rot => r.rot
    case Ste => r.ste
  }

  function Min(a: nat, b: nat): nat {
    if a <= b then a else b
  }

  /**
    The scanning loop from row `i` on: stop at the first row below `bound`
    whose distance is the sentinel, and give `limit` when there is none.
   */
  function ScanFrom<I>(rows: seq<Row<I>>, bound: nat, limit: nat, i: nat): (count: nat)
    requires i <= bound <= |rows|
    ensures count == limit || i <= count < bound
    ensures count < bound ==> count == limit || rows[count].dist == MaxValue
    ensures forall j :: i <= j < bound && j < count ==> rows[j].dist != MaxValue
    ensures (forall j :: i <= j < bound ==> rows[j].dist != MaxValue) ==> count == limit
    decreases bound - i
  {
    if i == bound then limit
    else if rows[i].dist == MaxValue then i
    else ScanFrom(rows, bound, limit, i + 1)
  }

  /**
    `maxOK`: the index of the first sentinel row among the first
    `min(length, limit)` rows, or `limit` when there is none. The count is
    not bounded by `length`.
   */
  function MatchedCount<I, V>(e: EngineState<I, V>, limit: nat): (count: nat)
    requires Min(e.length, limit) <= |e.molecules|
    ensures count <= limit
    ensures count < limit ==> count < Min(e.length, limit) && e.molecules[count].dist == MaxValue
    ensures forall j :: 0 <= j < Min(e.length, limit) && j < count ==> e.molecules[j].dist != MaxValue
    ensures (forall j :: 0 <= j < Min(e.length, limit) ==> e.molecules[j].dist != MaxValue) ==> count == limit
  {
    ScanFrom(e.molecules, Min(e.length, limit), limit, 0)
  }

  predicate InColumns<I, V>(e: EngineState<I, V>, idx: nat) {
    && idx < |e.em| && idx < |e.mw| && idx < |e.logp| && idx < |e.logs| && idx < |e.psa|
    && idx < |e.acc| && idx < |e.don| && idx < |e.rot| && idx < |e.ste|
  }

  /**
    What the assembly loops read: the first `min(length, limit)` rows, then
    every row below the count, and the columns at each such row's `sortid`.
   */
  predicate Readable<I, V>(e: EngineState<I, V>, limit: nat) {
    && Min(e.length, limit) <= |e.molecules|
    && MatchedCount(e, limit) <= |e.molecules|
    && forall i :: 0 <= i < MatchedCount(e, limit) ==> InColumns(e, e.molecules[i].sortid)
  }

  /** The record built from one row. */
  function Project<I, V>(e: EngineState<I, V>, row: Row<I>): (r: ResultRecord<I, V>)
    requires InColumns(e, row.sortid)
    ensures r.id == row.id && r.mol == MolRef("oclid", row.oclid)
    ensures forall f :: Property(r, f) == Column(e, f)[row.sortid]
  {
    var k := row.sortid;
    ResultRecord(row.id, MolRef("oclid", row.oclid),
      e.em[k], e.mw[k], e.logp[k], e.logs[k], e.psa[k], e.acc[k], e.don[k], e.rot[k], e.ste[k])
  }

  /**
    `content`: one record per row below the count, in row order, never more
    than `limit`, and none from or after a sentinel row among the first
    `min(length, limit)` rows.
   */
  function Assemble<I, V>(e: EngineState<I, V>, limit: nat): (records: seq<ResultRecord<I, V>>)
    requires Readable(e, limit)
    ensures |records| == MatchedCount(e, limit) <= limit
    ensures forall j :: 0 <= j < Min(e.length, limit) && e.molecules[j].dist == MaxValue ==> |records| <= j
    ensures forall i :: 0 <= i < |records| ==>
      && records[i].id == e.molecules[i].id
      && records[i].mol == MolRef("oclid", e.molecules[i].oclid)
      && forall f :: Property(records[i], f) == Column(e, f)[e.molecules[i].sortid]
  {
    var count := MatchedCount(e, limit);
    seq(count, i requires 0 <= i < count => Project(e, e.molecules[i]))
  }

  /** Raising the limit only extends the result, whether or not the limits pass `length`. */
  lemma AssembleLimitPrefix<I, V>(e: EngineState<I, V>, small: nat, large: nat)
    requires small <= large
    requires Readable(e, small) && Readable(e, large)
    ensures Assemble(e, small) <= Assemble(e, large)
  {
    var c1, c2 := MatchedCount(e, small), MatchedCount(e, large);
    assert c1 <= c2 by {
      if c1 < small {
        assert e.molecules[c1].dist == MaxValue;
      }
    }
  }

  /**
    Rows at and after `length` are projected when no sentinel is met before
    `length`: with one matched row and a limit of three, all three rows are
    returned, the last two carrying the sentinel distance.
   */
  lemma CountNotBoundedByLength(v: int)
    ensures
      var row0, row1 := Row(0, "a", 0, 0), Row(1, "b", MaxValue, 0);
      var col := [v];
      var e := EngineState(1, [row0, row1, row1], col, col, col, col, col, col, col, col, col);
      && Readable(e, 3)
      && MatchedCount(e, 3) == 3
      && |Assemble(e, 3)| == 3
      && Assemble(e, 3)[2].id == 1
  {
    var row0, row1 := Row(0, "a", 0, 0), Row(1, "b", MaxValue, 0);
    var col := [v];
    var e := EngineState(1, [row0, row1, row1], col, col, col, col, col, col, col, col, col);
    assert MatchedCount(e, 3) == 3;
  }
}
