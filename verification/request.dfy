/**
  The incoming query (`message.query` in index.js) and the errors a request
  is rejected with.
 */
module Request {
  import opened Wrappers

  /**
    A query parameter: a single string, or a list of strings when the
    parameter is repeated (`Array.isArray` is true of it).
   */
  datatype QueryValue = Str(s: string) | Arr(items: seq<string>)

  /** The query's own properties in `Object.keys` order. */
  type Query = seq<(string, QueryValue)>

  /** `throw new Error('wrong condition: ' + condition)`, and a failure of the molecule parser. */
  datatype RequestError = WrongCondition(condition: string) | MoleculeError(message: string)

  /** `query[key]`: the value of the first property with that name, `None` for `undefined`. */
  function Lookup(q: Query, key: string): (r: Option<QueryValue>)
    ensures r.Some? <==> exists i :: 0 <= i < |q| && q[i].0 == key
    ensures r.Some? ==> exists i :: 0 <= i < |q| && q[i] == (key, r.value)
  {
    if |q| == 0 then None
    else if q[0].0 == key then Some(q[0].1)
    else Lookup(q[1..], key)
  }

  /** JavaScript truthiness of a property: `undefined` and `''` are falsy, every array is truthy. */
  predicate Truthy(v: Option<QueryValue>) {
    match v
    case None => false
    case Some(Str(s)) => |s| > 0
    case Some(Arr(_)) => true
  }

  /** The condition strings of a property: a single value counts as a one-element list. */
  function Elements(v: QueryValue): seq<string> {
    match v
    case Str(s) => [s]
    case Arr(items) => items
  }

  /** `items.join(sep)`: the first item, then a separator before each further item. */
  function Join(items: seq<string>, sep: string): (r: string)
    ensures |items| > 0 ==> items[0] <= r
    ensures |items| > 1 ==> |r| >= |items[0]| + |sep| && r[|items[0]|..|items[0]| + |sep|] == sep
  {
    if |items| == 0 then ""
    else if |items| == 1 then items[0]
    else items[0] + sep + Join(items[1..], sep)
  }

  /**
    `String(v)`: `undefined` prints as such, a string is itself, and an
    array is its elements joined by commas, so it starts with its first
    element and, when there are more, a comma follows that element.
   */
  function ToJsString(v: Option<QueryValue>): (r: string)
    ensures v.Some? && v.value.Str? ==> r == v.value.s
    ensures v.Some? && v.value.Arr? && |v.value.items| > 0 ==> v.value.items[0] <= r
    ensures v.Some? && v.value.Arr? && |v.value.items| > 1 ==>
      |r| > |v.value.items[0]| && r[|v.value.items[0]|] == ','
  {
    match v
    case None => "undefined"
    case Some(Str(s)) => s
    case Some(Arr(items)) => Join(items, ",")
  }
}
