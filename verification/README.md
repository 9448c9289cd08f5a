# webservice-crdb query layer in Dafny

This project models the request handler of the `webservice-crdb` service
(`index.js`). The handler answers chemistry-search queries against a
compound dataset that is loaded once. It does four things:

- it turns the numeric-field properties of a query (`em`, `mw`, `logp`,
  `logs`, `psa`, `acc`, `don`, `rot`, `ste`, matched case-insensitively)
  into conditions, through `getComparator`;
- it resolves the result limit;
- it builds an optional structure search from `searchMode` and `smiles` or
  `oclid`;
- it assembles the response from the engine's ranked rows, stopping at the
  "unmatched" distance sentinel `MAX_VALUE = 0xffffffff`.

Modules, one per file:

- `Wrappers`: `Option` and `Result`.
- `JsText`: the JavaScript character classes and numerals the handler relies on.
- `Comparator`: the regular expression `/([<>=]*)(\d+)/` and the operator switch of `getComparator`.
- `Request`: the query and the two request errors.
- `Conditions`: the condition loop.
- `Limits`: `parseInt` and the limit range check.
- `Structure`: structure-search selection.
- `Assembly`: the sentinel scan and the record projection.
- `Service`: `respond` as a whole, plus worked examples.

The regular expression is not abstracted away. `MatchAt` models one
attempt at one position (a greedy operator run, then a digit). `ExecFrom`
tries the positions left to right. The lemmas prove that the match found is
the first digit run together with the maximal operator run just before it.

The search engine and the molecule parsers are foreign code, so they are
function parameters. `Respond` takes the engine as a map from (conditions,
structure search) to the engine state after the search. A parser that
throws is modelled as one that returns a failure with its message.

Three behaviours of the code differ from what a reader of it would
expect. The model follows the code in each case:

- **`!=` never yields the not-equal comparator.** The `'!='` case of the
  switch (index.js:129-130) shows that a not-equal test was intended, but
  that case cannot be reached. `!` is not in the class `[<>=]` of the
  regular expression (index.js:121), so the match starts at `=`, and `!=7`
  becomes "equal to 7" (`Comparator.NotEqualReadAsEqual`).
  `Comparator.ParseComparator` ensures the operator is never `Neq`.
- **The regular expression is not anchored** (index.js:121). The match is
  the first digit run of the string with the operator run just before it.
  Text before the condition is ignored when it holds no digit and does not
  end in `<`, `>` or `=`. Text after it is ignored when it does not start
  with a digit (`Comparator.ParseIgnoresContext`). A digit earlier in the
  string takes over: `1 >=5` is read as `= 1`. A fraction is cut at the
  decimal point, so `7.5` is read as `= 7` (`Comparator.FractionDropped`).
- **Rows at or after `length` can be returned.** `maxOK` starts at `limit`
  (index.js:79), not at `min(length, limit)`. When no sentinel is found
  among the first `min(length, limit)` rows, `limit` records are built
  (index.js:88-89). Rows at and after `length` are included, even if their
  distance is the sentinel (`Assembly.CountNotBoundedByLength`).
  `Assembly.Assemble` proves only what the code guarantees: no record at or
  after a sentinel row within the first `min(length, limit)` rows.

The query is a sequence of (name, value) pairs in `Object.keys` order. A
value is a string or, for a repeated parameter, a list of strings.
`undefined` is a missing key.

## Model

| member | source | states |
|---|---|---|
| Comparator.MatchAt | index.js:121 | An attempt at position p succeeds exactly when a digit follows a (possibly empty) run of `<`, `>`, `=` from p. Its operator group then lies in the string just before its digit group. |
| Comparator.ExecFrom | index.js:121 | The search from p returns the leftmost successful attempt: every earlier position fails. When it returns nothing, every position from p fails. |
| Comparator.ExecFindsDigit | index.js:121-122 | `exec` returns `null` exactly when the string contains no ASCII digit. |
| Comparator.ExecFindsFirstDigitRun | index.js:121 | The match's digit group is the first digit run of the string, and it is maximal. The operator group is the maximal operator run just before it. No digit appears earlier. |
| Comparator.ExecInContext | index.js:121 | Suppose a string is made of digit-free text not ending in an operator character, an operator run, a digit run, and text not starting with a digit. Then the match is exactly that operator run and that digit run. |
| Comparator.ParseComparator | index.js:120-142 | A comparator exists only when the string contains a digit. The not-equal comparator is never produced. |
| Comparator.ParseIgnoresContext | index.js:121-141 | Text before the operator run is ignored when it holds no digit and does not end in `<`, `>` or `=`. Text after the digit run is ignored when it does not start with a digit. The comparator is then that of the two runs alone. |
| Comparator.ParseOperatorTable | index.js:124-141 | The switch table: none, `=` and `==` give eq; `<`, `<=`, `>` and `>=` give lt, lte, gt and gte. Every other operator run gives `null`. The threshold is the value of the digit run. |
| Comparator.NoDigitNoComparator | index.js:121-122 | A string without a digit is rejected. |
| Comparator.NotEqualReadAsEqual | index.js:121-130 | `!=` followed by digits gives the equality comparator on their value. |
| Comparator.FractionDropped | index.js:121-128 | `n.m` gives "equal to n". |
| Comparator.UnknownOperatorsRejected | index.js:139-140 | `<>`, `=<` and `<<` followed by a number are rejected. |
| Comparator.ParsedComparatorSemantics | index.js:123-138 | For each operator of the table followed by the decimal numeral of n, the comparator accepts a value x exactly when x stands in that operator's relation to n. |
| JsText.DecimalRoundTrip | index.js:123 | Reading the decimal numeral of n back gives n. Every character of the numeral is a radix-10 digit. |
| Conditions.FindFieldFinds | index.js:40 | `indexOf` over a field list finds a field with the given name exactly when some entry has that name. |
| Conditions.FieldOf | index.js:4-14 | A property selects a field exactly when its lower-cased name is that field's name. It selects none exactly when no field has that name. |
| Conditions.FieldNamesRoundTrip | index.js:4-14 | Each field is selected by its own name and is listed in `NUMERIC_FIELDS`. Distinct fields have distinct names. |
| Conditions.FieldOfName | index.js:40-44 | A key whose lower-cased form spells a field's name selects that field. |
| Conditions.LongKeyUnrecognised | index.js:40 | A key longer than four characters, such as `limit`, `smiles` or `searchMode`, is never a numeric field. |
| Conditions.Expand | index.js:44-47 | A recognised property contributes one (field, string) pair per element of its value, in order. A single value counts as a one-element list. An unrecognised property contributes nothing. |
| Conditions.PendingAppend | index.js:43-47 | The pairs of a concatenated query are those of its parts, in order. |
| Conditions.PendingFrom | index.js:43-47 | Every pair names a recognised property's field and one element of that property's value. |
| Conditions.PendingAllParse | index.js:43-51 | Every pair's string parses exactly when every element of every recognised property parses. |
| Conditions.ParseAll | index.js:47-56 | Success exactly when every string parses. Then there is one condition per pair, with the pair's field and the comparator of its string. On failure, the error is `wrong condition` with the first string that does not parse. |
| Conditions.ParseAllSingle | index.js:47-56 | A single parsable pair yields the single condition built from it. |
| Conditions.BuildConditions | index.js:39-57 | The request is rejected exactly when some element of a recognised property has no comparator. The error then carries the first such element, in key order and then element order, as the throw inside the loop does. Every element before it parses. Otherwise the conditions match the pairs one to one, in key order and element order. |
| Conditions.RejectionFromQuery | index.js:40-50 | A rejection names a string that has no comparator and that is an element of a property whose lower-cased name is a numeric field. |
| Conditions.ExpandString | index.js:45-46 | A recognised property with a single string value contributes one pair. |
| Conditions.PendingBeforeUnrecognised | index.js:40-47 | An unrecognised property after a recognised one adds no pair. |
| Conditions.UnrecognisedKeyIgnored | index.js:40 | Inserting a property that is not a numeric field anywhere in a query changes neither the conditions nor the rejection. |
| Request.Lookup | index.js:59-67 | `query[key]` is defined exactly when some property has that name, and its value is that property's value. |
| Limits.TrimStart | index.js:59 | `parseInt` drops a prefix made only of white space, and what remains does not start with white space. |
| Request.ToJsString | index.js:59 | `String(query.limit)`: a string is itself. A list starts with its first element, and a comma follows that element when there are more. |
| Limits.ParseInt | index.js:59 | `parseInt` gives `NaN` when the text, after its leading white space, is empty or starts with neither a sign nor a digit. It gives a negative value only after a minus sign. |
| Limits.ParseIntHex | index.js:59 | A `0x` or `0X` prefix makes `parseInt` read the hexadecimal digits that follow in radix 16, stopping at the first character that is not one. |
| Limits.ResolveLimit | index.js:59-60 | The limit of a query is the integer `parseInt` reads from `String(query.limit)` when it lies in 1..1000, and 1000 otherwise. |
| Limits.HexLimit | index.js:59-60 | A `limit` written as `0x` followed by hexadecimal digits gives their radix-16 value when it lies in 1..1000, and 1000 otherwise. |
| Limits.RepeatedLimitReadsFirst | index.js:59-60 | A repeated `limit` is a list, and `String` joins it with commas, so `parseInt` reads only the first value. The limit is that value when it lies in 1..1000, and 1000 otherwise. |
| Limits.EffectiveLimit | index.js:59-60 | The limit always lies in 1..1000. It equals the parsed integer exactly when that integer lies in 1..1000, and is 1000 for `NaN` and for every other value. |
| Limits.ParseIntDecimal | index.js:59 | `parseInt` reads a decimal numeral back as its value, with any leading white space, with an optional sign, and with trailing text that does not continue it. |
| Limits.ParseIntOfDecimal | index.js:59 | `parseInt` of the decimal numeral of n is n. |
| Limits.ParseIntNaN | index.js:59 | Text starting with neither white space, a sign nor a digit is `NaN`. |
| Limits.MissingLimitIsDefault | index.js:59-60 | A query without `limit` gets limit 1000. |
| Limits.DecimalLimit | index.js:59-60 | A `limit` written as the numeral of n gives n when 1 <= n <= 1000 and 1000 otherwise. |
| Structure.SelectStructureSearch | index.js:62-75 | There is no search unless a truthy `searchMode` and a truthy `smiles` or `oclid` are given. `smiles` is parsed in preference to `oclid`. The descriptor carries the mode as given, the parsed molecule and the limit. A parser failure rejects the request with the parser's message. |
| Structure.SmilesSearch | index.js:63-74 | A mode and a SMILES string that parses give a search on the parsed molecule with the given limit. |
| Structure.SmilesTakesPrecedence | index.js:65-69 | When `smiles` is truthy, the ID-code parser has no influence on the outcome. |
| Structure.NoSearchParsesNothing | index.js:62-63 | Without a search mode and a molecule, no parser has any influence, so a malformed molecule is not an error. |
| Assembly.ScanFrom | index.js:81-86 | The loop stops at the first sentinel row below the bound, and yields `limit` when there is none. |
| Assembly.MatchedCount | index.js:79-86 | `maxOK` is at most `limit`. It is below `limit` exactly at a sentinel row among the first `min(length, limit)` rows, and it never passes an earlier sentinel. Without a sentinel it is `limit`. |
| Assembly.Project | index.js:90-104 | A record carries the row's id, the reference `{type: 'oclid', value}` and, for every field, the column value at the row's `sortid`. |
| Assembly.Assemble | index.js:88-105 | There is one record per row below the count, in row order, and never more than `limit`. No record sits at or after a sentinel row among the first `min(length, limit)` rows. Each record is the projection of its row. |
| Assembly.AssembleLimitPrefix | index.js:79-105 | For any two limits, also ones above `length`, the result with the smaller limit is a prefix of the result with the larger one. |
| Assembly.CountNotBoundedByLength | index.js:79-88 | Take length 1, a limit of 3 and sentinel rows after row 0. Then 3 records are returned, including rows past `length`. |
| Service.Translate | index.js:39-75 | It succeeds exactly when the conditions build and the structure selection succeeds. A wrong condition is reported before a molecule error. With valid conditions, a molecule the parser rejects fails the request with the structure selection's error. A molecule error occurs only when the conditions are valid and a structure search is wanted. On success, the plan holds exactly the built conditions, the limit resolved from the query's `limit`, and the structure search selected for that limit. It has a structure search exactly when one is wanted, and that search carries the plan's limit. |
| Service.PlainPlan | index.js:39-75 | Without a search mode, the plan is the conditions and the limit, with no structure search. |
| Service.Respond | index.js:37-117 | The request fails exactly when its translation fails, with the same error. Otherwise the content is the assembly of the engine's post-search state and holds at most `limit` records. |
| Service.NumericExampleConditions | index.js:39-57 | `{mw: '>=n', limit: '2'}` yields exactly one condition: mw >= n. |
| Service.NumericExampleLimit | index.js:59-60 | That query's limit is 2. |
| Service.NumericExamplePlan | index.js:39-75 | That query translates into one mw >= n condition, limit 2 and no structure search. |
| Service.NumericExampleAssembly | index.js:79-105 | Rows 0 and 1 (mw 210 and 250) are returned at limit 2. |
| Service.NumericQueryExample | index.js:37-117 | `{mw: '>=200', limit: '2'}`, against rows with mw 210 and 250 and a sentinel third row, answers exactly two records with mw 210 and 250. |
| Service.StructureExampleConditions | index.js:39-57 | `{smiles, searchMode, limit}` carries no numeric condition. |
| Service.StructureExampleLimit | index.js:59-60 | Its limit is 10. |
| Service.StructureQueryExample | index.js:62-75 | `{smiles: 'c1ccccc1', searchMode: 'substructure', limit: '10'}` plans a substructure search on the parsed molecule with limit 10. |

## Left out

- Configuration loading, the exit when it is missing, and reading the dataset file (index.js:22-32): start-up I/O.
- The search itself, `crd.search` (index.js:77): the engine is foreign code. It is a parameter of `Respond` that returns the state after the search. `Respond` requires that state to hold every row and column the assembly reads.
- `Molecule.fromSmiles` and `Molecule.fromIDCode` (index.js:66, 68): foreign library. They are parameters, and a thrown exception is a failure result.
- The debounced `crd.reset()` timer (index.js:107-113): a clock and shared mutable engine state across requests. The model handles one request against the state it is given.
- `Promise.resolve` (index.js:115): the response is returned directly.
- Comparator.ParseComparator: the threshold is the exact integer value of the digit run. `parseFloat` rounds runs beyond 2^53 to the nearest double, and that rounding is not modelled.
- Limits.ParseInt: integers are unbounded. Precision loss of very long numerals in `parseInt` is not modelled.
- Conditions.FieldOf: `toLowerCase` is modelled on ASCII letters only. Of the non-ASCII characters, only U+0130 and U+212A lower-case to the ASCII letters `i` and `k`, and no field name contains either letter. So the set of recognised keys is the same.
- The query model holds strings and lists of strings only. Nested objects and non-string JSON values are not modelled.
- A query may repeat a key, which a JavaScript object cannot. `Lookup` then reads the first occurrence, and the condition loop visits every occurrence.
- The comparator objects of `crdb.comparators` are modelled by the relation they test (`Comparator.Matches`), not by their implementation.
