/**
  Structure-search selection (index.js:62-75). The molecule parsers
  `Molecule.fromSmiles` and `Molecule.fromIDCode` belong to a foreign
  library: they are parameters here, and a parser that throws is one that
  returns a failure with its message.
 */
module Structure {
  import opened Wrappers
  import opened Request

  /** The descriptor handed to the engine: `{mode, query, limit}`. */
  datatype StructureSearch<M> = StructureSearch(mode: QueryValue, query: M, limit: nat)

  /** `query.searchMode && (query.smiles || query.oclid)`. */
  predicate WantsStructureSearch(q: Query) {
    Truthy(Lookup(q, "searchMode")) && (Truthy(Lookup(q, "smiles")) || Truthy(Lookup(q, "oclid")))
  }

  /**
    The structure search of a query. None is built unless a search mode and
    a molecule are given; `smiles` is preferred over `oclid`; the descriptor
    carries the mode as given and the effective limit; a parser failure
    rejects the request with the parser's message.
   */
  function SelectStructureSearch<M>(
    q: Query,
    limit: nat,
    fromSmiles: QueryValue -> Result<M, string>,
    fromIDCode: QueryValue -> Result<M, string>
  ): (r: Result<Option<StructureSearch<M>>, RequestError>)
    ensures r == Success(None) <==> !WantsStructureSearch(q)
    ensures r.Success? && r.value.Some? ==>
      && Lookup(q, "searchMode") == Some(r.value.value.mode)
      && r.value.value.limit == limit
      && (Truthy(Lookup(q, "smiles")) ==> fromSmiles(Lookup(q, "smiles").value) == Success(r.value.value.query))
      && (!Truthy(Lookup(q, "smiles")) ==> fromIDCode(Lookup(q, "oclid").value) == Success(r.value.value.query))
    ensures r.Failure? ==>
      && WantsStructureSearch(q)
      && r.error.MoleculeError?
      && (Truthy(Lookup(q, "smiles")) ==> fromSmiles(Lookup(q, "smiles").value) == Failure(r.error.message))
      && (!Truthy(Lookup(q, "smiles")) ==> fromIDCode(Lookup(q, "oclid").value) == Failure(r.error.message))
  {
    if WantsStructureSearch(q) then
      var parsed :=
        if Truthy(Lookup(q, "smiles")) then fromSmiles(Lookup(q, "smiles").value)
        else fromIDCode(Lookup(q, "oclid").value);
      match parsed
      case Success(m) => Success(Some(StructureSearch(Lookup(q, "searchMode").value, m, limit)))
      case Failure(message) => Failure(MoleculeError(message))
    else
      Success(None)
  }

  /** A search mode and a SMILES string that parses give a search for the parsed molecule. */
  lemma SmilesSearch<M>(
    q: Query,
    limit: nat,
    fromSmiles: QueryValue -> Result<M, string>,
    fromIDCode: QueryValue -> Result<M, string>,
    mode: QueryValue,
    smiles: QueryValue,
    molecule: M
  )
    requires Lookup(q, "searchMode") == Some(mode) && Truthy(Some(mode))
    requires Lookup(q, "smiles") == Some(smiles) && Truthy(Some(smiles))
    requires fromSmiles(smiles) == Success(molecule)
    ensures SelectStructureSearch(q, limit, fromSmiles, fromIDCode) == Success(Some(StructureSearch(mode, molecule, limit)))
  {
  }

  /** When `smiles` is given, the ID-code parser is never consulted. */
  lemma SmilesTakesPrecedence<M>(
    q: Query,
    limit: nat,
    fromSmiles: QueryValue -> Result<M, string>,
    fromIDCode: QueryValue -> Result<M, string>,
    otherIDCode: QueryValue -> Result<M, string>
  )
    requires Truthy(Lookup(q, "smiles"))
    ensures SelectStructureSearch(q, limit, fromSmiles, fromIDCode) == SelectStructureSearch(q, limit, fromSmiles, otherIDCode)
  {
  }

  /** Without a search mode and a molecule no parser is consulted, so a malformed molecule is not an error. */
  lemma NoSearchParsesNothing<M>(
    q: Query,
    limit: nat,
    fromSmiles: QueryValue -> Result<M, string>,
    fromIDCode: QueryValue -> Result<M, string>
  )
    requires !WantsStructureSearch(q)
    ensures forall otherSmiles: QueryValue -> Result<M, string>, otherIDCode: QueryValue -> Result<M, string> ::
      SelectStructureSearch(q, limit, otherSmiles, otherIDCode) == SelectStructureSearch(q, limit, fromSmiles, fromIDCode)
  {
  }
}
