/**
 * The users/transfers route handler: assemble the query text (rewriting `user` in the
 * request's query object), run it against the store with the query object as its named
 * parameters, normalise the rows, and answer `{ transfers, continuation: null }`.
 * Any failure is logged and rethrown unchanged; here it is returned as a Failure.
 */
module TransfersHandler {
  import opened Wrappers
  import opened JsValues
  import opened TransfersQuery
  import opened TransfersRows

  /** The response body; `continuation` None is JSON null. */
  datatype Response = Response(transfers: seq<Item>, continuation: Option<string>)

  /**
   * What the handler rethrows: the store's failure, or the TypeError of a row without
   * metadata.
   */
  datatype HandlerError = StoreError(detail: string) | RowError(cause: TypeError)

  /**
   * The store's `manyOrNone(text, params)`: the rows a query text yields under named
   * parameters, or a failure.
   */
  type Store = (string, map<string, Param>) -> Result<seq<RawRow>, string>

  /** What the handler answers once the store has answered. */
  function Respond(fetched: Result<seq<RawRow>, string>, f: Formatters): (res: Result<Response, HandlerError>)
    ensures res.Success? ==> res.value.continuation == None
    ensures res.Success? <==>
      fetched.Success? && forall i :: 0 <= i < |fetched.value| ==> !Nullish(fetched.value[i].metadata)
    ensures res.Success? ==>
      && |res.value.transfers| == |fetched.value|
      && forall i :: 0 <= i < |fetched.value| ==> NormalizeRow(fetched.value[i], f) == Success(res.value.transfers[i])
    ensures fetched.Failure? ==> res == Failure(StoreError(fetched.error))
    ensures fetched.Success? && res.Failure? ==> res == Failure(RowError(CannotReadProperty("logIndex")))
  {
    match fetched
    case Failure(detail) => Failure(StoreError(detail))
    case Success(rawResult) =>
      var continuation := None;
      match NormalizeRows(rawResult, f)
      case Failure(e) => Failure(RowError(e))
      case Success(result) => Success(Response(result, continuation))
  }

  /**
   * The handler. The store is given the assembled text and the query object after the
   * rewrite of `user`; the query object keeps that rewrite afterwards.
   */
  method Handle(query: QueryObject, toBuffer: string -> Bytes, f: Formatters, store: Store)
    returns (res: Result<Response, HandlerError>)
    requires ValidatedQuery(query.params)
    modifies query
    ensures query.params == RewriteUser(old(query.params), toBuffer)
    ensures res == Respond(store(QueryText(Conditions(old(query.params))), query.params), f)
    ensures res.Success? ==> res.value.continuation == None
  {
    var baseQuery := AssembleQuery(query, toBuffer);
    var rawResult := store(baseQuery, query.params);
    res := Respond(rawResult, f);
  }
}
