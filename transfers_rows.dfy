/**
 * Row normalisation of the users/transfers handler: an order-preserving map that turns
 * each row of `user_activities` into a response item, renaming fields, decoding binary
 * columns for display, taking the log and batch indices out of the jsonb `metadata`,
 * stringifying the amount and formatting a truthy price (a falsy one becomes null).
 */
module TransfersRows {
  import opened Wrappers
  import opened JsValues

  /** A row of `user_activities` as the store returns it. */
  datatype RawRow = RawRow(
    activityType: Json,
    direction: Json,
    contract: Bytes,
    name: Json,
    fromAddress: Bytes,
    toAddress: Bytes,
    amount: Json,
    address: Bytes,
    hash: Bytes,
    metadata: Json,
    eventTimestamp: Json,
    price: Json)

  datatype Token = Token(contract: string, name: Json)

  /** One element of the response's `transfers`; `price` None is JSON null. */
  datatype Item = Item(
    activityType: Json,
    direction: Json,
    token: Token,
    from: string,
    to: string,
    amount: string,
    address: string,
    txHash: string,
    logIndex: Json,
    batchIndex: Json,
    timestamp: Json,
    price: Option<real>)

  /**
   * The display helpers the handler imports: hex rendering of a buffer and ether
   * formatting of a price.
   */
  datatype Formatters = Formatters(fromBuffer: Bytes -> string, formatEth: Json -> real)

  /**
   * The object literal built for one row; reading `r.metadata.logIndex` throws when
   * `metadata` is null or undefined.
   */
  function NormalizeRow(r: RawRow, f: Formatters): (res: Result<Item, TypeError>)
    ensures res.Failure? <==> Nullish(r.metadata)
    ensures res.Failure? ==> res.error == CannotReadProperty("logIndex")
  {
    match GetProperty(r.metadata, "logIndex")
    case Failure(e) => Failure(e)
    case Success(logIndex) =>
      var batchIndex := GetProperty(r.metadata, "batchIndex").value;
      Success(Item(
        activityType := r.activityType,
        direction := r.direction,
        token := Token(f.fromBuffer(r.contract), r.name),
        from := f.fromBuffer(r.fromAddress),
        to := f.fromBuffer(r.toAddress),
        amount := ToJsString(r.amount),
        address := f.fromBuffer(r.address),
        txHash := f.fromBuffer(r.hash),
        logIndex := logIndex,
        batchIndex := batchIndex,
        timestamp := r.eventTimestamp,
        price := if Truthy(r.price) then Some(f.formatEth(r.price)) else None))
  }

  /**
   * `rawResult.map(...)`: succeeds exactly when every row has metadata, and then yields
   * one item per row, in the rows' order.
   */
  function NormalizeRows(rows: seq<RawRow>, f: Formatters): (res: Result<seq<Item>, TypeError>)
    ensures res.Success? <==> forall i :: 0 <= i < |rows| ==> !Nullish(rows[i].metadata)
    ensures res.Success? ==>
      && |res.value| == |rows|
      && forall i :: 0 <= i < |rows| ==> NormalizeRow(rows[i], f) == Success(res.value[i])
    ensures res.Failure? ==> res.error == CannotReadProperty("logIndex")
  {
    if rows == [] then Success([])
    else
      match NormalizeRow(rows[0], f)
      case Failure(e) => Failure(e)
      case Success(item) =>
        match NormalizeRows(rows[1..], f)
        case Failure(e) => Failure(e)
        case Success(items) => Success([item] + items)
  }

  /**
   * An item's price is null exactly when the row's price is falsy, and is the formatted
   * price otherwise.
   */
  lemma PriceNullIffFalsy(r: RawRow, f: Formatters)
    requires !Nullish(r.metadata)
    ensures NormalizeRow(r, f).Success?
    ensures NormalizeRow(r, f).value.price == None <==> !Truthy(r.price)
    ensures Truthy(r.price) ==> NormalizeRow(r, f).value.price == Some(f.formatEth(r.price))
  {
  }

  /**
   * The amount is `String(r.amount)`: a string passes through unchanged; an integer becomes
   * its canonical decimal text (a minus sign, then the digits, when negative), which reads
   * back as the same integer; every other value becomes its JavaScript name.
   */
  lemma AmountKeepsValue(r: RawRow, f: Formatters)
    requires !Nullish(r.metadata)
    ensures NormalizeRow(r, f).Success?
    ensures var amount := NormalizeRow(r, f).value.amount;
      && (r.amount.JString? ==> amount == r.amount.s)
      && (r.amount.JNumber? ==> ParseInt(amount) == Some(r.amount.n))
      && (r.amount.JNumber? && r.amount.n >= 0 ==> Canonical(amount))
      && (r.amount.JNumber? && r.amount.n < 0 ==> |amount| > 1 && amount[0] == '-' && Canonical(amount[1..]))
      && (r.amount.JBool? ==> amount == (if r.amount.b then "true" else "false"))
      && (r.amount.JObject? ==> amount == "[object Object]")
      && (r.amount.JNull? ==> amount == "null")
      && (r.amount.JUndefined? ==> amount == "undefined")
  {
  }

  /**
   * `logIndex` and `batchIndex` come out of the row's metadata object; an absent key, or
   * metadata that is a string, number or boolean, gives undefined.
   */
  lemma IndicesFromMetadata(r: RawRow, f: Formatters)
    requires !Nullish(r.metadata)
    ensures NormalizeRow(r, f).Success?
    ensures r.metadata.JObject? ==> var m := r.metadata.fields;
      && NormalizeRow(r, f).value.logIndex == (if "logIndex" in m then m["logIndex"] else JUndefined)
      && NormalizeRow(r, f).value.batchIndex == (if "batchIndex" in m then m["batchIndex"] else JUndefined)
    ensures !r.metadata.JObject? ==>
      NormalizeRow(r, f).value.logIndex == JUndefined && NormalizeRow(r, f).value.batchIndex == JUndefined
  {
  }

  /**
   * The renamed and decoded fields: the timestamp is the event timestamp and every
   * address is the hex form of its column.
   */
  lemma RenamedFields(r: RawRow, f: Formatters)
    requires !Nullish(r.metadata)
    ensures NormalizeRow(r, f).Success?
    ensures var item := NormalizeRow(r, f).value;
      && item.activityType == r.activityType && item.direction == r.direction
      && item.timestamp == r.eventTimestamp
      && item.token == Token(f.fromBuffer(r.contract), r.name)
      && item.from == f.fromBuffer(r.fromAddress) && item.to == f.fromBuffer(r.toAddress)
      && item.address == f.fromBuffer(r.address) && item.txHash == f.fromBuffer(r.hash)
  {
  }
}
