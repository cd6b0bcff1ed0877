/** The field checks of the `trade` endpoint and the construction of the order
    row from an admitted payload (exchange_endpoint.py:120-150). */
module Admission {
  import opened Types

  /** The top-level keys a request must carry, in the order they are checked. */
  const Fields: seq<string> := ["sig", "payload"]

  /** The payload columns, in the order they are checked. */
  const Columns: seq<string> :=
    ["sender_pk", "receiver_pk", "buy_currency", "sell_currency", "buy_amount", "sell_amount", "platform"]

  /** The index of the first name of `names` that is not among `keys`: the
      checking loops with their early return. */
  function FirstMissing(keys: set<string>, names: seq<string>): (r: Option<nat>)
    ensures r.None? <==> forall j :: 0 <= j < |names| ==> names[j] in keys
    ensures r.Some? ==> r.value < |names| && names[r.value] !in keys
    ensures r.Some? ==> forall j :: 0 <= j < r.value ==> names[j] in keys
  {
    if names == [] then None
    else if names[0] !in keys then Some(0)
    else
      match FirstMissing(keys, names[1..])
      case None => None
      case Some(j) => Some(j + 1)
  }

  lemma FieldsPresent(keys: set<string>)
    ensures (forall j :: 0 <= j < |Fields| ==> Fields[j] in keys) <==> "sig" in keys && "payload" in keys
  {
    assert Fields[0] == "sig" && Fields[1] == "payload";
  }

  lemma ColumnsPresent(keys: set<string>)
    ensures (forall j :: 0 <= j < |Columns| ==> Columns[j] in keys) <==>
      "sender_pk" in keys && "receiver_pk" in keys && "buy_currency" in keys && "sell_currency" in keys &&
      "buy_amount" in keys && "sell_amount" in keys && "platform" in keys
  {
    assert Columns[0] == "sender_pk" && Columns[1] == "receiver_pk";
    assert Columns[2] == "buy_currency" && Columns[3] == "sell_currency";
    assert Columns[4] == "buy_amount" && Columns[5] == "sell_amount" && Columns[6] == "platform";
  }

  /** A request the checks let through, stated key by key. */
  predicate Complete(content: map<string, Json>) {
    "sig" in content && "payload" in content && content["payload"].JObj? &&
    var p := content["payload"].fields;
    "sender_pk" in p && "receiver_pk" in p && "buy_currency" in p && "sell_currency" in p &&
    "buy_amount" in p && "sell_amount" in p && "platform" in p
  }

  /** What the checks conclude: the first missing key (the request is then
      logged), a payload that is not a JSON object (whose `keys()` call raises),
      or a complete request. */
  datatype Screen = Passed | Missing(name: string) | PayloadNotObject

  function ScreenRequest(content: map<string, Json>): (s: Screen)
    ensures s.Passed? <==> Complete(content)
    ensures s.Missing? ==>
      (s.name in Fields && s.name !in content) ||
      ("sig" in content && "payload" in content && content["payload"].JObj? &&
       s.name in Columns && s.name !in content["payload"].fields)
    ensures s.PayloadNotObject? <==>
      "sig" in content && "payload" in content && !content["payload"].JObj?
  {
    FieldsPresent(content.Keys);
    match FirstMissing(content.Keys, Fields)
    case Some(j) => Missing(Fields[j])
    case None =>
      if !content["payload"].JObj? then PayloadNotObject
      else
        ColumnsPresent(content["payload"].fields.Keys);
        match FirstMissing(content["payload"].fields.Keys, Columns)
        case Some(j) => Missing(Columns[j])
        case None => Passed
  }

  /** The payload after `platform` and `pk` are removed and the signature added. */
  function StoredRow(payload: map<string, Json>, sig: Json): (row: map<string, Json>)
    requires "platform" in payload && "pk" in payload
    ensures row.Keys == payload.Keys - {"platform", "pk"} + {"signature"}
    ensures row["signature"] == sig
    ensures forall k :: k in payload && k != "platform" && k != "pk" && k != "signature" ==>
      k in row && row[k] == payload[k]
  {
    (payload - {"platform", "pk"})["signature" := sig]
  }

  /** The row's values have the types of the Order table's columns and the
      amounts are positive. */
  predicate RowTyped(row: map<string, Json>) {
    "sender_pk" in row && row["sender_pk"].JStr? &&
    "receiver_pk" in row && row["receiver_pk"].JStr? &&
    "buy_currency" in row && row["buy_currency"].JStr? &&
    "sell_currency" in row && row["sell_currency"].JStr? &&
    "buy_amount" in row && row["buy_amount"].JNum? && row["buy_amount"].num > 0.0 &&
    "sell_amount" in row && row["sell_amount"].JNum? && row["sell_amount"].num > 0.0 &&
    "signature" in row && row["signature"].JStr?
  }

  /** The order built from a row: an original submission, so no creator. */
  function DraftOf(row: map<string, Json>): (d: Draft)
    requires RowTyped(row)
    ensures d.buyAmount > 0.0 && d.sellAmount > 0.0
    ensures d.creatorId.None? && d.signature == Some(row["signature"].str)
    ensures d.senderPk == row["sender_pk"].str && d.receiverPk == row["receiver_pk"].str
    ensures d.buyCurrency == row["buy_currency"].str && d.sellCurrency == row["sell_currency"].str
    ensures d.buyAmount == row["buy_amount"].num && d.sellAmount == row["sell_amount"].num
  {
    Draft(row["sender_pk"].str, row["receiver_pk"].str,
          row["buy_currency"].str, row["sell_currency"].str,
          row["buy_amount"].num, row["sell_amount"].num,
          Some(row["signature"].str), None)
  }

  /** The request's values, where present, have the types of the Order table's
      columns, amounts are positive, and the payload has no key but the seven
      columns and `pk`. */
  predicate RequestTyped(content: map<string, Json>) {
    ("sig" in content ==> content["sig"].JStr?) &&
    ("payload" in content && content["payload"].JObj? ==>
      var p := content["payload"].fields;
      (forall k :: k in p ==> k in Columns || k == "pk") &&
      ("sender_pk" in p ==> p["sender_pk"].JStr?) &&
      ("receiver_pk" in p ==> p["receiver_pk"].JStr?) &&
      ("buy_currency" in p ==> p["buy_currency"].JStr?) &&
      ("sell_currency" in p ==> p["sell_currency"].JStr?) &&
      ("buy_amount" in p ==> p["buy_amount"].JNum? && p["buy_amount"].num > 0.0) &&
      ("sell_amount" in p ==> p["sell_amount"].JNum? && p["sell_amount"].num > 0.0))
  }

  /** A complete, well-typed request whose payload carries `pk` yields a row
      the Order table accepts. */
  lemma AdmittedRowTyped(content: map<string, Json>)
    requires Complete(content) && RequestTyped(content) && "pk" in content["payload"].fields
    ensures RowTyped(StoredRow(content["payload"].fields, content["sig"]))
  {
  }
}
