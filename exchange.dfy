/** The exchange's state and its two state-changing operations: `fill_order`
    (exchange_endpoint.py:42-100) and the `trade` endpoint
    (exchange_endpoint.py:114-159). The Order table is `orders`, in id order;
    the Log table is `log`. */
module Exchange {
  import opened Types
  import opened Matching
  import opened Admission

  /** The scan of the resting orders for the first one that crosses `o`. */
  method ScanForMatch(book: seq<Order>, o: Order) returns (m: Option<nat>)
    requires AllPositive(book) && Positive(o)
    ensures m == FirstMatch(book, o)
  {
    var i := 0;
    while i < |book|
      invariant 0 <= i <= |book|
      invariant forall j :: 0 <= j < i ==> !Candidate(book[j], o)
    {
      if Candidate(book[i], o) {
        return Some(i);
      }
      i := i + 1;
    }
    return None;
  }

  /** What `trade` answers: `jsonify(True)`/`jsonify(False)`, or an exception
      that ends the request with nothing stored. */
  datatype Reply = Answered(accepted: bool) | Crashed(reason: string)

  class Ledger {
    var orders: seq<Order>
    var log: seq<Json>

    ghost predicate Valid()
      reads this
    {
      BookInvariant(orders)
    }

    constructor ()
      ensures Valid() && orders == [] && log == []
    {
      orders := [];
      log := [];
    }

    /** Store `d`, fill it against the first resting order that crosses it, and
        process the residual child, if any, the same way. */
    method FillOrder(d: Draft, now: Time)
      requires Valid() && DraftFits(orders, d)
      modifies this
      ensures Valid()
      ensures orders == Settle(old(orders), d, now)
      ensures log == old(log)
      decreases Resting(orders)
    {
      SettleKeepsInvariant(orders, d, now);
      var book := orders;
      var oi := |orders|;
      var o := Admit(d, oi);
      AdmitKeepsInvariant(orders, d);
      orders := orders + [o];
      var m := ScanForMatch(orders, o);
      if m.Some? {
        var k := m.value;
        var e := orders[k];
        var b := orders;
        assert OrderWellFormed(b, k);
        MatchPairKeepsInvariant(b, oi, k, now);
        orders := orders[k := Fill(e, now, o.id)][oi := Fill(o, now, e.id)];
        assert orders == MatchPair(b, oi, k, now);
        var child := Residual(o, e);
        if child.Some? {
          ChildFits(b, oi, k, now);
          RestingAfterAdmit(book, o);
          MatchPairResting(b, oi, k, now);
          FillOrder(child.value, now);
        }
      }
    }

    /** The `trade` endpoint on a parsed JSON request. Signature checking is the
        caller-supplied `checkSig`. */
    method Trade(content: map<string, Json>, checkSig: (map<string, Json>, Json) -> bool, now: Time)
      returns (reply: Reply)
      requires Valid() && RequestTyped(content)
      modifies this
      ensures Valid()
      ensures ScreenRequest(content).Missing? ==>
        reply == Answered(false) && orders == old(orders) && log == old(log) + [JObj(content)]
      ensures ScreenRequest(content).PayloadNotObject? ==>
        reply.Crashed? && orders == old(orders) && log == old(log)
      ensures ScreenRequest(content).Passed? ==>
        var p := content["payload"].fields;
        if !checkSig(p, content["sig"]) then
          reply == Answered(false) && orders == old(orders) && log == old(log) + [JObj(p)]
        else if "pk" !in p then
          reply.Crashed? && orders == old(orders) && log == old(log)
        else
          RowTyped(StoredRow(p, content["sig"])) &&
          reply == Answered(true) && log == old(log) &&
          orders == Settle(old(orders), DraftOf(StoredRow(p, content["sig"])), now)
    {
      var screen := ScreenRequest(content);
      if screen.Missing? {
        log := log + [JObj(content)];
        return Answered(false);
      }
      if screen.PayloadNotObject? {
        return Crashed("payload has no keys()");
      }
      var sig := content["sig"];
      var payload := content["payload"].fields;
      if !checkSig(payload, sig) {
        log := log + [JObj(payload)];
        return Answered(false);
      }
      if "pk" !in payload {
        return Crashed("KeyError: pk");
      }
      AdmittedRowTyped(content);
      var d := DraftOf(StoredRow(payload, sig));
      FillOrder(d, now);
      return Answered(true);
    }
  }
}
