/** The public order book of the `order_book` endpoint (exchange_endpoint.py:161-172). */
module OrderBookView {
  import opened Types
  import opened Matching
  import opened Admission

  /** The seven public columns of an order; id, fill time, counterparty and
      creator have no place in it. */
  datatype PublicOrder = PublicOrder(
    senderPk: string,
    receiverPk: string,
    buyCurrency: string,
    sellCurrency: string,
    buyAmount: real,
    sellAmount: real,
    signature: Option<string>)

  function Project(x: Order): PublicOrder {
    PublicOrder(x.senderPk, x.receiverPk, x.buyCurrency, x.sellCurrency,
                x.buyAmount, x.sellAmount, x.signature)
  }

  /** One entry per stored order, filled or not, in book order. */
  function OrderBook(book: seq<Order>): (r: seq<PublicOrder>)
    ensures |r| == |book|
    ensures forall i :: 0 <= i < |book| ==>
      r[i].senderPk == book[i].senderPk && r[i].receiverPk == book[i].receiverPk &&
      r[i].buyCurrency == book[i].buyCurrency && r[i].sellCurrency == book[i].sellCurrency &&
      r[i].buyAmount == book[i].buyAmount && r[i].sellAmount == book[i].sellAmount &&
      r[i].signature == book[i].signature
  {
    if book == [] then []
    else OrderBook(book[..|book| - 1]) + [Project(book[|book| - 1])]
  }

  /** Filling orders never changes what the public book shows of them: the book
      before settling a draft is a prefix of the book after it. */
  lemma {:induction false} OrderBookKeepsPrefix(book: seq<Order>, r: seq<Order>)
    requires |book| <= |r|
    requires forall i :: 0 <= i < |book| ==> Evolves(book[i], r[i])
    ensures OrderBook(r)[..|book|] == OrderBook(book)
  {
    var pb, pr := OrderBook(book), OrderBook(r);
    forall i | 0 <= i < |book| ensures pr[i] == pb[i] {
      assert Evolves(book[i], r[i]);
    }
  }

  lemma OrderBookAfterSettle(book: seq<Order>, d: Draft, now: Time)
    requires AllPositive(book) && DraftPositive(d)
    ensures var r := Settle(book, d, now);
      |OrderBook(r)| > |book| && OrderBook(r)[..|book|] == OrderBook(book) &&
      OrderBook(r)[|book|] == Project(Admit(d, |book|))
  {
    var r := Settle(book, d, now);
    OrderBookKeepsPrefix(book, r);
    assert Evolves(Admit(d, |book|), r[|book|]);
  }

  /** An admitted payload shows up in the public book with its six order columns
      and the request's signature, and without `platform` or `pk`. */
  lemma AdmittedOrderShowsPayload(content: map<string, Json>, id: nat)
    requires Complete(content) && RequestTyped(content) && "pk" in content["payload"].fields
    ensures RowTyped(StoredRow(content["payload"].fields, content["sig"]))
    ensures var p := content["payload"].fields;
      var v := Project(Admit(DraftOf(StoredRow(p, content["sig"])), id));
      v == PublicOrder(p["sender_pk"].str, p["receiver_pk"].str,
                       p["buy_currency"].str, p["sell_currency"].str,
                       p["buy_amount"].num, p["sell_amount"].num,
                       Some(content["sig"].str))
  {
    AdmittedRowTyped(content);
  }
}
