/** The order-matching engine of `fill_order` (exchange_endpoint.py:42-100), as
    functions on the book, which is the sequence of stored orders in id order.
    `Settle` is the engine with one match per admitted order and no self-match;
    the as-written control flow is in module AsWritten. */
module Matching {
  import opened Types

  predicate Positive(x: Order) {
    x.buyAmount > 0.0 && x.sellAmount > 0.0
  }

  predicate AllPositive(book: seq<Order>) {
    forall i :: 0 <= i < |book| ==> Positive(book[i])
  }

  /** The matching test on a resting order `e` for an incoming order `o`: the
      currency pair is reversed and e's offered rate is at least o's asked rate. */
  predicate Crosses(e: Order, o: Order)
    requires Positive(e) && Positive(o)
  {
    e.buyCurrency == o.sellCurrency && e.sellCurrency == o.buyCurrency &&
    e.sellAmount / e.buyAmount >= o.buyAmount / o.sellAmount
  }

  /** A resting order other than `o` itself that crosses it. */
  predicate Candidate(e: Order, o: Order)
    requires Positive(e) && Positive(o)
  {
    e.filled.None? && e.id != o.id && Crosses(e, o)
  }

  /** The first candidate of the book in id order, if any. */
  function FirstMatch(book: seq<Order>, o: Order): (r: Option<nat>)
    requires AllPositive(book) && Positive(o)
    ensures r.Some? ==> r.value < |book| && Candidate(book[r.value], o)
    ensures r.Some? ==> forall j :: 0 <= j < r.value ==> !Candidate(book[j], o)
    ensures r.None? ==> forall j :: 0 <= j < |book| ==> !Candidate(book[j], o)
  {
    if book == [] then None
    else
      var n := |book| - 1;
      match FirstMatch(book[..n], o)
      case Some(k) => Some(k)
      case None => if Candidate(book[n], o) then Some(n) else None
  }

  /** Marks an order filled at `now` against `counterparty`. */
  function Fill(x: Order, now: Time, counterparty: nat): Order {
    x.(filled := Some(now), counterpartyId := Some(counterparty))
  }

  /** Stores a draft under identifier `id`, resting. */
  function Admit(d: Draft, id: nat): Order {
    Order(id, d.senderPk, d.receiverPk, d.buyCurrency, d.sellCurrency,
          d.buyAmount, d.sellAmount, d.signature, None, None, d.creatorId)
  }

  /** The fill of the incoming order at `oi` against the resting order at `k`. */
  function MatchPair(b: seq<Order>, oi: nat, k: nat, now: Time): (r: seq<Order>)
    requires oi < |b| && k < |b|
    ensures |r| == |b|
    ensures forall i :: 0 <= i < |b| && i != k && i != oi ==> r[i] == b[i]
    ensures r[k].filled == Some(now) && r[oi].filled == Some(now)
    ensures r[oi].counterpartyId == Some(b[k].id)
    ensures k != oi ==> r[k].counterpartyId == Some(b[oi].id)
    ensures r[k] == b[k].(filled := r[k].filled, counterpartyId := r[k].counterpartyId)
    ensures r[oi] == b[oi].(filled := r[oi].filled, counterpartyId := r[oi].counterpartyId)
  {
    b[k := Fill(b[k], now, b[oi].id)][oi := Fill(b[oi], now, b[k].id)]
  }

  /** `c` carries its parent's currencies and keys, names it as creator, has no
      signature, and its implied rate (sell per buy) is at least the parent's. */
  predicate ChildOf(c: Draft, p: Order) {
    c.buyCurrency == p.buyCurrency && c.sellCurrency == p.sellCurrency &&
    c.senderPk == p.senderPk && c.receiverPk == p.receiverPk &&
    c.creatorId == Some(p.id) && c.signature.None? &&
    c.sellAmount * p.buyAmount >= p.sellAmount * c.buyAmount
  }

  /** The residual child order of a match of `o` against `e`. The source tests
      "o short" and then "e short", the second overriding the first. */
  function Residual(o: Order, e: Order): (r: Option<Draft>)
    requires Positive(o) && Positive(e) && Crosses(e, o)
    ensures r.None? <==> e.sellAmount >= o.buyAmount && o.sellAmount >= e.buyAmount
    ensures r.Some? ==> r.value.buyAmount > 0.0 && r.value.sellAmount > 0.0
    ensures r.Some? && o.sellAmount < e.buyAmount ==>
      ChildOf(r.value, e) &&
      r.value.buyAmount + o.sellAmount == e.buyAmount &&
      r.value.sellAmount + o.buyAmount == e.sellAmount
    ensures r.Some? && e.sellAmount < o.buyAmount ==>
      ChildOf(r.value, o) &&
      r.value.buyAmount + e.sellAmount == o.buyAmount &&
      r.value.sellAmount + e.buyAmount == o.sellAmount
  {
    PartialFillsExclusive(o, e);
    if o.sellAmount < e.buyAmount then
      ChildRateNotWorse(o, e);
      Some(Draft(e.senderPk, e.receiverPk, e.buyCurrency, e.sellCurrency,
                 e.buyAmount - o.sellAmount, e.sellAmount - o.buyAmount, None, Some(e.id)))
    else if e.sellAmount < o.buyAmount then
      ChildRateNotWorse(o, e);
      Some(Draft(o.senderPk, o.receiverPk, o.buyCurrency, o.sellCurrency,
                 o.buyAmount - e.sellAmount, o.sellAmount - e.buyAmount, None, Some(o.id)))
    else
      None
  }

  // ---------------------------------------------------------------------------
  // Arithmetic of the crossing condition

  lemma ScaleOrder(p: real, q: real, m: real)
    requires m > 0.0
    ensures p >= q <==> p * m >= q * m
  {
    if p >= q {
      assert (p - q) * m >= 0.0;
    } else {
      assert (q - p) * m > 0.0;
    }
  }

  /** The rate test of the source, in exact arithmetic, is the cross-multiplied test. */
  lemma CrossesCrossMultiplied(e: Order, o: Order)
    requires Positive(e) && Positive(o)
    ensures Crosses(e, o) <==>
      e.buyCurrency == o.sellCurrency && e.sellCurrency == o.buyCurrency &&
      e.sellAmount * o.sellAmount >= o.buyAmount * e.buyAmount
  {
    var p := e.sellAmount / e.buyAmount;
    var q := o.buyAmount / o.sellAmount;
    var m := e.buyAmount * o.sellAmount;
    assert p * e.buyAmount == e.sellAmount;
    assert q * o.sellAmount == o.buyAmount;
    assert p * m == e.sellAmount * o.sellAmount;
    assert q * m == o.buyAmount * e.buyAmount;
    ScaleOrder(p, q, m);
  }

  /** Under the crossing condition the two partial-fill tests exclude each other,
      and each one forces the other side strictly to exceed its counterpart. */
  lemma PartialFillsExclusive(o: Order, e: Order)
    requires Positive(o) && Positive(e) && Crosses(e, o)
    ensures e.sellAmount < o.buyAmount ==> o.sellAmount > e.buyAmount
    ensures o.sellAmount < e.buyAmount ==> e.sellAmount > o.buyAmount
    ensures !(e.sellAmount < o.buyAmount && o.sellAmount < e.buyAmount)
  {
    CrossesCrossMultiplied(e, o);
  }

  /** A residual child's implied rate is never worse than its parent's. */
  lemma ChildRateNotWorse(o: Order, e: Order)
    requires Positive(o) && Positive(e) && Crosses(e, o)
    ensures o.sellAmount < e.buyAmount ==>
      (e.sellAmount - o.buyAmount) * e.buyAmount >= e.sellAmount * (e.buyAmount - o.sellAmount)
    ensures e.sellAmount < o.buyAmount ==>
      (o.sellAmount - e.buyAmount) * o.buyAmount >= o.sellAmount * (o.buyAmount - e.sellAmount)
  {
    CrossesCrossMultiplied(e, o);
    assert (e.sellAmount - o.buyAmount) * e.buyAmount
        == e.sellAmount * e.buyAmount - o.buyAmount * e.buyAmount;
    assert e.sellAmount * (e.buyAmount - o.sellAmount)
        == e.sellAmount * e.buyAmount - e.sellAmount * o.sellAmount;
    assert (o.sellAmount - e.buyAmount) * o.buyAmount
        == o.sellAmount * o.buyAmount - e.buyAmount * o.buyAmount;
    assert o.sellAmount * (o.buyAmount - e.sellAmount)
        == o.sellAmount * o.buyAmount - o.sellAmount * e.sellAmount;
  }

  /** An order that crosses itself (same currency both ways) never leaves a residual. */
  lemma SelfCrossNoResidual(o: Order)
    requires Positive(o) && Crosses(o, o)
    ensures Residual(o, o).None?
  {
    CrossesCrossMultiplied(o, o);
  }

  // ---------------------------------------------------------------------------
  // The termination measure: resting orders other than the one being processed

  function Unfilled(x: Order, i: nat, except: nat): nat {
    if i != except && x.filled.None? then 1 else 0
  }

  function RestingExcept(book: seq<Order>, except: nat): nat {
    if book == [] then 0
    else RestingExcept(book[..|book| - 1], except) + Unfilled(book[|book| - 1], |book| - 1, except)
  }

  function Resting(book: seq<Order>): nat {
    RestingExcept(book, |book|)
  }

  lemma {:induction false} RestingUpdate(s: seq<Order>, except: nat, k: nat, y: Order)
    requires k < |s|
    ensures RestingExcept(s[k := y], except) + Unfilled(s[k], k, except)
         == RestingExcept(s, except) + Unfilled(y, k, except)
  {
    var n := |s| - 1;
    if k == n {
      assert s[k := y][..n] == s[..n];
    } else {
      assert s[k := y][..n] == s[..n][k := y];
      RestingUpdate(s[..n], except, k, y);
    }
  }

  lemma {:induction false} RestingExceptIrrelevant(s: seq<Order>, x: nat, z: nat)
    requires x >= |s| || s[x].filled.Some?
    requires z >= |s| || s[z].filled.Some?
    ensures RestingExcept(s, x) == RestingExcept(s, z)
  {
    if s != [] {
      var n := |s| - 1;
      RestingExceptIrrelevant(s[..n], x, z);
    }
  }

  lemma RestingAfterAdmit(book: seq<Order>, o: Order)
    ensures RestingExcept(book + [o], |book|) == Resting(book)
  {
    assert (book + [o])[..|book|] == book;
  }

  /** A fill of two distinct resting orders takes both out of the count. */
  lemma MatchPairResting(b: seq<Order>, oi: nat, k: nat, now: Time)
    requires oi < |b| && k < |b| && k != oi && b[k].filled.None?
    ensures Resting(MatchPair(b, oi, k, now)) + 1 == RestingExcept(b, oi)
  {
    var b1 := b[k := Fill(b[k], now, b[oi].id)];
    var b2 := b1[oi := Fill(b[oi], now, b[k].id)];
    RestingUpdate(b, oi, k, Fill(b[k], now, b[oi].id));
    RestingUpdate(b1, oi, oi, Fill(b[oi], now, b[k].id));
    RestingExceptIrrelevant(b2, oi, |b2|);
  }

  /** Any fill involving the order at `oi` never adds a resting order other than it. */
  lemma MatchPairRestingExcept(b: seq<Order>, oi: nat, k: nat, now: Time)
    requires oi < |b| && k < |b|
    ensures RestingExcept(MatchPair(b, oi, k, now), oi) <= RestingExcept(b, oi)
    ensures k != oi && b[k].filled.None? ==>
      RestingExcept(MatchPair(b, oi, k, now), oi) < RestingExcept(b, oi)
  {
    var b1 := b[k := Fill(b[k], now, b[oi].id)];
    RestingUpdate(b, oi, k, Fill(b[k], now, b[oi].id));
    RestingUpdate(b1, oi, oi, Fill(b[oi], now, b[k].id));
  }

  // ---------------------------------------------------------------------------
  // The engine

  predicate DraftPositive(d: Draft) {
    d.buyAmount > 0.0 && d.sellAmount > 0.0
  }

  /** The only change the engine makes to a stored order: a resting order
      becomes filled, every other column unchanged. */
  predicate Evolves(x: Order, y: Order) {
    y == x ||
    (x.filled.None? && y.filled.Some? && y.counterpartyId.Some? &&
     y == x.(filled := y.filled, counterpartyId := y.counterpartyId))
  }

  /** The book after admitting draft `d` and matching it (and any residual chain). */
  function Settle(book: seq<Order>, d: Draft, now: Time): (r: seq<Order>)
    requires AllPositive(book) && DraftPositive(d)
    ensures |r| > |book|
    ensures forall i :: 0 <= i < |book| ==> Evolves(book[i], r[i])
    ensures Evolves(Admit(d, |book|), r[|book|])
    decreases Resting(book)
  {
    var oi := |book|;
    var o := Admit(d, oi);
    var b := book + [o];
    match FirstMatch(b, o)
    case None => b
    case Some(k) =>
      var e := b[k];
      var b2 := MatchPair(b, oi, k, now);
      match Residual(o, e)
      case None => b2
      case Some(child) =>
        RestingAfterAdmit(book, o);
        MatchPairResting(b, oi, k, now);
        Settle(b2, child, now)
  }

  // ---------------------------------------------------------------------------
  // The invariant of the book

  /** The child `c` keeps its parent's pair and keys and a rate no worse. */
  predicate InheritsFrom(c: Order, p: Order) {
    c.buyCurrency == p.buyCurrency && c.sellCurrency == p.sellCurrency &&
    c.senderPk == p.senderPk && c.receiverPk == p.receiverPk &&
    c.sellAmount * p.buyAmount >= p.sellAmount * c.buyAmount
  }

  predicate OrderWellFormed(book: seq<Order>, i: nat)
    requires i < |book|
  {
    var x := book[i];
    x.id == i && Positive(x) &&
    x.filled.None? == x.counterpartyId.None? &&
    (x.counterpartyId.Some? ==>
      var j := x.counterpartyId.value;
      j < |book| && j != i && book[j].counterpartyId == Some(i) && book[j].filled == x.filled) &&
    (x.creatorId.Some? ==>
      var p := x.creatorId.value;
      p < i && book[p].filled.Some? && InheritsFrom(x, book[p]))
  }

  /** Ids are positions, amounts are positive, an order is filled exactly when it
      has a counterparty, counterparties are mutual and share the fill time, and
      a child is newer than its filled parent and inherits from it. */
  predicate BookInvariant(book: seq<Order>) {
    AllPositive(book) && forall i :: 0 <= i < |book| ==> OrderWellFormed(book, i)
  }

  /** A draft may be admitted: positive amounts, and a child's parent is stored and filled. */
  predicate DraftFits(book: seq<Order>, d: Draft) {
    DraftPositive(d) &&
    (d.creatorId.Some? ==>
      d.creatorId.value < |book| && book[d.creatorId.value].filled.Some? &&
      InheritsFrom(Admit(d, |book|), book[d.creatorId.value]))
  }

  lemma AdmitKeepsInvariant(book: seq<Order>, d: Draft)
    requires BookInvariant(book) && DraftFits(book, d)
    ensures BookInvariant(book + [Admit(d, |book|)])
  {
    var b := book + [Admit(d, |book|)];
    forall i | 0 <= i < |b| ensures OrderWellFormed(b, i) {
      if i < |book| {
        assert OrderWellFormed(book, i);
      }
    }
  }

  lemma MatchPairKeepsInvariant(b: seq<Order>, oi: nat, k: nat, now: Time)
    requires BookInvariant(b) && oi < |b| && k < |b| && k != oi
    requires b[oi].filled.None? && b[k].filled.None?
    ensures BookInvariant(MatchPair(b, oi, k, now))
  {
    var r := MatchPair(b, oi, k, now);
    assert OrderWellFormed(b, oi) && OrderWellFormed(b, k);
    forall i | 0 <= i < |r| ensures OrderWellFormed(r, i) {
      assert OrderWellFormed(b, i);
      var x := b[i];
      if x.counterpartyId.Some? {
        var j := x.counterpartyId.value;
        assert OrderWellFormed(b, j);
      }
      if x.creatorId.Some? {
        var p := x.creatorId.value;
        assert InheritsFrom(r[i], r[p]);
      }
    }
  }

  lemma ChildFits(b: seq<Order>, oi: nat, k: nat, now: Time)
    requires BookInvariant(b) && oi < |b| && k < |b| && k != oi
    requires Positive(b[oi]) && Positive(b[k]) && Crosses(b[k], b[oi])
    requires Residual(b[oi], b[k]).Some?
    ensures DraftFits(MatchPair(b, oi, k, now), Residual(b[oi], b[k]).value)
  {
    var o, e := b[oi], b[k];
    var c := Residual(o, e).value;
    var r := MatchPair(b, oi, k, now);
    assert OrderWellFormed(b, oi) && OrderWellFormed(b, k);
    PartialFillsExclusive(o, e);
    if o.sellAmount < e.buyAmount {
      assert c.creatorId == Some(k);
    } else {
      assert c.creatorId == Some(oi);
    }
  }

  /** Settling a draft keeps the book invariant. */
  lemma {:induction false} SettleKeepsInvariant(book: seq<Order>, d: Draft, now: Time)
    requires BookInvariant(book) && DraftFits(book, d)
    ensures AllPositive(book) && BookInvariant(Settle(book, d, now))
    decreases Resting(book)
  {
    var oi := |book|;
    var o := Admit(d, oi);
    var b := book + [o];
    AdmitKeepsInvariant(book, d);
    match FirstMatch(b, o)
    case None =>
    case Some(k) =>
      var e := b[k];
      MatchPairKeepsInvariant(b, oi, k, now);
      match Residual(o, e)
      case None =>
      case Some(child) =>
        ChildFits(b, oi, k, now);
        RestingAfterAdmit(book, o);
        MatchPairResting(b, oi, k, now);
        SettleKeepsInvariant(MatchPair(b, oi, k, now), child, now);
  }

  /** What one settlement does: with no candidate the order rests and nothing
      else changes; otherwise the first candidate and the order are filled at
      the same instant against each other and never touched again. An exact
      fill stores nothing more; a residual child is stored next, as order
      `|book| + 1`, and settled in turn. */
  lemma SettleOutcome(book: seq<Order>, d: Draft, now: Time)
    requires BookInvariant(book) && DraftFits(book, d)
    ensures AllPositive(book) && AllPositive(book + [Admit(d, |book|)])
    ensures var o := Admit(d, |book|);
      var r := Settle(book, d, now);
      match FirstMatch(book + [o], o)
      case None => r == book + [o]
      case Some(k) =>
        k < |book| && Crosses(book[k], o) && book[k].filled.None? &&
        r[k] == Fill(book[k], now, |book|) && r[|book|] == Fill(o, now, k) &&
        (Residual(o, book[k]).None? ==> r == MatchPair(book + [o], |book|, k, now)) &&
        (Residual(o, book[k]).Some? ==>
          |r| > |book| + 1 && Evolves(Admit(Residual(o, book[k]).value, |book| + 1), r[|book| + 1]))
  {
    var o := Admit(d, |book|);
    var b := book + [o];
    assert AllPositive(b);
    match FirstMatch(b, o)
    case None =>
    case Some(k) =>
      assert OrderWellFormed(book, k);
      var b2 := MatchPair(b, |book|, k, now);
      match Residual(o, b[k])
      case None =>
      case Some(child) =>
        var r := Settle(b2, child, now);
        assert Evolves(b2[k], r[k]) && Evolves(b2[|book|], r[|book|]);
        assert |b2| == |book| + 1;
  }
}
