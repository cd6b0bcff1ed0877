/** The control flow of `fill_order` as written (exchange_endpoint.py:42-100),
    with positive amounts, exact reals and a clock parameter. The candidate
    list is every order resting once the new order is stored, the new order
    included. The loop tests only the pair and the rate, and it leaves only
    after a residual child has been processed, so after an exact fill it keeps
    scanning and can fill the incoming order again. */
module AsWritten {
  import opened Types
  import opened Matching

  /** The ids of all resting orders in id order: the query at exchange_endpoint.py:48. */
  function RestingIds(b: seq<Order>): (ids: seq<nat>)
    ensures forall j :: 0 <= j < |ids| ==> ids[j] < |b| && b[ids[j]].filled.None?
    ensures forall i, j :: 0 <= i < j < |ids| ==> ids[i] < ids[j]
    ensures forall x :: 0 <= x < |b| && b[x].filled.None? ==> x in ids
  {
    if b == [] then []
    else
      var n := |b| - 1;
      RestingIds(b[..n]) + (if b[n].filled.None? then [n] else [])
  }

  /** Store the draft, then run the scan over the resting orders. */
  function FillOrderAsWritten(book: seq<Order>, d: Draft, now: Time): (r: seq<Order>)
    requires AllPositive(book) && DraftPositive(d)
    ensures |r| > |book|
    decreases Resting(book), 1
  {
    var oi := |book|;
    var b := book + [Admit(d, oi)];
    RestingAfterAdmit(book, Admit(d, oi));
    ScanAsWritten(b, oi, RestingIds(b), now)
  }

  /** The `for` loop of exchange_endpoint.py:49-100 over the remaining candidates. */
  function ScanAsWritten(b: seq<Order>, oi: nat, cands: seq<nat>, now: Time): (r: seq<Order>)
    requires AllPositive(b) && oi < |b|
    requires forall j :: 0 <= j < |cands| ==> cands[j] < |b| && (cands[j] != oi ==> b[cands[j]].filled.None?)
    requires forall i, j :: 0 <= i < j < |cands| ==> cands[i] < cands[j]
    ensures |r| >= |b|
    decreases RestingExcept(b, oi), 0, |cands|
  {
    if cands == [] then b
    else
      var k := cands[0];
      var e, o := b[k], b[oi];
      if !Crosses(e, o) then
        ScanAsWritten(b, oi, cands[1..], now)
      else
        var b2 := MatchPair(b, oi, k, now);
        MatchPairRestingExcept(b, oi, k, now);
        match Residual(o, e)
        case None =>
          ScanAsWritten(b2, oi, cands[1..], now)
        case Some(child) =>
          if k == oi then
            SelfCrossNoResidual(o);
            assert false; b2
          else
            MatchPairResting(b, oi, k, now);
            FillOrderAsWritten(b2, child, now)
  }

  // ---------------------------------------------------------------------------
  // Two inputs on which the control flow as written departs from the comments
  // at exchange_endpoint.py:47-63 ("if a match is found ... set counterparty_id
  // to be the id of the other order").

  const A := "A"
  const B := "B"

  /** A resting order selling 10 A for 5 B. */
  function Seller(id: nat): Order {
    Order(id, "s", "s", B, A, 5.0, 10.0, None, None, None, None)
  }

  /** An incoming order buying 10 A for 5 B: an exact fill of one seller. */
  const Buyer := Draft("b", "b", A, B, 10.0, 5.0, None, None)

  /** The book of the first counterexample once the buyer is stored, and after
      each of the two fills the loop performs. */
  function Stored(): seq<Order> { [Seller(0), Seller(1), Admit(Buyer, 2)] }
  function AfterFirst(): seq<Order> { [Fill(Seller(0), 7, 2), Seller(1), Fill(Admit(Buyer, 2), 7, 0)] }
  function AfterSecond(): seq<Order> {
    [Fill(Seller(0), 7, 2), Fill(Seller(1), 7, 2), Fill(Admit(Buyer, 2), 7, 1)]
  }

  /** Two identical resting sellers and an incoming order that exactly fills the
      first: the loop does not stop, so the second seller is filled as well and
      the incoming order's counterparty is overwritten. The first seller then
      names the incoming order while the incoming order names the second. */
  lemma BreakPlacementCounterexample()
    ensures FillOrderAsWritten([Seller(0), Seller(1)], Buyer, 7) == AfterSecond()
    ensures AfterSecond()[0].counterpartyId == Some(2) && AfterSecond()[2].counterpartyId == Some(1)
    ensures !BookInvariant(AfterSecond())
  {
    StoredScan();
    assert [Seller(0), Seller(1)] + [Admit(Buyer, 2)] == Stored();
    assert !OrderWellFormed(AfterSecond(), 0);
  }

  lemma StoredScan()
    ensures RestingIds(Stored()) == [0, 1, 2]
    ensures ScanAsWritten(Stored(), 2, [0, 1, 2], 7) == AfterSecond()
  {
    var b := Stored();
    assert RestingIds(b) == [0, 1, 2] by {
      assert b[..2] == [Seller(0), Seller(1)] && b[..2][..1] == [Seller(0)];
      assert [Seller(0)][..0] == [];
    }
    var o := Admit(Buyer, 2);
    ExactFillStep(b, o, AfterFirst(), 0, [1, 2]);
    ExactFillStep(AfterFirst(), Fill(o, 7, 0), AfterSecond(), 1, [2]);
    var b2 := AfterSecond();
    assert !Crosses(b2[2], b2[2]);
    assert ScanAsWritten(b2, 2, [2], 7) == b2 by {
      assert ScanAsWritten(b2, 2, [], 7) == b2;
    }
  }

  /** One iteration of the scan in the counterexample: the candidate at `k`
      exactly fills the incoming order at index 2, and the scan goes on. */
  lemma ExactFillStep(b: seq<Order>, o: Order, b': seq<Order>, k: nat, rest: seq<nat>)
    requires |b| == 3 && k < 2 && AllPositive(b) && b[2] == o && o.id == 2 && b[k].id == k
    requires b[k].filled.None?
    requires b[k].buyCurrency == B && b[k].sellCurrency == A && b[k].buyAmount == 5.0 && b[k].sellAmount == 10.0
    requires o.buyCurrency == A && o.sellCurrency == B && o.buyAmount == 10.0 && o.sellAmount == 5.0
    requires b' == b[k := Fill(b[k], 7, 2)][2 := Fill(o, 7, k)]
    requires forall j :: 0 <= j < |rest| ==> k < rest[j] < 3 && (rest[j] != 2 ==> b[rest[j]].filled.None?)
    requires forall i, j :: 0 <= i < j < |rest| ==> rest[i] < rest[j]
    ensures AllPositive(b')
    ensures ScanAsWritten(b, 2, [k] + rest, 7) == ScanAsWritten(b', 2, rest, 7)
  {
    assert forall i :: 0 <= i < 3 ==> b'[i].buyAmount == b[i].buyAmount && b'[i].sellAmount == b[i].sellAmount;
    assert Crosses(b[k], o);
    assert Residual(o, b[k]).None?;
    assert MatchPair(b, 2, k, 7) == b';
    assert ([k] + rest)[1..] == rest;
  }

  /** The new order is always its own candidate. On an empty book, the order
      buying 1 A for 2 A crosses itself and leaves no residual, so the loop
      fills it against itself. */
  lemma SelfMatchCounterexample()
    ensures var d := Draft("s", "s", A, A, 1.0, 2.0, None, None);
      FillOrderAsWritten([], d, 7) == [Fill(Admit(d, 0), 7, 0)]
  {
    var d := Draft("s", "s", A, A, 1.0, 2.0, None, None);
    var o := Admit(d, 0);
    assert RestingIds([o]) == [0] by {
      assert [o][..0] == [];
    }
    assert Crosses(o, o);
    assert Residual(o, o).None?;
    var b1 := MatchPair([o], 0, 0, 7);
    assert ScanAsWritten(b1, 0, [], 7) == b1;
  }

  /** On both inputs the engine with one match and no self-match behaves as
      the comments describe. */
  lemma CorrectedOnCounterexamples()
    ensures var r := Settle([Seller(0), Seller(1)], Buyer, 7);
      r == [Fill(Seller(0), 7, 2), Seller(1), Fill(Admit(Buyer, 2), 7, 0)] && BookInvariant(r)
    ensures var d := Draft("s", "s", A, A, 1.0, 2.0, None, None);
      Settle([], d, 7) == [Admit(d, 0)]
  {
    var book := [Seller(0), Seller(1)];
    var o := Admit(Buyer, 2);
    var b := book + [o];
    assert Candidate(b[0], o);
    assert FirstMatch(b, o) == Some(0);
    assert Residual(o, b[0]).None?;
    var r := MatchPair(b, 2, 0, 7);
    assert r == [Fill(Seller(0), 7, 2), Seller(1), Fill(o, 7, 0)];
    assert OrderWellFormed(r, 0) && OrderWellFormed(r, 1) && OrderWellFormed(r, 2);
    var d2 := Draft("s", "s", A, A, 1.0, 2.0, None, None);
    var o2 := Admit(d2, 0);
    assert !Candidate(o2, o2);
    assert FirstMatch([o2], o2).None?;
  }
}
