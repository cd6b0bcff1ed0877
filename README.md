# Order matching of the exchange endpoint, in Dafny

This project models the core of `exchange_endpoint.py`, a small currency exchange.
Clients submit signed orders ("buy so much of currency X, paying so much of
currency Y"). The `trade` endpoint checks that the request carries the required
keys, verifies the signature, and stores the order. `fill_order` then matches it
against the resting (unfilled) orders: the first resting order whose currency
pair is the reverse and whose rate crosses is filled together with the new
order, both get the same fill time, and each names the other as counterparty.
When one side was only partly satisfied, a residual child order is created with
the remaining amounts, linked to its parent through `creator_id`, and matched in
turn. The `order_book` endpoint lists the public columns of every stored order.

Files and modules:

- `types.dfy` (`Types`): the `Order` row, the `Draft` of an order not yet
  stored, JSON values, `Option`. An unfilled order has `filled == None`. The
  source marks this state with the date 0001-01-01.
- `matching.dfy` (`Matching`): the crossing test, the first-match scan, the fill
  of a pair, the residual child, the engine `Settle` as a function on the book,
  the book invariant, and the proofs about them.
- `as_written.dfy` (`AsWritten`): the control flow of `fill_order`'s loop as
  written, with the same abstractions as the rest of the model (positive
  amounts, exact reals, a clock parameter). It also gives two inputs on which
  the loop departs from what its comments describe (see Findings).
- `admission.dfy` (`Admission`): the key checks of `trade` and the construction
  of the stored row.
- `order_book.dfy` (`OrderBookView`): the public projection.
- `exchange.dfy` (`Exchange`): class `Ledger`, which holds the Order table and
  the Log table as sequences. `FillOrder` is a recursive method proved equal to
  `Settle`; `Trade` is the endpoint; `ScanForMatch` is the candidate loop.

Order ids are positions in the book, counted from 0, so id order is insertion
order.

Choices the model makes about the code:

- The code divides (`sell/buy >= buy/sell`). The model divides exactly, on
  `real`. `CrossesCrossMultiplied` proves that this is the cross-multiplied test.
- The code queries every unfilled order and tests the currency pair inside the
  loop. It does not filter by pair in the query. The first match is the same
  either way.
- The code does not choose between the two partial-fill cases. The second test
  simply overrides the first. `PartialFillsExclusive` proves that the two cannot
  both hold, so no tie-break is ever needed.

## Model

| member | source | states |
|---|---|---|
| `Matching.FirstMatch` | exchange_endpoint.py:48-52 | the result is a resting order other than the new one that crosses it, and no earlier order in id order does; None exactly when no order qualifies |
| `Exchange.ScanForMatch` | exchange_endpoint.py:48-52 | the candidate loop returns exactly the first match of the book |
| `Matching.CrossesCrossMultiplied` | exchange_endpoint.py:50-52 | the rate test `E.sell/E.buy >= O.buy/O.sell` holds iff `E.sell*O.sell >= O.buy*E.buy`, given positive amounts and the reversed pair |
| `Matching.MatchPair` | exchange_endpoint.py:55-63 | both orders get the same fill time; the new order names E and E names the new order; no other column and no other order changes |
| `Matching.PartialFillsExclusive` | exchange_endpoint.py:66-78 | under crossing, `E.sell < O.buy` and `O.sell < E.buy` never both hold, and each forces the other side to exceed its counterpart strictly |
| `Matching.Residual` | exchange_endpoint.py:65-97 | no child iff neither side is short (so an exact match has none); a child has strictly positive amounts, the short parent's pair and keys, that parent as creator, no signature, and together with the counterparty's amounts it adds up to the parent's |
| `Matching.ChildRateNotWorse` | exchange_endpoint.py:66-75 | a child's rate `sell/buy` is at least its parent's, for both the O-short and the E-short case |
| `Matching.SelfCrossNoResidual` | exchange_endpoint.py:49-78 | an order that crosses itself never yields a residual |
| `Matching.MatchPairResting` | exchange_endpoint.py:57-98 | a fill of two distinct resting orders lowers the number of resting orders, so each recursive call at line 98 sees one fewer and the recursion ends |
| `Matching.Settle` | exchange_endpoint.py:42-100 | settling adds at least the new order; every stored order either stays unchanged or goes from resting to filled with only its fill time and counterparty set, so a filled order is never touched again |
| `Matching.AdmitKeepsInvariant` | exchange_endpoint.py:44-45 | storing a draft with positive amounts, and for a child a filled parent it inherits from, keeps the book invariant |
| `Matching.MatchPairKeepsInvariant` | exchange_endpoint.py:57-63 | filling two distinct resting orders against each other keeps mutual counterparties, equal fill times and all parent links |
| `Matching.ChildFits` | exchange_endpoint.py:81-97 | the residual child may be stored: its parent is stored and filled, and the child has its pair, keys and a rate no worse |
| `Matching.SettleKeepsInvariant` | exchange_endpoint.py:42-100 | settling keeps the book invariant: ids are positions, amounts positive, filled exactly when a counterparty is set, counterparties mutual with one fill time, every child newer than its filled parent and inheriting from it |
| `Matching.SettleOutcome` | exchange_endpoint.py:44-98 | with no candidate the new order rests and nothing else changes; otherwise the first candidate crosses the new order, and both end filled at `now` against each other; after an exact fill the book is just that pair filled, no child stored; a residual child is stored next, as order `|book|+1`, and settled in turn |
| `AsWritten.RestingIds` | exchange_endpoint.py:48 | the query returns exactly the resting orders, in increasing id order |
| `AsWritten.FillOrderAsWritten` | exchange_endpoint.py:42-48 | the contract states only that the book grows by at least the stored order; that the loop runs over all resting orders, the new one included, is a property of the body, shown on two inputs by `BreakPlacementCounterexample` and `SelfMatchCounterexample` |
| `AsWritten.ScanAsWritten` | exchange_endpoint.py:49-100 | the contract states that the loop terminates and never shrinks the book; that it tests only pair and rate and goes on after an exact fill is a property of the body, shown on two inputs by the same two lemmas |
| `AsWritten.BreakPlacementCounterexample` | exchange_endpoint.py:49-100 | on two identical resting sellers and an exact buyer, both sellers are filled and the buyer's counterparty is overwritten, which breaks the book invariant |
| `AsWritten.SelfMatchCounterexample` | exchange_endpoint.py:44-52 | on an empty book, the order buying 1 A for 2 A is filled against itself: it is the only candidate, it crosses itself, and it leaves no residual |
| `AsWritten.CorrectedOnCounterexamples` | exchange_endpoint.py:47-63 | on the same inputs `Settle` fills only the first seller, with mutual links, and leaves the same-currency order resting |
| `Admission.FirstMissing` | exchange_endpoint.py:123-135 | the checking loops return the first required name that is absent, all earlier names being present; none exactly when all are present |
| `Admission.ScreenRequest` | exchange_endpoint.py:120-135 | a request passes iff it has `sig`, and a JSON-object `payload` with all seven columns; otherwise it names a missing key, or it reports a payload without `keys()` |
| `Admission.StoredRow` | exchange_endpoint.py:146-148 | the stored row has the payload's keys minus `platform` and `pk`, plus `signature`, with every kept value unchanged |
| `Admission.DraftOf` | exchange_endpoint.py:149-150 | the order built from the row copies its six columns and the signature and has no creator |
| `OrderBookView.OrderBook` | exchange_endpoint.py:165-171 | one entry per stored order, filled or not, in book order, holding exactly the seven public columns copied unchanged |
| `OrderBookView.OrderBookKeepsPrefix` | exchange_endpoint.py:166-168 | filling orders never changes what the public book shows of them |
| `OrderBookView.OrderBookAfterSettle` | exchange_endpoint.py:165-171 | after a settlement, the previous public book is a prefix of the new one, and the next entry is the admitted order |
| `OrderBookView.AdmittedOrderShowsPayload` | exchange_endpoint.py:146-150 | an admitted request appears in the public book with its payload's six order columns and its signature |
| `Exchange.Ledger.FillOrder` | exchange_endpoint.py:42-100 | the method leaves the book equal to `Settle` of the old book, keeps the invariant and the log, and terminates by the number of resting orders |
| `Exchange.Ledger.Trade` | exchange_endpoint.py:114-159 | a missing key logs the request and answers False; a bad signature logs the payload and answers False; a payload without `keys()` or without `pk` raises with nothing stored; otherwise the row is settled and the answer is True |

## Left out

- HTTP routing, JSON parsing and `jsonify` (exchange_endpoint.py:19-29, 114-119, 174-175). `Trade` takes the parsed request and returns a `Reply`.
- Database sessions, commits and teardown (exchange_endpoint.py:15-29, 45). The Order and Log tables are the sequences `Ledger.orders` and `Ledger.log`.
- `check_sig` (exchange_endpoint.py:34-40) calls foreign signature libraries. It is the parameter `checkSig` of `Trade`.
- `log_message` (exchange_endpoint.py:102-108) serialises with `json.dumps`. The log holds the JSON value itself.
- Floating point: amounts are exact reals, so no rounding is modelled.
- Exchange.Ledger.FillOrder: the clock is the parameter `now`, and one instant stamps the whole residual chain. The source assigns the function `datetime.utcnow` itself at line 57, without calling it.
- Exchange.Ledger.FillOrder: requires positive amounts. The source checks no amount. Line 52 divides by the resting order's `buy_amount` and the new order's `sell_amount`, so a zero there raises once the currency pair matches and the rate test is evaluated. A zero `buy_amount` on the new order raises nothing: it asks a rate of 0 and matches any resting order on the reversed pair. A zero `sell_amount` on a resting order raises nothing either: it offers a rate of 0, so every new order with positive amounts passes it over. Zero and negative amounts are not modelled, because the crossing test, the child's positive amounts and its rate are stated for positive amounts only.
- Matching.Settle: requires positive amounts, for the same reason as Exchange.Ledger.FillOrder.
- AsWritten.FillOrderAsWritten: requires positive amounts, for the same reason as Exchange.Ledger.FillOrder, and takes the clock as the parameter `now`.
- AsWritten.ScanAsWritten: requires positive amounts, for the same reason as Exchange.Ledger.FillOrder.
- Exchange.Ledger.Trade: requires the payload's values to have the column types (strings, positive numbers) and no keys but the seven columns and `pk`. The Order model (`models.py`) is not part of this model. The source checks neither values nor extra keys.
- Matching.Settle: stops at the first match and never matches an order with itself. The loop as written does neither; it is modelled in `AsWritten` (see Findings).
- The SQL query has no `ORDER BY`; the model takes the table's id order.
- Ids start at 0 here; SQLite's autoincrement starts at 1.
- Locking and concurrent submissions: the source has none, and one submission runs sequentially.
- `print` statements.

## Findings

| source | as written | input that shows it | evidently intended | confidence | as-written member | corrected member |
|---|---|---|---|---|---|---|
| exchange_endpoint.py:78-100 | `break` sits inside the residual branch, so after an exact fill the loop goes on over the stale candidate list and fills the new order again | resting orders 0 and 1 each sell 10 A for 5 B; order 2 buys 10 A for 5 B: both are filled, order 0 names 2, but 2 names 1 | stop at the first match, as the comments at lines 47-63 describe | high; not executed | `AsWritten.BreakPlacementCounterexample` (on `AsWritten.FillOrderAsWritten`) | `Matching.SettleKeepsInvariant` (on `Matching.Settle`) |
| exchange_endpoint.py:44-52 | the new order is stored before the query, so it is its own candidate | on an empty book, an order buying 1 A and selling 2 A is filled with itself as counterparty | an order never matches itself | medium; not executed | `AsWritten.SelfMatchCounterexample` (on `AsWritten.FillOrderAsWritten`) | `AsWritten.CorrectedOnCounterexamples` (on `Matching.Settle`) |
