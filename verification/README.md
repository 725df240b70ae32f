# Shopping cart service — a Dafny model

This project models the per-user shopping cart of the DreamFarm agent
(`ShoppingCartService` in `agents/dreamfarm-agent/src/services/shopping_cart_service.py`).
Behind its SQL and HTTP calls the service is a small deterministic state machine:

- the **store** maps each user to a cart record; a cart maps each product to a
  **line** of quantity, unit price in euro cents (frozen at first insertion) and
  the `added_at` timestamp (set only on insertion). Keying by user and by product
  gives the two uniqueness constraints of the tables (`user_id`, and
  `(cart_id, product_id)`);
- **add_to_cart** runs each requested item through validate → search → stock
  check → upsert → cut back to stock, and a failed item never stops the rest;
- **update_cart_item** / **remove_from_cart** set an absolute quantity (zero
  deletes the line); **clear_cart** deletes every line and keeps the cart record;
- **get_cart** lists the lines newest first and sums their quantities and
  subtotals.

The collaborators are data, not I/O. Each requested item comes bundled
(`CartService.Attempt`) with what the database search ranks (rows with a VIP flag
and a similarity score), what the stock endpoint replies, and the price the
generator draws. The search's choice among equally scored rows is the first in
the table's row order, which is itself an input, so every best-scoring row is a
possible answer (`Catalog.AnyBestMatchCanBeChosen`).

Modules: `Wrappers` (Option), `Text` (Python's `str.strip`), `Catalog` (search
rule), `Stock` (fail-closed stock reading), `Pricing` (`PRICE_RANGES` in cents),
`CartState` (lines, carts, store, validity), `Totals` (order-independent sums),
`Listing` (`get_cart`), `CartService` (the operations), `CartProperties`
(properties relating several calls).

On the following points the model follows what the code does, which is not always what a reader of the service's docstrings would expect:

- the stock check compares only the requested quantity with the stock reading
  (line 258), not existing + requested; when the merged line then exceeds the
  stock, the line is set to the stock reading, the item is reported both as added
  and as failed, and the request's `success` is false (lines 291-321);
- the query keeps only rows scoring strictly above 0.3 (line 146); the model
  takes scores as exact reals, whereas the database compares a single-precision
  score with the double 0.3, so a trigram ratio of exactly 3/10 (stored as
  0.3000000119) does pass there (see "Left out");
- ties in similarity are not broken by any key (lines 147-148);
- the `category` and `is_organic` filters of a request item are passed to the
  search but never used by its query (lines 137-150), and every row is reported
  with category `'Unknown'` (line 141), so new lines are priced from the default
  range;
- updating a product that has no line in an existing cart changes nothing and
  still reports success (lines 454-468); the stock check of an update happens
  before the cart lookup, so an over-stock update of a user without a cart is
  refused for stock, not as "Cart not found";
- stock is read with one request per product, not batched (lines 97-100);
- the product name shown by `get_cart` comes from joining the products table
  (line 365), so a line whose product row is gone is not listed or counted.

## Model

| member | source | states |
|---|---|---|
| Text.Strip | agents/dreamfarm-agent/src/services/shopping_cart_service.py:216-228 | the stripped name is empty exactly when the given name is all whitespace, otherwise it starts and ends with a non-space |
| Text.StripPadded | agents/dreamfarm-agent/src/services/shopping_cart_service.py:216 | stripping any whitespace padding off both sides of trimmed text gives back that text |
| Text.StripIdempotent | agents/dreamfarm-agent/src/services/shopping_cart_service.py:216 | stripping a stripped name changes nothing |
| Catalog.SearchProduct | agents/dreamfarm-agent/src/services/shopping_cart_service.py:137-161 | nothing is found iff no row passes both the VIP fence and the strict 0.3 threshold; a found row passes both and no eligible row scores higher |
| Catalog.AnyBestMatchCanBeChosen | agents/dreamfarm-agent/src/services/shopping_cart_service.py:147-148 | every eligible best-scoring row is the answer under some row order: ties are unbroken |
| Catalog.ThresholdIsStrict | agents/dreamfarm-agent/src/services/shopping_cart_service.py:146 | the query's comparison `> 0.3` is strict: over exact real scores, a row scoring exactly the threshold is not found |
| Stock.AvailableStock | agents/dreamfarm-agent/src/services/shopping_cart_service.py:97-109 | a failed call reads as zero, and any non-zero reading is the `onStock` of the first item of a decoded reply |
| Pricing.RangeFor | agents/dreamfarm-agent/src/services/shopping_cart_service.py:22-35 | a listed category gets its range from the table; a missing, empty or unlisted category gets the default range; low never exceeds high |
| Totals.SumOverRemove | agents/dreamfarm-agent/src/services/shopping_cart_service.py:373-393 | a cart sum can take out any line first, so the totals do not depend on the order of the lines |
| Totals.TotalItemsAtLeastLines | agents/dreamfarm-agent/src/services/shopping_cart_service.py:392 | in a cart with no zero lines the item total is at least the number of lines |
| Listing.VisibleCart | agents/dreamfarm-agent/src/services/shopping_cart_service.py:363-366 | the view sees exactly the user's lines whose product has a row in the products table, unchanged |
| Listing.InsertPos | agents/dreamfarm-agent/src/services/shopping_cart_service.py:367 | a row goes after every row at least as recent and before every older one |
| Listing.ListCart | agents/dreamfarm-agent/src/services/shopping_cart_service.py:353-371 | the listing shows every visible line exactly once, each with its own quantity, price, subtotal and name, newest first |
| Listing.ListingSum | agents/dreamfarm-agent/src/services/shopping_cart_service.py:373-393 | summing a listing row by row equals the order-independent sum over the cart's lines |
| Listing.SumListing | agents/dreamfarm-agent/src/services/shopping_cart_service.py:373-393 | the loop accumulates the sum of the listed quantities and of the listed subtotals |
| Listing.GetCart | agents/dreamfarm-agent/src/services/shopping_cart_service.py:336-400 | the view lists the visible lines newest first, `total_items` is the sum of their quantities, `total_price` the sum of quantity × unit price, currency EUR |
| CartService.Upsert | agents/dreamfarm-agent/src/services/shopping_cart_service.py:274-289 | an existing line grows by the delta and keeps its price and timestamp; otherwise a line with exactly the delta, the given price and the current time is created; other lines are untouched |
| CartService.AddItem | agents/dreamfarm-agent/src/services/shopping_cart_service.py:215-321 | an item yields at most one added entry and one failure; a refused item leaves the cart unchanged with exactly one failure; an admitted item is always listed as added |
| CartService.AddItemRefusals | agents/dreamfarm-agent/src/services/shopping_cart_service.py:221-268 | a blank name, a non-positive quantity, no product and a quantity above the stock reading are reported in that order, each with its own failure and the available quantity for the stock case |
| CartService.AddItemAdmitted | agents/dreamfarm-agent/src/services/shopping_cart_service.py:270-321 | only the chosen line changes, to min(old + requested, stock), keeping an existing line's price and time; the added entry shows the product's catalog name, the requested quantity, unit price and final quantity; a failure is reported iff old + requested exceeded the stock, and it is the cut-back entry with the catalog name, product id, requested quantity and stock reading |
| CartService.AddItemEvolves | agents/dreamfarm-agent/src/services/shopping_cart_service.py:270-311 | one item only touches the product it resolves to, never deletes a line, keeps existing prices and timestamps, keeps every quantity positive and prices new lines from the generator |
| CartService.AddItems | agents/dreamfarm-agent/src/services/shopping_cart_service.py:214-321 | every admitted item is added whatever the items before it did, and every item that is not admitted is reported as failed |
| CartService.AddItemsEvolves | agents/dreamfarm-agent/src/services/shopping_cart_service.py:214-321 | over a whole request: only resolved products change, no line disappears, existing prices and times stay, new lines are stamped with the request time, quantities stay positive, and prices drawn in range stay in range |
| CartService.AddToStore | agents/dreamfarm-agent/src/services/shopping_cart_service.py:191-323 | the user has a cart record afterwards, no line of it disappears, other users are untouched, and quantities stay positive |
| CartService.AddToCart | agents/dreamfarm-agent/src/services/shopping_cart_service.py:163-334 | the store is the one the item loop leaves and the reported added and failed lists are exactly the loop's; one failure per refused item plus one per item cut back to stock; `success` holds iff no item failed, that is iff every item is admitted and none overflows; the reported totals are those of the resulting cart as `get_cart` computes them |
| CartService.AddItemsFailures | agents/dreamfarm-agent/src/services/shopping_cart_service.py:214-321 | over a whole request, the failures are exactly one refusal per item that is not admitted and one cut per admitted item whose merged quantity exceeds the stock reading; none at all iff every item is admitted and none overflows |
| CartProperties.AddItemsAppend | agents/dreamfarm-agent/src/services/shopping_cart_service.py:214-321 | items are processed in request order, each against the cart its predecessors left, and their added and failed entries are appended in that order |
| CartService.SetQuantity | agents/dreamfarm-agent/src/services/shopping_cart_service.py:445-463 | zero deletes only that line; a positive quantity replaces an existing line's quantity, keeping its price and time, and never creates a line |
| CartService.UpdateCartItem | agents/dreamfarm-agent/src/services/shopping_cart_service.py:402-468 | an invalid id, a negative quantity, a positive quantity above stock and a missing cart are refused in that order and change nothing; otherwise the update succeeds, changes only that user's cart, and keeps quantities positive |
| CartService.RemoveFromCart | agents/dreamfarm-agent/src/services/shopping_cart_service.py:470-480 | removal succeeds iff the id is valid and the cart exists, and the product then has no line |
| CartService.ClearCart | agents/dreamfarm-agent/src/services/shopping_cart_service.py:491-504 | the user's cart keeps its record and loses every line; no other user's cart changes; a user without a cart changes nothing |
| CartProperties.UpsertMerges | agents/dreamfarm-agent/src/services/shopping_cart_service.py:274-289 | two upserts of one product equal one upsert of the summed quantity at the first price and time |
| CartProperties.AddTwiceAccumulates | agents/dreamfarm-agent/src/services/shopping_cart_service.py:270-289 | adding a new product twice within stock leaves one line with the summed quantity at the first add's price and time |
| CartProperties.NewLinesPricedFromDefault | agents/dreamfarm-agent/src/services/shopping_cart_service.py:141 | since every searched row reports category 'Unknown', which the price table does not list, every line a request creates is priced within the default range of 2.00 to 10.00 euros |
| CartProperties.InsufficientStockLeavesCart | agents/dreamfarm-agent/src/services/shopping_cart_service.py:256-268 | an item asking for more than the stock reading leaves the cart as it was and reports the available quantity |
| CartProperties.UnreadableStockRejects | agents/dreamfarm-agent/src/services/shopping_cart_service.py:104-109 | a failed, empty or value-less stock reply lets no item change the cart |
| CartProperties.AdmittedItemSetsOneLine | agents/dreamfarm-agent/src/services/shopping_cart_service.py:270-311 | an admitted item sets exactly one line, to the clamped merged quantity with the frozen price and time |
| CartProperties.RepeatedUnitAdds | agents/dreamfarm-agent/src/services/shopping_cart_service.py:274-311 | n items of one request, each asking one unit of the same product, leave min(old + n, stock) units at the price of the first insertion |
| CartProperties.UnitAddsAccumulate | agents/dreamfarm-agent/src/services/shopping_cart_service.py:279-281 | n items of one request, each asking one unit of a product not yet in the cart, leave exactly n units when the stock reading covers them |
| CartProperties.AddItemTotals | agents/dreamfarm-agent/src/services/shopping_cart_service.py:270-311 | an item moves the item total by the change of its line; within stock the totals grow by exactly the requested quantity and its price |
| CartProperties.FiltersIgnored | agents/dreamfarm-agent/src/services/shopping_cart_service.py:240-242 | items that differ only in their category and organic filters give the same cart and outcomes |
| CartProperties.UpdateTotals | agents/dreamfarm-agent/src/services/shopping_cart_service.py:445-463 | an update moves the totals by the change in quantity at the unchanged price; zero takes the line's quantity out of the item count and its subtotal out of the price total |
| CartProperties.SetQuantityTotals | agents/dreamfarm-agent/src/services/shopping_cart_service.py:445-463 | setting a line to zero takes its quantity out of the item count and its subtotal out of the price total; setting an existing line to a positive quantity moves the item count by the difference and the price total by the difference times the line's unchanged price |
| CartProperties.ZeroHidesLine | agents/dreamfarm-agent/src/services/shopping_cart_service.py:445-453 | after a successful update to zero the product is absent from the view |
| CartProperties.UpdateAbsentLine | agents/dreamfarm-agent/src/services/shopping_cart_service.py:454-468 | a positive in-stock update of a product without a line in an existing cart changes nothing and reports success |
| CartProperties.UpdateIdempotent | agents/dreamfarm-agent/src/services/shopping_cart_service.py:402-468 | repeating an update with the same arguments and stock reply changes nothing more |
| CartProperties.RemoveIsUpdateWithZero | agents/dreamfarm-agent/src/services/shopping_cart_service.py:480 | removal equals an update to zero whatever the stock endpoint would say |
| CartProperties.ClearIdempotent | agents/dreamfarm-agent/src/services/shopping_cart_service.py:491-504 | clearing twice equals clearing once, a cleared cart has zero totals, and clearing keeps every quantity positive |

## Left out

- Database and HTTP plumbing (connections, transactions, commits, the HTTP client and `close`, connection strings from the environment, logging) is not modelled; each operation is one atomic state transition, and concurrent callers are not modelled.
- The trigram `SIMILARITY` scores are inputs, as exact reals rather than single-precision floats.
- Catalog.SearchProduct: compares exact real scores with 0.3, whereas PostgreSQL compares the single-precision score with the double 0.3; a ratio of exactly 3/10 rounds up to 0.3000000119 and passes there but not in the model, so `Catalog.ThresholdIsStrict` describes the query over exact scores, not that boundary of the running program.
- Drawing the random price, its float rounding and its `Decimal` conversion are not modelled: the drawn price is an input in cents, and `Pricing.RangeFor` gives the range it is drawn from.
- Parsing the product id as a UUID is a library call: update and remove take the parsed id, or none when it is invalid.
- The "Failed to create or retrieve cart" branch (lines 206-212) is not modelled: the cart upsert always returns a row, so only a database fault reaches it.
- The per-row stock lookup in `get_cart` (line 379) only decorates the view and is not modelled.
- `created_at` and `updated_at` are not modelled; `added_at` is an integer time given per call, the same for every line one `add_to_cart` inserts (the database's `NOW()` is the transaction time).
- Float conversions and ISO timestamps in the returned dictionaries are not modelled; money stays in integer cents.
- The cart snapshot that a successful update returns is not part of `CartService.UpdateCartItem`'s result; it is `Listing.GetCart` of the resulting store.
- Python type errors (a `null` product name, a non-integer quantity, a non-integer `onStock`) are not modelled.
