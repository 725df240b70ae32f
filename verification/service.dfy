/** The cart operations of `ShoppingCartService`: `add_to_cart`,
    `update_cart_item`, `remove_from_cart` and `clear_cart`, as transitions of
    the store. What the database search, the stock endpoint and the price
    generator answer arrives as data alongside each request. */
module CartService {
  import opened Wrappers
  import opened Text
  import Catalog
  import opened Stock
  import opened Pricing
  import opened CartState
  import opened Totals
  import opened Listing

  /** One requested item. Keys missing from the request dictionary are `None`.
      The `category` and `is_organic` filters are carried but, as in the
      search query, never consulted. */
  datatype Item = Item(productName: Option<string>, quantity: Option<int>, category: Option<string>, isOrganic: Option<bool>)

  /** A requested item together with what the collaborators answer while it is
      processed: the rows the search query ranks, the stock endpoint's reply,
      and the price the generator draws (in cents). */
  datatype Attempt = Attempt(item: Item, rows: seq<Catalog.Candidate>, stock: StockReply, price: nat)

  /** An entry of `added_items`: the requested quantity, the line's unit price
      and its quantity after the add. */
  datatype Added = Added(productId: ProductId, productName: string, requested: int, unitPrice: nat, finalQuantity: int)

  /** An entry of `failed_items`. */
  datatype Failure =
    | NameRequired(productName: string)
    | QuantityNotPositive(productName: string)
    | ProductNotFound(productName: string, requested: int)
    | InsufficientStock(productName: string, productId: ProductId, requested: int, available: int)
    | ReducedToStock(productName: string, productId: ProductId, requested: int, available: int)

  /** A cart together with the outcomes of the items processed into it. */
  datatype Batch = Batch(cart: Cart, added: seq<Added>, failed: seq<Failure>)

  datatype AddReport = AddReport(success: bool, added: seq<Added>, failed: seq<Failure>, cartTotal: int, totalItems: int)

  function Min(a: int, b: int): int {
    if a <= b then a else b
  }

  /** The product name as used: stripped, empty when the key is missing. */
  function RequestedName(it: Item): string {
    Strip(it.productName.GetOr(""))
  }

  /** The quantity as used: one when the key is missing. */
  function RequestedQuantity(it: Item): int {
    it.quantity.GetOr(1)
  }

  /** The item passes validation, the search finds a product, and the
      requested quantity alone does not exceed the stock reading. */
  predicate Admitted(a: Attempt, userIsVip: bool) {
    && RequestedName(a.item) != []
    && RequestedQuantity(a.item) > 0
    && Catalog.SearchProduct(a.rows, userIsVip).Some?
    && RequestedQuantity(a.item) <= AvailableStock(a.stock)
  }

  /** The product an admitted item resolves to. */
  function ChosenProduct(a: Attempt, userIsVip: bool): ProductId
    requires Admitted(a, userIsVip)
  {
    Catalog.SearchProduct(a.rows, userIsVip).value.id
  }

  /** The quantity of `p` in `c`, zero when there is no line. */
  function QuantityIn(c: Cart, p: ProductId): int {
    if p in c then c[p].quantity else 0
  }

  /** The insert-or-increment on `(cart_id, product_id)`: an existing line
      grows by `delta` and keeps its price and timestamp; otherwise a line is
      created with exactly `delta`, `price` and `now`. */
  function Upsert(c: Cart, p: ProductId, delta: int, price: nat, now: int): (r: Cart)
    ensures r.Keys == c.Keys + {p}
    ensures forall k :: k in c && k != p ==> r[k] == c[k]
    ensures r[p].quantity == QuantityIn(c, p) + delta
    ensures p in c ==> r[p].unitPrice == c[p].unitPrice && r[p].addedAt == c[p].addedAt
    ensures p !in c ==> r[p] == Line(delta, price, now)
  {
    if p in c then c[p := c[p].(quantity := c[p].quantity + delta)]
    else c[p := Line(delta, price, now)]
  }

  /** One item of `add_to_cart`: validate, search, check stock, upsert, then
      cut the line back to the stock reading if the merged quantity exceeds it. */
  function AddItem(c: Cart, a: Attempt, userIsVip: bool, now: int): (r: Batch)
    ensures |r.added| <= 1 && |r.failed| <= 1
    ensures !Admitted(a, userIsVip) ==> r.cart == c && r.added == [] && |r.failed| == 1
    ensures Admitted(a, userIsVip) ==> |r.added| == 1
  {
    var name := RequestedName(a.item);
    var q := RequestedQuantity(a.item);
    if name == [] then Batch(c, [], [NameRequired(name)])
    else if q <= 0 then Batch(c, [], [QuantityNotPositive(name)])
    else match Catalog.SearchProduct(a.rows, userIsVip)
      case None => Batch(c, [], [ProductNotFound(name, q)])
      case Some(found) =>
        var available := AvailableStock(a.stock);
        if q > available then
          Batch(c, [], [InsufficientStock(found.name, found.id, q, available)])
        else
          var merged := Upsert(c, found.id, q, a.price, now);
          var line := merged[found.id];
          if line.quantity > available then
            Batch(merged[found.id := line.(quantity := available)],
                  [Added(found.id, found.name, q, line.unitPrice, available)],
                  [ReducedToStock(found.name, found.id, q, available)])
          else
            Batch(merged, [Added(found.id, found.name, q, line.unitPrice, line.quantity)], [])
  }

  /** The refusals of one item, checked in the order of the source: blank
      name, non-positive quantity, no product, quantity above the stock
      reading. Each leaves the cart unchanged (AddItem's own contract). */
  lemma AddItemRefusals(c: Cart, a: Attempt, userIsVip: bool, now: int)
    ensures RequestedName(a.item) == [] ==> AddItem(c, a, userIsVip, now).failed == [NameRequired([])]
    ensures RequestedName(a.item) != [] && RequestedQuantity(a.item) <= 0 ==>
              AddItem(c, a, userIsVip, now).failed == [QuantityNotPositive(RequestedName(a.item))]
    ensures RequestedName(a.item) != [] && RequestedQuantity(a.item) > 0 && Catalog.SearchProduct(a.rows, userIsVip).None? ==>
              AddItem(c, a, userIsVip, now).failed == [ProductNotFound(RequestedName(a.item), RequestedQuantity(a.item))]
    ensures RequestedName(a.item) != [] && RequestedQuantity(a.item) > 0 && Catalog.SearchProduct(a.rows, userIsVip).Some?
              && RequestedQuantity(a.item) > AvailableStock(a.stock) ==>
              var found := Catalog.SearchProduct(a.rows, userIsVip).value;
              AddItem(c, a, userIsVip, now).failed == [InsufficientStock(found.name, found.id, RequestedQuantity(a.item), AvailableStock(a.stock))]
  {
  }

  /** An admitted item: only the chosen line changes, to the merged quantity
      cut back to the stock reading, keeping an existing line's price and
      timestamp; a failure is reported exactly when the cut was needed. */
  lemma AddItemAdmitted(c: Cart, a: Attempt, userIsVip: bool, now: int)
    requires Admitted(a, userIsVip)
    ensures var r := AddItem(c, a, userIsVip, now);
              var p := ChosenProduct(a, userIsVip);
              var q := RequestedQuantity(a.item);
              var s := AvailableStock(a.stock);
              && r.cart.Keys == c.Keys + {p}
              && (forall k :: k in c && k != p ==> r.cart[k] == c[k])
              && r.cart[p].quantity == Min(QuantityIn(c, p) + q, s)
              && r.cart[p].unitPrice == (if p in c then c[p].unitPrice else a.price)
              && r.cart[p].addedAt == (if p in c then c[p].addedAt else now)
              && |r.added| == 1
              && r.added[0].productId == p
              && r.added[0].productName == Catalog.SearchProduct(a.rows, userIsVip).value.name
              && r.added[0].requested == q
              && r.added[0].unitPrice == r.cart[p].unitPrice
              && r.added[0].finalQuantity == r.cart[p].quantity
              && (r.failed == [] <==> QuantityIn(c, p) + q <= s)
              && (r.failed != [] ==> r.failed == [ReducedToStock(Catalog.SearchProduct(a.rows, userIsVip).value.name, p, q, s)])
  {
  }

  /** Number of admitted items in a request. Admission depends only on the
      item and the collaborators' answers, not on the cart. */
  function CountAdmitted(attempts: seq<Attempt>, userIsVip: bool): nat {
    if |attempts| == 0 then 0
    else (if Admitted(attempts[0], userIsVip) then 1 else 0) + CountAdmitted(attempts[1..], userIsVip)
  }

  /** The product an item's upsert may touch: none unless it is admitted. */
  function Touched(a: Attempt, userIsVip: bool): set<ProductId> {
    if Admitted(a, userIsVip) then {ChosenProduct(a, userIsVip)} else {}
  }

  /** The products the admitted items of a request resolve to. */
  function Chosen(attempts: seq<Attempt>, userIsVip: bool): set<ProductId> {
    if |attempts| == 0 then {} else Touched(attempts[0], userIsVip) + Chosen(attempts[1..], userIsVip)
  }

  /** How adding items may change a cart: lines are only created or changed
      for `touched` products, no line disappears, existing lines keep their
      price and timestamp, and new lines are stamped `now`. */
  predicate Evolves(c: Cart, c': Cart, touched: set<ProductId>, now: int) {
    && c.Keys <= c'.Keys <= c.Keys + touched
    && (forall k :: k in c && k !in touched ==> c'[k] == c[k])
    && (forall k :: k in c ==> c'[k].unitPrice == c[k].unitPrice && c'[k].addedAt == c[k].addedAt)
    && (forall k :: k in c' && k !in c ==> c'[k].addedAt == now)
  }

  /** Every line of `c'` that is not in `c` has a price the generator can
      draw for the search's category. */
  predicate NewLinesInRange(c: Cart, c': Cart) {
    forall k :: k in c' && k !in c ==> InRange(Some(Catalog.SearchCategory), c'[k].unitPrice)
  }

  lemma EvolvesTransitive(c1: Cart, c2: Cart, c3: Cart, t1: set<ProductId>, t2: set<ProductId>, now: int)
    requires Evolves(c1, c2, t1, now) && Evolves(c2, c3, t2, now)
    ensures Evolves(c1, c3, t1 + t2, now)
    ensures NewLinesInRange(c1, c2) && NewLinesInRange(c2, c3) ==> NewLinesInRange(c1, c3)
  {
  }

  /** What one item does to the cart, in the terms of Evolves. */
  lemma AddItemEvolves(c: Cart, a: Attempt, userIsVip: bool, now: int)
    ensures Evolves(c, AddItem(c, a, userIsVip, now).cart, Touched(a, userIsVip), now)
    ensures CartValid(c) ==> CartValid(AddItem(c, a, userIsVip, now).cart)
    ensures InRange(Some(Catalog.SearchCategory), a.price) ==> NewLinesInRange(c, AddItem(c, a, userIsVip, now).cart)
  {
    if Admitted(a, userIsVip) {
      AddItemAdmitted(c, a, userIsVip, now);
    }
  }

  /** Every price the generator draws for the search's category lies in its range. */
  predicate PricesInRange(attempts: seq<Attempt>) {
    forall i :: 0 <= i < |attempts| ==> InRange(Some(Catalog.SearchCategory), attempts[i].price)
  }

  lemma PricesInRangeTail(attempts: seq<Attempt>)
    requires |attempts| > 0
    ensures PricesInRange(attempts) ==> PricesInRange(attempts[1..])
  {
    assert forall i :: 1 <= i < |attempts| ==> attempts[i] == attempts[1..][i - 1];
  }

  /** The item loop of `add_to_cart`: each item is processed in order against
      the cart its predecessors left, and a failed item never stops the rest. */
  function AddItems(c: Cart, attempts: seq<Attempt>, userIsVip: bool, now: int): (r: Batch)
    ensures |r.added| == CountAdmitted(attempts, userIsVip)
    ensures |r.failed| >= |attempts| - CountAdmitted(attempts, userIsVip)
    decreases |attempts|
  {
    if |attempts| == 0 then Batch(c, [], [])
    else
      var first := AddItem(c, attempts[0], userIsVip, now);
      var rest := AddItems(first.cart, attempts[1..], userIsVip, now);
      Batch(rest.cart, first.added + rest.added, first.failed + rest.failed)
  }

  /** What a whole request does to the cart, in the terms of Evolves: only
      the chosen products' lines change, quantities stay positive, and drawn
      prices that respect their range leave new lines in range. */
  lemma {:induction false} AddItemsEvolves(c: Cart, attempts: seq<Attempt>, userIsVip: bool, now: int)
    ensures Evolves(c, AddItems(c, attempts, userIsVip, now).cart, Chosen(attempts, userIsVip), now)
    ensures CartValid(c) ==> CartValid(AddItems(c, attempts, userIsVip, now).cart)
    ensures PricesInRange(attempts) ==> NewLinesInRange(c, AddItems(c, attempts, userIsVip, now).cart)
    decreases |attempts|
  {
    if |attempts| > 0 {
      var first := AddItem(c, attempts[0], userIsVip, now).cart;
      var rest := AddItems(first, attempts[1..], userIsVip, now).cart;
      AddItemEvolves(c, attempts[0], userIsVip, now);
      AddItemsEvolves(first, attempts[1..], userIsVip, now);
      EvolvesTransitive(c, first, rest, Touched(attempts[0], userIsVip), Chosen(attempts[1..], userIsVip), now);
      PricesInRangeTail(attempts);
    }
  }

  /** The number of failures that refuse an item outright, that is, every
      kind except the cut back to stock. */
  function Refusals(failed: seq<Failure>): nat {
    if |failed| == 0 then 0
    else (if failed[0].ReducedToStock? then 0 else 1) + Refusals(failed[1..])
  }

  lemma {:induction false} RefusalsAppend(a: seq<Failure>, b: seq<Failure>)
    ensures Refusals(a + b) == Refusals(a) + Refusals(b)
    decreases |a|
  {
    if |a| == 0 {
      assert a + b == b;
    } else {
      assert (a + b)[0] == a[0];
      assert (a + b)[1..] == a[1..] + b;
      RefusalsAppend(a[1..], b);
    }
  }

  /** An admitted item whose merged quantity in `c` exceeds the stock reading,
      so that its line is cut back. */
  predicate Overflows(c: Cart, a: Attempt, userIsVip: bool) {
    Admitted(a, userIsVip) && QuantityIn(c, ChosenProduct(a, userIsVip)) + RequestedQuantity(a.item) > AvailableStock(a.stock)
  }

  /** The number of items of a request that overflow against the cart their
      predecessors left. */
  function CountCut(c: Cart, attempts: seq<Attempt>, userIsVip: bool, now: int): nat
    decreases |attempts|
  {
    if |attempts| == 0 then 0
    else (if Overflows(c, attempts[0], userIsVip) then 1 else 0)
         + CountCut(AddItem(c, attempts[0], userIsVip, now).cart, attempts[1..], userIsVip, now)
  }

  lemma {:induction false} CountAdmittedBound(attempts: seq<Attempt>, userIsVip: bool)
    ensures CountAdmitted(attempts, userIsVip) <= |attempts|
    decreases |attempts|
  {
    if |attempts| > 0 {
      CountAdmittedBound(attempts[1..], userIsVip);
    }
  }

  /** The failures of a request, counted exactly: one refusal per item that is
      not admitted, one cut per admitted item that overflows; so the request
      has no failure exactly when every item is admitted and none overflows. */
  lemma {:induction false} AddItemsFailures(c: Cart, attempts: seq<Attempt>, userIsVip: bool, now: int)
    ensures var r := AddItems(c, attempts, userIsVip, now);
            && Refusals(r.failed) == |attempts| - CountAdmitted(attempts, userIsVip)
            && |r.failed| == |attempts| - CountAdmitted(attempts, userIsVip) + CountCut(c, attempts, userIsVip, now)
            && (r.failed == [] <==> CountAdmitted(attempts, userIsVip) == |attempts| && CountCut(c, attempts, userIsVip, now) == 0)
    decreases |attempts|
  {
    CountAdmittedBound(attempts, userIsVip);
    if |attempts| > 0 {
      var a := attempts[0];
      var first := AddItem(c, a, userIsVip, now);
      var rest := AddItems(first.cart, attempts[1..], userIsVip, now);
      AddItemsFailures(first.cart, attempts[1..], userIsVip, now);
      CountAdmittedBound(attempts[1..], userIsVip);
      RefusalsAppend(first.failed, rest.failed);
      if Admitted(a, userIsVip) {
        AddItemAdmitted(c, a, userIsVip, now);
        assert Refusals(first.failed) == 0;
        assert |first.failed| == (if Overflows(c, a, userIsVip) then 1 else 0);
      } else {
        AddItemRefusals(c, a, userIsVip, now);
        assert Refusals(first.failed) == 1;
        assert !Overflows(c, a, userIsVip);
      }
    }
  }

  /** A request keeps every line of the cart it starts from and keeps
      quantities positive. */
  lemma AddItemsKeepsLines(c: Cart, attempts: seq<Attempt>, userIsVip: bool, now: int)
    ensures c.Keys <= AddItems(c, attempts, userIsVip, now).cart.Keys
    ensures CartValid(c) ==> CartValid(AddItems(c, attempts, userIsVip, now).cart)
  {
    AddItemsEvolves(c, attempts, userIsVip, now);
  }

  /** Installing a cart for `user` that keeps the lines it had and keeps
      quantities positive. */
  lemma ReplaceCart(s: Store, user: UserId, c: Cart)
    requires LinesOf(s, user).Keys <= c.Keys
    requires CartValid(LinesOf(s, user)) ==> CartValid(c)
    ensures s[user := c].Keys == s.Keys + {user}
    ensures StoreValid(s) ==> StoreValid(s[user := c])
  {
    if StoreValid(s) {
      assert CartValid(LinesOf(s, user));
    }
  }

  /** The store after `add_to_cart`'s single transaction: the user's cart
      record exists and holds the lines the item loop left. */
  function AddToStore(s: Store, user: UserId, attempts: seq<Attempt>, userIsVip: bool, now: int): (s': Store)
    ensures s'.Keys == s.Keys + {user}
    ensures forall u :: u in s && u != user ==> s'[u] == s[u]
    ensures LinesOf(s, user).Keys <= s'[user].Keys
    ensures StoreValid(s) ==> StoreValid(s')
  {
    var c := AddItems(LinesOf(s, user), attempts, userIsVip, now).cart;
    AddItemsKeepsLines(LinesOf(s, user), attempts, userIsVip, now);
    ReplaceCart(s, user, c);
    s[user := c]
  }

  /** `add_to_cart`: makes sure the user has a cart record (even when every
      item fails), processes the items, and reports the totals of the
      resulting cart as `get_cart` computes them. */
  method AddToCart(s: Store, user: UserId, attempts: seq<Attempt>, userIsVip: bool, now: int, names: Names)
    returns (s': Store, report: AddReport)
    ensures s' == AddToStore(s, user, attempts, userIsVip, now)
    ensures s'[user] == AddItems(LinesOf(s, user), attempts, userIsVip, now).cart
    ensures report.added == AddItems(LinesOf(s, user), attempts, userIsVip, now).added
    ensures report.failed == AddItems(LinesOf(s, user), attempts, userIsVip, now).failed
    ensures report.success <==> report.failed == []
    ensures |report.added| == CountAdmitted(attempts, userIsVip)
    ensures |report.failed| == |attempts| - CountAdmitted(attempts, userIsVip) + CountCut(LinesOf(s, user), attempts, userIsVip, now)
    ensures report.success <==>
              CountAdmitted(attempts, userIsVip) == |attempts| && CountCut(LinesOf(s, user), attempts, userIsVip, now) == 0
    ensures report.totalItems == TotalItems(VisibleCart(s', user, names))
    ensures report.cartTotal == TotalPrice(VisibleCart(s', user, names))
  {
    var b := AddItems(LinesOf(s, user), attempts, userIsVip, now);
    s' := AddToStore(s, user, attempts, userIsVip, now);
    var view := GetCart(s', user, names);
    AddItemsFailures(LinesOf(s, user), attempts, userIsVip, now);
    report := AddReport(|b.failed| == 0, b.added, b.failed, view.totalPrice, view.totalItems);
  }

  /** Why `update_cart_item` refused. */
  datatype UpdateError = InvalidProductId | NegativeQuantity | UpdateInsufficientStock(available: int) | CartNotFound

  datatype UpdateStatus = Updated | Rejected(error: UpdateError)

  datatype UpdateResult = UpdateResult(store: Store, status: UpdateStatus)

  /** The absolute set on one line: zero deletes it, a positive quantity
      replaces the quantity of an existing line and never creates one. */
  function SetQuantity(c: Cart, p: ProductId, q: nat): (r: Cart)
    ensures q == 0 ==> r.Keys == c.Keys - {p}
    ensures q > 0 ==> r.Keys == c.Keys
    ensures q > 0 && p in c ==> r[p] == c[p].(quantity := q)
    ensures forall k :: k in r && k != p ==> r[k] == c[k]
  {
    if q == 0 then c - {p}
    else if p in c then c[p := c[p].(quantity := q)]
    else c
  }

  /** `update_cart_item`. `productId` is the parsed identifier, `None` when the
      text is not a valid UUID; `stock` is the endpoint's reply, read only
      for a positive quantity. */
  function UpdateCartItem(s: Store, user: UserId, productId: Option<ProductId>, quantity: int, stock: StockReply): (r: UpdateResult)
    ensures r.status.Rejected? ==> r.store == s
    ensures r.status == Updated <==>
              productId.Some? && quantity >= 0 && (quantity == 0 || quantity <= AvailableStock(stock)) && user in s
    ensures productId.None? ==> r.status == Rejected(InvalidProductId)
    ensures productId.Some? && quantity < 0 ==> r.status == Rejected(NegativeQuantity)
    ensures productId.Some? && 0 < quantity && AvailableStock(stock) < quantity ==>
              r.status == Rejected(UpdateInsufficientStock(AvailableStock(stock)))
    ensures productId.Some? && quantity >= 0 && (quantity == 0 || quantity <= AvailableStock(stock)) && user !in s ==>
              r.status == Rejected(CartNotFound)
    ensures r.status == Updated ==>
              && r.store.Keys == s.Keys
              && (forall u :: u in s && u != user ==> r.store[u] == s[u])
              && r.store[user] == SetQuantity(s[user], productId.value, quantity)
    ensures StoreValid(s) ==> StoreValid(r.store)
  {
    if productId.None? then UpdateResult(s, Rejected(InvalidProductId))
    else if quantity < 0 then UpdateResult(s, Rejected(NegativeQuantity))
    else if quantity > 0 && quantity > AvailableStock(stock) then
      UpdateResult(s, Rejected(UpdateInsufficientStock(AvailableStock(stock))))
    else if user !in s then UpdateResult(s, Rejected(CartNotFound))
    else UpdateResult(s[user := SetQuantity(s[user], productId.value, quantity)], Updated)
  }

  /** `remove_from_cart`: an update to quantity zero, which reads no stock. */
  function RemoveFromCart(s: Store, user: UserId, productId: Option<ProductId>): (r: UpdateResult)
    ensures r.status == Updated <==> productId.Some? && user in s
    ensures r.status == Updated ==> user in r.store && productId.value !in r.store[user]
    ensures r.status.Rejected? ==> r.store == s
  {
    UpdateCartItem(s, user, productId, 0, RequestFailed)
  }

  /** `clear_cart`: deletes every line of the user's cart and keeps the cart
      record; it always reports success, whether or not there was a cart. */
  function ClearCart(s: Store, user: UserId): (r: Store)
    ensures r.Keys == s.Keys
    ensures user in s ==> r[user] == map[]
    ensures forall u :: u in s && u != user ==> r[u] == s[u]
  {
    if user in s then s[user := map[]] else s
  }
}
