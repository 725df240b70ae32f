/** Properties relating several calls of the cart operations. */
module CartProperties {
  import opened Wrappers
  import Catalog
  import Pricing
  import opened Stock
  import opened CartState
  import opened Totals
  import opened Listing
  import opened CartService

  /** Two upserts of one product merge into one: the quantities add up and
      the line keeps the price and timestamp of the first insertion. */
  lemma UpsertMerges(c: Cart, p: ProductId, d1: int, d2: int, price1: nat, price2: nat, t1: int, t2: int)
    ensures Upsert(Upsert(c, p, d1, price1, t1), p, d2, price2, t2) == Upsert(c, p, d1 + d2, price1, t1)
  {
  }

  /** Adding a product twice (each add within stock) gives one line with the
      summed quantity at the price and timestamp of the first add. */
  lemma AddTwiceAccumulates(c: Cart, a1: Attempt, a2: Attempt, userIsVip: bool, t1: int, t2: int)
    requires Admitted(a1, userIsVip) && Admitted(a2, userIsVip)
    requires ChosenProduct(a1, userIsVip) == ChosenProduct(a2, userIsVip)
    requires ChosenProduct(a1, userIsVip) !in c
    requires RequestedQuantity(a1.item) + RequestedQuantity(a2.item) <= AvailableStock(a2.stock)
    ensures var p := ChosenProduct(a1, userIsVip);
            var c2 := AddItem(AddItem(c, a1, userIsVip, t1).cart, a2, userIsVip, t2).cart;
            && p in c2
            && c2[p] == Line(RequestedQuantity(a1.item) + RequestedQuantity(a2.item), a1.price, t1)
  {
    var c1 := AddItem(c, a1, userIsVip, t1).cart;
    AddItemAdmitted(c, a1, userIsVip, t1);
    AddItemAdmitted(c1, a2, userIsVip, t2);
  }

  /** The search reports every product under a category the price table does
      not list, so when the drawn prices respect their range, every line a
      request creates is priced within the default range. */
  lemma NewLinesPricedFromDefault(c: Cart, attempts: seq<Attempt>, userIsVip: bool, now: int)
    requires PricesInRange(attempts)
    ensures var r := AddItems(c, attempts, userIsVip, now).cart;
            forall k :: k in r && k !in c ==>
              Pricing.DefaultPriceRange.low <= r[k].unitPrice <= Pricing.DefaultPriceRange.high
  {
    AddItemsEvolves(c, attempts, userIsVip, now);
    SearchCategoryUnpriced();
  }

  /** The category the search reports has no entry in the price table. */
  lemma SearchCategoryUnpriced()
    ensures Pricing.RangeFor(Some(Catalog.SearchCategory)) == Pricing.DefaultPriceRange
  {
    assert Catalog.SearchCategory !in Pricing.PriceRanges;
  }

  /** Stock gating: an item asking for more than the stock reading leaves the
      cart exactly as it was and reports the available quantity. */
  lemma InsufficientStockLeavesCart(c: Cart, a: Attempt, userIsVip: bool, now: int)
    requires RequestedName(a.item) != [] && RequestedQuantity(a.item) > 0
    requires Catalog.SearchProduct(a.rows, userIsVip).Some?
    requires RequestedQuantity(a.item) > AvailableStock(a.stock)
    ensures var r := AddItem(c, a, userIsVip, now);
            && r.cart == c && r.added == []
            && r.failed[0].InsufficientStock?
            && r.failed[0].available == AvailableStock(a.stock)
  {
    AddItemRefusals(c, a, userIsVip, now);
  }

  /** Fail-closed: when the stock endpoint fails or reports nothing, no
      item can change the cart. */
  lemma UnreadableStockRejects(c: Cart, a: Attempt, userIsVip: bool, now: int)
    requires a.stock.RequestFailed? || a.stock == Reply([]) || (a.stock.Reply? && |a.stock.items| > 0 && a.stock.items[0].onStock.None?)
    ensures AddItem(c, a, userIsVip, now).cart == c
  {
  }

  /** Items are processed and reported in request order: a request split in
      two is the first part, then the second from the cart the first left,
      with the reports of the first part ahead of those of the second. */
  lemma {:induction false} AddItemsAppend(c: Cart, xs: seq<Attempt>, ys: seq<Attempt>, userIsVip: bool, now: int)
    ensures var l := AddItems(c, xs, userIsVip, now);
            var r := AddItems(l.cart, ys, userIsVip, now);
            AddItems(c, xs + ys, userIsVip, now) == Batch(r.cart, l.added + r.added, l.failed + r.failed)
    decreases |xs|
  {
    var l := AddItems(c, xs, userIsVip, now);
    var r := AddItems(l.cart, ys, userIsVip, now);
    if |xs| == 0 {
      AppendEmpty(xs, ys);
      AppendEmpty(l.added, r.added);
      AppendEmpty(l.failed, r.failed);
    } else {
      var first := AddItem(c, xs[0], userIsVip, now);
      var l' := AddItems(first.cart, xs[1..], userIsVip, now);
      AddItemsStep(c, xs, userIsVip, now);
      assert l.cart == l'.cart && l.added == first.added + l'.added && l.failed == first.failed + l'.failed;
      AppendTail(xs, ys);
      AddItemsStep(c, xs + ys, userIsVip, now);
      AddItemsAppend(first.cart, xs[1..], ys, userIsVip, now);
      AppendAssoc(first.added, l'.added, r.added);
      AppendAssoc(first.failed, l'.failed, r.failed);
    }
  }

  lemma AppendEmpty<T>(xs: seq<T>, ys: seq<T>)
    requires |xs| == 0
    ensures xs + ys == ys
  {
  }

  lemma AppendTail<T>(xs: seq<T>, ys: seq<T>)
    requires |xs| > 0
    ensures (xs + ys)[0] == xs[0] && (xs + ys)[1..] == xs[1..] + ys
  {
  }

  lemma AppendAssoc<T>(a: seq<T>, b: seq<T>, c: seq<T>)
    ensures a + (b + c) == (a + b) + c
  {
  }

  /** One step of the item loop: the first item's outcome, then the rest's. */
  lemma AddItemsStep(c: Cart, attempts: seq<Attempt>, userIsVip: bool, now: int)
    requires |attempts| > 0
    ensures var first := AddItem(c, attempts[0], userIsVip, now);
            var rest := AddItems(first.cart, attempts[1..], userIsVip, now);
            AddItems(c, attempts, userIsVip, now) == Batch(rest.cart, first.added + rest.added, first.failed + rest.failed)
  {
  }

  /** The item loop takes the first item, then the rest from the cart it left. */
  lemma AddItemsUnfold(c: Cart, attempts: seq<Attempt>, userIsVip: bool, now: int)
    requires |attempts| > 0
    ensures AddItems(c, attempts, userIsVip, now).cart
            == AddItems(AddItem(c, attempts[0], userIsVip, now).cart, attempts[1..], userIsVip, now).cart
  {
  }

  /** One more unit, cut back to the stock, then `n - 1` more units cut
      back again, is `n` more units cut back once. */
  lemma MinAfterOneMore(x: int, n: int, stock: int)
    requires n >= 1 && stock >= 1
    ensures Min(Min(x + 1, stock) + (n - 1), stock) == Min(x + n, stock)
  {
  }

  /** `n` copies of the same item. */
  function Repeat(a: Attempt, n: nat): (r: seq<Attempt>)
    ensures |r| == n && forall i :: 0 <= i < n ==> r[i] == a
  {
    seq(n, _ => a)
  }

  /** `n` items of one request, each asking one unit of the same product: the
      line ends up with its old quantity plus `n`, cut back to the stock
      reading, and keeps the price of its first insertion. */
  lemma RepeatedUnitAdds(c: Cart, a: Attempt, userIsVip: bool, now: int, n: nat)
    requires Admitted(a, userIsVip) && RequestedQuantity(a.item) == 1
    requires n > 0
    ensures var p := ChosenProduct(a, userIsVip);
            var r := AddItems(c, Repeat(a, n), userIsVip, now).cart;
            && p in r
            && r[p].quantity == Min(QuantityIn(c, p) + n, AvailableStock(a.stock))
            && r[p].unitPrice == (if p in c then c[p].unitPrice else a.price)
  {
    RepeatedUnitQuantity(c, a, userIsVip, now, n);
    ChosenLine(c, a, userIsVip, now);
    RepeatUnfold(c, a, userIsVip, now, n);
    AddItemsEvolves(AddItem(c, a, userIsVip, now).cart, Repeat(a, n - 1), userIsVip, now);
  }

  /** The quantity half of RepeatedUnitAdds, by induction on `n`. */
  lemma {:induction false} RepeatedUnitQuantity(c: Cart, a: Attempt, userIsVip: bool, now: int, n: nat)
    requires Admitted(a, userIsVip) && RequestedQuantity(a.item) == 1
    requires n > 0
    decreases n
    ensures var p := ChosenProduct(a, userIsVip);
            var r := AddItems(c, Repeat(a, n), userIsVip, now).cart;
            && p in r
            && r[p].quantity == Min(QuantityIn(c, p) + n, AvailableStock(a.stock))
  {
    var p := ChosenProduct(a, userIsVip);
    var first := AddItem(c, a, userIsVip, now).cart;
    ChosenLine(c, a, userIsVip, now);
    RepeatUnfold(c, a, userIsVip, now, n);
    if n == 1 {
      assert Repeat(a, 0) == [];
    } else {
      RepeatedUnitQuantity(first, a, userIsVip, now, n - 1);
      MinAfterOneMore(QuantityIn(c, p), n, AvailableStock(a.stock));
    }
  }

  /** The first of `n` repeated items is processed before the other `n - 1`. */
  lemma RepeatUnfold(c: Cart, a: Attempt, userIsVip: bool, now: int, n: nat)
    requires n > 0
    ensures AddItems(c, Repeat(a, n), userIsVip, now).cart
            == AddItems(AddItem(c, a, userIsVip, now).cart, Repeat(a, n - 1), userIsVip, now).cart
  {
    var all := Repeat(a, n);
    assert all[0] == a;
    assert all[1..] == Repeat(a, n - 1);
    AddItemsUnfold(c, all, userIsVip, now);
  }

  /** With stock for all of them, `n` items of one request, each asking one
      unit of a product not yet in the cart, leave exactly `n` units. */
  lemma UnitAddsAccumulate(c: Cart, a: Attempt, userIsVip: bool, now: int, n: nat)
    requires Admitted(a, userIsVip) && RequestedQuantity(a.item) == 1
    requires n > 0 && ChosenProduct(a, userIsVip) !in c && n <= AvailableStock(a.stock)
    ensures var r := AddItems(c, Repeat(a, n), userIsVip, now).cart;
            ChosenProduct(a, userIsVip) in r && r[ChosenProduct(a, userIsVip)].quantity == n
  {
    RepeatedUnitAdds(c, a, userIsVip, now, n);
  }

  /** The line an admitted item leaves for its product. */
  function LineAfterAdd(c: Cart, a: Attempt, userIsVip: bool, now: int): Line
    requires Admitted(a, userIsVip)
  {
    var p := ChosenProduct(a, userIsVip);
    Line(Min(QuantityIn(c, p) + RequestedQuantity(a.item), AvailableStock(a.stock)),
         if p in c then c[p].unitPrice else a.price,
         if p in c then c[p].addedAt else now)
  }

  /** An admitted item leaves LineAfterAdd as its product's line. */
  lemma ChosenLine(c: Cart, a: Attempt, userIsVip: bool, now: int)
    requires Admitted(a, userIsVip)
    ensures ChosenProduct(a, userIsVip) in AddItem(c, a, userIsVip, now).cart
    ensures AddItem(c, a, userIsVip, now).cart[ChosenProduct(a, userIsVip)] == LineAfterAdd(c, a, userIsVip, now)
  {
    AddItemAdmitted(c, a, userIsVip, now);
  }

  /** An admitted item replaces or inserts exactly one line and nothing else. */
  lemma AdmittedItemSetsOneLine(c: Cart, a: Attempt, userIsVip: bool, now: int)
    requires Admitted(a, userIsVip)
    ensures AddItem(c, a, userIsVip, now).cart == c[ChosenProduct(a, userIsVip) := LineAfterAdd(c, a, userIsVip, now)]
  {
    var p := ChosenProduct(a, userIsVip);
    var r := AddItem(c, a, userIsVip, now).cart;
    AddItemAdmitted(c, a, userIsVip, now);
    assert r[p] == LineAfterAdd(c, a, userIsVip, now);
    assert r.Keys == c.Keys + {p};
  }

  /** An item's effect on the totals: the chosen line's old quantity and
      subtotal are replaced by the new ones; within stock, the totals grow by
      exactly the requested quantity and its price. */
  lemma AddItemTotals(c: Cart, a: Attempt, userIsVip: bool, now: int)
    requires Admitted(a, userIsVip)
    ensures var p := ChosenProduct(a, userIsVip);
            var r := AddItem(c, a, userIsVip, now).cart;
            var q := RequestedQuantity(a.item);
            && TotalItems(r) == TotalItems(c) - QuantityIn(c, p) + r[p].quantity
            && (QuantityIn(c, p) + q <= AvailableStock(a.stock) ==>
                  && TotalItems(r) == TotalItems(c) + q
                  && TotalPrice(r) == TotalPrice(c) + q * r[p].unitPrice)
  {
    var p := ChosenProduct(a, userIsVip);
    var l := LineAfterAdd(c, a, userIsVip, now);
    AdmittedItemSetsOneLine(c, a, userIsVip, now);
    ReplaceLineTotals(c, p, l);
    var q := RequestedQuantity(a.item);
    if QuantityIn(c, p) + q <= AvailableStock(a.stock) && p in c {
      GrowSubtotal(c[p], l, q);
    }
  }

  /** Replacing or inserting one line moves the totals by the difference
      between the new line and the old one. */
  lemma ReplaceLineTotals(c: Cart, p: ProductId, l: Line)
    ensures TotalItems(c[p := l]) == TotalItems(c) - QuantityIn(c, p) + l.quantity
    ensures TotalPrice(c[p := l]) == TotalPrice(c) - (if p in c then Subtotal(c[p]) else 0) + Subtotal(l)
  {
    SumOverUpdate(c, LineQuantity, p, l);
    SumOverUpdate(c, Subtotal, p, l);
  }

  lemma GrowSubtotal(before: Line, l: Line, q: int)
    requires l.quantity == before.quantity + q && l.unitPrice == before.unitPrice
    ensures Subtotal(l) == Subtotal(before) + q * l.unitPrice
  {
    assert (before.quantity + q) * l.unitPrice == before.quantity * l.unitPrice + q * l.unitPrice;
  }

  /** The filters of a request item play no part: items that differ only in
      `category` and `is_organic` give the same cart and outcomes. This is
      also why no filter can reach past the VIP fence. */
  predicate SameButFilters(x: Attempt, y: Attempt) {
    && x.item.productName == y.item.productName
    && x.item.quantity == y.item.quantity
    && x.rows == y.rows && x.stock == y.stock && x.price == y.price
  }

  lemma {:induction false} FiltersIgnored(c: Cart, xs: seq<Attempt>, ys: seq<Attempt>, userIsVip: bool, now: int)
    requires |xs| == |ys| && forall i :: 0 <= i < |xs| ==> SameButFilters(xs[i], ys[i])
    ensures AddItems(c, xs, userIsVip, now) == AddItems(c, ys, userIsVip, now)
    decreases |xs|
  {
    if |xs| > 0 {
      var first := AddItem(c, xs[0], userIsVip, now);
      assert first == AddItem(c, ys[0], userIsVip, now);
      assert forall i :: 0 <= i < |xs| - 1 ==> xs[1..][i] == xs[i + 1] && ys[1..][i] == ys[i + 1];
      FiltersIgnored(first.cart, xs[1..], ys[1..], userIsVip, now);
    }
  }

  /** Updating an existing line to a positive quantity moves the totals by
      the change in quantity, at the line's unchanged price; updating to zero
      takes the line's quantity and subtotal out of them. */
  lemma UpdateTotals(s: Store, user: UserId, p: ProductId, quantity: int, stock: StockReply)
    requires UpdateCartItem(s, user, Some(p), quantity, stock).status == Updated
    ensures var c := s[user];
            var c' := UpdateCartItem(s, user, Some(p), quantity, stock).store[user];
            && (quantity == 0 ==> TotalItems(c') == TotalItems(c) - QuantityIn(c, p))
            && (quantity == 0 ==> TotalPrice(c') == TotalPrice(c) - (if p in c then Subtotal(c[p]) else 0))
            && (quantity > 0 && p in c ==>
                  && TotalItems(c') == TotalItems(c) - c[p].quantity + quantity
                  && TotalPrice(c') == TotalPrice(c) + (quantity - c[p].quantity) * c[p].unitPrice)
  {
    SetQuantityTotals(s[user], p, quantity);
  }

  /** The totals after setting one line's quantity. */
  lemma SetQuantityTotals(c: Cart, p: ProductId, q: nat)
    ensures q == 0 ==> TotalItems(SetQuantity(c, p, q)) == TotalItems(c) - QuantityIn(c, p)
    ensures q == 0 ==> TotalPrice(SetQuantity(c, p, q)) == TotalPrice(c) - (if p in c then Subtotal(c[p]) else 0)
    ensures q > 0 && p in c ==>
              && TotalItems(SetQuantity(c, p, q)) == TotalItems(c) - c[p].quantity + q
              && TotalPrice(SetQuantity(c, p, q)) == TotalPrice(c) + (q - c[p].quantity) * c[p].unitPrice
  {
    if q == 0 {
      assert SetQuantity(c, p, q) == c - {p};
      SumOverDelete(c, LineQuantity, p);
      SumOverDelete(c, Subtotal, p);
    } else if p in c {
      var l := c[p].(quantity := q);
      assert SetQuantity(c, p, q) == c[p := l];
      SumOverUpdate(c, LineQuantity, p, l);
      SumOverUpdate(c, Subtotal, p, l);
      SubtotalChange(c[p], q);
    }
  }

  /** Changing a line's quantity changes its subtotal by the difference times
      the unit price. */
  lemma SubtotalChange(l: Line, q: int)
    ensures Subtotal(l.(quantity := q)) == Subtotal(l) + (q - l.quantity) * l.unitPrice
  {
    calc {
      Subtotal(l.(quantity := q));
      q * l.unitPrice;
      { assert q == l.quantity + (q - l.quantity); }
      (l.quantity + (q - l.quantity)) * l.unitPrice;
      l.quantity * l.unitPrice + (q - l.quantity) * l.unitPrice;
    }
  }

  /** A successful update to zero leaves the product out of every later view. */
  lemma ZeroHidesLine(s: Store, user: UserId, p: ProductId, stock: StockReply, names: Names)
    requires UpdateCartItem(s, user, Some(p), 0, stock).status == Updated
    ensures p !in VisibleCart(UpdateCartItem(s, user, Some(p), 0, stock).store, user, names)
  {
  }

  /** An update of a product with no line in an existing cart changes nothing
      and still reports success. */
  lemma UpdateAbsentLine(s: Store, user: UserId, p: ProductId, quantity: int, stock: StockReply)
    requires user in s && p !in s[user]
    requires 0 < quantity <= AvailableStock(stock)
    ensures UpdateCartItem(s, user, Some(p), quantity, stock) == UpdateResult(s, Updated)
  {
    assert s[user := s[user]] == s;
  }

  /** Repeating an update with the same arguments and the same stock reply
      changes nothing more. */
  lemma UpdateIdempotent(s: Store, user: UserId, p: Option<ProductId>, quantity: int, stock: StockReply)
    ensures var r := UpdateCartItem(s, user, p, quantity, stock);
            UpdateCartItem(r.store, user, p, quantity, stock) == r
  {
    var r := UpdateCartItem(s, user, p, quantity, stock);
    if r.status == Updated {
      var c := s[user];
      var c' := SetQuantity(c, p.value, quantity);
      assert SetQuantity(c', p.value, quantity) == c';
      assert r.store[user := c'] == r.store;
    }
  }

  /** `remove_from_cart` is `update_cart_item` with quantity zero, whatever
      the stock endpoint would have said. */
  lemma RemoveIsUpdateWithZero(s: Store, user: UserId, p: Option<ProductId>, stock: StockReply)
    ensures RemoveFromCart(s, user, p) == UpdateCartItem(s, user, p, 0, stock)
  {
  }

  /** Clearing twice is clearing once; a cleared cart has zero totals and
      every cart stays valid. */
  lemma ClearIdempotent(s: Store, user: UserId)
    ensures ClearCart(ClearCart(s, user), user) == ClearCart(s, user)
    ensures TotalItems(LinesOf(ClearCart(s, user), user)) == 0
    ensures TotalPrice(LinesOf(ClearCart(s, user), user)) == 0
    ensures StoreValid(s) ==> StoreValid(ClearCart(s, user))
  {
    EmptyTotals();
  }
}
