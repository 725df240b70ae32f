/** Cart totals as sums over the lines of a cart, independent of any order. */
module Totals {
  import opened CartState

  /** Sum of `f` over the lines of `c`, taking the lines in an arbitrary order. */
  ghost function SumOver(c: Cart, f: Line -> int): int
    decreases |c.Keys|
  {
    if c == map[] then 0
    else
      var k :| k in c;
      assert |(c - {k}).Keys| < |c.Keys| by {
        assert (c - {k}).Keys == c.Keys - {k};
      }
      f(c[k]) + SumOver(c - {k}, f)
  }

  function LineQuantity(l: Line): int {
    l.quantity
  }

  /** Total number of items: the sum of the line quantities. */
  ghost function TotalItems(c: Cart): int {
    SumOver(c, LineQuantity)
  }

  /** Total price in cents: the sum of `quantity * unit_price` over the lines. */
  ghost function TotalPrice(c: Cart): int {
    SumOver(c, Subtotal)
  }

  /** Any line may be taken out of the sum first: the sum does not depend on
      which line the definition happened to pick. */
  lemma {:induction false} SumOverRemove(c: Cart, f: Line -> int, k: ProductId)
    requires k in c
    ensures SumOver(c, f) == f(c[k]) + SumOver(c - {k}, f)
    decreases |c.Keys|
  {
    var j :| j in c && SumOver(c, f) == f(c[j]) + SumOver(c - {j}, f);
    if j != k {
      assert (c - {j}).Keys == c.Keys - {j};
      assert (c - {k}).Keys == c.Keys - {k};
      SumOverRemove(c - {j}, f, k);
      SumOverRemove(c - {k}, f, j);
      assert c - {j} - {k} == c - {k} - {j};
    }
  }

  /** Replacing or inserting the line at `k` changes the sum by the
      difference between the new line and the old one (zero when absent). */
  lemma SumOverUpdate(c: Cart, f: Line -> int, k: ProductId, l: Line)
    ensures SumOver(c[k := l], f) == SumOver(c, f) - (if k in c then f(c[k]) else 0) + f(l)
  {
    SumOverRemove(c[k := l], f, k);
    assert c[k := l] - {k} == c - {k};
    if k in c {
      SumOverRemove(c, f, k);
    } else {
      assert c - {k} == c;
    }
  }

  /** Deleting the line at `k` subtracts its contribution. */
  lemma SumOverDelete(c: Cart, f: Line -> int, k: ProductId)
    ensures SumOver(c - {k}, f) == SumOver(c, f) - (if k in c then f(c[k]) else 0)
  {
    if k in c {
      SumOverRemove(c, f, k);
    } else {
      assert c - {k} == c;
    }
  }

  /** A cart with no lines has zero totals. */
  lemma EmptyTotals()
    ensures TotalItems(map[]) == 0 && TotalPrice(map[]) == 0
  {
  }

  /** In a valid cart every line holds at least one item. */
  lemma {:induction false} TotalItemsAtLeastLines(c: Cart)
    requires CartValid(c)
    ensures TotalItems(c) >= |c|
    decreases |c.Keys|
  {
    if c != map[] {
      var k :| k in c;
      SumOverRemove(c, LineQuantity, k);
      assert (c - {k}).Keys == c.Keys - {k};
      TotalItemsAtLeastLines(c - {k});
    }
  }
}
