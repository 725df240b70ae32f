/** The persistent state behind the service: the `shopping_carts` table (at most
    one cart per user, by its unique `user_id`) and the `shopping_cart_items`
    table (at most one line per cart and product, by its unique
    `(cart_id, product_id)`). Keying maps by user and by product gives both
    uniqueness constraints for free. */
module CartState {
  import Catalog

  type UserId = string
  type ProductId = Catalog.ProductId

  /** One cart line: quantity, unit price in cents frozen at insertion, and
      the `added_at` timestamp set only when the line is inserted. */
  datatype Line = Line(quantity: int, unitPrice: nat, addedAt: int)

  type Cart = map<ProductId, Line>

  /** A user present in the store has a cart record, possibly with no lines. */
  type Store = map<UserId, Cart>

  /** No stored line has a quantity below one. */
  predicate CartValid(c: Cart) {
    forall p :: p in c ==> c[p].quantity >= 1
  }

  predicate StoreValid(s: Store) {
    forall u :: u in s ==> CartValid(s[u])
  }

  /** The lines of `user`'s cart; a user without a cart record has none. */
  function LinesOf(s: Store, user: UserId): Cart {
    if user in s then s[user] else map[]
  }

  /** Per-line value in cents: `quantity * unit_price`. */
  function Subtotal(l: Line): int {
    l.quantity * l.unitPrice
  }
}
