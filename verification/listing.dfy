/** Viewing a cart (`get_cart`): the listed rows, newest first, and the cart
    totals accumulated over them. */
module Listing {
  import opened CartState
  import opened Totals

  /** One listed row: the line joined with the product's current name. */
  datatype Row = Row(productId: ProductId, productName: string, quantity: int, unitPrice: nat, subtotal: int, addedAt: int)

  datatype CartView = CartView(rows: seq<Row>, totalItems: int, totalPrice: int, currency: string)

  const Currency: string := "EUR"

  /** Product names of the products table, keyed by product. */
  type Names = map<ProductId, string>

  function RowOf(p: ProductId, name: string, l: Line): Row {
    Row(p, name, l.quantity, l.unitPrice, Subtotal(l), l.addedAt)
  }

  function RowQuantity(r: Row): int {
    r.quantity
  }

  function RowSubtotal(r: Row): int {
    r.subtotal
  }

  /** The lines the view query can see: the user's lines whose product still
      has a row in the products table (the query joins on it). */
  function VisibleCart(s: Store, user: UserId, names: Names): (c: Cart)
    ensures c.Keys <= names.Keys
    ensures forall p :: p in c <==> p in LinesOf(s, user) && p in names
    ensures forall p :: p in c ==> c[p] == LinesOf(s, user)[p]
  {
    var lines := LinesOf(s, user);
    map p | p in lines && p in names :: lines[p]
  }

  function Ids(rows: seq<Row>): set<ProductId> {
    set i | 0 <= i < |rows| :: rows[i].productId
  }

  predicate DistinctIds(rows: seq<Row>) {
    forall i, j :: 0 <= i < j < |rows| ==> rows[i].productId != rows[j].productId
  }

  /** Ordered by `added_at`, most recent first. */
  predicate NewestFirst(rows: seq<Row>) {
    forall i, j :: 0 <= i < j < |rows| ==> rows[i].addedAt >= rows[j].addedAt
  }

  /** Every row shows the line of `c` for its product, under the product's name. */
  predicate RowsMatch(rows: seq<Row>, c: Cart, names: Names) {
    forall i :: 0 <= i < |rows| ==>
      && rows[i].productId in c
      && rows[i].productId in names
      && rows[i] == RowOf(rows[i].productId, names[rows[i].productId], c[rows[i].productId])
  }

  /** `rows` lists every line of `c` exactly once. */
  predicate Lists(rows: seq<Row>, c: Cart, names: Names) {
    RowsMatch(rows, c, names) && DistinctIds(rows) && Ids(rows) == c.Keys
  }

  /** Sum of `f` over the rows, accumulated front to back. */
  function SumRows(rows: seq<Row>, f: Row -> int): int {
    if |rows| == 0 then 0 else SumRows(rows[..|rows| - 1], f) + f(rows[|rows| - 1])
  }

  /** Where a row stamped `t` goes in a newest-first listing: after every row
      at least as recent, before every older one. */
  function InsertPos(rows: seq<Row>, t: int): (i: nat)
    requires NewestFirst(rows)
    ensures i <= |rows|
    ensures forall j :: 0 <= j < i ==> rows[j].addedAt >= t
    ensures forall j :: i <= j < |rows| ==> rows[j].addedAt < t
  {
    if |rows| == 0 || rows[0].addedAt < t then 0
    else
      var k := InsertPos(rows[1..], t);
      assert forall j :: 1 <= j < |rows| ==> rows[j] == rows[1..][j - 1];
      1 + k
  }

  /** Builds a newest-first listing of the lines of `c`. Lines with equal
      timestamps come out in an unspecified order, as in the query. */
  method ListCart(c: Cart, names: Names) returns (rows: seq<Row>)
    requires c.Keys <= names.Keys
    ensures Lists(rows, c, names)
    ensures NewestFirst(rows)
  {
    var pending := c.Keys;
    rows := [];
    while pending != {}
      invariant pending <= c.Keys
      invariant RowsMatch(rows, c, names)
      invariant DistinctIds(rows)
      invariant Ids(rows) == c.Keys - pending
      invariant NewestFirst(rows)
      decreases pending
    {
      var p :| p in pending;
      var r := RowOf(p, names[p], c[p]);
      var rows' := Inserted(rows, r);
      InsertMatches(rows, c, names, p);
      InsertDistinct(rows, r);
      InsertNewest(rows, r);
      InsertIds(rows, rows', r, InsertPos(rows, r.addedAt));
      rows := rows';
      pending := pending - {p};
    }
  }

  /** `rows` with `r` inserted at its InsertPos. */
  function Inserted(rows: seq<Row>, r: Row): (rows': seq<Row>)
    requires NewestFirst(rows)
    ensures |rows'| == |rows| + 1
  {
    var i := InsertPos(rows, r.addedAt);
    rows[..i] + [r] + rows[i..]
  }

  /** Where each row of Inserted comes from. */
  lemma InsertedAt(rows: seq<Row>, r: Row)
    requires NewestFirst(rows)
    ensures var i := InsertPos(rows, r.addedAt);
            var rows' := Inserted(rows, r);
            && rows'[i] == r
            && (forall j :: 0 <= j < i ==> rows'[j] == rows[j])
            && (forall j :: i < j < |rows'| ==> rows'[j] == rows[j - 1])
  {
  }

  /** Inserting a row that shows a line of `c` keeps every row matching. */
  lemma InsertMatches(rows: seq<Row>, c: Cart, names: Names, p: ProductId)
    requires RowsMatch(rows, c, names) && NewestFirst(rows)
    requires p in c && p in names
    ensures RowsMatch(Inserted(rows, RowOf(p, names[p], c[p])), c, names)
  {
    InsertedAt(rows, RowOf(p, names[p], c[p]));
  }

  /** Inserting a row for a product not yet listed keeps the products distinct. */
  lemma InsertDistinct(rows: seq<Row>, r: Row)
    requires DistinctIds(rows) && NewestFirst(rows) && r.productId !in Ids(rows)
    ensures DistinctIds(Inserted(rows, r))
  {
    var i := InsertPos(rows, r.addedAt);
    var rows' := Inserted(rows, r);
    InsertedAt(rows, r);
    forall j, k | 0 <= j < k < |rows'| ensures rows'[j].productId != rows'[k].productId {
      if j == i || k == i {
        assert rows[if j == i then k - 1 else j].productId in Ids(rows);
      }
    }
  }

  /** Inserting at InsertPos keeps the listing newest first. */
  lemma InsertNewest(rows: seq<Row>, r: Row)
    requires NewestFirst(rows)
    ensures NewestFirst(Inserted(rows, r))
  {
    InsertedAt(rows, r);
  }

  lemma InsertIds(rows: seq<Row>, rows': seq<Row>, r: Row, i: nat)
    requires i <= |rows| && rows' == rows[..i] + [r] + rows[i..]
    ensures Ids(rows') == Ids(rows) + {r.productId}
  {
    assert forall j :: 0 <= j < i ==> rows'[j] == rows[j];
    assert rows'[i] == r;
    assert forall j :: i < j < |rows'| ==> rows'[j] == rows[j - 1];
    forall q | q in Ids(rows') ensures q in Ids(rows) + {r.productId} {
      var j :| 0 <= j < |rows'| && rows'[j].productId == q;
      if j < i { assert rows[j].productId == q; }
      else if j > i { assert rows[j - 1].productId == q; }
    }
    forall q | q in Ids(rows) ensures q in Ids(rows') {
      var j :| 0 <= j < |rows| && rows[j].productId == q;
      if j < i { assert rows'[j].productId == q; }
      else { assert rows'[j + 1].productId == q; }
    }
  }

  /** Dropping the last row of a listing lists the cart without that row's line. */
  lemma DropLastRow(rows: seq<Row>, c: Cart, names: Names)
    requires Lists(rows, c, names) && |rows| > 0
    ensures Lists(rows[..|rows| - 1], c - {rows[|rows| - 1].productId}, names)
  {
    var n := |rows| - 1;
    var k := rows[n].productId;
    var front := rows[..n];
    assert forall i :: 0 <= i < n ==> front[i] == rows[i] && front[i].productId != k;
    assert Ids(rows) == Ids(front) + {k} by {
      InsertIds(front, rows, rows[n], n);
    }
    assert k !in Ids(front);
    assert (c - {k}).Keys == c.Keys - {k};
  }

  /** Summing a listing row by row gives the order-independent cart sum. */
  lemma {:induction false} ListingSum(rows: seq<Row>, c: Cart, names: Names, f: Row -> int, g: Line -> int)
    requires Lists(rows, c, names)
    requires forall p, name, l :: f(RowOf(p, name, l)) == g(l)
    ensures SumRows(rows, f) == SumOver(c, g)
    decreases |rows|
  {
    if |rows| == 0 {
      assert c.Keys == {};
      assert c == map[];
    } else {
      var n := |rows| - 1;
      var k := rows[n].productId;
      var front := rows[..n];
      DropLastRow(rows, c, names);
      ListingSum(front, c - {k}, names, f, g);
      SumOverRemove(c, g, k);
      assert f(rows[n]) == g(c[k]);
    }
  }

  /** The accumulation loop of the view: item and price totals of a listing. */
  method SumListing(rows: seq<Row>) returns (totalItems: int, totalPrice: int)
    ensures totalItems == SumRows(rows, RowQuantity)
    ensures totalPrice == SumRows(rows, RowSubtotal)
  {
    totalItems := 0;
    totalPrice := 0;
    var i := 0;
    while i < |rows|
      invariant 0 <= i <= |rows|
      invariant totalItems == SumRows(rows[..i], RowQuantity)
      invariant totalPrice == SumRows(rows[..i], RowSubtotal)
    {
      assert rows[..i + 1][..i] == rows[..i];
      totalItems := totalItems + rows[i].quantity;
      totalPrice := totalPrice + rows[i].subtotal;
      i := i + 1;
    }
    assert rows[..|rows|] == rows;
  }

  /** The cart view: every visible line once, newest first, with totals equal
      to the sums over the cart's lines. */
  method GetCart(s: Store, user: UserId, names: Names) returns (v: CartView)
    ensures Lists(v.rows, VisibleCart(s, user, names), names)
    ensures NewestFirst(v.rows)
    ensures v.totalItems == TotalItems(VisibleCart(s, user, names))
    ensures v.totalPrice == TotalPrice(VisibleCart(s, user, names))
    ensures v.currency == Currency
  {
    var c := VisibleCart(s, user, names);
    var rows := ListCart(c, names);
    var totalItems, totalPrice := SumListing(rows);
    ListingSum(rows, c, names, RowQuantity, LineQuantity);
    ListingSum(rows, c, names, RowSubtotal, Subtotal);
    v := CartView(rows, totalItems, totalPrice, Currency);
  }
}
