/** Price ranges by category (`PRICE_RANGES`, `DEFAULT_PRICE_RANGE` and the
    lookup in `_generate_price`), in euro cents. Drawing the random price is
    not modelled: the drawn price is an input of the add operation. */
module Pricing {
  import opened Wrappers

  /** Inclusive bounds, in cents. */
  datatype PriceRange = PriceRange(low: nat, high: nat)

  const PriceRanges: map<string, PriceRange> := map[
    "Vegetables" := PriceRange(200, 800),
    "Fruits" := PriceRange(300, 1000),
    "Dairy" := PriceRange(100, 500),
    "Meat" := PriceRange(800, 2500),
    "Bakery" := PriceRange(200, 600),
    "Seafood" := PriceRange(1000, 3000),
    "Beverages" := PriceRange(150, 800),
    "Grains" := PriceRange(150, 600),
    "Snacks" := PriceRange(200, 800),
    "Condiments" := PriceRange(150, 700)
  ]

  const DefaultPriceRange: PriceRange := PriceRange(200, 1000)

  /** The range for a category; a missing, empty or unknown category uses the default. */
  function RangeFor(category: Option<string>): (r: PriceRange)
    ensures r.low <= r.high
    ensures category.Some? && category.value in PriceRanges ==> r == PriceRanges[category.value]
    ensures category.None? || category.value !in PriceRanges ==> r == DefaultPriceRange
  {
    var key := category.GetOr("");
    if key in PriceRanges then PriceRanges[key] else DefaultPriceRange
  }

  /** `cents` is a price the generator can produce for `category`. */
  predicate InRange(category: Option<string>, cents: nat) {
    var r := RangeFor(category);
    r.low <= cents <= r.high
  }
}
