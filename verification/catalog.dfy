/** Product resolution (`_search_product`): choosing one catalog row for a
    free-text product name. The trigram similarity scores are computed by the
    database and arrive here as given numbers on each candidate row. */
module Catalog {
  import opened Wrappers

  type ProductId = string

  /** One row of the products table as seen by the search: its identity, its
      display name, whether it is reserved to VIP users, and the similarity of
      its name to the searched text. */
  datatype Candidate = Candidate(id: ProductId, name: string, isVip: bool, similarity: real)

  /** A row is accepted only when its similarity is strictly above this. */
  const SimilarityThreshold: real := 0.3

  /** The category the search query reports for every row it returns. */
  const SearchCategory: string := "Unknown"

  /** The query's WHERE clause: the VIP fence and the similarity threshold. */
  predicate Eligible(c: Candidate, userIsVip: bool) {
    (!c.isVip || userIsVip) && c.similarity > SimilarityThreshold
  }

  /** `c` is a row the query may return: eligible, and no eligible row scores higher. */
  predicate IsBestMatch(rows: seq<Candidate>, userIsVip: bool, c: Candidate) {
    && c in rows
    && Eligible(c, userIsVip)
    && forall i :: 0 <= i < |rows| && Eligible(rows[i], userIsVip) ==> rows[i].similarity <= c.similarity
  }

  /** The search: the first best-scoring eligible row in the table's row order,
      or nothing when no row passes the fence and the threshold. */
  function SearchProduct(rows: seq<Candidate>, userIsVip: bool): (r: Option<Candidate>)
    ensures r.None? <==> forall i :: 0 <= i < |rows| ==> !Eligible(rows[i], userIsVip)
    ensures r.Some? ==> IsBestMatch(rows, userIsVip, r.value)
  {
    if |rows| == 0 then None
    else
      var rest := SearchProduct(rows[1..], userIsVip);
      assert forall i :: 1 <= i < |rows| ==> rows[i] == rows[1..][i - 1];
      if Eligible(rows[0], userIsVip) && (rest.None? || rest.value.similarity <= rows[0].similarity) then
        Some(rows[0])
      else
        rest
  }

  /** Ties are not broken by the query: whichever best-scoring eligible row
      the table yields first is returned, so every best match is the answer
      under some row order. */
  lemma AnyBestMatchCanBeChosen(rows: seq<Candidate>, userIsVip: bool, i: nat)
    requires i < |rows| && IsBestMatch(rows, userIsVip, rows[i])
    ensures SearchProduct([rows[i]] + rows[..i] + rows[i + 1..], userIsVip) == Some(rows[i])
  {
    var s := [rows[i]] + rows[..i] + rows[i + 1..];
    var rest := SearchProduct(s[1..], userIsVip);
    assert s[1..] == rows[..i] + rows[i + 1..];
    if rest.Some? {
      var k :| 0 <= k < |s[1..]| && s[1..][k] == rest.value;
      if k < i {
        assert rest.value == rows[k];
      } else {
        assert rest.value == rows[k + 1];
      }
    }
  }

  /** The query's comparison with the threshold is strict: over exact real
      scores, a row scoring exactly the threshold is not found. */
  lemma ThresholdIsStrict(c: Candidate, userIsVip: bool)
    requires c.similarity == SimilarityThreshold
    ensures SearchProduct([c], userIsVip) == None
  {
  }
}
