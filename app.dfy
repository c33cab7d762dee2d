/**
 * The query engine of the full catalog app: the browse facets, the multi-criteria filter
 * and the lookup by product code. Every route reloads the catalog from the directory.
 */
module App {
  import opened Wrappers
  import opened Text
  import opened Seqs
  import opened Catalog
  import Loader
  import Facets

  /** The query parameters of the filter route as they arrive. */
  datatype Criteria = Criteria(
    searchTerm: string,
    category: string,
    minPrice: Option<string>,
    maxPrice: Option<string>,
    inStock: Option<bool>,
    invGroup: Option<string>,
    brandCode: Option<string>)

  /** The same criteria with the price bounds parsed; `None` is an absent bound. */
  datatype Query = Query(
    searchTerm: string,
    category: string,
    minPrice: Option<real>,
    maxPrice: Option<real>,
    inStock: Option<bool>,
    invGroup: Option<string>,
    brandCode: Option<string>)

  /**
   * A price bound from the query: absent or empty means no bound; otherwise the parsed number,
   * or no bound when it does not parse. `parseFloat` stands for the number parser and answers
   * `None` where that parser rejects its input.
   */
  function ParseBound(raw: Option<string>, parseFloat: string -> Option<real>): (r: Option<real>)
    ensures raw.None? || raw.value == "" ==> r.None?
    ensures raw.Some? && raw.value != "" ==> r == parseFloat(raw.value)
  {
    if raw.None? || raw.value == "" then None else parseFloat(raw.value)
  }

  function ParseQuery(c: Criteria, parseFloat: string -> Option<real>): Query {
    Query(c.searchTerm, c.category, ParseBound(c.minPrice, parseFloat), ParseBound(c.maxPrice, parseFloat),
          c.inStock, c.invGroup, c.brandCode)
  }

  /** The search: the term, case-folded, in the description or in the brand code (absent reads as ""). */
  predicate SearchMatches(term: string, p: Product) {
    CaseInsensitiveIn(term, p.description) || CaseInsensitiveIn(term, p.brandCode.GetOr(""))
  }

  /** An exact-match criterion: an absent or empty request passes everything, otherwise the field must equal it. */
  predicate ExactMatches(requested: Option<string>, field: Option<string>) {
    !Truthy(requested) || field == requested
  }

  /** One price entry is within the bounds that are set. */
  predicate InPriceRange(e: PriceEntry, minPrice: Option<real>, maxPrice: Option<real>) {
    (minPrice.None? || PriceOf(e) >= minPrice.value) && (maxPrice.None? || PriceOf(e) <= maxPrice.value)
  }

  /** Some price entry of the record is within the bounds. */
  predicate PriceMatches(p: Product, minPrice: Option<real>, maxPrice: Option<real>) {
    exists j :: 0 <= j < |p.uomPrices| && InPriceRange(p.uomPrices[j], minPrice, maxPrice)
  }

  /** Some price entry has positive stock, a missing stock counting as none. */
  predicate AnyInStock(p: Product) {
    exists j :: 0 <= j < |p.uomPrices| && StockOf(p.uomPrices[j]) > 0.0
  }

  /** The stock criterion: only a request of `True` constrains. */
  predicate StockMatches(inStock: Option<bool>, p: Product) {
    inStock != Some(true) || AnyInStock(p)
  }

  /** A record passes the filter when it meets every criterion. */
  predicate Matches(p: Product, q: Query) {
    && SearchMatches(q.searchTerm, p)
    && CategoryMatches(q.category, p)
    && ExactMatches(q.invGroup, p.invGroup)
    && ExactMatches(q.brandCode, p.brandCode)
    && PriceMatches(p, q.minPrice, q.maxPrice)
    && StockMatches(q.inStock, p)
  }

  function Keep(q: Query): Product -> bool {
    p => Matches(p, q)
  }

  /** The filter's result: the matching records in catalog order. */
  function Filtered(ps: seq<Product>, q: Query): seq<Product> {
    Select(ps, Keep(q))
  }

  /** `filter_products`: load the catalog, parse the bounds, then walk the records keeping those that pass. */
  method FilterProducts(dir: Loader.Directory, c: Criteria, parseFloat: string -> Option<real>)
    returns (filtered: seq<Product>)
    ensures filtered == Filtered(Loader.Loaded(dir), ParseQuery(c, parseFloat))
  {
    var products := Loader.LoadProducts(dir);
    var minPrice := ParseBound(c.minPrice, parseFloat);
    var maxPrice := ParseBound(c.maxPrice, parseFloat);
    ghost var q := ParseQuery(c, parseFloat);
    filtered := [];
    var i := 0;
    while i < |products|
      invariant 0 <= i <= |products|
      invariant filtered == Filtered(products[..i], q)
    {
      var p := products[i];
      i := i + 1;
      assert products[..i][..i - 1] == products[..i - 1];
      if !SearchMatches(c.searchTerm, p) {
        continue;
      }
      if c.category != "all" && p.productLineDesc != Some(c.category) {
        continue;
      }
      if Truthy(c.invGroup) && p.invGroup != c.invGroup {
        continue;
      }
      if Truthy(c.brandCode) && p.brandCode != c.brandCode {
        continue;
      }
      var matchPrice := false;
      var k := 0;
      while k < |p.uomPrices|
        invariant 0 <= k <= |p.uomPrices|
        invariant !matchPrice
        invariant forall j :: 0 <= j < k ==> !InPriceRange(p.uomPrices[j], minPrice, maxPrice)
      {
        var price := PriceOf(p.uomPrices[k]);
        if (minPrice.None? || price >= minPrice.value) && (maxPrice.None? || price <= maxPrice.value) {
          matchPrice := true;
          break;
        }
        k := k + 1;
      }
      if !matchPrice {
        continue;
      }
      if c.inStock == Some(true) && !AnyInStock(p) {
        continue;
      }
      filtered := filtered + [p];
    }
    assert products[..i] == products;
  }

  /** The first record of the catalog whose product code is `code`, or `None` when no record has it. */
  function FindByCode(ps: seq<Product>, code: string): (r: Option<Product>)
    ensures r.None? <==> forall i :: 0 <= i < |ps| ==> ps[i].productCode != Some(code)
    ensures r.Some? ==> exists i :: && 0 <= i < |ps| && ps[i] == r.value && ps[i].productCode == Some(code)
                                    && forall j :: 0 <= j < i ==> ps[j].productCode != Some(code)
  {
    if ps == [] then None
    else if ps[0].productCode == Some(code) then Some(ps[0])
    else
      var r := FindByCode(ps[1..], code);
      assert forall i :: 0 < i < |ps| ==> ps[i] == ps[1..][i - 1];
      r
  }

  /** `home`: load the catalog and list the choices of the three select boxes. */
  method Home(dir: Loader.Directory) returns (categories: seq<string>, invGroups: seq<string>, brandCodes: seq<string>)
    ensures categories == Facets.Categories(Loader.Loaded(dir))
    ensures invGroups == Facets.Facet(Loader.Loaded(dir), Facets.InvGroup)
    ensures brandCodes == Facets.Facet(Loader.Loaded(dir), Facets.BrandCode)
  {
    var products := Loader.LoadProducts(dir);
    categories := Facets.Categories(products);
    invGroups := Facets.Facet(products, Facets.InvGroup);
    brandCodes := Facets.Facet(products, Facets.BrandCode);
  }

  /** `product_detail`: load the catalog and find the record; `None` is the not-found answer. */
  method ProductDetail(dir: Loader.Directory, code: string) returns (product: Option<Product>)
    ensures product == FindByCode(Loader.Loaded(dir), code)
  {
    var products := Loader.LoadProducts(dir);
    product := FindByCode(products, code);
  }

  // ---- Properties of the filter ----

  /** The result is the subsequence of the catalog at the positions of exactly the matching records. */
  lemma FilteredIsOrderedSelection(ps: seq<Product>, q: Query)
    ensures SubsequenceAt(Filtered(ps, q), ps, Positions(ps, Keep(q)))
    ensures forall i :: 0 <= i < |ps| ==> (i in Positions(ps, Keep(q)) <==> Matches(ps[i], q))
  {
    SelectIsSubsequence(ps, Keep(q));
  }

  /** A record is in the result exactly when it is in the catalog and meets every criterion. */
  lemma FilteredMembership(ps: seq<Product>, q: Query, p: Product)
    ensures p in Filtered(ps, q) <==> p in ps && Matches(p, q)
  {
    SelectMembership(ps, Keep(q), p);
  }

  /** An empty catalog gives an empty result, whatever the criteria. */
  lemma EmptyCatalog(q: Query)
    ensures Filtered([], q) == []
  {
  }

  /** The price loop needs an entry to succeed, so a record without price entries never passes, even with no bound set. */
  lemma NoPriceEntriesNeverPass(ps: seq<Product>, q: Query, p: Product)
    requires p.uomPrices == []
    ensures p !in Filtered(ps, q)
  {
    FilteredMembership(ps, q, p);
  }

  /** With no bound set the price criterion asks only for a price entry. */
  lemma UnboundedPriceNeedsAnEntry(p: Product)
    ensures PriceMatches(p, None, None) <==> p.uomPrices != []
  {
    if p.uomPrices != [] {
      assert InPriceRange(p.uomPrices[0], None, None);
    }
  }

  /** The search term is case-folded, so its case does not change the result. */
  lemma SearchIgnoresCase(ps: seq<Product>, q: Query)
    ensures Filtered(ps, q.(searchTerm := Upper(q.searchTerm))) == Filtered(ps, q)
    ensures Filtered(ps, q.(searchTerm := Lower(q.searchTerm))) == Filtered(ps, q)
  {
    var up, low := q.(searchTerm := Upper(q.searchTerm)), q.(searchTerm := Lower(q.searchTerm));
    forall p | p in ps ensures Keep(up)(p) == Keep(q)(p) && Keep(low)(p) == Keep(q)(p) {
      CaseInsensitiveInIgnoresCase(q.searchTerm, p.description);
      CaseInsensitiveInIgnoresCase(q.searchTerm, p.brandCode.GetOr(""));
    }
    SelectAgree(ps, Keep(up), Keep(q));
    SelectAgree(ps, Keep(low), Keep(q));
  }

  /** The empty search term imposes nothing. */
  lemma EmptyTermMatchesEverything(p: Product)
    ensures SearchMatches("", p)
  {
    EmptyIsContained(Lower(p.description));
  }

  /** A bound that does not parse acts as an absent bound. */
  lemma UnparsableBoundIsUnset(ps: seq<Product>, c: Criteria, parseFloat: string -> Option<real>)
    requires c.minPrice.Some? && parseFloat(c.minPrice.value) == None
    ensures Filtered(ps, ParseQuery(c, parseFloat)) == Filtered(ps, ParseQuery(c.(minPrice := None), parseFloat))
  {
  }

  /** Filtering the merged catalog is merging the per-file filter results. */
  lemma FilterOfMergedCatalog(a: seq<Loader.FileOutcome>, b: seq<Loader.FileOutcome>, q: Query)
    ensures Filtered(Loader.Concat(a + b), q) == Filtered(Loader.Concat(a), q) + Filtered(Loader.Concat(b), q)
  {
    Loader.ConcatAppend(a, b);
    SelectAppend(Loader.Concat(a), Loader.Concat(b), Keep(q));
  }

  /** A record passes the price range when one of its entries lies inside it, even if another does not. */
  lemma AnyEntryInRangeSuffices(p: Product)
    requires p.uomPrices == [PriceEntry(Some(5.0), None), PriceEntry(Some(50.0), None)]
    ensures PriceMatches(p, Some(40.0), Some(60.0))
    ensures !InPriceRange(p.uomPrices[0], Some(40.0), Some(60.0))
  {
    assert InPriceRange(p.uomPrices[1], Some(40.0), Some(60.0));
  }

  /** The stock criterion looks for any entry with stock; a missing `ActualStock` counts as none. */
  lemma StockOnAnyEntry(p: Product, p': Product)
    requires p.uomPrices == [PriceEntry(None, Some(0.0)), PriceEntry(None, Some(3.0))]
    requires p'.uomPrices == [PriceEntry(Some(1.0), Some(0.0)), PriceEntry(Some(2.0), None)]
    ensures StockMatches(Some(true), p) && !StockMatches(Some(true), p')
    ensures StockMatches(Some(false), p') && StockMatches(None, p')
  {
    assert StockOf(p.uomPrices[1]) > 0.0;
  }

  // ---- Properties of the lookup ----

  /** The first record carrying the code is the one returned. */
  lemma FirstMatchWins(ps: seq<Product>, code: string, i: nat)
    requires i < |ps| && ps[i].productCode == Some(code)
    requires forall j :: 0 <= j < i ==> ps[j].productCode != Some(code)
    ensures FindByCode(ps, code) == Some(ps[i])
  {
    var r := FindByCode(ps, code);
    var k :| 0 <= k < |ps| && ps[k] == r.value && ps[k].productCode == Some(code)
             && forall j :: 0 <= j < k ==> ps[j].productCode != Some(code);
    assert k == i;
  }

  /** Looking up in a concatenation finds the match of the first part when it has one. */
  lemma {:induction false} FindByCodeAppend(s: seq<Product>, t: seq<Product>, code: string)
    ensures FindByCode(s + t, code) == if FindByCode(s, code).Some? then FindByCode(s, code) else FindByCode(t, code)
  {
    if s == [] {
      assert s + t == t;
    } else if s[0].productCode != Some(code) {
      FindByCodeAppend(s[1..], t, code);
      assert (s + t)[1..] == s[1..] + t;
    }
  }

  /** Among records loaded from several files under one code, a record from an earlier file wins. */
  lemma EarlierFileWins(a: seq<Loader.FileOutcome>, b: seq<Loader.FileOutcome>, code: string)
    requires FindByCode(Loader.Concat(a), code).Some?
    ensures FindByCode(Loader.Concat(a + b), code) == FindByCode(Loader.Concat(a), code)
  {
    Loader.ConcatAppend(a, b);
    FindByCodeAppend(Loader.Concat(a), Loader.Concat(b), code);
  }
}
