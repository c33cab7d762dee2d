/**
 * The query engine of the reduced catalog app: the category facet and a filter on the
 * search term and the category only. Its loader is the same as the full app's.
 */
module App01 {
  import opened Wrappers
  import opened Text
  import opened Seqs
  import opened Catalog
  import Loader
  import Facets
  import App

  /** The search: the term, case-folded, in the description or in the `Brand` key (absent reads as ""). */
  predicate SearchMatches(term: string, p: Product) {
    CaseInsensitiveIn(term, p.description) || CaseInsensitiveIn(term, p.brand.GetOr(""))
  }

  /** The condition of the list comprehension. */
  predicate Matches(p: Product, term: string, category: string) {
    SearchMatches(term, p) && CategoryMatches(category, p)
  }

  function Keep(term: string, category: string): Product -> bool {
    p => Matches(p, term, category)
  }

  /** The filter's result: the records passing the search and the category, in catalog order. */
  function Filtered(ps: seq<Product>, term: string, category: string): (r: seq<Product>)
    ensures forall p :: p in r <==> p in ps && Matches(p, term, category)
  {
    forall p ensures p in Select(ps, Keep(term, category)) <==> p in ps && Matches(p, term, category) {
      SelectMembership(ps, Keep(term, category), p);
    }
    Select(ps, Keep(term, category))
  }

  /** `filter_products`: load the catalog and apply the comprehension. */
  method FilterProducts(dir: Loader.Directory, term: string, category: string) returns (filtered: seq<Product>)
    ensures filtered == Filtered(Loader.Loaded(dir), term, category)
  {
    var products := Loader.LoadProducts(dir);
    filtered := Filtered(products, term, category);
  }

  /** `home`: load the catalog and list the category choices. */
  method Home(dir: Loader.Directory) returns (categories: seq<string>)
    ensures categories == Facets.Categories(Loader.Loaded(dir))
  {
    var products := Loader.LoadProducts(dir);
    categories := Facets.Categories(products);
  }

  /** The result is the subsequence of the catalog at the positions of exactly the matching records. */
  lemma FilteredIsOrderedSelection(ps: seq<Product>, term: string, category: string)
    ensures SubsequenceAt(Filtered(ps, term, category), ps, Positions(ps, Keep(term, category)))
    ensures forall i :: 0 <= i < |ps| ==> (i in Positions(ps, Keep(term, category)) <==> Matches(ps[i], term, category))
  {
    SelectIsSubsequence(ps, Keep(term, category));
  }

  /** The three searched fields agree. */
  predicate SameSearchedFields(p: Product, p': Product) {
    p.description == p'.description && p.brand == p'.brand && p.productLineDesc == p'.productLineDesc
  }

  /**
   * Only `Description`, `Brand` and `ProductLineDesc` decide: two catalogs whose records agree
   * on those, position by position, keep the same positions whatever their prices, stock or codes.
   */
  lemma {:induction false} OnlySearchedFieldsMatter(ps: seq<Product>, ps': seq<Product>, term: string, category: string)
    requires |ps| == |ps'|
    requires forall i :: 0 <= i < |ps| ==> SameSearchedFields(ps[i], ps'[i])
    ensures Positions(ps, Keep(term, category)) == Positions(ps', Keep(term, category))
  {
    PositionsAgree(ps, ps', Keep(term, category), Keep(term, category));
  }

  /** A record without price entries or stock is still found by the search and the category. */
  lemma PricelessRecordIsKept(ps: seq<Product>, p: Product, term: string, category: string)
    requires p in ps && p.uomPrices == [] && Matches(p, term, category)
    ensures p in Filtered(ps, term, category)
  {
  }

  /** The search term's case does not change the result. */
  lemma SearchIgnoresCase(ps: seq<Product>, term: string, category: string)
    ensures Filtered(ps, Upper(term), category) == Filtered(ps, term, category)
  {
    forall p | p in ps ensures Keep(Upper(term), category)(p) == Keep(term, category)(p) {
      CaseInsensitiveInIgnoresCase(term, p.description);
      CaseInsensitiveInIgnoresCase(term, p.brand.GetOr(""));
    }
    SelectAgree(ps, Keep(Upper(term), category), Keep(term, category));
  }

  /** With the empty term and `'all'` every loaded record is listed. */
  lemma NoCriteriaListsEverything(ps: seq<Product>)
    ensures Filtered(ps, "", "all") == ps
  {
    forall p | p in ps ensures Keep("", "all")(p) {
      EmptyIsContained(Lower(p.description));
    }
    SelectAll(ps, Keep("", "all"));
  }

  /** Each category value the browse form offers besides `'all'` selects at least one record. */
  lemma OfferedCategoryIsNonEmpty(ps: seq<Product>, category: string)
    requires category in Facets.Categories(ps)[1..]
    ensures Filtered(ps, "", category) != []
  {
    var i :| 0 <= i < |ps| && ps[i].productLineDesc == Some(category) && category != "";
    EmptyIsContained(Lower(ps[i].description));
    assert Matches(ps[i], "", category);
  }

  /**
   * On a record with price entries and the same `Brand` as `BrandCode`, this search-and-category
   * filter agrees with the full app's filter when that one is given no other criterion.
   */
  lemma AgreesWithFullFilter(p: Product, term: string, category: string)
    requires p.uomPrices != [] && p.brand == p.brandCode
    ensures Matches(p, term, category) == App.Matches(p, App.Query(term, category, None, None, None, None, None))
  {
    App.UnboundedPriceNeedsAnEntry(p);
  }
}
