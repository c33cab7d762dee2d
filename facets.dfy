/**
 * Facet extraction for the browse form: the distinct non-empty values of one optional
 * field across the catalog. Python builds these from a set, whose iteration order is
 * arbitrary; this model fixes it to first-occurrence order, and no contract depends on it.
 */
module Facets {
  import opened Wrappers
  import opened Catalog

  /** The fields a facet list is drawn from. */
  datatype Field = ProductLineDesc | InvGroup | BrandCode

  function FieldValue(p: Product, field: Field): Option<string> {
    match field
    case ProductLineDesc => p.productLineDesc
    case InvGroup => p.invGroup
    case BrandCode => p.brandCode
  }

  /** Some record of `ps` has the truthy value `v` in `field`. */
  ghost predicate Occurs(ps: seq<Product>, field: Field, v: string) {
    exists i :: 0 <= i < |ps| && FieldValue(ps[i], field) == Some(v) && v != ""
  }

  predicate NoDuplicates(s: seq<string>) {
    forall i, j :: 0 <= i < j < |s| ==> s[i] != s[j]
  }

  /** The distinct present, non-empty values of `field` across the catalog, each listed once. */
  function Facet(ps: seq<Product>, field: Field): (r: seq<string>)
    ensures NoDuplicates(r)
    ensures forall v :: v in r <==> Occurs(ps, field, v)
  {
    if ps == [] then []
    else
      var init := ps[..|ps| - 1];
      var rest := Facet(init, field);
      var o := FieldValue(ps[|ps| - 1], field);
      assert forall v :: Occurs(init, field, v) ==> Occurs(ps, field, v) by {
        forall v | Occurs(init, field, v) ensures Occurs(ps, field, v) {
          var i :| 0 <= i < |init| && FieldValue(init[i], field) == Some(v) && v != "";
          assert ps[i] == init[i];
        }
      }
      assert forall v :: Occurs(ps, field, v) ==> Occurs(init, field, v) || o == Some(v) by {
        forall v | Occurs(ps, field, v) ensures Occurs(init, field, v) || o == Some(v) {
          var i :| 0 <= i < |ps| && FieldValue(ps[i], field) == Some(v) && v != "";
          if i < |init| {
            assert init[i] == ps[i];
          }
        }
      }
      if Truthy(o) && o.value !in rest then rest + [o.value] else rest
  }

  /** The category choices of the browse form: the no-filter choice `"all"`, then the catalog's product lines. */
  function Categories(ps: seq<Product>): (r: seq<string>)
    ensures |r| >= 1 && r[0] == "all"
    ensures NoDuplicates(r[1..])
    ensures forall v :: v in r[1..] <==> Occurs(ps, ProductLineDesc, v)
  {
    var r := ["all"] + Facet(ps, ProductLineDesc);
    assert r[1..] == Facet(ps, ProductLineDesc);
    r
  }

  /** A record whose field is absent or empty adds nothing to that field's facet. */
  lemma UntruthyAddsNothing(ps: seq<Product>, p: Product, field: Field)
    requires !Truthy(FieldValue(p, field))
    ensures Facet(ps + [p], field) == Facet(ps, field)
  {
    assert (ps + [p])[..|ps + [p]| - 1] == ps;
  }

  /** The facet depends only on the set of values present, not on how often or where they occur. */
  lemma FacetOfDuplicate(ps: seq<Product>, i: nat, field: Field)
    requires i < |ps|
    ensures forall v :: v in Facet(ps + [ps[i]], field) <==> v in Facet(ps, field)
  {
    var ps' := ps + [ps[i]];
    forall v | Occurs(ps', field, v) ensures Occurs(ps, field, v) {
      var j :| 0 <= j < |ps'| && FieldValue(ps'[j], field) == Some(v) && v != "";
      if j == |ps| {
        assert ps[i] == ps'[j];
      } else {
        assert ps[j] == ps'[j];
      }
    }
    forall v | Occurs(ps, field, v) ensures Occurs(ps', field, v) {
      var j :| 0 <= j < |ps| && FieldValue(ps[j], field) == Some(v) && v != "";
      assert ps'[j] == ps[j];
    }
  }
}
