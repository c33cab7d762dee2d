/**
 * The catalog loader: every JSON file of the product directory contributes the list at
 * `products.Items`, and the lists are concatenated in file order. Opening, globbing and
 * `json.load` are outside the model: each file arrives as the outcome of reading it.
 */
module Loader {
  import opened Wrappers
  import opened Catalog

  /** The `products` object of a document, with its `Items` list when it has one. */
  datatype ProductsSection = ProductsSection(items: Option<seq<Product>>)

  /** A parsed document, with its top-level `products` key when it has one. */
  datatype Document = Document(products: Option<ProductsSection>)

  /** What reading one `*.json` file gave: `Failed` when it was not found or its JSON did not decode, otherwise the document. */
  datatype FileOutcome = Failed | Parsed(doc: Document)

  /** The product directory: missing, or present with its files in enumeration order. */
  datatype Directory = Missing | Present(files: seq<FileOutcome>)

  /** A file that parsed and has `products.Items`. */
  predicate Usable(f: FileOutcome) {
    f.Parsed? && f.doc.products.Some? && f.doc.products.value.items.Some?
  }

  /** The records one file contributes: its `Items` when it is usable, nothing otherwise. */
  function ItemsOf(f: FileOutcome): seq<Product> {
    if Usable(f) then f.doc.products.value.items.value else []
  }

  /** The records of `files`, file by file and in each file in its own order. */
  function Concat(files: seq<FileOutcome>): seq<Product> {
    if files == [] then [] else Concat(files[..|files| - 1]) + ItemsOf(files[|files| - 1])
  }

  /** The catalog a directory yields. */
  function Loaded(dir: Directory): seq<Product> {
    match dir
    case Missing => []
    case Present(files) => Concat(files)
  }

  /** The number of records the usable files hold together. */
  function ItemCount(files: seq<FileOutcome>): nat {
    if files == [] then 0 else ItemCount(files[..|files| - 1]) + |ItemsOf(files[|files| - 1])|
  }

  /** `load_products`: walk the files, skip the failed and ill-shaped ones, extend with the rest. */
  method LoadProducts(dir: Directory) returns (allProducts: seq<Product>)
    ensures allProducts == Loaded(dir)
    ensures dir.Missing? ==> allProducts == []
  {
    allProducts := [];
    if dir.Present? {
      var files := dir.files;
      var i := 0;
      while i < |files|
        invariant 0 <= i <= |files|
        invariant allProducts == Concat(files[..i])
      {
        assert files[..i + 1][..i] == files[..i];
        match files[i] {
          case Failed =>
            // an unreadable or unparsable file is reported and skipped
          case Parsed(data) =>
            if data.products.Some? && data.products.value.items.Some? {
              allProducts := allProducts + data.products.value.items.value;
            }
        }
        i := i + 1;
      }
      assert files[..i] == files;
    }
  }

  /** Loading two groups of files one after the other concatenates their catalogs. */
  lemma {:induction false} ConcatAppend(a: seq<FileOutcome>, b: seq<FileOutcome>)
    ensures Concat(a + b) == Concat(a) + Concat(b)
  {
    if b == [] {
      assert a + b == a;
    } else {
      var init := b[..|b| - 1];
      ConcatAppend(a, init);
      assert (a + b)[..|a + b| - 1] == a + init;
    }
  }

  /** A failed or ill-shaped file contributes nothing, wherever it stands. */
  lemma SkippedFileContributesNothing(a: seq<FileOutcome>, f: FileOutcome, b: seq<FileOutcome>)
    requires !Usable(f)
    ensures Concat(a + [f] + b) == Concat(a + b)
  {
    ConcatAppend(a + [f], b);
    ConcatAppend(a, b);
    assert (a + [f])[..|a + [f]| - 1] == a;
  }

  /** Merge completeness: the catalog holds exactly as many records as the usable files do. */
  lemma {:induction false} ConcatLength(files: seq<FileOutcome>)
    ensures |Concat(files)| == ItemCount(files)
  {
    if files != [] {
      ConcatLength(files[..|files| - 1]);
    }
  }

  /** File-then-item order: item `k` of file `j` is at the position after all records of the earlier files. */
  lemma ConcatPosition(files: seq<FileOutcome>, j: nat, k: nat)
    requires j < |files| && k < |ItemsOf(files[j])|
    ensures ItemCount(files[..j]) + k < |Concat(files)|
    ensures Concat(files)[ItemCount(files[..j]) + k] == ItemsOf(files[j])[k]
  {
    var before, after := files[..j], files[j + 1..];
    assert files == before + [files[j]] + after;
    ConcatAppend(before + [files[j]], after);
    assert (before + [files[j]])[..j] == before;
    ConcatLength(before);
  }

  /** A record is loaded exactly when some usable file lists it. */
  lemma {:induction false} ConcatMembership(files: seq<FileOutcome>, p: Product)
    ensures p in Concat(files) <==> exists j :: 0 <= j < |files| && p in ItemsOf(files[j])
  {
    if files != [] {
      var init := files[..|files| - 1];
      ConcatMembership(init, p);
      assert forall j :: 0 <= j < |init| ==> init[j] == files[j];
    }
  }
}
