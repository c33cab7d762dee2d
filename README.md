# Catalog query engine of euskofrizapp, in Dafny

This project models the query engine of two FastAPI catalog apps: `euskofrizapp/app/app.py`, the full app, and `euskofrizapp/app/app01.py`, a reduced one. The engine has four parts:

- **Loader** (`load_products`). Each `*.json` file of the product directory contributes its `products.Items` list. The lists are concatenated in file order. A file that is not found, or whose JSON does not decode, is skipped. Other errors while opening or decoding a file are not caught. A file without the `products`/`Items` shape adds nothing. A missing directory gives an empty catalog.
- **Facets** (`home`). The browse form lists the distinct non-empty values of `ProductLineDesc`, `InvGroup` and `BrandCode`. The category list starts with `'all'`.
- **Filter** (`filter_products`). The full app keeps a record when it passes every criterion:
  - a case-insensitive search in `Description` or `BrandCode`;
  - an exact category match;
  - an exact inventory-group match;
  - an exact brand-code match;
  - a price range that one `UOMPrices` entry must satisfy;
  - when asked for, stock on some entry.
  The reduced app searches `Description` or `Brand` and checks the category only. Both keep catalog order.
- **Lookup** (`product_detail`). It returns the first record whose `ProductCode` equals the key, or nothing.

Files and modules:

| file | module | what it holds |
|---|---|---|
| `wrappers.dfy` | `Wrappers` | `Option`, which stands for a JSON key that may be absent |
| `text.dfy` | `Text` | ASCII `Lower`/`Upper`, and `Contains` (Python's `needle in hay`) |
| `seqs.dfy` | `Seqs` | `Select`, a list comprehension with a condition, and its order and membership lemmas |
| `catalog.dfy` | `Catalog` | the `Product` and `PriceEntry` records, Python truthiness, the shared category test |
| `loader.dfy` | `Loader` | the per-file outcomes, the `Concat` specification and the imperative `LoadProducts` |
| `facets.dfy` | `Facets` | `Facet` and `Categories` |
| `app.dfy` | `App` | the full app: criteria, the filter loop proved against `Filtered`, the lookup, the three routes' data paths |
| `app01.dfy` | `App01` | the reduced app: its comprehension filter and category facet |

Modelling choices:

- A record is a typed `Product`. `Description` and `UOMPrices` are read by direct indexing in the source, so the model requires them. Every other key is read with `get`, so it is an `Option`.
- Prices and stock are `real`. A missing `Price` or `ActualStock` reads as `0.0`.
- Python truthiness of a string (`if inv_group`, `if p.get('InvGroup')`) is `Truthy`: present and not empty. `if in_stock` holds only for `Some(true)`.
- Reading the directory is abstracted. The loader receives a `Directory`, which is `Missing` or `Present(files)`. Each file is a `FileOutcome`: `Failed` or `Parsed(doc)`. `Failed` stands only for the two caught exceptions, `FileNotFoundError` and `json.JSONDecodeError`. A parsed document has an optional `products` section with an optional `Items` list.
- `float(...)` is the parameter `parseFloat: string -> Option<real>`. It returns `None` where Python raises `ValueError`.
- Python's `str.lower()` is modelled on ASCII letters only.
- Python builds the facet lists from a `set`, whose iteration order is arbitrary. The model lists the values in first-occurrence order. The contracts of `Facet` and `Categories` state only the set of values and the absence of duplicates. `App.Home`, `App01.Home` and `Facets.UntruthyAddsNothing` state sequence equalities, so they inherit the fixed order.
- `app01.py:13-28` is the same code as `app.py:13-28`. Both apps use the one `Loader` module.
- The full app's price loop needs at least one `UOMPrices` entry, even when no bound is set. So a record without price entries never passes its filter (`App.NoPriceEntriesNeverPass`).
- The lookup returns the first record with the code, so among duplicates the earliest-loaded one wins.
- `SelectedUOMPrice` is only read for display and is never computed.
- `product_detail` answers "not found" when `not product`. An empty mapping would also be falsy. The model's records always carry a `Description`, so that case cannot arise, and `None` is the only not-found answer.

## Model

| member | source | states |
|---|---|---|
| `Loader.Concat` | euskofrizapp/app/app.py:19-24 | the records of the files in order: each usable file's `Items`, in file order; a failed or ill-shaped file adds nothing |
| `Loader.Loaded` | euskofrizapp/app/app.py:15-28 | the whole catalog: empty when the directory is missing, otherwise `Concat` of its files |
| `Catalog.PriceOf` | euskofrizapp/app/app.py:163 | an entry's price, with a missing `Price` read as 0 |
| `Catalog.StockOf` | euskofrizapp/app/app.py:171 | an entry's stock, with a missing `ActualStock` read as 0 |
| `Catalog.CategoryMatches` | euskofrizapp/app/app.py:153-154 | `'all'` passes every record; otherwise `ProductLineDesc` must be present and equal the category (also app01.py:114) |
| `App.SearchMatches` | euskofrizapp/app/app.py:151-152 | the lower-cased term occurs in the lower-cased `Description` or in the lower-cased `BrandCode`, a missing `BrandCode` read as `""` |
| `App.ExactMatches` | euskofrizapp/app/app.py:155-158 | an absent or empty request passes every record; otherwise the field must be present and equal it (inventory group and brand code) |
| `App.InPriceRange` | euskofrizapp/app/app.py:163-164 | one entry's price is at least the minimum when it is set and at most the maximum when it is set |
| `App.PriceMatches` | euskofrizapp/app/app.py:161-168 | some entry of `UOMPrices` is in range; this is what the `match_price` loop decides |
| `App.AnyInStock` | euskofrizapp/app/app.py:171 | some entry has stock above 0 |
| `App.StockMatches` | euskofrizapp/app/app.py:171-172 | only `in_stock` set to true constrains, and then some entry must have stock |
| `App.Matches` | euskofrizapp/app/app.py:151-172 | the conjunction of search, category, inventory group, brand code, price and stock: the record reaches the `append` |
| `App.Filtered` | euskofrizapp/app/app.py:147-174 | the records meeting `Matches`, in catalog order: the specification the loop is proved against |
| `App01.SearchMatches` | euskofrizapp/app/app01.py:112-113 | the lower-cased term occurs in the lower-cased `Description` or in the lower-cased `Brand`, a missing `Brand` read as `""` |
| `App01.Matches` | euskofrizapp/app/app01.py:112-114 | the search and the category test together: the comprehension's condition |
| `Loader.LoadProducts` | euskofrizapp/app/app.py:13-28 | the loop yields exactly `Loaded(dir)`: the concatenation of the `Items` lists of the usable files, in file order; a missing directory yields `[]` |
| `Loader.ConcatAppend` | euskofrizapp/app/app.py:19-24 | loading two groups of files in sequence concatenates their catalogs |
| `Loader.SkippedFileContributesNothing` | euskofrizapp/app/app01.py:20-27 | a failed or ill-shaped file anywhere in the directory leaves the catalog as if it were absent |
| `Loader.ConcatLength` | euskofrizapp/app/app01.py:19-24 | the catalog holds exactly as many records as the usable files' `Items` lists together |
| `Loader.ConcatPosition` | euskofrizapp/app/app.py:19-24 | item `k` of file `j` is at position (items of files before `j`) + `k`: file-then-item order |
| `Loader.ConcatMembership` | euskofrizapp/app/app.py:23-24 | a record is loaded exactly when some usable file lists it |
| `Facets.Facet` | euskofrizapp/app/app.py:34-35 | the facet list has no duplicates, and a value is in it exactly when some record has that non-empty value in the field |
| `Facets.Categories` | euskofrizapp/app/app.py:33 | the category list is `'all'` followed by the distinct non-empty `ProductLineDesc` values, each once and no other |
| `Facets.UntruthyAddsNothing` | euskofrizapp/app/app.py:33-35 | a record whose field is absent or empty leaves the facet list unchanged |
| `Facets.FacetOfDuplicate` | euskofrizapp/app/app.py:33-35 | repeating a record does not change which values the facet offers |
| `App.Home` | euskofrizapp/app/app.py:31-35 | the browse route lists the categories, inventory groups and brand codes of the freshly loaded catalog |
| `App.ParseBound` | euskofrizapp/app/app.py:137-145 | an absent or empty bound is `None`; a present bound is the parser's answer, `None` when it fails |
| `App.UnparsableBoundIsUnset` | euskofrizapp/app/app.py:137-140 | a minimum the parser rejects gives the same result as no minimum |
| `App.FilterProducts` | euskofrizapp/app/app.py:134-174 | the loop, with its `continue`s and the price loop's `break`, returns exactly `Filtered(Loaded(dir), ParseQuery(c))` |
| `App.FilteredIsOrderedSelection` | euskofrizapp/app/app.py:147-174 | the result is the subsequence of the catalog at increasing positions, and a position is chosen exactly when its record meets every criterion |
| `App.FilteredMembership` | euskofrizapp/app/app.py:149-174 | a record is in the result exactly when it is in the catalog and meets every criterion |
| `App.EmptyCatalog` | euskofrizapp/app/app.py:147-149 | an empty catalog yields an empty result |
| `App.SearchIgnoresCase` | euskofrizapp/app/app.py:151 | upper- or lower-casing the search term does not change the result |
| `App.EmptyTermMatchesEverything` | euskofrizapp/app/app.py:151 | the empty search term passes every record |
| `App.NoPriceEntriesNeverPass` | euskofrizapp/app/app.py:161-168 | a record without `UOMPrices` entries is never in the result, whatever the criteria |
| `App.UnboundedPriceNeedsAnEntry` | euskofrizapp/app/app.py:161-168 | with no bound set, the price test passes exactly when the record has a price entry |
| `App.AnyEntryInRangeSuffices` | euskofrizapp/app/app.py:162-166 | prices 5 and 50 against the range 40 to 60: the record passes through its second entry although the first is out of range |
| `App.StockOnAnyEntry` | euskofrizapp/app/app.py:171 | stock `[0, 3]` passes `in_stock`; stock `[0, missing]` does not; `False` or `None` imposes nothing |
| `App.FilterOfMergedCatalog` | euskofrizapp/app/app.py:134-174 | filtering the merged catalog gives the per-file results, concatenated in file order |
| `App.FindByCode` | euskofrizapp/app/app.py:277 | `None` exactly when no record has the code; otherwise a record with the code sitting before every other record with it |
| `App.FirstMatchWins` | euskofrizapp/app/app.py:277 | the earliest record carrying the code is the one returned |
| `App.FindByCodeAppend` | euskofrizapp/app/app.py:277 | a lookup in a concatenation answers from the first part when that part has a match |
| `App.EarlierFileWins` | euskofrizapp/app/app.py:276-277 | a code found in earlier files is answered from them, whatever later files hold |
| `App.ProductDetail` | euskofrizapp/app/app.py:276-280 | the detail route's lookup on the freshly loaded catalog, `None` being the not-found answer |
| `App01.Filtered` | euskofrizapp/app/app01.py:110-115 | a record is in the result exactly when it is in the catalog and passes both the search and the category test |
| `App01.FilterProducts` | euskofrizapp/app/app01.py:107-115 | the route filters the freshly loaded catalog with the comprehension |
| `App01.Home` | euskofrizapp/app/app01.py:32-33 | the browse route lists `'all'` and the distinct categories of the freshly loaded catalog |
| `App01.FilteredIsOrderedSelection` | euskofrizapp/app/app01.py:110-115 | the result is the subsequence of the catalog at increasing positions of exactly the matching records |
| `App01.OnlySearchedFieldsMatter` | euskofrizapp/app/app01.py:110-115 | catalogs whose records agree on `Description`, `Brand` and `ProductLineDesc` keep the same positions |
| `App01.PricelessRecordIsKept` | euskofrizapp/app/app01.py:110-115 | a record with no price entries is still found by the search and the category |
| `App01.SearchIgnoresCase` | euskofrizapp/app/app01.py:112-113 | upper-casing the search term does not change the result |
| `App01.NoCriteriaListsEverything` | euskofrizapp/app/app01.py:112-114 | the empty term together with `'all'` lists the whole catalog, in order |
| `App01.OfferedCategoryIsNonEmpty` | euskofrizapp/app/app01.py:33 | every category value the browse form offers besides `'all'` selects at least one record |
| `App01.AgreesWithFullFilter` | euskofrizapp/app/app01.py:112-114 | given a record with price entries and `Brand` equal to `BrandCode`, this filter decides as the full app's filter does with no other criterion set |
| `Text.CaseInsensitiveInIgnoresCase` | euskofrizapp/app/app.py:151 | the case of the term or of the field does not change case-insensitive containment |
| `Text.EmptyIsContained` | euskofrizapp/app/app01.py:112-113 | every string contains the empty string |
| `Text.PrefixOfContained` | euskofrizapp/app/app.py:151 | a prefix of a contained term is contained, so a shorter term matches at least as much |
| `Text.LowerOfUpper` | euskofrizapp/app/app.py:151 | lower-casing undoes upper-casing |
| `Seqs.Select` | euskofrizapp/app/app01.py:110-115 | the selection is no longer than its input, and each selected element is in the input and satisfies the condition |
| `Seqs.SelectIsSubsequence` | euskofrizapp/app/app01.py:110-115 | the selection is the subsequence at the increasing positions of exactly the elements that satisfy the condition |
| `Seqs.SelectAppend` | euskofrizapp/app/app.py:149-174 | selecting from a concatenation concatenates the selections |

## Left out

- HTML generation, CSS, the `<option>` and table markup, and the `:.2f` price formatting. These are presentation only.
- FastAPI routing, query-parameter binding, the 404 `HTMLResponse` and `uvicorn.run`. The route methods return the data the pages are built from.
- Filesystem enumeration (`exists`, `glob`, `open`), `json.load` and the `print` warning. The loader takes their outcomes as a `Directory` of `FileOutcome`s. The order of `glob` is the order of that sequence.
- `float(...)` and floating-point semantics. The parser is a parameter, and prices are exact reals.
- Unicode case mapping. `Lower` and `Upper` change ASCII letters only.
- File errors other than `FileNotFoundError` and `json.JSONDecodeError` are not modelled. Examples are a `PermissionError`, an `IsADirectoryError` for a directory whose name matches `*.json`, and a `UnicodeDecodeError` for a file that is not valid text. The source does not catch these, so the whole request fails. The model has no outcome for them.
- `SelectedUOMPrice`. It is only read for display, and the code never computes it.
- Python crash paths are not modelled. These include a document that is not a mapping, a `products` or `Items` of the wrong type, an item without `Description` or `UOMPrices`, and a `null` where a string or a number is expected. The typed records rule out these record-level crashes.
- `Facets.Facet`: does not model Python's arbitrary set iteration order. It fixes first-occurrence order, and its contract states the value set and the absence of duplicates only.
