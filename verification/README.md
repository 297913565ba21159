# Steam games dashboard: data preparation, modelled in Dafny

The dashboard shows statistics about a catalog of Steam game products. It
loads a product table (one row per product) and a line-per-record metadata
file, merges and cleans them, and then derives the views the charts need.
This project models that data-preparation core, `utils.py`, as pure
functions over sequences of rows, and proves what each step promises.

- **Loading** (`Loader`): the metadata loses its `description` column
  (`DropDescription`). Then the product table is inner-joined with it on the
  shared key `app_id` (`Merge`, `Load`).
- **Cleaning** (`Cleaner`): rows with a missing cell are dropped
  (`DropIncomplete`). Then rows for products that run on none of
  Windows/macOS/Linux are dropped (`KeepGames`). `Clean` does both steps and
  `CleanCatalog` is the whole of `get_data` after the file reads.
- **Tag index** (`TagIndex`): the distinct tags of a catalog, in order of
  first occurrence. `GetTags` is the computation as written; `DistinctTags`
  is the intended list (see Findings).
- **Tag filter** (`TagFilter`): `FilterByTags` keeps the rows whose tag list
  contains every selected tag. An empty selection returns the catalog
  unchanged.
- **Binner** (`Binner`): `Cut` gives each numeric value the label of the
  right-closed bucket `(e[i], e[i+1]]` that contains it, or no label. Bad
  edges or labels are an error. `BinColumn` computes the same thing by
  binary search over the edges, which is how the table library's `cut`
  locates values (with `right=True`, `include_lowest=False`). The last edge
  may be `PosInf`, for the unbounded top price bucket.
- `Seqs` holds the shared sequence vocabulary: order-preserving
  subsequences, a generic `Filter`, and first-occurrence de-duplication.
  `Scenarios` works the dashboard's own bucket arguments and a small
  end-to-end catalog.

Rows are immutable datatypes. Nullable columns are `Option`s, where `None`
is a missing (NaN) cell. Platform flags are `bool`s and tags are a
`seq<string>`. Ratios and review counts are `int`s and prices are `real`s.

Behaviour of the code worth knowing:

- The join key is `app_id`. `pd.merge` is called without `on`, so
  it joins on every column the two tables share. Once `description` is
  dropped, the only shared column is `app_id`.
- A value equal to the first edge gets no label, and so does a value below
  the first edge or above the last one. This follows from `include_lowest`
  being off. One consequence is that a free product (price 0) falls in no
  price bucket (`Scenarios.PriceBuckets`).
- The tag list comes back in first-occurrence order. It also contains a NaN entry when some row has an empty tag list.
- Cleaning drops rows; it never de-duplicates them.

## Model

| member | source | states |
|---|---|---|
| `Loader.DropDescription` | utils.py:20 | the metadata table keeps one record per line, in order, with the same key and tags; the description column is gone |
| `Loader.JoinOne` | utils.py:32 | one product's merged rows are exactly the pairings with the metadata records that share its key, each carrying that record's tags |
| `Loader.Merge` | utils.py:32 | inner join: a merged row exists for a product and a metadata record exactly when their keys agree, and it carries the product's columns plus the record's tags |
| `Loader.MergeKeys` | utils.py:32 | a key occurs in the merged table exactly when it occurs in both the product table and the metadata table |
| `Loader.JoinOneUnique` | utils.py:32 | with unique metadata keys, a product joins to a single row when its key has a record, and to nothing otherwise |
| `Loader.JoinOneMatch` | utils.py:32 | with unique metadata keys, a product with a record becomes exactly one row, carrying that record's tags |
| `Loader.ProductsOfJoinOne` | utils.py:32 | with unique metadata keys, a product contributes itself once when it has metadata and nothing otherwise |
| `Loader.MergeKeepsMatchedProducts` | utils.py:32 | with unique metadata keys, the merge keeps every product that has metadata exactly once, in product-table order, and drops the rest |
| `Loader.Load` | utils.py:17-32 | the loaded catalog pairs each product with each metadata line of the same key, taking that line's tags; nothing else is in it |
| `Cleaner.DropIncomplete` | utils.py:12 | keeps exactly the rows with no missing cell, as an order-preserving subsequence |
| `Cleaner.KeepGames` | utils.py:13 | keeps exactly the rows with `win or mac or linux`, as an order-preserving subsequence |
| `Cleaner.Clean` | utils.py:5-15 | the output is an order-preserving subsequence of the input; each of its rows is complete and runs on some platform; every input row that is both is kept |
| `Cleaner.CleanIsOneFilter` | utils.py:12-13 | cleaning is one filter by both conditions, so the two steps can run in either order |
| `Cleaner.CleanIdempotent` | utils.py:12-15 | cleaning a cleaned catalog returns it unchanged |
| `Cleaner.CleanIsLargest` | utils.py:12-15 | every order-preserving selection of clean rows is a subsequence of the cleaned catalog, so cleaning removes only the rows it must |
| `Cleaner.CleanCatalog` | utils.py:25-35 | the dashboard's catalog: every row is complete and runs somewhere, joins a product with a metadata line of the same key, and every such clean pairing is present |
| `TagIndex.ExplodeRow` | utils.py:64 | one row's tags become one cell each, in order; an empty tag list becomes a single NaN cell |
| `TagIndex.Explode` | utils.py:64 | a tag is among the flattened cells exactly when some row carries it, and a NaN cell appears exactly when some row has no tags |
| `TagIndex.GetTags` | utils.py:60-65 | as written: duplicate-free, in first-occurrence order of the flattened column; holds each tag some row carries and nothing else, plus a NaN entry exactly when some row has an empty tag list |
| `TagIndex.Flatten` | utils.py:64 | a tag is in the flattened tag lists exactly when some row carries it |
| `TagIndex.DistinctTags` | utils.py:60-65 | intended: duplicate-free, in first-occurrence order, holding exactly the tags some row carries |
| `TagIndex.GetTagsWithoutNaN` | utils.py:64 | the intended tag list is the computed one with its NaN entry removed and the tag order unchanged |
| `TagIndex.GetTagsOfUntaggedRow` | utils.py:64 | a catalog of one untagged product yields a single NaN entry as written, and an empty list as intended |
| `TagFilter.FilterByTags` | utils.py:38-48 | an empty selection returns the catalog unchanged; otherwise the result is an order-preserving subsequence holding exactly the rows whose tag list contains every selected tag |
| `TagFilter.FilterByTagsIsOneFilter` | utils.py:43-46 | the empty-selection shortcut agrees with the general test: every selection keeps exactly the carrying rows, in order |
| `TagFilter.FilterByTagsIsLargest` | utils.py:46 | every order-preserving selection of rows carrying the tags is a subsequence of the result, so no matching row is lost |
| `TagFilter.FilterByUnknownTag` | utils.py:46 | selecting a tag that no row carries yields no rows |
| `TagFilter.FilterByTagsCompose` | utils.py:46 | filtering by one selection and then another equals filtering by both at once |
| `TagFilter.FilterByTagsIdempotent` | utils.py:46 | applying the same selection twice equals applying it once |
| `Binner.CountBelow` | utils.py:56 | for increasing edges, the count splits the edges into a prefix strictly below the value and a suffix at or above it |
| `Binner.CountBelowIsInsertionPoint` | utils.py:56 | that split point is unique |
| `Binner.LabelFor` | utils.py:56 | a value gets label i exactly when e[i] < v <= e[i+1]; it gets no label exactly when v <= e[0] or v > the last edge |
| `Binner.Cut` | utils.py:51-57 | succeeds exactly for strictly increasing edges (two equal edges: see Left out), distinct labels and one label per bucket (errors in that order of precedence); on success the output has the input's length and each value's label is its right-closed bucket |
| `Binner.SearchSorted` | utils.py:56 | binary search returns the insertion point of the value among the increasing edges |
| `Binner.BinColumn` | utils.py:56 | binning by binary search gives the same result, error or labels, as `Cut` |
| `Scenarios.RatioBuckets` | app.py:61-63 | with edges 0,20,...,100: 20 maps to '0-20', 45 to '40-60', 100 to '80-100', and 0 to no label |
| `Scenarios.PriceBuckets` | app.py:68-70 | with edges 0,15,30,45,60,+inf: 15 maps to 'Below $15', 1000 to 'Above $60', and a price of 0 to no label |
| `Scenarios.MismatchedLabelCount` | utils.py:56 | five increasing edges with three distinct labels are refused with a label-count error |
| `Scenarios.IndieScenario` | utils.py:32-46 | products 1-3 with product 2 missing its price and tags indie/indie/action: loading, cleaning and selecting "indie" leaves exactly product 1 |

## Findings

| source | as written | input that shows it | evidently intended | confidence | as-written member | corrected member |
|---|---|---|---|---|---|---|
| utils.py:64 | `df['tags'].explode().unique()`: `explode` turns an empty tag list into a NaN cell, and `unique` keeps it | a catalog in which some product has an empty tag list, such as a single untagged product: the list is `[NaN]` | only real tags, which populate the tag selector; a NaN choice there selects no rows | medium; not executed | `TagIndex.GetTags` (with `TagIndex.GetTagsOfUntaggedRow`) | `TagIndex.DistinctTags` (with `TagIndex.GetTagsWithoutNaN`) |

The rest of the model uses `DistinctTags`. For example,
`TagFilter.FilterByUnknownTag` is stated against it.

## Left out

- Reading the files (`pd.read_csv`, `pd.read_json`, `os.path.join` in `get_metadata` and `get_data`) is I/O. The model starts from the two tables already in memory.
- `@st.cache_data` memoization has no effect on results, so it is not modelled.
- `app.py` is left out: it is Streamlit layout and Plotly chart configuration. Its price and review-count threshold slices are one-line UI predicates, and counting rows per label is done by the bar chart. Its bucket arguments appear only as worked cases in `Scenarios`.
- Columns beyond key, title, platform flags, rating, positive ratio, final price, review count and tags are not modelled. Dropping rows with missing cells applies to every column in the source, but only to these columns in the model.
- A metadata line with no tags field at all (a NaN tag cell) is not modelled: tags are always a list. An empty list is modelled.
- Loader.MergeKeepsMatchedProducts: row order and multiplicity are stated only for metadata with unique keys. The dataset has no duplicate entries, and with duplicate keys the table library may group equal keys differently from the nested-loop order that `Merge` uses.
- Binner.LabelFor: requires valid edges and labels. The table library raises an error otherwise, and that error path is modelled by `Cut`.
- Binner.Cut: refuses every pair of equal edges with `EdgesNotIncreasing`. The table library accepts exactly two equal edges (`bins=[5, 5]` with one label) and gives every value no label; the model treats strictly increasing edges as the binner's requirement and does not reproduce that case.
- The binner does not model the table library's separate exception types: a decreasing edge and a repeated edge (among more than two edges) are both reported as `EdgesNotIncreasing`. The library's checks on argument types are also left out.
- Floating point is modelled with `real`. NaN values in a binned column are left out: the dashboard bins columns of the cleaned catalog, which has none. A first edge of -infinity is also left out, since the dashboard never uses one.
