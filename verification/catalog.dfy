/** The tables the dashboard works on.

    A `Product` is one row of the comma-separated games table; a
    `MetadataLine` is one line of the line-delimited metadata file; a
    `Metadata` record is such a line once its free-text description has been
    dropped; a `Game` is one row of the merged catalog. Nullable columns are
    `Option`s, where `None` stands for a missing (NaN) cell. */
module Catalog {
  import opened Wrappers

  datatype Product = Product(
    appId: int,
    title: Option<string>,
    win: bool,
    mac: bool,
    linux: bool,
    rating: Option<string>,
    positiveRatio: Option<int>,
    priceFinal: Option<real>,
    userReviews: Option<int>)

  datatype MetadataLine = MetadataLine(appId: int, description: Option<string>, tags: seq<string>)

  datatype Metadata = Metadata(appId: int, tags: seq<string>)

  /** A merged row: the product's columns plus the metadata's tag list. */
  datatype Game = Game(product: Product, tags: seq<string>)
  {
    function AppId(): int { product.appId }
  }

  /** The join keys occurring in a product table. */
  function ProductKeys(ps: seq<Product>): set<int>
  {
    set p | p in ps :: p.appId
  }

  /** The join keys occurring in a metadata table. */
  function MetadataKeys(ms: seq<Metadata>): set<int>
  {
    set m | m in ms :: m.appId
  }

  /** The join keys occurring in a merged catalog. */
  function GameKeys(gs: seq<Game>): set<int>
  {
    set g | g in gs :: g.AppId()
  }

  /** No two metadata records share a key (the dataset has no duplicate entries). */
  ghost predicate UniqueKeys(ms: seq<Metadata>)
  {
    forall i, j :: 0 <= i < j < |ms| ==> ms[i].appId != ms[j].appId
  }
}
