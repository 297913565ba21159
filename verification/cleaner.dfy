/** Cleaning the merged catalog: rows with a missing cell are dropped, then
    rows for products supported on no operating system (soundtracks, tools
    and other non-game products). */
module Cleaner {
  import opened Wrappers
  import opened Seqs
  import opened Catalog
  import opened Loader

  /** No cell of the row is missing. */
  predicate IsComplete(g: Game)
  {
    && g.product.title.Some?
    && g.product.rating.Some?
    && g.product.positiveRatio.Some?
    && g.product.priceFinal.Some?
    && g.product.userReviews.Some?
  }

  /** The product runs on at least one of Windows, macOS and Linux. */
  predicate RunsSomewhere(g: Game)
  {
    g.product.win || g.product.mac || g.product.linux
  }

  /** Both cleaning conditions at once. */
  predicate IsCleanRow(g: Game)
  {
    IsComplete(g) && RunsSomewhere(g)
  }

  /** First cleaning step: drop every row with a missing cell. */
  function DropIncomplete(rows: seq<Game>): (r: seq<Game>)
    ensures IsSubsequence(r, rows)
    ensures forall g :: g in r <==> g in rows && IsComplete(g)
  {
    Filter(IsComplete, rows)
  }

  /** Second cleaning step: keep the rows for which `win or mac or linux` holds. */
  function KeepGames(rows: seq<Game>): (r: seq<Game>)
    ensures IsSubsequence(r, rows)
    ensures forall g :: g in r <==> g in rows && RunsSomewhere(g)
  {
    Filter(RunsSomewhere, rows)
  }

  /** The cleaned catalog: only removes rows, keeps their order, and keeps
      every row that is complete and runs somewhere. */
  function Clean(rows: seq<Game>): (r: seq<Game>)
    ensures IsSubsequence(r, rows)
    ensures forall g :: g in r ==> IsComplete(g)
    ensures forall g :: g in r ==> RunsSomewhere(g)
    ensures forall g :: g in rows && IsComplete(g) && RunsSomewhere(g) ==> g in r
  {
    var d := DropIncomplete(rows);
    var r := KeepGames(d);
    SubsequenceTrans(r, d, rows);
    r
  }

  /** Cleaning is exactly one filter by both conditions, so the order of the
      two steps does not matter. */
  lemma CleanIsOneFilter(rows: seq<Game>)
    ensures Clean(rows) == Filter(IsCleanRow, rows)
    ensures Clean(rows) == DropIncomplete(KeepGames(rows))
  {
    FilterFuse(IsComplete, RunsSomewhere, IsCleanRow, rows);
    FilterFuse(RunsSomewhere, IsComplete, IsCleanRow, rows);
  }

  /** Cleaning an already cleaned catalog changes nothing. */
  lemma CleanIdempotent(rows: seq<Game>)
    ensures Clean(Clean(rows)) == Clean(rows)
  {
    var c := Clean(rows);
    CleanIsOneFilter(c);
    FilterAllPass(IsCleanRow, c);
  }

  /** The cleaned catalog is the longest order-preserving selection of
      clean rows: any other one is a subsequence of it. */
  lemma CleanIsLargest(rows: seq<Game>, ys: seq<Game>)
    requires IsSubsequence(ys, rows)
    requires forall g :: g in ys ==> IsComplete(g) && RunsSomewhere(g)
    ensures IsSubsequence(ys, Clean(rows))
  {
    CleanIsOneFilter(rows);
    FilterIsLargest(IsCleanRow, rows, ys);
  }

  /** The catalog the dashboard starts from: the two tables loaded, merged
      and cleaned. A row is in it exactly when it joins a product with a
      metadata line on their key and has no missing cell and a platform. */
  function CleanCatalog(ps: seq<Product>, lines: seq<MetadataLine>): (r: seq<Game>)
    ensures forall g :: g in r ==> IsComplete(g) && RunsSomewhere(g)
    ensures forall g :: g in r ==> g.product in ps && exists l :: l in lines && l.appId == g.AppId() && l.tags == g.tags
    ensures forall p, l :: p in ps && l in lines && p.appId == l.appId && IsCleanRow(Game(p, l.tags)) ==> Game(p, l.tags) in r
  {
    Clean(Load(ps, lines))
  }
}
