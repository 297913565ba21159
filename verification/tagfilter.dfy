/** The tag filter: narrows a catalog to the products carrying every tag
    the viewer selected. */
module TagFilter {
  import opened Seqs
  import opened Catalog
  import opened TagIndex

  /** Every requested tag is in the row's tag list (extra row tags allowed). */
  predicate HasAllTags(g: Game, wanted: seq<string>)
  {
    forall t :: t in wanted ==> t in g.tags
  }

  /** `HasAllTags` as a row test. */
  function Carries(wanted: seq<string>): Game -> bool
  {
    g => HasAllTags(g, wanted)
  }

  /** The rows carrying every wanted tag, in catalog order; with nothing
      wanted, the catalog itself. */
  function FilterByTags(rows: seq<Game>, wanted: seq<string>): (r: seq<Game>)
    ensures |wanted| == 0 ==> r == rows
    ensures IsSubsequence(r, rows)
    ensures forall g :: g in r <==> g in rows && HasAllTags(g, wanted)
  {
    if |wanted| == 0 then
      SubsequenceRefl(rows);
      rows
    else
      Filter(Carries(wanted), rows)
  }

  /** The empty-selection shortcut agrees with the general filter: every
      selection, empty or not, keeps exactly the carrying rows in order. */
  lemma FilterByTagsIsOneFilter(rows: seq<Game>, wanted: seq<string>)
    ensures FilterByTags(rows, wanted) == Filter(Carries(wanted), rows)
  {
    if |wanted| == 0 {
      FilterAllPass(Carries(wanted), rows);
    }
  }

  /** No order-preserving selection of carrying rows is longer than the
      filter's result: it keeps every row it can. */
  lemma FilterByTagsIsLargest(rows: seq<Game>, wanted: seq<string>, ys: seq<Game>)
    requires IsSubsequence(ys, rows)
    requires forall g :: g in ys ==> HasAllTags(g, wanted)
    ensures IsSubsequence(ys, FilterByTags(rows, wanted))
  {
    FilterByTagsIsOneFilter(rows, wanted);
    FilterIsLargest(Carries(wanted), rows, ys);
  }

  /** Asking for a tag that no row carries selects nothing. */
  lemma FilterByUnknownTag(rows: seq<Game>, wanted: seq<string>, t: string)
    requires t in wanted
    requires t !in DistinctTags(rows)
    ensures FilterByTags(rows, wanted) == []
  {
    forall g | g in rows ensures t !in g.tags {
      var i :| 0 <= i < |rows| && rows[i] == g;
    }
    FilterByTagsIsOneFilter(rows, wanted);
    FilterNone(Carries(wanted), rows);
  }

  /** Filtering by one selection and then by another is filtering by both. */
  lemma FilterByTagsCompose(rows: seq<Game>, first: seq<string>, second: seq<string>)
    ensures FilterByTags(FilterByTags(rows, first), second) == FilterByTags(rows, first + second)
  {
    var both := first + second;
    assert forall g :: Carries(both)(g) == (Carries(first)(g) && Carries(second)(g));
    FilterByTagsIsOneFilter(rows, first);
    FilterByTagsIsOneFilter(FilterByTags(rows, first), second);
    FilterByTagsIsOneFilter(rows, both);
    FilterFuse(Carries(first), Carries(second), Carries(both), rows);
  }

  /** Applying the same selection twice is applying it once. */
  lemma FilterByTagsIdempotent(rows: seq<Game>, wanted: seq<string>)
    ensures FilterByTags(FilterByTags(rows, wanted), wanted) == FilterByTags(rows, wanted)
  {
    FilterByTagsIsOneFilter(rows, wanted);
    FilterByTagsIsOneFilter(FilterByTags(rows, wanted), wanted);
    FilterIdempotent(Carries(wanted), rows);
  }
}
