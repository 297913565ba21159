/** The tag index: the distinct tags of a catalog, offered as the choices of
    the tag selector.

    The table operation behind it flattens the tag lists into one column and
    keeps each value at its first occurrence. Flattening turns a row whose
    tag list is EMPTY into one missing (NaN) cell, and de-duplication keeps
    that cell, so the list as computed can hold a NaN entry next to the
    tags. `GetTags` is that computation; `DistinctTags` is the intended tag
    list, and `GetTagsWithoutNaN` shows it is `GetTags` with the NaN entry
    taken out. */
module TagIndex {
  import opened Wrappers
  import opened Seqs
  import opened Catalog

  /** One row's tags as cells of the flattened column; `None` is the NaN cell
      that stands for an empty tag list. */
  function ExplodeRow(g: Game): (r: seq<Option<string>>)
    ensures |g.tags| == 0 ==> r == [None]
    ensures |g.tags| > 0 ==> |r| == |g.tags| && forall k :: 0 <= k < |g.tags| ==> r[k] == Some(g.tags[k])
  {
    if |g.tags| == 0 then [None]
    else seq(|g.tags|, k requires 0 <= k < |g.tags| => Some(g.tags[k]))
  }

  /** The tag column flattened: one cell per tag, rows in order. */
  function Explode(rows: seq<Game>): (r: seq<Option<string>>)
    ensures forall t :: Some(t) in r <==> exists i :: 0 <= i < |rows| && t in rows[i].tags
    ensures None in r <==> exists i :: 0 <= i < |rows| && |rows[i].tags| == 0
    decreases |rows|
  {
    if |rows| == 0 then []
    else
      var head := ExplodeRow(rows[0]);
      var rest := Explode(rows[1..]);
      assert forall i :: 1 <= i < |rows| ==> rows[i] == rows[1..][i - 1];
      assert forall t :: Some(t) in head <==> t in rows[0].tags;
      head + rest
  }

  /** Every tag of every row, in order, with no cell for an empty list. */
  function Flatten(rows: seq<Game>): (r: seq<string>)
    ensures forall t :: t in r <==> exists i :: 0 <= i < |rows| && t in rows[i].tags
    decreases |rows|
  {
    if |rows| == 0 then []
    else
      assert forall i :: 1 <= i < |rows| ==> rows[i] == rows[1..][i - 1];
      rows[0].tags + Flatten(rows[1..])
  }

  /** The tag list as the source computes it: each flattened value once, at
      its first occurrence, with a NaN entry when some row has no tags. */
  function GetTags(rows: seq<Game>): (r: seq<Option<string>>)
    ensures NoDuplicates(r)
    ensures forall t :: Some(t) in r <==> exists i :: 0 <= i < |rows| && t in rows[i].tags
    ensures None in r <==> exists i :: 0 <= i < |rows| && |rows[i].tags| == 0
    ensures InFirstOccurrenceOrder(r, Explode(rows))
  {
    Unique(Explode(rows))
  }

  /** The intended tag list: each tag occurring in some row, once, in order
      of first occurrence, and nothing else. */
  function DistinctTags(rows: seq<Game>): (r: seq<string>)
    ensures NoDuplicates(r)
    ensures forall t :: t in r <==> exists i :: 0 <= i < |rows| && t in rows[i].tags
    ensures InFirstOccurrenceOrder(r, Flatten(rows))
  {
    Unique(Flatten(rows))
  }

  /** The present values of a column, in order. */
  function Present(cells: seq<Option<string>>): (r: seq<string>)
    ensures forall t :: t in r <==> Some(t) in cells
    decreases |cells|
  {
    if |cells| == 0 then []
    else
      assert forall c :: c in cells <==> c == cells[0] || c in cells[1..];
      match cells[0]
      case Some(t) => [t] + Present(cells[1..])
      case None => Present(cells[1..])
  }

  lemma {:induction false} PresentConcat(a: seq<Option<string>>, b: seq<Option<string>>)
    ensures Present(a + b) == Present(a) + Present(b)
    decreases |a|
  {
    if |a| > 0 {
      assert (a + b)[0] == a[0];
      assert (a + b)[1..] == a[1..] + b;
      PresentConcat(a[1..], b);
      if a[0].Some? {
        assert Present(a + b) == [a[0].value] + Present(a[1..] + b);
        assert Present(a) == [a[0].value] + Present(a[1..]);
      }
    } else {
      assert a + b == b;
    }
  }

  /** Dropping the NaN cells of the exploded column gives the flattened tags. */
  lemma {:induction false} PresentExplode(rows: seq<Game>)
    ensures Present(Explode(rows)) == Flatten(rows)
    decreases |rows|
  {
    if |rows| > 0 {
      var head := ExplodeRow(rows[0]);
      PresentConcat(head, Explode(rows[1..]));
      PresentExplode(rows[1..]);
      if |rows[0].tags| == 0 {
        assert Present(head) == [];
      } else {
        PresentOfSomes(rows[0].tags, head);
      }
    }
  }

  lemma {:induction false} PresentOfSomes(ts: seq<string>, cells: seq<Option<string>>)
    requires |cells| == |ts|
    requires forall k :: 0 <= k < |ts| ==> cells[k] == Some(ts[k])
    ensures Present(cells) == ts
    decreases |ts|
  {
    if |ts| > 0 {
      PresentOfSomes(ts[1..], cells[1..]);
    }
  }

  /** De-duplication commutes with dropping NaN cells. */
  lemma {:induction false} PresentUnique(cells: seq<Option<string>>)
    ensures Present(Unique(cells)) == Unique(Present(cells))
    decreases |cells|
  {
    if |cells| > 0 {
      var init := cells[..|cells| - 1];
      var last := cells[|cells| - 1];
      assert cells == init + [last];
      PresentUnique(init);
      PresentConcat(init, [last]);
      var u := Unique(init);
      if last !in u {
        PresentConcat(u, [last]);
      }
      match last
      case None =>
        assert Present([last]) == [];
        assert Present(cells) == Present(init);
      case Some(t) =>
        assert Present([last]) == [t];
        assert Present(cells) == Present(init) + [t];
        assert Present(cells)[..|Present(cells)| - 1] == Present(init);
    }
  }

  /** The intended tag list is the computed one with its NaN entry removed
      and the order of the tags unchanged. */
  lemma GetTagsWithoutNaN(rows: seq<Game>)
    ensures DistinctTags(rows) == Present(GetTags(rows))
  {
    PresentUnique(Explode(rows));
    PresentExplode(rows);
  }

  /** A catalog with one untagged product: the computed tag list is a single
      NaN entry where the intended one is empty. */
  lemma GetTagsOfUntaggedRow(p: Product)
    ensures GetTags([Game(p, [])]) == [None]
    ensures DistinctTags([Game(p, [])]) == []
  {
    var rows := [Game(p, [])];
    assert Explode(rows) == [None];
    var nan: seq<Option<string>> := [None];
    assert Unique(nan) == nan;
    assert Flatten(rows) == [];
  }
}
