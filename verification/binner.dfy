/** The binner: turns a numeric column into a categorical one by giving
    each value the label of the bucket it falls in.

    Buckets are right-closed: with edges e0 < e1 < ... < en and labels
    l0 ... l(n-1), a value v with e(i) < v <= e(i+1) gets l(i), and a value
    at or below e0 or above en gets no label (a missing cell). The last edge
    may be +infinity, so the top bucket is unbounded above. */
module Binner {
  import opened Wrappers
  import opened Seqs

  /** A bucket edge: a number, or +infinity. */
  datatype Edge = Finite(x: real) | PosInf

  datatype CutError =
    | EdgesNotIncreasing   // the edges are not strictly increasing
    | DuplicateLabels      // two buckets share a label (not allowed for ordered categories)
    | LabelCountMismatch   // there is not exactly one label per bucket

  /** The edge lies strictly below the value. */
  predicate Below(e: Edge, v: real)
  {
    e.Finite? && e.x < v
  }

  predicate EdgeLess(a: Edge, b: Edge)
  {
    match (a, b)
    case (Finite(x), Finite(y)) => x < y
    case (Finite(_), PosInf) => true
    case (PosInf, _) => false
  }

  predicate Increasing(edges: seq<Edge>)
  {
    forall i, j :: 0 <= i < j < |edges| ==> EdgeLess(edges[i], edges[j])
  }

  /** Edges and labels the binner accepts. */
  predicate ValidBins(edges: seq<Edge>, labels: seq<string>)
  {
    Increasing(edges) && NoDuplicates(labels) && |labels| + 1 == |edges|
  }

  /** `v` lies in bucket `i`, the interval (edges[i], edges[i+1]]. */
  ghost predicate InBucket(edges: seq<Edge>, i: int, v: real)
  {
    0 <= i && i + 1 < |edges| && Below(edges[i], v) && !Below(edges[i + 1], v)
  }

  /** How many edges lie strictly below `v`; for increasing edges these are
      a prefix, so this is the position at which `v` would be inserted
      before any equal edge. */
  function CountBelow(edges: seq<Edge>, v: real): (n: nat)
    ensures n <= |edges|
    ensures Increasing(edges) ==> forall j :: 0 <= j < n ==> Below(edges[j], v)
    ensures Increasing(edges) ==> forall j :: n <= j < |edges| ==> !Below(edges[j], v)
    decreases |edges|
  {
    if |edges| == 0 then 0
    else
      var init := edges[..|edges| - 1];
      var last := edges[|edges| - 1];
      var m := CountBelow(init, v);
      if Below(last, v) then
        m + 1
      else m
  }

  /** For increasing edges, the only split into a prefix below `v` and a
      suffix not below it is at `CountBelow`. */
  lemma CountBelowIsInsertionPoint(edges: seq<Edge>, v: real, n: nat)
    requires Increasing(edges)
    requires n <= |edges|
    requires forall j :: 0 <= j < n ==> Below(edges[j], v)
    requires forall j :: n <= j < |edges| ==> !Below(edges[j], v)
    ensures n == CountBelow(edges, v)
  {
    var c := CountBelow(edges, v);
    var atC := if c < |edges| then edges[c] else PosInf;
    var atN := if n < |edges| then edges[n] else PosInf;
  }

  /** The label of the bucket `v` falls in, or none when `v` is at or below
      the first edge or above the last. */
  function LabelFor(edges: seq<Edge>, labels: seq<string>, v: real): (r: Option<string>)
    requires ValidBins(edges, labels)
    ensures forall i :: 0 <= i < |labels| ==> (r == Some(labels[i]) <==> InBucket(edges, i, v))
    ensures r == None <==> !Below(edges[0], v) || Below(edges[|edges| - 1], v)
  {
    var n := CountBelow(edges, v);
    if n == 0 || n == |edges| then None else Some(labels[n - 1])
  }

  /** Binning a column: rejected edges or labels are an error; otherwise the
      column keeps its length and each value gets the label of the bucket
      that contains it, or none outside all buckets. */
  function Cut(values: seq<real>, edges: seq<Edge>, labels: seq<string>): (r: Result<seq<Option<string>>, CutError>)
    ensures r.Success? <==> ValidBins(edges, labels)
    ensures !Increasing(edges) ==> r == Failure(EdgesNotIncreasing)
    ensures Increasing(edges) && !NoDuplicates(labels) ==> r == Failure(DuplicateLabels)
    ensures Increasing(edges) && NoDuplicates(labels) && |labels| + 1 != |edges| ==> r == Failure(LabelCountMismatch)
    ensures r.Success? ==> |r.value| == |values|
    ensures r.Success? ==> forall k, i :: 0 <= k < |values| && 0 <= i < |labels| ==>
              (r.value[k] == Some(labels[i]) <==> InBucket(edges, i, values[k]))
    ensures r.Success? ==> forall k :: 0 <= k < |values| ==>
              (r.value[k] == None <==> !Below(edges[0], values[k]) || Below(edges[|edges| - 1], values[k]))
  {
    if !Increasing(edges) then Failure(EdgesNotIncreasing)
    else if !NoDuplicates(labels) then Failure(DuplicateLabels)
    else if |labels| + 1 != |edges| then Failure(LabelCountMismatch)
    else Success(seq(|values|, k requires 0 <= k < |values| => LabelFor(edges, labels, values[k])))
  }

  /** Binary search for the insertion point of `v` among increasing edges. */
  method SearchSorted(edges: seq<Edge>, v: real) returns (n: nat)
    requires Increasing(edges)
    ensures n == CountBelow(edges, v)
  {
    var lo, hi := 0, |edges|;
    while lo < hi
      invariant 0 <= lo <= hi <= |edges|
      invariant forall j :: 0 <= j < lo ==> Below(edges[j], v)
      invariant forall j :: hi <= j < |edges| ==> !Below(edges[j], v)
      decreases hi - lo
    {
      var mid := (lo + hi) / 2;
      if Below(edges[mid], v) {
        assert forall j :: 0 <= j < mid ==> EdgeLess(edges[j], edges[mid]);
        lo := mid + 1;
      } else {
        assert forall j :: mid < j < |edges| ==> EdgeLess(edges[mid], edges[j]);
        hi := mid;
      }
    }
    n := lo;
    CountBelowIsInsertionPoint(edges, v, n);
  }

  /** The binner as the table library runs it: validate the arguments, then
      locate each value by binary search over the edges. */
  method BinColumn(values: seq<real>, edges: seq<Edge>, labels: seq<string>)
    returns (r: Result<seq<Option<string>>, CutError>)
    ensures r == Cut(values, edges, labels)
  {
    if !Increasing(edges) {
      return Failure(EdgesNotIncreasing);
    }
    if !NoDuplicates(labels) {
      return Failure(DuplicateLabels);
    }
    if |labels| + 1 != |edges| {
      return Failure(LabelCountMismatch);
    }
    var out: seq<Option<string>> := [];
    var k := 0;
    while k < |values|
      invariant 0 <= k <= |values|
      invariant |out| == k
      invariant forall m :: 0 <= m < k ==> out[m] == LabelFor(edges, labels, values[m])
    {
      var n := SearchSorted(edges, values[k]);
      var cell := if n == 0 || n == |edges| then None else Some(labels[n - 1]);
      out := out + [cell];
      k := k + 1;
    }
    r := Success(out);
    assert r.value == seq(|values|, k requires 0 <= k < |values| => LabelFor(edges, labels, values[k]));
  }
}
