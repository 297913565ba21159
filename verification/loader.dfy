/** Loading the two tables into one catalog: the metadata loses its
    description column, then the products are inner-joined with it on the
    shared key. */
module Loader {
  import opened Wrappers
  import opened Seqs
  import opened Catalog

  /** The metadata table with its description column dropped. */
  function DropDescription(lines: seq<MetadataLine>): (r: seq<Metadata>)
    ensures |r| == |lines|
    ensures forall i :: 0 <= i < |lines| ==> r[i].appId == lines[i].appId && r[i].tags == lines[i].tags
    ensures MetadataKeys(r) == (set l | l in lines :: l.appId)
  {
    seq(|lines|, i requires 0 <= i < |lines| => Metadata(lines[i].appId, lines[i].tags))
  }

  /** The merged rows contributed by one product: one per metadata record
      carrying the same key, in metadata order. */
  function JoinOne(p: Product, ms: seq<Metadata>): (r: seq<Game>)
    ensures forall g :: g in r ==> g.product == p && Metadata(p.appId, g.tags) in ms
    ensures forall m :: m in ms && m.appId == p.appId ==> Game(p, m.tags) in r
    decreases |ms|
  {
    if |ms| == 0 then []
    else
      var rest := JoinOne(p, ms[1..]);
      assert forall m :: m in ms <==> m == ms[0] || m in ms[1..];
      if ms[0].appId == p.appId then [Game(p, ms[0].tags)] + rest else rest
  }

  /** Inner join of the product table with the metadata table on the key:
      a merged row exists for a product and a record exactly when their keys
      agree, and it carries the product's columns and the record's tags. */
  function Merge(ps: seq<Product>, ms: seq<Metadata>): (r: seq<Game>)
    ensures forall g :: g in r ==> g.product in ps && Metadata(g.AppId(), g.tags) in ms
    ensures forall p, m :: p in ps && m in ms && p.appId == m.appId ==> Game(p, m.tags) in r
    decreases |ps|
  {
    if |ps| == 0 then []
    else
      assert forall p :: p in ps <==> p == ps[0] || p in ps[1..];
      JoinOne(ps[0], ms) + Merge(ps[1..], ms)
  }

  /** A key occurs in the merged catalog exactly when it occurs in both tables. */
  lemma MergeKeys(ps: seq<Product>, ms: seq<Metadata>)
    ensures GameKeys(Merge(ps, ms)) == ProductKeys(ps) * MetadataKeys(ms)
  {
    var r := Merge(ps, ms);
    forall k | k in ProductKeys(ps) * MetadataKeys(ms)
      ensures k in GameKeys(r)
    {
      var p :| p in ps && p.appId == k;
      var m :| m in ms && m.appId == k;
      assert Game(p, m.tags) in r;
    }
    forall k | k in GameKeys(r)
      ensures k in ProductKeys(ps) * MetadataKeys(ms)
    {
      var g :| g in r && g.AppId() == k;
      assert Metadata(g.AppId(), g.tags) in ms;
    }
  }

  /** The product rows of a merged catalog, in order. */
  function ProductsOf(gs: seq<Game>): (r: seq<Product>)
    ensures |r| == |gs|
    ensures forall i :: 0 <= i < |gs| ==> r[i] == gs[i].product
  {
    seq(|gs|, i requires 0 <= i < |gs| => gs[i].product)
  }

  /** Whether a product has a metadata record to join with. */
  function HasMetadata(ms: seq<Metadata>): Product -> bool
  {
    (p: Product) => p.appId in MetadataKeys(ms)
  }

  /** With unique metadata keys a product joins with at most one record. */
  lemma {:induction false} JoinOneUnique(p: Product, ms: seq<Metadata>)
    requires UniqueKeys(ms)
    ensures p.appId in MetadataKeys(ms) ==> exists m :: m in ms && m.appId == p.appId && JoinOne(p, ms) == [Game(p, m.tags)]
    ensures p.appId !in MetadataKeys(ms) ==> JoinOne(p, ms) == []
    decreases |ms|
  {
    if |ms| > 0 {
      assert UniqueKeys(ms[1..]) by {
        forall i, j | 0 <= i < j < |ms[1..]| ensures ms[1..][i].appId != ms[1..][j].appId {
          assert ms[1..][i] == ms[i + 1] && ms[1..][j] == ms[j + 1];
        }
      }
      JoinOneUnique(p, ms[1..]);
      assert MetadataKeys(ms) == {ms[0].appId} + MetadataKeys(ms[1..]) by {
        assert forall m :: m in ms <==> m == ms[0] || m in ms[1..];
      }
      if ms[0].appId == p.appId {
        assert p.appId !in MetadataKeys(ms[1..]) by {
          forall m | m in ms[1..] ensures m.appId != p.appId {
            var j :| 0 <= j < |ms[1..]| && ms[1..][j] == m;
            assert ms[j + 1] == m;
          }
        }
        assert JoinOne(p, ms) == [Game(p, ms[0].tags)];
      }
    }
  }

  /** With unique metadata keys, a product with a metadata record becomes
      exactly one merged row, carrying that record's tags. */
  lemma JoinOneMatch(p: Product, ms: seq<Metadata>, m: Metadata)
    requires UniqueKeys(ms)
    requires m in ms && m.appId == p.appId
    ensures JoinOne(p, ms) == [Game(p, m.tags)]
  {
    JoinOneUnique(p, ms);
    var m' :| m' in ms && m'.appId == p.appId && JoinOne(p, ms) == [Game(p, m'.tags)];
    var i :| 0 <= i < |ms| && ms[i] == m;
    var j :| 0 <= j < |ms| && ms[j] == m';
    assert i == j;
  }

  /** With unique metadata keys, the merge keeps each product that has a
      metadata record exactly once, in the product table's order, and drops
      the others: it never duplicates or reorders rows. */
  lemma {:induction false} MergeKeepsMatchedProducts(ps: seq<Product>, ms: seq<Metadata>)
    requires UniqueKeys(ms)
    ensures ProductsOf(Merge(ps, ms)) == Filter(HasMetadata(ms), ps)
    decreases |ps|
  {
    if |ps| > 0 {
      MergeKeepsMatchedProducts(ps[1..], ms);
      var head := JoinOne(ps[0], ms);
      var rest := Merge(ps[1..], ms);
      ProductsOfConcat(head, rest);
      ProductsOfJoinOne(ps[0], ms);
    }
  }

  lemma ProductsOfConcat(a: seq<Game>, b: seq<Game>)
    ensures ProductsOf(a + b) == ProductsOf(a) + ProductsOf(b)
  {
  }

  /** With unique metadata keys, one product contributes itself once if it
      has a metadata record and nothing otherwise. */
  lemma ProductsOfJoinOne(p: Product, ms: seq<Metadata>)
    requires UniqueKeys(ms)
    ensures ProductsOf(JoinOne(p, ms)) == if HasMetadata(ms)(p) then [p] else []
  {
    if p.appId in MetadataKeys(ms) {
      var m :| m in ms && m.appId == p.appId;
      JoinOneMatch(p, ms, m);
    } else {
      JoinOneUnique(p, ms);
    }
  }

  /** The catalog as loaded, before cleaning: the metadata file without its
      description column, inner-joined with the product table. */
  function Load(ps: seq<Product>, lines: seq<MetadataLine>): (r: seq<Game>)
    ensures forall g :: g in r ==> g.product in ps && exists l :: l in lines && l.appId == g.AppId() && l.tags == g.tags
    ensures forall p, l :: p in ps && l in lines && p.appId == l.appId ==> Game(p, l.tags) in r
  {
    var ms := DropDescription(lines);
    assert forall l :: l in lines ==> Metadata(l.appId, l.tags) in ms by {
      forall l | l in lines ensures Metadata(l.appId, l.tags) in ms {
        var i :| 0 <= i < |lines| && lines[i] == l;
        assert ms[i] == Metadata(l.appId, l.tags);
      }
    }
    var r := Merge(ps, ms);
    assert forall g :: g in r ==> exists l :: l in lines && l.appId == g.AppId() && l.tags == g.tags by {
      forall g | g in r ensures exists l :: l in lines && l.appId == g.AppId() && l.tags == g.tags {
        var i :| 0 <= i < |ms| && ms[i] == Metadata(g.AppId(), g.tags);
        assert lines[i] in lines;
      }
    }
    r
  }
}
