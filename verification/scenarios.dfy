/** Worked cases of the dashboard's own arguments: the positive-ratio and
    price buckets of its bar charts, a rejected bucket configuration, and a
    three-product catalog taken through loading, cleaning and the tag filter. */
module Scenarios {
  import opened Wrappers
  import opened Seqs
  import opened Catalog
  import opened Loader
  import opened Cleaner
  import opened TagFilter
  import opened Binner

  function RatioEdges(): seq<Edge>
  {
    [Finite(0.0), Finite(20.0), Finite(40.0), Finite(60.0), Finite(80.0), Finite(100.0)]
  }

  function RatioLabels(): seq<string>
  {
    ["0-20", "20-40", "40-60", "60-80", "80-100"]
  }

  function PriceEdges(): seq<Edge>
  {
    [Finite(0.0), Finite(15.0), Finite(30.0), Finite(45.0), Finite(60.0), PosInf]
  }

  function PriceLabels(): seq<string>
  {
    ["Below $15", "$15-30", "$30-45", "$45-60", "Above $60"]
  }

  /** Positive-ratio buckets: an edge value belongs to the bucket it closes,
      and a ratio of 0 is in no bucket. */
  lemma RatioBuckets()
    ensures ValidBins(RatioEdges(), RatioLabels())
    ensures LabelFor(RatioEdges(), RatioLabels(), 20.0) == Some("0-20")
    ensures LabelFor(RatioEdges(), RatioLabels(), 45.0) == Some("40-60")
    ensures LabelFor(RatioEdges(), RatioLabels(), 100.0) == Some("80-100")
    ensures LabelFor(RatioEdges(), RatioLabels(), 0.0) == None
  {
    var e, l := RatioEdges(), RatioLabels();
    assert InBucket(e, 0, 20.0);
    assert InBucket(e, 2, 45.0);
    assert InBucket(e, 4, 100.0);
  }

  /** Price buckets: the top bucket is unbounded, and a free product
      (price 0) is in no bucket. */
  lemma PriceBuckets()
    ensures ValidBins(PriceEdges(), PriceLabels())
    ensures LabelFor(PriceEdges(), PriceLabels(), 15.0) == Some("Below $15")
    ensures LabelFor(PriceEdges(), PriceLabels(), 1000.0) == Some("Above $60")
    ensures LabelFor(PriceEdges(), PriceLabels(), 0.0) == None
  {
    var e, l := PriceEdges(), PriceLabels();
    assert InBucket(e, 0, 15.0);
    assert InBucket(e, 4, 1000.0);
  }

  /** Five edges with three labels are refused. */
  lemma MismatchedLabelCount(values: seq<real>)
    ensures Cut(values, RatioEdges()[..5], RatioLabels()[..3]) == Failure(LabelCountMismatch)
  {
    assert Increasing(RatioEdges()[..5]);
    assert NoDuplicates(RatioLabels()[..3]);
  }

  /** The metadata of the scenario: products 1 and 2 are tagged "indie",
      product 3 "action". */
  function ScenarioLines(): seq<MetadataLine>
  {
    [MetadataLine(1, Some("a"), ["indie"]), MetadataLine(2, Some("b"), ["indie"]), MetadataLine(3, Some("c"), ["action"])]
  }

  lemma ScenarioMetadata()
    ensures DropDescription(ScenarioLines()) == [Metadata(1, ["indie"]), Metadata(2, ["indie"]), Metadata(3, ["action"])]
  {
  }

  lemma ScenarioMerge(p1: Product, p2: Product, p3: Product, ms: seq<Metadata>)
    requires p1.appId == 1 && p2.appId == 2 && p3.appId == 3
    requires ms == [Metadata(1, ["indie"]), Metadata(2, ["indie"]), Metadata(3, ["action"])]
    ensures Merge([p1, p2, p3], ms) == [Game(p1, ["indie"]), Game(p2, ["indie"]), Game(p3, ["action"])]
  {
    assert UniqueKeys(ms);
    JoinOneMatch(p1, ms, ms[0]);
    JoinOneMatch(p2, ms, ms[1]);
    JoinOneMatch(p3, ms, ms[2]);
    assert [p1, p2, p3][1..] == [p2, p3];
    assert [p2, p3][1..] == [p3];
    assert [p3][1..] == [];
    assert Merge([p3], ms) == [Game(p3, ["action"])];
    assert Merge([p2, p3], ms) == [Game(p2, ["indie"]), Game(p3, ["action"])];
  }

  lemma ScenarioClean(g1: Game, g2: Game, g3: Game)
    requires IsCleanRow(g1) && IsCleanRow(g3)
    requires !IsComplete(g2)
    ensures Clean([g1, g2, g3]) == [g1, g3]
  {
    assert [g1, g2, g3][1..] == [g2, g3];
    assert [g2, g3][1..] == [g3];
    assert [g3][1..] == [];
    assert Filter(IsComplete, [g3]) == [g3];
    assert Filter(IsComplete, [g2, g3]) == [g3];
    assert DropIncomplete([g1, g2, g3]) == [g1, g3];
    FilterAllPass(RunsSomewhere, [g1, g3]);
  }

  lemma ScenarioFilter(g1: Game, g3: Game)
    requires g1.tags == ["indie"] && g3.tags == ["action"]
    ensures FilterByTags([g1, g3], ["indie"]) == [g1]
  {
    assert [g1, g3][1..] == [g3];
    assert [g3][1..] == [];
    assert Carries(["indie"])(g1);
    assert !HasAllTags(g3, ["indie"]) by {
      assert "indie" in ["indie"];
      assert "indie" != "action" by { assert "indie"[0] != "action"[0]; }
      assert "indie" !in g3.tags;
    }
    assert !Carries(["indie"])(g3);
    assert Filter(Carries(["indie"]), [g3]) == [];
    assert Filter(Carries(["indie"]), [g1, g3]) == [g1];
  }

  /** Products 1, 2 and 3, all complete and running somewhere except that
      product 2 has no price. After loading and cleaning, selecting "indie"
      leaves product 1 alone: product 2 was dropped for its missing price
      and product 3 is not tagged "indie". */
  lemma IndieScenario(p1: Product, p2: Product, p3: Product)
    requires p1.appId == 1 && p2.appId == 2 && p3.appId == 3
    requires IsCleanRow(Game(p1, [])) && IsCleanRow(Game(p3, []))
    requires p2.priceFinal == None
    ensures FilterByTags(CleanCatalog([p1, p2, p3], ScenarioLines()), ["indie"]) == [Game(p1, ["indie"])]
  {
    var g1, g2, g3 := Game(p1, ["indie"]), Game(p2, ["indie"]), Game(p3, ["action"]);
    ScenarioMetadata();
    ScenarioMerge(p1, p2, p3, DropDescription(ScenarioLines()));
    assert Load([p1, p2, p3], ScenarioLines()) == [g1, g2, g3];
    assert IsCleanRow(g1) && IsCleanRow(g3);
    ScenarioClean(g1, g2, g3);
    ScenarioFilter(g1, g3);
  }
}
