/**
 * The geographic recategorisation: a host location is looked up, by exact
 * match, in a fixed hierarchy of six tiers, and anything not listed becomes
 * "Unknown". The distribution over the tiers is counted in tier order.
 */
module LocationHierarchy {
  import opened Wrappers
  import opened Frame
  import opened LocationTable

  /** `categorize_location`: the tier of a listed location, "Unknown" for anything else. */
  function CategorizeLocation(location: string): (r: string)
    ensures Hierarchy(location).Some? ==> r == Hierarchy(location).value
    ensures r in CATEGORY_ORDER <==> Hierarchy(location).Some?
    ensures r == "Unknown" <==> Hierarchy(location).None?
  {
    HierarchyRange();
    Hierarchy(location).GetOr("Unknown")
  }

  /** Matching is exact, and the table's own entries resolve as listed. */
  lemma SampleLocations()
    ensures CategorizeLocation("Unknown_Italy") == "Central/Southern Italy"
    ensures CategorizeLocation("United Kingdom") == "Extra-EU"
    ensures CategorizeLocation("Milan") == "Milan"
    ensures CategorizeLocation("milan") == "Unknown"
    ensures CategorizeLocation("Atlantis") == "Unknown"
  {
    TierFromLevel("Unknown_Italy", 0, 3);
    TierFromLevel("United Kingdom", 0, 5);
    LocalTiersListed();
    NotListedIsNoKey("milan");
    NotListedIsNoKey("Atlantis");
  }

  /**
   * Looking a result up again gives it back only for "Milan", "Lombardy" and
   * "Unknown"; the other tier names are not keys of the table.
   */
  lemma CategorizeTwice(location: string)
    ensures CategorizeLocation(CategorizeLocation(location)) == CategorizeLocation(location)
      <==> CategorizeLocation(location) in {"Milan", "Lombardy", "Unknown"}
  {
    TierNamesUnlisted();
    LocalTiersListed();
    HierarchyRange();
  }

  /** A cell holding a string that is a key of the hierarchy. */
  predicate IsKeyCell(c: Cell) {
    c.Some? && c.value.Text? && Hierarchy(c.value.s).Some?
  }

  /** `Series.map(categorize_location)` on one cell: a missing or non-string cell matches no key. */
  function LocationOf(c: Cell): (r: string)
    ensures r in CATEGORY_ORDER <==> IsKeyCell(c)
    ensures IsKeyCell(c) ==> r == Hierarchy(c.value.s).value
    ensures !IsKeyCell(c) ==> r == "Unknown"
  {
    TierNamesUnlisted();
    match c
    case Some(Text(s)) => CategorizeLocation(s)
    case _ => CategorizeLocation("Unknown")
  }

  /** The tier of every row, in row order. */
  function HierarchyLabels(c: Column): (r: seq<string>)
    ensures |r| == |c|
    ensures forall i :: 0 <= i < |c| ==> r[i] == LocationOf(c[i])
  {
    if c == [] then []
    else
      var front := HierarchyLabels(c[..|c| - 1]);
      assert forall i :: 0 <= i < |c| - 1 ==> c[..|c| - 1][i] == c[i];
      front + [LocationOf(c[|c| - 1])]
  }

  /** How often `l` occurs in `labels`. */
  function CountOf(labels: seq<string>, l: string): (n: nat)
    ensures n <= |labels|
    ensures n == 0 <==> l !in labels
  {
    if labels == [] then 0
    else
      var n := CountOf(labels[..|labels| - 1], l);
      assert forall x :: x in labels <==> x in labels[..|labels| - 1] || x == labels[|labels| - 1] by {
        assert labels == labels[..|labels| - 1] + [labels[|labels| - 1]];
      }
      n + (if labels[|labels| - 1] == l then 1 else 0)
  }

  /** A tier with its number of rows. */
  datatype TierCount = TierCount(tier: string, count: nat)

  /** `reindex(order, fill_value=0)` of a label-to-count table. */
  function Reindex(counts: map<string, nat>, order: seq<string>): (r: seq<TierCount>)
    ensures |r| == |order|
    ensures forall k :: 0 <= k < |order| ==> r[k].tier == order[k]
  {
    seq(|order|, k requires 0 <= k < |order| => TierCount(order[k], if order[k] in counts then counts[order[k]] else 0))
  }

  /** The sum of the counts. */
  function Total(ts: seq<TierCount>): nat {
    if ts == [] then 0 else ts[0].count + Total(ts[1..])
  }

  /** How many of `labels` belong to `order`. */
  function CountIn(labels: seq<string>, order: seq<string>): (n: nat)
    ensures n <= |labels|
    ensures n == 0 <==> forall i :: 0 <= i < |labels| ==> labels[i] !in order
  {
    if labels == [] then 0
    else
      var front := labels[..|labels| - 1];
      assert forall i :: 0 <= i < |front| ==> front[i] == labels[i];
      CountIn(front, order) + (if labels[|labels| - 1] in order then 1 else 0)
  }

  /** The sum over `order` of how often each of its labels occurs. */
  function SumCounts(labels: seq<string>, order: seq<string>): nat {
    if order == [] then 0 else CountOf(labels, order[0]) + SumCounts(labels, order[1..])
  }

  /** Nothing is counted in an empty label sequence. */
  lemma {:induction false} SumCountsEmpty(order: seq<string>)
    ensures SumCounts([], order) == 0
    decreases |order|
  {
    if order != [] {
      SumCountsEmpty(order[1..]);
    }
  }

  /** One more label adds one to the sum over an order without repeats exactly when it belongs to that order. */
  lemma {:induction false} SumCountsSnoc(labels: seq<string>, x: string, order: seq<string>)
    requires Distinct(order)
    ensures SumCounts(labels + [x], order) == SumCounts(labels, order) + (if x in order then 1 else 0)
    decreases |order|
  {
    if order != [] {
      assert (labels + [x])[..|labels + [x]| - 1] == labels;
      DistinctTail(order);
      SumCountsSnoc(labels, x, order[1..]);
      assert x in order <==> x == order[0] || x in order[1..];
      assert order[0] !in order[1..] by {
        forall j | 0 <= j < |order| - 1 ensures order[1..][j] != order[0] { assert order[1..][j] == order[j + 1]; }
      }
    }
  }

  /** Summed over an order without repeats, the per-label counts are the number of labels in that order: the others drop out. */
  lemma {:induction false} SumCountsCoverOrder(labels: seq<string>, order: seq<string>)
    requires Distinct(order)
    ensures SumCounts(labels, order) == CountIn(labels, order)
    decreases |labels|
  {
    if labels == [] {
      SumCountsEmpty(order);
    } else {
      var front := labels[..|labels| - 1];
      SumCountsCoverOrder(front, order);
      assert labels == front + [labels[|labels| - 1]];
      SumCountsSnoc(front, labels[|labels| - 1], order);
    }
  }

  /** The number of rows whose location is a key of the hierarchy. */
  function KeyRows(c: Column): (n: nat)
    ensures n <= |c|
  {
    if c == [] then 0
    else KeyRows(c[..|c| - 1]) + (if IsKeyCell(c[|c| - 1]) then 1 else 0)
  }

  /** The rows whose label is a tier are exactly the rows whose location is a key. */
  lemma {:induction false} KeyRowsAreTierLabels(c: Column)
    ensures CountIn(HierarchyLabels(c), CATEGORY_ORDER) == KeyRows(c)
    decreases |c|
  {
    if c != [] {
      var front := c[..|c| - 1];
      KeyRowsAreTierLabels(front);
      var labels := HierarchyLabels(c);
      assert labels[..|labels| - 1] == HierarchyLabels(front);
      assert labels[|labels| - 1] == LocationOf(c[|c| - 1]);
    }
  }

  /** Summed over the six tiers, the counts cover exactly the rows whose location is a key: "Unknown" rows are dropped. */
  lemma TierCountsCoverKeyRows(c: Column)
    ensures SumCounts(HierarchyLabels(c), CATEGORY_ORDER) == KeyRows(c)
  {
    HierarchyRange();
    SumCountsCoverOrder(HierarchyLabels(c), CATEGORY_ORDER);
    KeyRowsAreTierLabels(c);
  }

  /** The total of a reindexed count list is the sum of the per-tier counts. */
  lemma {:induction false} TotalOfTiers(ts: seq<TierCount>, labels: seq<string>, order: seq<string>)
    requires |ts| == |order|
    requires forall k :: 0 <= k < |order| ==> ts[k].count == CountOf(labels, order[k])
    ensures Total(ts) == SumCounts(labels, order)
    decreases |order|
  {
    if order != [] {
      TotalOfTiers(ts[1..], labels, order[1..]);
    }
  }

  /** The column `analyze_location_distribution` adds to the caller's table. */
  function HierarchyColumn(c: Column): (r: Column)
    ensures |r| == |c|
    ensures forall i :: 0 <= i < |c| ==> r[i].Some? && r[i].value.Text? && (r[i].value.s in CATEGORY_ORDER <==> IsKeyCell(c[i]))
    ensures forall i :: 0 <= i < |c| && IsKeyCell(c[i]) ==> r[i] == Some(Text(Hierarchy(c[i].value.s).value))
    ensures forall i :: 0 <= i < |c| && !IsKeyCell(c[i]) ==> r[i] == Some(Text("Unknown"))
  {
    seq(|c|, i requires 0 <= i < |c| => Some(Text(LocationOf(c[i]))))
  }

  /** `value_counts()` of a label sequence: every label that occurs, with how often it occurs. */
  method ValueCounts(labels: seq<string>) returns (counts: map<string, nat>)
    ensures forall l :: l in counts <==> l in labels
    ensures forall l :: l in counts ==> counts[l] == CountOf(labels, l)
  {
    counts := map[];
    var i := 0;
    while i < |labels|
      invariant 0 <= i <= |labels|
      invariant forall l :: l in counts <==> l in labels[..i]
      invariant forall l :: l in counts ==> counts[l] == CountOf(labels[..i], l)
    {
      var l := labels[i];
      assert labels[..i + 1][..i] == labels[..i];
      assert labels[..i + 1] == labels[..i] + [l];
      counts := counts[l := (if l in counts then counts[l] else 0) + 1];
      i := i + 1;
    }
    assert labels[..i] == labels;
  }

  /** `value_counts().reindex(order, fill_value=0)`: each label of `order`, in order, with how often it occurs; over an order without repeats, the total counts the labels that belong to it. */
  method ReindexedCounts(labels: seq<string>, order: seq<string>) returns (r: seq<TierCount>)
    ensures |r| == |order|
    ensures forall k :: 0 <= k < |order| ==> r[k] == TierCount(order[k], CountOf(labels, order[k]))
    ensures Distinct(order) ==> Total(r) == CountIn(labels, order)
  {
    var counts := ValueCounts(labels);
    r := Reindex(counts, order);
    assert forall k :: 0 <= k < |order| ==> r[k].count == CountOf(labels, order[k]);
    TotalOfTiers(r, labels, order);
    if Distinct(order) {
      SumCountsCoverOrder(labels, order);
    }
  }

  /**
   * `analyze_location_distribution(df, location_column)`: adds
   * `location_hierarchy` to the caller's table, counts its labels
   * (`value_counts`) and reindexes the counts onto the six tiers in order,
   * with 0 for a tier no row has.
   */
  method AnalyzeLocationDistribution(df: Table, locationColumn: string) returns (r: Call<seq<TierCount>>)
    requires Valid(df)
    ensures locationColumn !in df.data ==> r == Call(df, Err(KeyError([locationColumn])))
    ensures locationColumn in df.data ==>
      && r.after == Assign(df, "location_hierarchy", HierarchyColumn(df.data[locationColumn]))
      && r.outcome.Ok?
      && |r.outcome.value| == |CATEGORY_ORDER|
      && forall k :: 0 <= k < |CATEGORY_ORDER| ==>
           r.outcome.value[k] == TierCount(CATEGORY_ORDER[k], CountOf(HierarchyLabels(df.data[locationColumn]), CATEGORY_ORDER[k]))
    ensures r.outcome.Ok? ==> Total(r.outcome.value) == KeyRows(df.data[locationColumn])
  {
    if locationColumn !in df.data {
      return Call(df, Err(KeyError([locationColumn])));
    }
    var column := df.data[locationColumn];
    var after := Assign(df, "location_hierarchy", HierarchyColumn(column));
    var labels := HierarchyLabels(column);
    var ordered := ReindexedCounts(labels, CATEGORY_ORDER);
    HierarchyRange();
    KeyRowsAreTierLabels(column);
    r := Call(after, Ok(ordered));
  }
}
