/** `group_statistics_per_deliverable`: turns the per-category map
    `name -> statistics` into one map per deliverable,
    `metric -> name -> value`. Each deliverable later becomes its own file. */
module Deliverables {
  import opened Catalog
  import opened Aggregation

  /** The three deliverables. */
  datatype Metric = NumberOfProducts | Top5Products | PercentageSwedish

  const AllMetrics: set<Metric> := {NumberOfProducts, Top5Products, PercentageSwedish}

  /** The key under which a deliverable is stored, and the base name of its
      output file. */
  function MetricName(metric: Metric): string
  {
    match metric
    case NumberOfProducts => "number_of_products"
    case Top5Products => "top_5_products"
    case PercentageSwedish => "percentage_swedish"
  }

  /** The three deliverables have three different keys, so keying by
      `Metric` is keying by the dictionary's strings. */
  lemma MetricNamesDistinct(a: Metric, b: Metric)
    ensures MetricName(a) == MetricName(b) <==> a == b
  {
  }

  /** A value stored in one deliverable. */
  datatype Value = Count(n: int) | TopProducts(products: seq<Product>) | Share(fraction: real)

  /** Deliverable -> category name -> value. */
  type Grouped = map<Metric, map<string, Value>>

  /** The field of a category's statistics that deliverable `metric`
      holds. */
  function Project(metric: Metric, s: CategoryStats): Value
  {
    match metric
    case NumberOfProducts => Count(s.productCount)
    case Top5Products => TopProducts(s.top5Products)
    case PercentageSwedish => Share(s.percentageSwedish)
  }

  /** Reading `grouped[metric]` from a `defaultdict(dict)`: a missing
      deliverable reads as an empty map. */
  function Slot(g: Grouped, metric: Metric): map<string, Value>
  {
    if metric in g then g[metric] else map[]
  }

  /** What one pass of the loop does to the grouped map: write `name`'s
      three fields into the three deliverables. */
  function Record(g: Grouped, name: string, s: CategoryStats): Grouped
  {
    var g1 := g[NumberOfProducts := Slot(g, NumberOfProducts)[name := Count(s.productCount)]];
    var g2 := g1[Top5Products := Slot(g1, Top5Products)[name := TopProducts(s.top5Products)]];
    g2[PercentageSwedish := Slot(g2, PercentageSwedish)[name := Share(s.percentageSwedish)]]
  }

  /** The pivot. The `defaultdict` only gains a deliverable when some
      category is written into it, so an empty input gives an empty result
      and any other input gives all three deliverables. */
  function Pivot(stats: map<string, CategoryStats>): Grouped
  {
    if stats == map[] then map[]
    else map metric | metric in AllMetrics :: map c | c in stats :: Project(metric, stats[c])
  }

  /** The shape of the pivot: no deliverable at all for an empty input,
      otherwise exactly the three; each deliverable has one entry per
      category, holding that category's field. */
  lemma PivotShape(stats: map<string, CategoryStats>)
    ensures stats == map[] ==> Pivot(stats) == map[]
    ensures stats != map[] ==> Pivot(stats).Keys == AllMetrics
    ensures forall metric :: metric in Pivot(stats) ==> Pivot(stats)[metric].Keys == stats.Keys
    ensures forall metric, c :: metric in Pivot(stats) && c in stats ==>
              Pivot(stats)[metric][c] == Project(metric, stats[c])
  {
  }

  /** Reads the per-category map back out of the three deliverables. */
  function Unpivot(g: Grouped): map<string, CategoryStats>
  {
    var counts := Slot(g, NumberOfProducts);
    var tops := Slot(g, Top5Products);
    var shares := Slot(g, PercentageSwedish);
    map c | c in counts && c in tops && c in shares
              && counts[c].Count? && tops[c].TopProducts? && shares[c].Share?
      :: CategoryStats(counts[c].n, tops[c].products, shares[c].fraction)
  }

  /** The pivot loses nothing: every category's statistics can be read back
      from the three deliverables. */
  lemma PivotRoundTrip(stats: map<string, CategoryStats>)
    ensures Unpivot(Pivot(stats)) == stats
  {
  }

  /** The part of `stats` whose names are in `done`. */
  function Restrict(stats: map<string, CategoryStats>, done: set<string>): (m: map<string, CategoryStats>)
    ensures m.Keys == stats.Keys * done
  {
    map c | c in stats && c in done :: stats[c]
  }

  /** Writing one category puts its field into each of the three
      deliverables and leaves the rest of each as it was. */
  lemma RecordAt(g: Grouped, name: string, s: CategoryStats)
    ensures Record(g, name, s).Keys == g.Keys + AllMetrics
    ensures forall metric :: metric in AllMetrics ==>
              Record(g, name, s)[metric] == Slot(g, metric)[name := Project(metric, s)]
  {
  }

  /** One deliverable of the pivot. */
  lemma PivotAt(m: map<string, CategoryStats>, metric: Metric)
    ensures Slot(Pivot(m), metric) == map c | c in m :: Project(metric, m[c])
  {
  }

  /** Writing one more category into the pivot of the others gives the
      pivot of all of them. */
  lemma PivotRecord(m: map<string, CategoryStats>, name: string, s: CategoryStats)
    requires name !in m
    ensures Record(Pivot(m), name, s) == Pivot(m[name := s])
  {
    var m' := m[name := s];
    var g := Record(Pivot(m), name, s);
    var h := Pivot(m');
    RecordAt(Pivot(m), name, s);
    assert g.Keys == AllMetrics;
    assert h.Keys == AllMetrics;
    forall metric | metric in AllMetrics ensures g[metric] == h[metric] {
      PivotAt(m, metric);
      PivotAt(m', metric);
      InsertProjected(m, m', name, s, metric);
    }
  }

  /** One deliverable, before and after one more category is written. */
  lemma InsertProjected(m: map<string, CategoryStats>, m': map<string, CategoryStats>,
                        name: string, s: CategoryStats, metric: Metric)
    requires m' == m[name := s]
    ensures (map c | c in m :: Project(metric, m[c]))[name := Project(metric, s)]
         == map c | c in m' :: Project(metric, m'[c])
  {
  }

  /** Marking one more name as done adds its entry to the restriction. */
  lemma RestrictAdd(stats: map<string, CategoryStats>, done: set<string>, name: string)
    requires name in stats
    ensures Restrict(stats, done + {name}) == Restrict(stats, done)[name := stats[name]]
  {
  }

  /** `group_statistics_per_deliverable`: one pass over the categories,
      writing each one's three fields into the three deliverables. */
  method GroupStatisticsPerDeliverable(stats: map<string, CategoryStats>) returns (grouped: Grouped)
    ensures grouped == Pivot(stats)
  {
    grouped := map[];
    var todo := stats.Keys;
    assert Restrict(stats, stats.Keys - todo) == map[];
    while todo != {}
      invariant todo <= stats.Keys
      invariant grouped == Pivot(Restrict(stats, stats.Keys - todo))
      decreases todo
    {
      var name :| name in todo;
      var statistics := stats[name];
      ghost var done := stats.Keys - todo;
      ghost var previous := grouped;
      grouped := grouped[NumberOfProducts := Slot(grouped, NumberOfProducts)[name := Count(statistics.productCount)]];
      grouped := grouped[Top5Products := Slot(grouped, Top5Products)[name := TopProducts(statistics.top5Products)]];
      grouped := grouped[PercentageSwedish := Slot(grouped, PercentageSwedish)[name := Share(statistics.percentageSwedish)]];
      assert grouped == Record(previous, name, statistics);
      PivotRecord(Restrict(stats, done), name, statistics);
      RestrictAdd(stats, done, name);
      todo := todo - {name};
      assert stats.Keys - todo == done + {name};
    }
    assert stats.Keys - todo == stats.Keys;
    assert Restrict(stats, stats.Keys) == stats;
  }
}
