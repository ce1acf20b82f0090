/** `main`: fetch the tree, aggregate per category, pivot per deliverable.
    The tree and the listing endpoint are given as inputs; writing the
    three deliverables to disk is not part of this model. */
module Pipeline {
  import opened Catalog
  import opened Statistics
  import opened Aggregation
  import opened Deliverables

  /** The deliverables `main` would write for `tree`, or the failure that
      stops it before anything is written. */
  method Run(tree: Category, fetch: string -> seq<Product>) returns (r: Result<Grouped>)
    ensures r.Ok? <==> AllListed(tree.subCategories, fetch)
    ensures r.Ok? ==> (Aggregate(tree.subCategories, fetch).Ok?
                       && r.value == Pivot(Aggregate(tree.subCategories, fetch).value))
    ensures r.Err? ==> (Aggregate(tree.subCategories, fetch).Err?
                        && r.error == Aggregate(tree.subCategories, fetch).error)
  {
    AggregateSucceeds(tree.subCategories, fetch);
    var perCategory := GetCategoryStatistics(tree, fetch);
    if perCategory.Err? {
      return Err(perCategory.error);
    }
    var grouped := GroupStatisticsPerDeliverable(perCategory.value);
    r := Ok(grouped);
  }

  /** A tree with one subcategory whose listing is non-empty yields one
      entry in each deliverable: the declared count, the best five of the
      listing, and its Swedish share. */
  lemma SingleCategoryDeliverables(c: Category, fetch: string -> seq<Product>)
    requires |Listing(c, fetch)| > 0
    ensures Aggregate([c], fetch).Ok?
    ensures Pivot(Aggregate([c], fetch).value).Keys == AllMetrics
    ensures Pivot(Aggregate([c], fetch).value)[NumberOfProducts] == map[c.name := Count(c.count)]
    ensures Pivot(Aggregate([c], fetch).value)[Top5Products]
         == map[c.name := TopProducts(BestSellingProducts(Listing(c, fetch), DefaultAmount))]
    ensures exists share :: CountryShare(Listing(c, fetch), DefaultCountry) == Ok(share)
              && Pivot(Aggregate([c], fetch).value)[PercentageSwedish] == map[c.name := Share(share)]
  {
    var subs := [c];
    assert subs[..0] == [] && subs[0] == c;
    assert Aggregate(subs[..0], fetch) == Ok(map[]);
    var st := StatsFor(c, fetch).value;
    assert Aggregate(subs, fetch) == Ok(map[c.name := st]);
    var m := map[c.name := st];
    assert c.name in m;
    PivotShape(m);
    var g := Pivot(m);
    assert g[NumberOfProducts].Keys == {c.name};
    assert g[Top5Products].Keys == {c.name};
    assert g[PercentageSwedish].Keys == {c.name};
    assert CountryShare(Listing(c, fetch), DefaultCountry) == Ok(st.percentageSwedish);
  }
}
