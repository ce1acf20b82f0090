/** `get_category_statistics`: for every direct subcategory of the tree, in
    order, fetch its listing and record its statistics under its name. The
    HTTP fetch is the parameter `fetch`, from the category id's text to the
    listing the endpoint returns. */
module Aggregation {
  import opened Catalog
  import opened Statistics

  /** The statistics recorded for one category. */
  datatype CategoryStats = CategoryStats(
    productCount: int,
    top5Products: seq<Product>,
    percentageSwedish: real)

  /** The listing fetched for category `c`. */
  function Listing(c: Category, fetch: string -> seq<Product>): seq<Product>
  {
    fetch(DecimalString(c.id))
  }

  /** The entry recorded for one category: the declared count from the
      tree, and the best sellers and Swedish share of the fetched listing.
      An empty listing makes the share divide by zero. */
  function StatsFor(c: Category, fetch: string -> seq<Product>): (r: Result<CategoryStats>)
    ensures r.Ok? <==> |Listing(c, fetch)| > 0
    ensures r.Ok? ==> r.value.productCount == c.count
    ensures r.Ok? ==> r.value.top5Products == BestSellingProducts(Listing(c, fetch), DefaultAmount)
    ensures r.Ok? ==> CountryShare(Listing(c, fetch), DefaultCountry) == Ok(r.value.percentageSwedish)
    ensures r.Ok? ==> 0.0 <= r.value.percentageSwedish <= 1.0
  {
    var products := Listing(c, fetch);
    match CountryShare(products, DefaultCountry)
    case Err(e) => Err(e)
    case Ok(share) =>
      Ok(CategoryStats(c.count, BestSellingProducts(products, DefaultAmount), share))
  }

  /** The names of the categories in `subs`. */
  ghost function Names(subs: seq<Category>): set<string>
  {
    set i | 0 <= i < |subs| :: subs[i].name
  }

  /** The map built by visiting `subs` left to right, each entry written
      over any earlier one with the same name; the first failure aborts the
      whole walk. */
  function Aggregate(subs: seq<Category>, fetch: string -> seq<Product>): (r: Result<map<string, CategoryStats>>)
  {
    if subs == [] then Ok(map[])
    else
      var last := subs[|subs| - 1];
      match Aggregate(subs[..|subs| - 1], fetch)
      case Err(e) => Err(e)
      case Ok(m) =>
        match StatsFor(last, fetch)
        case Err(e) => Err(e)
        case Ok(st) => Ok(m[last.name := st])
  }

  /** One step of the walk: it succeeds on `subs` exactly when it succeeds
      on all but the last category and the last listing is non-empty. */
  lemma AggregateStep(subs: seq<Category>, fetch: string -> seq<Product>)
    requires subs != []
    ensures Aggregate(subs, fetch).Ok?
        <==> Aggregate(subs[..|subs| - 1], fetch).Ok? && |Listing(subs[|subs| - 1], fetch)| > 0
  {
  }

  /** Every listing of `subs` is non-empty. */
  ghost predicate AllListed(subs: seq<Category>, fetch: string -> seq<Product>)
  {
    forall i :: 0 <= i < |subs| ==> |Listing(subs[i], fetch)| > 0
  }

  /** The walk succeeds exactly when every fetched listing is non-empty. */
  lemma {:induction false} AggregateSucceeds(subs: seq<Category>, fetch: string -> seq<Product>)
    ensures Aggregate(subs, fetch).Ok? <==> AllListed(subs, fetch)
  {
    if subs != [] {
      var n := |subs| - 1;
      var init := subs[..n];
      AggregateSucceeds(init, fetch);
      AggregateStep(subs, fetch);
      assert AllListed(subs, fetch) <==> AllListed(init, fetch) && |Listing(subs[n], fetch)| > 0 by {
        assert forall i :: 0 <= i < n ==> init[i] == subs[i];
      }
    }
  }

  /** A successful walk has one key per distinct category name and no
      other. */
  lemma {:induction false} AggregateKeys(subs: seq<Category>, fetch: string -> seq<Product>)
    requires Aggregate(subs, fetch).Ok?
    ensures Aggregate(subs, fetch).value.Keys == Names(subs)
  {
    if subs != [] {
      var n := |subs| - 1;
      var init := subs[..n];
      AggregateKeys(init, fetch);
      forall x | x in Names(subs) ensures x in Names(init) + {subs[n].name} {
        var i :| 0 <= i < |subs| && subs[i].name == x;
        if i < n {
          assert init[i] == subs[i];
        }
      }
      forall x | x in Names(init) ensures x in Names(subs) {
        var i :| 0 <= i < n && init[i].name == x;
        assert subs[i] == init[i];
      }
    }
  }

  /** The entry kept for a name is the one of its last occurrence: the
      declared count of that category, and the statistics of its listing. */
  lemma {:induction false} AggregateLastWriteWins(subs: seq<Category>, fetch: string -> seq<Product>, i: int)
    requires Aggregate(subs, fetch).Ok?
    requires 0 <= i < |subs|
    requires forall j :: i < j < |subs| ==> subs[j].name != subs[i].name
    ensures StatsFor(subs[i], fetch).Ok?
    ensures subs[i].name in Aggregate(subs, fetch).value
    ensures Aggregate(subs, fetch).value[subs[i].name] == StatsFor(subs[i], fetch).value
  {
    var n := |subs| - 1;
    if i < n {
      assert forall j :: 0 <= j < n ==> subs[..n][j] == subs[j];
      AggregateLastWriteWins(subs[..n], fetch, i);
    }
  }

  /** A failure anywhere in a prefix is the failure of the whole walk. */
  lemma {:induction false} AggregateAbortsOnFailure(subs: seq<Category>, k: nat, fetch: string -> seq<Product>)
    requires k <= |subs|
    requires Aggregate(subs[..k], fetch).Err?
    ensures Aggregate(subs, fetch) == Aggregate(subs[..k], fetch)
  {
    if k < |subs| {
      var n := |subs| - 1;
      assert subs[..n][..k] == subs[..k];
      AggregateAbortsOnFailure(subs[..n], k, fetch);
    } else {
      assert subs[..k] == subs;
    }
  }

  /** `get_category_statistics` over the tree's direct subcategories: one
      fetch per subcategory, in order, each entry stored under the
      category's name. */
  method GetCategoryStatistics(tree: Category, fetch: string -> seq<Product>)
    returns (r: Result<map<string, CategoryStats>>)
    ensures r == Aggregate(tree.subCategories, fetch)
  {
    var subs := tree.subCategories;
    var result: map<string, CategoryStats> := map[];
    for i := 0 to |subs|
      invariant Aggregate(subs[..i], fetch) == Ok(result)
    {
      var category := subs[i];
      var products := fetch(DecimalString(category.id));
      var top := BestSellingProducts(products, DefaultAmount);
      var share := CalculateCountryShare(products, DefaultCountry);
      assert subs[..i + 1][..i] == subs[..i];
      if share.Err? {
        AggregateAbortsOnFailure(subs, i + 1, fetch);
        return Err(share.error);
      }
      result := result[category.name := CategoryStats(category.count, top, share.value)];
    }
    assert subs[..|subs|] == subs;
    r := Ok(result);
  }
}
