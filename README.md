# Category statistics of the mat.se catalog, in Dafny

This project models the statistics pipeline of `src/main.py`. The pipeline reads the
catalog's category tree and, for each direct subcategory of the root, reads that
category's product listing. It records three figures under the category's name:

- the declared product count from the tree;
- the five best-selling products of the listing;
- the share of the listing's products whose country of origin is `"SE"`.

It then pivots that per-category map into one map per deliverable
(`number_of_products`, `top_5_products`, `percentage_swedish`).

The model has five modules, one per component:

- `Catalog` (`catalog.dfy`): the product and category records, the error result, and
  Python's `str` of an integer.
- `Statistics` (`statistics.dfy`): the best sellers are a pure function. It is a stable
  insertion sort by sold count, highest first, followed by Python's `[:n]` slice. The
  country share is a counting loop (`CalculateCountryShare`) proved equal to an exact
  rational specification (`CountryShare`).
- `Aggregation` (`aggregation.dfy`): `get_category_statistics` is a loop that fills a map
  (`GetCategoryStatistics`). It is proved equal to a left-to-right fold (`Aggregate`).
  The HTTP fetch of a listing is the parameter `fetch: string -> seq<Product>`, applied
  to the decimal text of the category id.
- `Deliverables` (`deliverables.dfy`): `group_statistics_per_deliverable` is a loop over
  the map's keys that writes into a `defaultdict(dict)` (`GroupStatisticsPerDeliverable`).
  It is proved equal to a pivot function (`Pivot`), and that function is proved to lose
  nothing (`PivotRoundTrip`).
- `Pipeline` (`pipeline.dfy`): `main` without the file writes.

Three behaviours of the code that the model keeps as they are:

- An empty listing: the code divides by zero (`src/main.py:46`), and the exception
  aborts the whole aggregation. The model returns `Err(DivisionByZero)`, which
  `GetCategoryStatistics` and `Run` pass on.
- The pivot of an empty map: the result does not always have the three deliverables.
  The code builds a `defaultdict`, which gains a key only when something is written into
  it, so an empty input gives an empty result (`src/main.py:67-75`). `Pivot` does the
  same.
- Category ids: the code passes `str(id)` to the fetch (`src/main.py:52`), so ids are
  integers here and `DecimalString` renders them. For a string id, `str` would be the
  identity.

## Model

| member | source | states |
|---|---|---|
| `Catalog.DecimalString` | src/main.py:52 | The text handed to the listing fetch is never empty and starts with a minus sign exactly when the id is negative, as Python's `str` of an integer. |
| `Catalog.DigitsRoundTrip` | src/main.py:52 | The decimal digits of a natural number, read back most significant first, denote that number. |
| `Catalog.DecimalStringRoundTrip` | src/main.py:52 | Reading the text of `str(id)` back as Python's `int` does gives the id: the rendering loses nothing. |
| `Catalog.DecimalStringInjective` | src/main.py:52 | Two ids have the same text exactly when they are equal, so distinct categories are fetched under distinct keys. |
| `Statistics.BestSellingProducts` | src/main.py:31-35 | For a non-negative amount, the number of best sellers is `min(len(products), amount)`. It is never more than the listing has. |
| `Statistics.SortIsSorted` | src/main.py:32-34 | The sort by sold count is ordered highest first and is a permutation of its input. |
| `Statistics.SortIsStable` | src/main.py:32-34 | The sort is stable: for every sold count, the products with that count come out in their input order. |
| `Statistics.SortIsTheStableSort` | src/main.py:32-34 | A sequence is a stable descending sort of the input exactly when it equals `SortBySoldCount` of it. So the model is Python's `sorted(..., reverse=True)` and nothing else. |
| `Statistics.BestSellersSorted` | src/main.py:31-35 | The best sellers are ordered by sold count, highest first. Each is an unchanged input record, with multiplicity at most its multiplicity in the input. |
| `Statistics.BestSellersStable` | src/main.py:31-35 | For every sold count, the best sellers with that count are the first ones of that count in the input, in input order. |
| `Statistics.BestSellersLeaveOutNoBetter` | src/main.py:31-35 | Every product left out sold no more than any product kept, in particular the last one kept. |
| `Statistics.CountryCount` | src/main.py:42-45 | The number of products from the country is between 0 and the listing's length. |
| `Statistics.CountryCountMatchesIndices` | src/main.py:42-45 | That count equals the number of positions whose product has `countryOfOrigin == code`. |
| `Statistics.CountryShare` | src/main.py:41-46 | The share is defined exactly when the listing is non-empty. It then lies in [0, 1]. An empty listing is a division-by-zero error. |
| `Statistics.CountryShareExtremes` | src/main.py:41-46 | The share is 1 exactly when every product is from the country, and 0 exactly when none is. |
| `Statistics.CalculateCountryShare` | src/main.py:38-46 | The counting loop followed by the division returns the exact share, or the division-by-zero error for an empty listing. |
| `Aggregation.StatsFor` | src/main.py:52-61 | A category's entry exists exactly when its fetched listing is non-empty. Its `product_count` is the tree's declared `count`, not the listing's length. Its top five and its share in [0, 1] come from `fetch(str(id))`. |
| `Aggregation.AggregateSucceeds` | src/main.py:49-63 | The aggregation succeeds exactly when every subcategory's listing is non-empty. |
| `Aggregation.AggregateKeys` | src/main.py:50-53 | A successful aggregation's keys are exactly the names of the subcategories. |
| `Aggregation.AggregateLastWriteWins` | src/main.py:51-61 | For each name, the entry kept is the one from that name's last occurrence in the subcategories. |
| `Aggregation.AggregateAbortsOnFailure` | src/main.py:51-61 | A failure on any subcategory is the result of the whole aggregation. Nothing after it counts. |
| `Aggregation.GetCategoryStatistics` | src/main.py:49-63 | The loop over the tree's subcategories returns exactly the fold `Aggregate`, including its error. |
| `Deliverables.PivotShape` | src/main.py:66-75 | An empty input gives an empty result. Otherwise the result's keys are exactly the three deliverables. Each deliverable has the input's key set and holds, for each name, that name's field. |
| `Deliverables.PivotRoundTrip` | src/main.py:66-75 | The per-category map can be read back from the three deliverables unchanged. |
| `Deliverables.GroupStatisticsPerDeliverable` | src/main.py:66-75 | The loop that writes each category's three fields into the `defaultdict` returns exactly `Pivot` of its input, whatever order it visits the names in. |
| `Deliverables.MetricNamesDistinct` | src/main.py:69-73 | The three deliverable keys `number_of_products`, `top_5_products` and `percentage_swedish` are pairwise different, so no deliverable overwrites another. |
| `Pipeline.Run` | src/main.py:88-94 | `main` succeeds exactly when every listing is non-empty. It then yields the pivot of the aggregation; otherwise it yields the aggregation's own error, the division by zero. |
| `Pipeline.SingleCategoryDeliverables` | src/main.py:49-75 | A tree with one subcategory whose listing is non-empty gives each deliverable exactly one entry under its name: the declared count, the top five of its listing, and its Swedish share. |

## Left out

- `get_json_data`, `get_categories` and `get_category_products` (`src/main.py:14-28`): HTTP requests, status checks and JSON decoding. The category tree is an input value and a listing is `fetch` applied to the id's text. Transport and decoding failures are not modelled, and `fetch` always returns a listing.
- `save_result_to_json_files` (`src/main.py:78-85`): writing each deliverable to `<name>.json` is filesystem I/O through the JSON library. `Deliverables.MetricName` gives the file base names. `Pipeline.Run` stops at the grouped value.
- Logging and the module-level URL constants (`src/main.py:7-11`, and the `logger.info` calls).
- Floating point: the share is an exact `real`, not a rounded binary float.
- Missing fields: products and categories are typed records, so the `KeyError` a record without `soldCount`, `countryOfOrigin`, `id`, `name` or `count` would raise is not modelled. `id` is a field of its own, and the fields other than `id`, `soldCount` and `countryOfOrigin` ride along unchanged in `otherFields`.
- Sold counts are integers. Python's comparison errors for mixed or missing sort keys are not modelled.
- Dictionary order: Dafny maps are unordered, so the insertion order of keys in the output dictionaries (and hence in the written JSON) is not modelled. The values under every key are.
- Nested subcategories below the root's direct children are not visited, as in the source. `Category.subCategories` of those children is carried but never read.
