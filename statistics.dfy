/** The two per-listing statistics: the best sellers of a listing and the
    share of its products that come from one country. */
module Statistics {
  import opened Catalog

  /** Number of best sellers kept when the caller does not say. */
  const DefaultAmount: int := 5

  /** Country code counted when the caller does not say. */
  const DefaultCountry: string := "SE"

  // ---------------------------------------------------------------------
  // Ordering by sold count
  // ---------------------------------------------------------------------

  /** Highest sold count first. */
  ghost predicate SortedDesc(s: seq<Product>)
  {
    forall i, j :: 0 <= i < j < |s| ==> s[i].soldCount >= s[j].soldCount
  }

  /** The products of `s` whose sold count is `k`, in the order of `s`.
      A sort is stable exactly when it leaves every such subsequence as it
      was. */
  function WithCount(s: seq<Product>, k: int): (r: seq<Product>)
    ensures |r| <= |s|
  {
    if s == [] then []
    else (if s[0].soldCount == k then [s[0]] else []) + WithCount(s[1..], k)
  }

  /** Puts `p` into the descending sequence `s` ahead of every product that
      sold no more than it, so it stays before the equal products that came
      after it in the input. */
  function Insert(p: Product, s: seq<Product>): (r: seq<Product>)
    ensures |r| == |s| + 1
  {
    if s == [] || s[0].soldCount <= p.soldCount then [p] + s
    else [s[0]] + Insert(p, s[1..])
  }

  /** Python's `sorted(products, key=soldCount, reverse=True)`: a stable
      sort, highest sold count first. */
  function SortBySoldCount(s: seq<Product>): (r: seq<Product>)
    ensures |r| == |s|
  {
    if s == [] then [] else Insert(s[0], SortBySoldCount(s[1..]))
  }

  /** Python's slice `s[:n]`: a negative `n` counts from the end. */
  function PrefixSlice<T>(s: seq<T>, n: int): (r: seq<T>)
    ensures r <= s
    ensures n >= 0 ==> |r| == if n < |s| then n else |s|
    ensures n < 0 ==> |r| == if -n < |s| then |s| + n else 0
  {
    if n >= 0 then (if n < |s| then s[..n] else s)
    else (if -n < |s| then s[..|s| + n] else [])
  }

  /** `find_best_selling_products`: the first `amount` products of the
      stable descending sort. */
  function BestSellingProducts(products: seq<Product>, amount: int): (r: seq<Product>)
    ensures amount >= 0 ==> |r| == if amount < |products| then amount else |products|
    ensures |r| <= |products|
  {
    PrefixSlice(SortBySoldCount(products), amount)
  }

  // ---------------------------------------------------------------------
  // Lemmas about the sort
  // ---------------------------------------------------------------------

  lemma {:induction false} WithCountAppend(a: seq<Product>, b: seq<Product>, k: int)
    ensures WithCount(a + b, k) == WithCount(a, k) + WithCount(b, k)
  {
    if a == [] {
      assert a + b == b;
    } else {
      var head := if a[0].soldCount == k then [a[0]] else [];
      assert (a + b)[0] == a[0];
      assert (a + b)[1..] == a[1..] + b;
      WithCountAppend(a[1..], b, k);
      calc {
        WithCount(a + b, k);
        head + WithCount(a[1..] + b, k);
        head + (WithCount(a[1..], k) + WithCount(b, k));
        (head + WithCount(a[1..], k)) + WithCount(b, k);
        WithCount(a, k) + WithCount(b, k);
      }
    }
  }

  /** Inserting into a descending sequence keeps it descending; the new
      head is `p` or the old head. */
  lemma {:induction false} InsertSorted(p: Product, s: seq<Product>)
    requires SortedDesc(s)
    ensures SortedDesc(Insert(p, s))
    ensures Insert(p, s)[0] == p || (s != [] && Insert(p, s)[0] == s[0])
  {
    if s != [] && s[0].soldCount > p.soldCount {
      var t := s[1..];
      InsertSorted(p, t);
      var u := Insert(p, t);
      var r := [s[0]] + u;
      assert s[0].soldCount >= u[0].soldCount;
      forall i, j | 0 <= i < j < |r| ensures r[i].soldCount >= r[j].soldCount {
        if i == 0 {
          assert r[j] == u[j - 1];
          assert u[0].soldCount >= u[j - 1].soldCount;
        } else {
          assert r[i] == u[i - 1] && r[j] == u[j - 1];
        }
      }
    }
  }

  /** Inserting adds `p` and nothing else. */
  lemma {:induction false} InsertPermutes(p: Product, s: seq<Product>)
    ensures multiset(Insert(p, s)) == multiset{p} + multiset(s)
  {
    if s != [] && s[0].soldCount > p.soldCount {
      InsertPermutes(p, s[1..]);
      assert s == [s[0]] + s[1..];
    }
  }

  /** Inserting `p` leaves the other products with `p`'s count behind it
      and every other count's products where they were. */
  lemma {:induction false} InsertWithCount(p: Product, s: seq<Product>, k: int)
    requires SortedDesc(s)
    ensures WithCount(Insert(p, s), k)
         == (if p.soldCount == k then [p] else []) + WithCount(s, k)
  {
    var pk := if p.soldCount == k then [p] else [];
    if s == [] || s[0].soldCount <= p.soldCount {
      assert ([p] + s)[0] == p;
      assert ([p] + s)[1..] == s;
    } else {
      var t := s[1..];
      var sk := if s[0].soldCount == k then [s[0]] else [];
      InsertWithCount(p, t, k);
      var u := Insert(p, t);
      assert ([s[0]] + u)[0] == s[0];
      assert ([s[0]] + u)[1..] == u;
      assert sk == [] || pk == [];
      calc {
        WithCount(Insert(p, s), k);
        sk + WithCount(u, k);
        sk + (pk + WithCount(t, k));
        pk + (sk + WithCount(t, k));
        pk + WithCount(s, k);
      }
    }
  }

  /** The sort is ordered, highest sold count first. */
  lemma {:induction false} SortIsSorted(s: seq<Product>)
    ensures SortedDesc(SortBySoldCount(s))
    ensures multiset(SortBySoldCount(s)) == multiset(s)
  {
    if s != [] {
      SortIsSorted(s[1..]);
      InsertSorted(s[0], SortBySoldCount(s[1..]));
      InsertPermutes(s[0], SortBySoldCount(s[1..]));
      assert s == [s[0]] + s[1..];
    }
  }

  /** The sort is stable: the products of every sold count come out in the
      order they went in. */
  lemma {:induction false} SortIsStable(s: seq<Product>, k: int)
    ensures WithCount(SortBySoldCount(s), k) == WithCount(s, k)
  {
    if s != [] {
      SortIsStable(s[1..], k);
      SortIsSorted(s[1..]);
      InsertWithCount(s[0], SortBySoldCount(s[1..]), k);
    }
  }

  /** A product occurs in `s` exactly when it occurs among the products of
      its own sold count. */
  lemma {:induction false} InWithCount(s: seq<Product>, p: Product)
    ensures p in s <==> p in WithCount(s, p.soldCount)
  {
    if s != [] {
      InWithCount(s[1..], p);
      assert s == [s[0]] + s[1..];
    }
  }

  /** In a descending sequence no product sold more than the head. */
  lemma HeadIsMax(t: seq<Product>, x: Product)
    requires SortedDesc(t) && x in t
    ensures x.soldCount <= t[0].soldCount
  {
  }

  /** Two sequences with the same products of every sold count hold the
      same products. */
  lemma SameMembers(r: seq<Product>, t: seq<Product>, x: Product)
    requires WithCount(r, x.soldCount) == WithCount(t, x.soldCount)
    ensures x in r <==> x in t
  {
    InWithCount(r, x);
    InWithCount(t, x);
  }

  /** Two descending orders with the same products of every sold count
      start with the same product. */
  lemma SameHead(r: seq<Product>, t: seq<Product>)
    requires SortedDesc(r) && SortedDesc(t) && r != [] && t != []
    requires forall k :: WithCount(r, k) == WithCount(t, k)
    ensures r[0] == t[0]
  {
    var a, b := r[0], t[0];
    assert a in r && b in t;
    SameMembers(r, t, a);
    SameMembers(r, t, b);
    HeadIsMax(t, a);
    HeadIsMax(r, b);
    var m := a.soldCount;
    assert b.soldCount == m;
    assert WithCount(r, m) == WithCount(t, m);
    assert WithCount(r, m)[0] == a by {
      assert WithCount(r, m) == [a] + WithCount(r[1..], m);
    }
    assert WithCount(t, m)[0] == b by {
      assert WithCount(t, m) == [b] + WithCount(t[1..], m);
    }
  }

  /** Dropping a common head keeps the products of every sold count in
      agreement. */
  lemma SameTails(r: seq<Product>, t: seq<Product>, k: int)
    requires r != [] && t != [] && r[0] == t[0]
    requires WithCount(r, k) == WithCount(t, k)
    ensures WithCount(r[1..], k) == WithCount(t[1..], k)
  {
    if r[0].soldCount == k {
      assert WithCount(r[1..], k) == WithCount(r, k)[1..];
      assert WithCount(t[1..], k) == WithCount(t, k)[1..];
    } else {
      assert WithCount(r[1..], k) == WithCount(r, k);
      assert WithCount(t[1..], k) == WithCount(t, k);
    }
  }

  /** Sortedness and stability pin the order down: two descending orders
      with the same products of every sold count, in the same order, are
      the same sequence. */
  lemma {:induction false} StableOrderUnique(r: seq<Product>, t: seq<Product>)
    requires SortedDesc(r) && SortedDesc(t)
    requires forall k :: WithCount(r, k) == WithCount(t, k)
    ensures r == t
    decreases |r|
  {
    if r == [] || t == [] {
      if r != [] {
        InWithCount(r, r[0]);
      } else if t != [] {
        InWithCount(t, t[0]);
      }
    } else {
      SameHead(r, t);
      forall k ensures WithCount(r[1..], k) == WithCount(t[1..], k) {
        SameTails(r, t, k);
      }
      StableOrderUnique(r[1..], t[1..]);
      assert r == [r[0]] + r[1..] && t == [t[0]] + t[1..];
    }
  }

  /** `r` is a stable descending sort of `s`: ordered by sold count, and
      holding the products of every sold count in the order `s` has them. */
  ghost predicate IsStableSortOf(r: seq<Product>, s: seq<Product>)
  {
    SortedDesc(r) && forall k :: WithCount(r, k) == WithCount(s, k)
  }

  /** `SortBySoldCount` is the stable descending sort: an order is a stable
      descending sort of `s` exactly when it is `SortBySoldCount(s)`. */
  lemma SortIsTheStableSort(s: seq<Product>, r: seq<Product>)
    ensures IsStableSortOf(r, s) <==> r == SortBySoldCount(s)
  {
    var sorted := SortBySoldCount(s);
    SortIsSorted(s);
    forall k ensures WithCount(sorted, k) == WithCount(s, k) {
      SortIsStable(s, k);
    }
    assert IsStableSortOf(sorted, s);
    if IsStableSortOf(r, s) {
      forall k ensures WithCount(r, k) == WithCount(sorted, k) {
        assert WithCount(r, k) == WithCount(s, k);
      }
      StableOrderUnique(r, sorted);
    }
  }

  // ---------------------------------------------------------------------
  // Lemmas about the best sellers
  // ---------------------------------------------------------------------

  /** The sorted listing is the best sellers followed by the products left
      out. */
  lemma BestSellersSplit(products: seq<Product>, amount: int)
    ensures SortBySoldCount(products)
         == BestSellingProducts(products, amount)
            + SortBySoldCount(products)[|BestSellingProducts(products, amount)|..]
  {
  }

  /** Cutting a descending sequence in two leaves nothing in the back part
      that sold more than anything in the front part. */
  lemma SortedSplit(front: seq<Product>, back: seq<Product>)
    requires SortedDesc(front + back)
    ensures SortedDesc(front)
    ensures forall x, q :: x in back && q in front ==> x.soldCount <= q.soldCount
  {
    var whole := front + back;
    forall i, j | 0 <= i < j < |front| ensures front[i].soldCount >= front[j].soldCount {
      assert whole[i] == front[i] && whole[j] == front[j];
    }
    forall x, q | x in back && q in front ensures x.soldCount <= q.soldCount {
      var i :| 0 <= i < |front| && front[i] == q;
      var j :| 0 <= j < |back| && back[j] == x;
      assert whole[i] == q && whole[|front| + j] == x;
    }
  }

  /** The best sellers are ordered by sold count, highest first, and each
      one is an unchanged record of the input. */
  lemma BestSellersSorted(products: seq<Product>, amount: int)
    ensures SortedDesc(BestSellingProducts(products, amount))
    ensures multiset(BestSellingProducts(products, amount)) <= multiset(products)
  {
    var r := BestSellingProducts(products, amount);
    var rest := SortBySoldCount(products)[|r|..];
    SortIsSorted(products);
    BestSellersSplit(products, amount);
    SortedSplit(r, rest);
    assert multiset(products) == multiset(r) + multiset(rest);
  }

  /** The best sellers keep the input order among products with equal sold
      counts: for each count, the ones kept are the first ones of that count
      in the input. */
  lemma BestSellersStable(products: seq<Product>, amount: int, k: int)
    ensures WithCount(BestSellingProducts(products, amount), k) <= WithCount(products, k)
  {
    var r := BestSellingProducts(products, amount);
    var rest := SortBySoldCount(products)[|r|..];
    BestSellersSplit(products, amount);
    WithCountAppend(r, rest, k);
    SortIsStable(products, k);
  }

  /** Every product left out sold no more than the last product kept, hence
      no more than any product kept. */
  lemma BestSellersLeaveOutNoBetter(products: seq<Product>, amount: int, p: Product)
    requires p in multiset(products) - multiset(BestSellingProducts(products, amount))
    ensures forall q :: q in BestSellingProducts(products, amount) ==> p.soldCount <= q.soldCount
  {
    var r := BestSellingProducts(products, amount);
    var rest := SortBySoldCount(products)[|r|..];
    SortIsSorted(products);
    BestSellersSplit(products, amount);
    assert p in rest by {
      assert multiset(products) == multiset(r) + multiset(rest);
    }
    SortedSplit(r, rest);
  }

  // ---------------------------------------------------------------------
  // Share of one country
  // ---------------------------------------------------------------------

  /** How many products of `s` come from `code`. */
  function CountryCount(s: seq<Product>, code: string): (n: nat)
    ensures n <= |s|
  {
    if s == [] then 0
    else CountryCount(s[..|s| - 1], code) + (if s[|s| - 1].countryOfOrigin == code then 1 else 0)
  }

  /** The positions of `s` holding a product from `code`. */
  ghost function CountryIndices(s: seq<Product>, code: string): set<int>
  {
    set i | 0 <= i < |s| && s[i].countryOfOrigin == code
  }

  /** The count is the number of products from `code`, position by
      position. */
  lemma {:induction false} CountryCountMatchesIndices(s: seq<Product>, code: string)
    ensures CountryCount(s, code) == |CountryIndices(s, code)|
  {
    if s != [] {
      var n := |s| - 1;
      var init := s[..n];
      CountryCountMatchesIndices(init, code);
      var before := CountryIndices(init, code);
      assert forall i :: 0 <= i < n ==> init[i] == s[i];
      if s[n].countryOfOrigin == code {
        assert CountryIndices(s, code) == before + {n};
        assert n !in before;
      } else {
        assert CountryIndices(s, code) == before;
      }
    }
  }

  /** Every product is from `code` exactly when all of them are counted. */
  lemma {:induction false} CountryCountAll(s: seq<Product>, code: string)
    ensures CountryCount(s, code) == |s|
        <==> forall i :: 0 <= i < |s| ==> s[i].countryOfOrigin == code
  {
    if s != [] {
      var n := |s| - 1;
      CountryCountAll(s[..n], code);
      assert forall i :: 0 <= i < n ==> s[..n][i] == s[i];
    }
  }

  /** No product is from `code` exactly when none is counted. */
  lemma {:induction false} CountryCountNone(s: seq<Product>, code: string)
    ensures CountryCount(s, code) == 0
        <==> forall i :: 0 <= i < |s| ==> s[i].countryOfOrigin != code
  {
    if s != [] {
      var n := |s| - 1;
      CountryCountNone(s[..n], code);
      assert forall i :: 0 <= i < n ==> s[..n][i] == s[i];
    }
  }

  /** `count / len(products)`, exactly; an empty listing divides by zero. */
  function CountryShare(products: seq<Product>, code: string): (r: Result<real>)
    ensures r.Ok? <==> |products| > 0
    ensures r.Ok? ==> 0.0 <= r.value <= 1.0
  {
    if |products| == 0 then Err(DivisionByZero)
    else Ok(CountryCount(products, code) as real / |products| as real)
  }

  /** The share is 1 exactly when every product is from `code`, and 0
      exactly when none is. */
  lemma CountryShareExtremes(products: seq<Product>, code: string)
    requires |products| > 0
    ensures CountryShare(products, code) == Ok(1.0)
        <==> forall i :: 0 <= i < |products| ==> products[i].countryOfOrigin == code
    ensures CountryShare(products, code) == Ok(0.0)
        <==> forall i :: 0 <= i < |products| ==> products[i].countryOfOrigin != code
  {
    CountryCountAll(products, code);
    CountryCountNone(products, code);
    FractionExtremes(CountryCount(products, code), |products|);
  }

  /** A fraction of a positive whole is 1 only for the whole and 0 only for
      nothing. */
  lemma FractionExtremes(c: nat, n: nat)
    requires 0 < n
    ensures c as real / n as real == 1.0 <==> c == n
    ensures c as real / n as real == 0.0 <==> c == 0
  {
  }

  /** `calculate_percentage_country_specific_products`: counts the
      products from `code` in one pass, then divides by the listing's
      length. */
  method CalculateCountryShare(products: seq<Product>, code: string) returns (r: Result<real>)
    ensures r == CountryShare(products, code)
  {
    var total := |products|;
    var count := 0;
    for i := 0 to |products|
      invariant count == CountryCount(products[..i], code)
    {
      assert products[..i + 1][..i] == products[..i];
      if products[i].countryOfOrigin == code {
        count := count + 1;
      }
    }
    assert products[..|products|] == products;
    if total == 0 {
      return Err(DivisionByZero);
    }
    r := Ok(count as real / total as real);
  }
}
