/** The data-aggregation benchmark: group-by passes over a list of sales
    transactions, joined with user and product lookups. Only the integer and
    set parts are modelled: counts, quantities, distinct users, products and
    regions, the ten most common products, the keys of the monthly tables.
    Amounts, prices and every average are floating point and left out. Each
    `defaultdict` becomes a `GroupBy` whose per-key accumulator is a datatype
    and whose loop body is a step function. */
module Aggregation {
  import opened Common
  import opened Grouping

  datatype Transaction = Transaction(
    id: string, userId: string, productId: string, category: string,
    quantity: int, date: string, region: string, paymentMethod: string)

  datatype User = User(id: string, age: int, tier: string)

  datatype Product = Product(id: string, category: string)

  function TxnId(t: Transaction): string { t.id }
  function UserOf(t: Transaction): string { t.userId }
  function ProductOf(t: Transaction): string { t.productId }
  function CategoryOf(t: Transaction): string { t.category }
  function QuantityOf(t: Transaction): int { t.quantity }
  function RegionOf(t: Transaction): string { t.region }
  function PaymentOf(t: Transaction): string { t.paymentMethod }
  function MonthOf(t: Transaction): string { SliceTo(t.date, 7) }
  function UserId(u: User): string { u.id }
  function ProductId(p: Product): string { p.id }

  // ---------------------------------------------------------------------------
  // collections.Counter and most_common
  // ---------------------------------------------------------------------------

  /** A `Counter`: the counts, and the keys in first-insertion order. */
  datatype Counter = Counter(counts: map<string, nat>, order: seq<string>)

  const EmptyCounter := Counter(map[], [])

  /** `counter[k] += 1`. */
  function Increment(c: Counter, k: string): Counter {
    Counter(Bump(c.counts, k), if k in c.order then c.order else c.order + [k])
  }

  /** Counting keys one at a time is tallying them. */
  lemma {:induction false} IncrementSnoc(keys: seq<string>, k: string)
    ensures Increment(Counter(Tally(keys), DistinctKeys(keys)), k)
         == Counter(Tally(keys + [k]), DistinctKeys(keys + [k]))
  {
    TallySnoc(keys, k);
    assert (keys + [k])[..|keys|] == keys;
  }

  /** `counter.items()`, in insertion order. */
  function Items(c: Counter): (items: seq<(string, nat)>)
    ensures |items| == |c.order|
    ensures forall i :: 0 <= i < |items| ==> items[i].0 == c.order[i]
  {
    seq(|c.order|, i requires 0 <= i < |c.order| =>
      (c.order[i], if c.order[i] in c.counts then c.counts[c.order[i]] else 0))
  }

  /** Index of the first entry with the largest count. */
  function FirstMax(items: seq<(string, nat)>): (i: nat)
    requires |items| > 0
    ensures i < |items|
    ensures forall j :: 0 <= j < |items| ==> items[j].1 <= items[i].1
    ensures forall j :: 0 <= j < i ==> items[j].1 < items[i].1
    decreases |items|
  {
    if |items| == 1 then 0
    else
      var i := FirstMax(items[..|items| - 1]);
      if items[|items| - 1].1 > items[i].1 then |items| - 1 else i
  }

  /** `Counter.most_common(n)`: the `n` entries with the largest counts, in
      decreasing order, ties kept in insertion order (a stable sort). Modelled
      as repeated selection of the first maximum. */
  function MostCommon(items: seq<(string, nat)>, n: nat): (top: seq<(string, nat)>)
    ensures |top| == if n < |items| then n else |items|
    ensures forall p :: p in top ==> p in items
    decreases n
  {
    if n == 0 || |items| == 0 then []
    else
      var i := FirstMax(items);
      [items[i]] + MostCommon(items[..i] + items[i + 1..], n - 1)
  }

  /** Nothing left out of `most_common(n)` beats anything in it. */
  lemma {:induction false} MostCommonDominates(items: seq<(string, nat)>, n: nat, p: (string, nat), q: (string, nat))
    requires p in items && p !in MostCommon(items, n) && q in MostCommon(items, n)
    ensures p.1 <= q.1
    decreases n
  {
    var i := FirstMax(items);
    var rest := items[..i] + items[i + 1..];
    var top' := MostCommon(rest, n - 1);
    assert MostCommon(items, n) == [items[i]] + top';
    AtMostMax(items, p);
    if q != items[i] {
      InRest(items, i, p);
      MostCommonDominates(rest, n - 1, p, q);
    }
  }

  lemma AtMostMax(items: seq<(string, nat)>, p: (string, nat))
    requires p in items
    ensures p.1 <= items[FirstMax(items)].1
  {
    var j :| 0 <= j < |items| && items[j] == p;
  }

  /** Removing entry `i` keeps every other entry. */
  lemma InRest(items: seq<(string, nat)>, i: nat, p: (string, nat))
    requires i < |items| && p in items && p != items[i]
    ensures p in items[..i] + items[i + 1..]
  {
    var j :| 0 <= j < |items| && items[j] == p;
    if j < i {
      assert (items[..i] + items[i + 1..])[j] == p;
    } else {
      assert (items[..i] + items[i + 1..])[j - 1] == p;
    }
  }

  lemma FromRest(items: seq<(string, nat)>, i: nat, p: (string, nat))
    requires i < |items| && p in items[..i] + items[i + 1..]
    ensures p in items
  {
    var rest := items[..i] + items[i + 1..];
    var j :| 0 <= j < |rest| && rest[j] == p;
    if j < i {
      assert items[j] == p;
    } else {
      assert items[j + 1] == p;
    }
  }

  /** `most_common(n)` lists the counts in decreasing order. */
  lemma {:induction false} MostCommonSorted(items: seq<(string, nat)>, n: nat, j: nat)
    requires 0 < j < |MostCommon(items, n)|
    ensures MostCommon(items, n)[j].1 <= MostCommon(items, n)[j - 1].1
    decreases n
  {
    var i := FirstMax(items);
    var rest := items[..i] + items[i + 1..];
    var top' := MostCommon(rest, n - 1);
    assert MostCommon(items, n) == [items[i]] + top';
    if j == 1 {
      FromRest(items, i, top'[0]);
      AtMostMax(items, top'[0]);
    } else {
      MostCommonSorted(rest, n - 1, j - 1);
    }
  }

  /** The items of a tallied counter carry the true counts. */
  lemma TalliedItem(keys: seq<string>, p: (string, nat))
    requires p in Items(Counter(Tally(keys), DistinctKeys(keys)))
    ensures p.0 in keys && p.1 == multiset(keys)[p.0]
  {
    var items := Items(Counter(Tally(keys), DistinctKeys(keys)));
    var i :| 0 <= i < |items| && items[i] == p;
  }

  /** Each key of a tallied counter appears among its items with its count. */
  lemma ItemOfKey(keys: seq<string>, k: string)
    requires k in keys
    ensures (k, multiset(keys)[k]) in Items(Counter(Tally(keys), DistinctKeys(keys)))
  {
    var order := DistinctKeys(keys);
    var i :| 0 <= i < |order| && order[i] == k;
    assert Items(Counter(Tally(keys), order))[i] == (k, multiset(keys)[k]);
  }

  /** What `most_common(n)` promises about a tally of `keys`: at most `n`
      entries, each a key of `keys` with its true count, in decreasing order
      of count, and no key left out occurs more often than one listed. */
  lemma TopOfTally(keys: seq<string>, n: nat)
    ensures var top := MostCommon(Items(Counter(Tally(keys), DistinctKeys(keys))), n);
      && |top| <= n
      && (forall p :: p in top ==> p.0 in keys && p.1 == multiset(keys)[p.0])
      && (forall j :: 0 < j < |top| ==> top[j].1 <= top[j - 1].1)
      && (forall k, q :: k in keys && (k, multiset(keys)[k]) !in top && q in top ==> multiset(keys)[k] <= q.1)
  {
    var items := Items(Counter(Tally(keys), DistinctKeys(keys)));
    var top := MostCommon(items, n);
    forall p | p in top ensures p.0 in keys && p.1 == multiset(keys)[p.0] {
      TalliedItem(keys, p);
    }
    forall j | 0 < j < |top| ensures top[j].1 <= top[j - 1].1 {
      MostCommonSorted(items, n, j);
    }
    forall k, q | k in keys && (k, multiset(keys)[k]) !in top && q in top
      ensures multiset(keys)[k] <= q.1
    {
      ItemOfKey(keys, k);
      MostCommonDominates(items, n, (k, multiset(keys)[k]), q);
    }
  }

  // ---------------------------------------------------------------------------
  // aggregate_transactions_by_category
  // ---------------------------------------------------------------------------

  /** The running entry of `category_stats` for one category. */
  datatype CategoryAcc = CategoryAcc(totalQuantity: int, count: nat, users: set<string>, products: Counter)

  const NewCategoryAcc := CategoryAcc(0, 0, {}, EmptyCounter)

  function CategoryStep(a: CategoryAcc, t: Transaction): CategoryAcc {
    CategoryAcc(a.totalQuantity + t.quantity, a.count + 1, a.users + {t.userId},
                Increment(a.products, t.productId))
  }

  /** A finished entry: the user set replaced by its size, the counter by its
      ten most common products. */
  datatype CategoryStats = CategoryStats(
    totalQuantity: int, transactionCount: nat, uniqueUsers: nat, topProducts: seq<(string, nat)>)

  function FinishCategory(a: CategoryAcc): CategoryStats {
    CategoryStats(a.totalQuantity, a.count, |a.users|, MostCommon(Items(a.products), 10))
  }

  /** `aggregate_transactions_by_category`. */
  function ByCategory(txns: seq<Transaction>): (r: map<string, CategoryStats>)
    ensures forall c :: c in r <==> c in Project(txns, CategoryOf)
  {
    var groups := GroupBy(txns, CategoryOf, NewCategoryAcc, CategoryStep);
    GroupByKeys(txns, CategoryOf, NewCategoryAcc, CategoryStep);
    map c | c in groups :: FinishCategory(groups[c])
  }

  /** The accumulator after a group `g`: its quantities summed, its length,
      its users, and a tally of its products. */
  lemma {:induction false} CategoryAccOf(g: seq<Transaction>)
    ensures var a := Fold(g, NewCategoryAcc, CategoryStep);
      && a.totalQuantity == Sum(Project(g, QuantityOf))
      && a.count == |g|
      && (forall u :: u in a.users <==> u in Project(g, UserOf))
      && |a.users| <= |g|
      && a.products == Counter(Tally(Project(g, ProductOf)), DistinctKeys(Project(g, ProductOf)))
    decreases |g|
  {
    if |g| > 0 {
      var h, t := g[..|g| - 1], g[|g| - 1];
      CategoryAccOf(h);
      SplitLast(g);
      ProjectSnoc(h, t, QuantityOf);
      ProjectSnoc(h, t, UserOf);
      ProjectSnoc(h, t, ProductOf);
      IncrementSnoc(Project(h, ProductOf), t.productId);
      assert Project(g, QuantityOf)[..|h|] == Project(h, QuantityOf);
    }
  }

  /** The transactions of category `c`, in input order. */
  function InCategory(txns: seq<Transaction>, c: string): seq<Transaction> {
    Filter(txns, HasKey(CategoryOf, c))
  }

  /** Each category's entry describes exactly that category's transactions. */
  lemma CategoryStatsSound(txns: seq<Transaction>, c: string)
    requires c in ByCategory(txns)
    ensures var s := ByCategory(txns)[c]; var g := InCategory(txns, c);
      && s.transactionCount == |g| == multiset(Project(txns, CategoryOf))[c]
      && s.totalQuantity == Sum(Project(g, QuantityOf))
      && s.uniqueUsers <= s.transactionCount
      && |s.topProducts| <= 10
      && (forall p :: p in s.topProducts ==>
            p.0 in Project(g, ProductOf) && p.1 == multiset(Project(g, ProductOf))[p.0])
      && (forall k, q :: k in Project(g, ProductOf) && q in s.topProducts
            && (k, multiset(Project(g, ProductOf))[k]) !in s.topProducts
            ==> multiset(Project(g, ProductOf))[k] <= q.1)
  {
    GroupByKeys(txns, CategoryOf, NewCategoryAcc, CategoryStep);
    GroupByGroups(txns, CategoryOf, NewCategoryAcc, CategoryStep, c);
    var g := InCategory(txns, c);
    CategoryAccOf(g);
    CountIfKey(txns, CategoryOf, c);
    TopOfTally(Project(g, ProductOf), 10);
  }

  /** The per-category counts partition the transactions. */
  lemma CategoryCountsPartition(txns: seq<Transaction>)
    ensures var r := ByCategory(txns);
      SumOver(map c | c in r :: r[c].transactionCount, DistinctKeys(Project(txns, CategoryOf))) == |txns|
  {
    var r := ByCategory(txns);
    var counts := map c | c in r :: r[c].transactionCount;
    forall c | c in counts ensures counts[c] == multiset(Project(txns, CategoryOf))[c] {
      CategoryStatsSound(txns, c);
    }
    SumOverCounts(counts, Project(txns, CategoryOf));
  }

  // ---------------------------------------------------------------------------
  // aggregate_by_region_and_payment
  // ---------------------------------------------------------------------------

  /** One `nested_stats[region][payment]` entry: the count and the ids. */
  datatype Cell = Cell(count: nat, transactions: seq<string>)

  const NewCell := Cell(0, [])

  function CellStep(c: Cell, t: Transaction): Cell {
    Cell(c.count + 1, c.transactions + [t.id])
  }

  /** `aggregate_by_region_and_payment`: regions, then payment methods. */
  function ByRegionAndPayment(txns: seq<Transaction>): map<string, map<string, Cell>> {
    GroupBy(txns, RegionOf, map[], GroupStep(PaymentOf, NewCell, CellStep))
  }

  lemma {:induction false} CellOf(g: seq<Transaction>)
    ensures Fold(g, NewCell, CellStep) == Cell(|g|, Project(g, TxnId))
    decreases |g|
  {
    if |g| > 0 {
      CellOf(g[..|g| - 1]);
      SplitLast(g);
      ProjectSnoc(g[..|g| - 1], g[|g| - 1], TxnId);
    }
  }

  /** The transactions of one region, or of one region and payment method. */
  function InRegion(txns: seq<Transaction>, region: string): seq<Transaction> {
    Filter(txns, HasKey(RegionOf, region))
  }

  function InCell(txns: seq<Transaction>, region: string, payment: string): seq<Transaction> {
    Filter(InRegion(txns, region), HasKey(PaymentOf, payment))
  }

  /** A cell exists exactly for the region and payment pairs that occur, and
      lists the ids of those transactions in input order, its count being
      their number. */
  lemma RegionPaymentCells(txns: seq<Transaction>, region: string, payment: string)
    ensures var r := ByRegionAndPayment(txns);
      && (region in r <==> region in Project(txns, RegionOf))
      && (region in r ==> (payment in r[region] <==> payment in Project(InRegion(txns, region), PaymentOf)))
      && (region in r && payment in r[region] ==>
            var g := InCell(txns, region, payment);
            r[region][payment] == Cell(|g|, Project(g, TxnId)) && r[region][payment].count == |r[region][payment].transactions|)
  {
    var inner := GroupStep(PaymentOf, NewCell, CellStep);
    GroupByKeys(txns, RegionOf, map[], inner);
    GroupByGroups(txns, RegionOf, map[], inner, region);
    var h := InRegion(txns, region);
    GroupByKeys(h, PaymentOf, NewCell, CellStep);
    GroupByGroups(h, PaymentOf, NewCell, CellStep, payment);
    CellOf(InCell(txns, region, payment));
  }

  // ---------------------------------------------------------------------------
  // analyze_user_behavior
  // ---------------------------------------------------------------------------

  /** The running entry of `user_stats`: the monthly spending table is kept
      as its set of keys, the amounts being floating point. */
  datatype UserAcc = UserAcc(count: nat, categories: set<string>, payments: Counter, months: set<string>)

  const NewUserAcc := UserAcc(0, {}, EmptyCounter, {})

  function UserStep(a: UserAcc, t: Transaction): UserAcc {
    UserAcc(a.count + 1, a.categories + {t.category}, Increment(a.payments, t.paymentMethod),
            a.months + {MonthOf(t)})
  }

  /** A finished entry, with the demographics of a user found in the lookup. */
  datatype UserStats = UserStats(
    transactionCount: nat, categories: nat, preferredPayment: Option<string>,
    months: set<string>, age: Option<int>, tier: Option<string>)

  function FinishUser(a: UserAcc, info: Option<User>): UserStats {
    var top := MostCommon(Items(a.payments), 1);
    UserStats(a.count, |a.categories|, if |top| == 0 then None else Some(top[0].0), a.months,
              if info.Some? then Some(info.value.age) else None,
              if info.Some? then Some(info.value.tier) else None)
  }

  /** `analyze_user_behavior`. */
  function AnalyzeUserBehavior(txns: seq<Transaction>, users: seq<User>): (r: map<string, UserStats>)
    ensures forall u :: u in r <==> u in Project(txns, UserOf)
  {
    var lookup := IndexBy(users, UserId);
    var groups := GroupBy(txns, UserOf, NewUserAcc, UserStep);
    GroupByKeys(txns, UserOf, NewUserAcc, UserStep);
    map u | u in groups :: FinishUser(groups[u], if u in lookup then Some(lookup[u]) else None)
  }

  lemma {:induction false} UserAccOf(g: seq<Transaction>)
    ensures var a := Fold(g, NewUserAcc, UserStep);
      && a.count == |g|
      && (forall c :: c in a.categories <==> c in Project(g, CategoryOf))
      && |a.categories| <= |g|
      && a.payments == Counter(Tally(Project(g, PaymentOf)), DistinctKeys(Project(g, PaymentOf)))
      && (forall m :: m in a.months <==> m in Project(g, MonthOf))
    decreases |g|
  {
    if |g| > 0 {
      var h, t := g[..|g| - 1], g[|g| - 1];
      UserAccOf(h);
      SplitLast(g);
      ProjectSnoc(h, t, CategoryOf);
      ProjectSnoc(h, t, PaymentOf);
      ProjectSnoc(h, t, MonthOf);
      IncrementSnoc(Project(h, PaymentOf), t.paymentMethod);
    }
  }

  /** The transactions of user `u`, in input order. */
  function OfUser(txns: seq<Transaction>, u: string): seq<Transaction> {
    Filter(txns, HasKey(UserOf, u))
  }

  /** A user's entry: its count, at most that many categories, a most-used
      payment method, and the months `date[:7]` of its transactions. */
  lemma UserStatsSound(txns: seq<Transaction>, users: seq<User>, u: string)
    requires u in AnalyzeUserBehavior(txns, users)
    ensures var s := AnalyzeUserBehavior(txns, users)[u]; var g := OfUser(txns, u);
      var pays := Project(g, PaymentOf);
      && s.transactionCount == |g| >= 1
      && s.categories <= s.transactionCount
      && (forall m :: m in s.months <==> m in Project(g, MonthOf))
      && s.preferredPayment.Some? && s.preferredPayment.value in pays
      && (forall q :: q in pays ==> multiset(pays)[q] <= multiset(pays)[s.preferredPayment.value])
  {
    GroupByKeys(txns, UserOf, NewUserAcc, UserStep);
    GroupByGroups(txns, UserOf, NewUserAcc, UserStep, u);
    var g := OfUser(txns, u);
    UserAccOf(g);
    CountIfKey(txns, UserOf, u);
    PreferredIsMost(Project(g, PaymentOf));
  }

  /** Age and tier are present exactly for users in the lookup, taken from
      the last user record with that id. */
  lemma UserDemographics(txns: seq<Transaction>, users: seq<User>, u: string)
    requires u in AnalyzeUserBehavior(txns, users)
    ensures var s := AnalyzeUserBehavior(txns, users)[u];
      && (s.age.Some? <==> u in Project(users, UserId))
      && (s.tier.Some? <==> u in Project(users, UserId))
      && (s.age.Some? ==> var rs := Filter(users, HasKey(UserId, u));
            |rs| > 0 && s.age.value == rs[|rs| - 1].age && s.tier.value == rs[|rs| - 1].tier)
  {
    IndexByLast(users, UserId, u);
  }

  /** `most_common(1)` of a non-empty tally names a key of greatest count. */
  lemma PreferredIsMost(keys: seq<string>)
    requires |keys| > 0
    ensures var top := MostCommon(Items(Counter(Tally(keys), DistinctKeys(keys))), 1);
      && |top| == 1 && top[0].0 in keys
      && forall q :: q in keys ==> multiset(keys)[q] <= multiset(keys)[top[0].0]
  {
    assert keys[0] in keys;
    TopOfTally(keys, 1);
    var top := MostCommon(Items(Counter(Tally(keys), DistinctKeys(keys))), 1);
    assert top[0] in top;
    forall q | q in keys ensures multiset(keys)[q] <= multiset(keys)[top[0].0] {
      if (q, multiset(keys)[q]) in top {
        assert top[0] == (q, multiset(keys)[q]);
      }
    }
  }

  // ---------------------------------------------------------------------------
  // create_complex_aggregations
  // ---------------------------------------------------------------------------

  datatype TierAcc = TierAcc(count: nat, products: set<string>)

  const NewTierAcc := TierAcc(0, {})

  function TierStep(a: TierAcc, t: Transaction): TierAcc {
    TierAcc(a.count + 1, a.products + {t.productId})
  }

  datatype ProductAcc = ProductAcc(quantitySold: int, buyers: set<string>, regions: set<string>)

  const NewProductAcc := ProductAcc(0, {}, {})

  function ProductStep(a: ProductAcc, t: Transaction): ProductAcc {
    ProductAcc(a.quantitySold + t.quantity, a.buyers + {t.userId}, a.regions + {t.region})
  }

  function CountStep(n: nat, t: Transaction): nat { n + 1 }

  /** `temporal_patterns[month][category] += amount`, keeping only the keys. */
  function TemporalStep(categories: set<string>, t: Transaction): set<string> {
    categories + {t.category}
  }

  /** Whether a transaction's user is in the lookup, and that user's tier. */
  function Known(lookup: map<string, User>): Transaction -> bool {
    (t: Transaction) => t.userId in lookup
  }

  function TierOf(lookup: map<string, User>): Transaction -> string {
    (t: Transaction) => if t.userId in lookup then lookup[t.userId].tier else ""
  }

  /** The loop body of `create_complex_aggregations`, one table at a time. */
  function CategoryRegionStep(): (map<string, map<string, nat>>, Transaction) -> map<string, map<string, nat>> {
    GroupStep(CategoryOf, map[], GroupStep(RegionOf, 0, CountStep))
  }

  function TierTableStep(lookup: map<string, User>): (map<string, TierAcc>, Transaction) -> map<string, TierAcc> {
    Guarded(Known(lookup), GroupStep(TierOf(lookup), NewTierAcc, TierStep))
  }

  function ProductTableStep(): (map<string, ProductAcc>, Transaction) -> map<string, ProductAcc> {
    GroupStep(ProductOf, NewProductAcc, ProductStep)
  }

  function TemporalTableStep(): (map<string, set<string>>, Transaction) -> map<string, set<string>> {
    GroupStep(MonthOf, {}, TemporalStep)
  }

  /** The four tables the main loop fills (`cross_category_analysis` is
      never written to). */
  datatype ComplexAcc = ComplexAcc(
    categoryRegion: map<string, map<string, nat>>, tiers: map<string, TierAcc>,
    products: map<string, ProductAcc>, temporal: map<string, set<string>>)

  const NewComplexAcc := ComplexAcc(map[], map[], map[], map[])

  /** One iteration of the main loop: every table updated for transaction `t`. */
  function ComplexStep(lookup: map<string, User>): (ComplexAcc, Transaction) -> ComplexAcc {
    (a: ComplexAcc, t: Transaction) => ComplexAcc(
      CategoryRegionStep()(a.categoryRegion, t), TierTableStep(lookup)(a.tiers, t),
      ProductTableStep()(a.products, t), TemporalTableStep()(a.temporal, t))
  }

  /** The single loop fills each table as a loop of its own would: the tables
      do not interact. */
  lemma {:induction false} ComplexSplit(txns: seq<Transaction>, lookup: map<string, User>)
    ensures Fold(txns, NewComplexAcc, ComplexStep(lookup)) == ComplexAcc(
      Fold(txns, map[], CategoryRegionStep()), Fold(txns, map[], TierTableStep(lookup)),
      Fold(txns, map[], ProductTableStep()), Fold(txns, map[], TemporalTableStep()))
    decreases |txns|
  {
    if |txns| > 0 {
      ComplexSplit(txns[..|txns| - 1], lookup);
    }
  }

  datatype TierStats = TierStats(count: nat, uniqueProducts: nat)

  datatype ProductStats = ProductStats(quantitySold: int, uniqueBuyers: nat, regions: nat, category: Option<string>)

  /** The result: per category and region the transaction count, per tier,
      per product, per month the categories seen, and the empty
      `cross_category_analysis`. */
  datatype ComplexStats = ComplexStats(
    categoryRegion: map<string, map<string, nat>>, tiers: map<string, TierStats>,
    products: map<string, ProductStats>, temporal: map<string, set<string>>,
    crossCategory: map<string, map<string, int>>)

  /** `create_complex_aggregations`. */
  function CreateComplexAggregations(txns: seq<Transaction>, users: seq<User>, products: seq<Product>): ComplexStats {
    var productLookup := IndexBy(products, ProductId);
    var userLookup := IndexBy(users, UserId);
    var a := Fold(txns, NewComplexAcc, ComplexStep(userLookup));
    ComplexStats(
      a.categoryRegion,
      map k | k in a.tiers :: TierStats(a.tiers[k].count, |a.tiers[k].products|),
      map k | k in a.products :: ProductStats(
        a.products[k].quantitySold, |a.products[k].buyers|, |a.products[k].regions|,
        if k in productLookup then Some(productLookup[k].category) else None),
      a.temporal,
      map[])
  }

  lemma {:induction false} CountOf(g: seq<Transaction>)
    ensures Fold(g, 0, CountStep) == |g|
    decreases |g|
  {
    if |g| > 0 {
      CountOf(g[..|g| - 1]);
    }
  }

  lemma {:induction false} TierAccOf(g: seq<Transaction>)
    ensures var a := Fold(g, NewTierAcc, TierStep);
      a.count == |g| && |a.products| <= |g|
    decreases |g|
  {
    if |g| > 0 {
      TierAccOf(g[..|g| - 1]);
    }
  }

  lemma {:induction false} ProductAccOf(g: seq<Transaction>)
    ensures var a := Fold(g, NewProductAcc, ProductStep);
      && a.quantitySold == Sum(Project(g, QuantityOf))
      && |a.buyers| <= |g| && |a.regions| <= |g|
    decreases |g|
  {
    if |g| > 0 {
      var h, t := g[..|g| - 1], g[|g| - 1];
      ProductAccOf(h);
      SplitLast(g);
      ProjectSnoc(h, t, QuantityOf);
      assert Project(g, QuantityOf)[..|h|] == Project(h, QuantityOf);
    }
  }

  lemma {:induction false} TemporalOf(g: seq<Transaction>)
    ensures forall c :: c in Fold(g, {}, TemporalStep) <==> c in Project(g, CategoryOf)
    decreases |g|
  {
    if |g| > 0 {
      var h, t := g[..|g| - 1], g[|g| - 1];
      TemporalOf(h);
      SplitLast(g);
      ProjectSnoc(h, t, CategoryOf);
    }
  }

  /** Every category and region pair that occurs gets a summary, built from a
      non-empty list (so its average, minimum and maximum exist) holding one
      entry per transaction of the pair. */
  lemma CategoryRegionSound(txns: seq<Transaction>, users: seq<User>, products: seq<Product>, c: string, region: string)
    ensures var r := CreateComplexAggregations(txns, users, products).categoryRegion;
      && (c in r <==> c in Project(txns, CategoryOf))
      && (c in r ==> (region in r[c] <==> region in Project(InCategory(txns, c), RegionOf)))
      && (c in r && region in r[c] ==>
            r[c][region] == |Filter(InCategory(txns, c), HasKey(RegionOf, region))| >= 1)
  {
    ComplexSplit(txns, IndexBy(users, UserId));
    var inner := GroupStep(RegionOf, 0, CountStep);
    GroupByKeys(txns, CategoryOf, map[], inner);
    GroupByGroups(txns, CategoryOf, map[], inner, c);
    var g := InCategory(txns, c);
    GroupByKeys(g, RegionOf, 0, CountStep);
    GroupByGroups(g, RegionOf, 0, CountStep, region);
    CountOf(Filter(g, HasKey(RegionOf, region)));
    CountIfKey(g, RegionOf, region);
  }

  /** Tier statistics cover only the transactions whose user is in the
      lookup: a tier's count is the number of those transactions with that
      tier, and it has at most that many distinct products. */
  lemma TierSound(txns: seq<Transaction>, users: seq<User>, products: seq<Product>, tier: string)
    ensures var lookup := IndexBy(users, UserId); var known := Filter(txns, Known(lookup));
      var r := CreateComplexAggregations(txns, users, products).tiers;
      && (tier in r <==> tier in Project(known, TierOf(lookup)))
      && (tier in r ==>
            r[tier].count == multiset(Project(known, TierOf(lookup)))[tier]
            && r[tier].uniqueProducts <= r[tier].count)
  {
    var lookup := IndexBy(users, UserId);
    var known := Filter(txns, Known(lookup));
    ComplexSplit(txns, lookup);
    FoldGuarded(txns, Known(lookup), map[], GroupStep(TierOf(lookup), NewTierAcc, TierStep));
    GroupByKeys(known, TierOf(lookup), NewTierAcc, TierStep);
    GroupByGroups(known, TierOf(lookup), NewTierAcc, TierStep, tier);
    TierAccOf(Filter(known, HasKey(TierOf(lookup), tier)));
    CountIfKey(known, TierOf(lookup), tier);
  }

  /** The tier counts add up to the number of transactions whose user is in
      the lookup, so to at most the number of transactions. */
  lemma TierCountsBound(txns: seq<Transaction>, users: seq<User>, products: seq<Product>)
    ensures var lookup := IndexBy(users, UserId); var known := Filter(txns, Known(lookup));
      var r := CreateComplexAggregations(txns, users, products).tiers;
      && SumOver(map k | k in r :: r[k].count, DistinctKeys(Project(known, TierOf(lookup)))) == |known|
      && |known| <= |txns|
      && (forall t :: t in known <==> t in txns && t.userId in Project(users, UserId))
  {
    var lookup := IndexBy(users, UserId);
    var known := Filter(txns, Known(lookup));
    var r := CreateComplexAggregations(txns, users, products).tiers;
    var counts := map k | k in r :: r[k].count;
    forall k ensures (k in counts <==> k in Project(known, TierOf(lookup)))
      && (k in counts ==> counts[k] == multiset(Project(known, TierOf(lookup)))[k])
    {
      TierSound(txns, users, products, k);
    }
    SumOverCounts(counts, Project(known, TierOf(lookup)));
    forall t | t in txns ensures Known(lookup)(t) <==> t.userId in Project(users, UserId) {
      IndexByLast(users, UserId, t.userId);
    }
  }

  /** Per product: the quantity sold is the sum of its quantities, it has at
      most as many distinct buyers and regions as transactions, and its
      category comes from the last product record with its id, if any. */
  lemma ProductSound(txns: seq<Transaction>, users: seq<User>, products: seq<Product>, pid: string)
    ensures var r := CreateComplexAggregations(txns, users, products).products;
      var g := Filter(txns, HasKey(ProductOf, pid));
      && (pid in r <==> pid in Project(txns, ProductOf))
      && (pid in r ==>
            && r[pid].quantitySold == Sum(Project(g, QuantityOf))
            && r[pid].uniqueBuyers <= |g| && r[pid].regions <= |g|
            && (r[pid].category.Some? <==> pid in Project(products, ProductId))
            && (r[pid].category.Some? ==> var ps := Filter(products, HasKey(ProductId, pid));
                  |ps| > 0 && r[pid].category.value == ps[|ps| - 1].category))
  {
    ComplexSplit(txns, IndexBy(users, UserId));
    GroupByKeys(txns, ProductOf, NewProductAcc, ProductStep);
    GroupByGroups(txns, ProductOf, NewProductAcc, ProductStep, pid);
    ProductAccOf(Filter(txns, HasKey(ProductOf, pid)));
    IndexByLast(products, ProductId, pid);
  }

  /** Months are keyed by `date[:7]`, each holding the categories sold in it. */
  lemma TemporalSound(txns: seq<Transaction>, users: seq<User>, products: seq<Product>, month: string)
    ensures var r := CreateComplexAggregations(txns, users, products).temporal;
      && (month in r <==> month in Project(txns, MonthOf))
      && (month in r ==> forall c :: c in r[month] <==> c in Project(Filter(txns, HasKey(MonthOf, month)), CategoryOf))
  {
    ComplexSplit(txns, IndexBy(users, UserId));
    GroupByKeys(txns, MonthOf, {}, TemporalStep);
    GroupByGroups(txns, MonthOf, {}, TemporalStep, month);
    TemporalOf(Filter(txns, HasKey(MonthOf, month)));
  }
}
