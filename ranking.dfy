/**
 * The ranking functions of lib/data.ts: most-favorited products, trending products and
 * same-brand recommendations.
 *
 * Each store query is a pure function over the in-memory store (`Store`): the aggregation
 * pipelines (match, group-and-count, sort, limit, join, sort, limit) and the sorted, limited
 * `find` queries. The code that runs over the query results is imperative, as in the source: an
 * insertion-ordered result sequence and a `seen` set of ids are grown in loops. Each method is
 * proved equal to a specification function, and the properties of the rankings are lemmas about
 * those functions.
 */
module Ranking {
  import opened Wrappers
  import Seqs
  import opened Catalog

  /** A user document; only the favorite slugs matter here (`None` when the field is missing). */
  datatype User = User(favorites: Option<seq<string>>)

  /** One favorite action: the id of the product and when it happened (milliseconds). */
  datatype FavoriteEvent = FavoriteEvent(product: string, createdAt: nat)

  /** The collections the rankings read. */
  datatype Store = Store(products: seq<StoredProduct>, users: seq<User>, events: seq<FavoriteEvent>)

  /** A row of a `$group` stage: a key and the number of input rows that carried it. */
  datatype Group = Group(key: string, count: nat)

  /** A row after `$lookup` and `$unwind`: a product and its group's count. */
  datatype Scored = Scored(product: StoredProduct, count: nat)

  /** The trending window: twelve hours, in milliseconds. */
  const TrendingWindowMs: nat := 12 * 60 * 60 * 1000

  // ---------------------------------------------------------------------------------------------
  // Store queries

  /**
   * `$group: { _id: <key>, count: { $sum: 1 } }`: one row per distinct key with its number of
   * occurrences. The store does not order the groups; the model lists them in the order the keys
   * first appear, which is one of the orders the store may produce.
   */
  function GroupCount(keys: seq<string>): (groups: seq<Group>)
    ensures |groups| == |Seqs.Distinct(keys)|
    ensures forall i :: 0 <= i < |groups| ==> groups[i].key == Seqs.Distinct(keys)[i]
    ensures forall i :: 0 <= i < |groups| ==> groups[i].count == multiset(keys)[groups[i].key] > 0
  {
    var d := Seqs.Distinct(keys);
    seq(|d|, i requires 0 <= i < |d| => Group(d[i], multiset(keys)[d[i]]))
  }

  /** `$sort: { count: -1 }`. */
  predicate MoreCounted(a: Group, b: Group)
  {
    a.count >= b.count
  }

  /** `$sort: { count: -1, 'product.createdAt': -1 }`. */
  predicate RankedBefore(a: Scored, b: Scored)
  {
    a.count > b.count || (a.count == b.count && TimeKey(a.product.createdAt) >= TimeKey(b.product.createdAt))
  }

  /** `sort({ createdAt: -1 })`. */
  predicate NewerFirst(a: StoredProduct, b: StoredProduct)
  {
    TimeKey(a.createdAt) >= TimeKey(b.createdAt)
  }

  /** `sort({ updatedAt: -1 })`. */
  predicate RecentlyUpdatedFirst(a: StoredProduct, b: StoredProduct)
  {
    TimeKey(a.updatedAt) >= TimeKey(b.updatedAt)
  }

  /** The join field of the most-favorited pipeline. */
  function SlugField(d: StoredProduct): string
  {
    d.slug
  }

  /** The join field of the trending pipeline. */
  function IdField(d: StoredProduct): string
  {
    d.id
  }

  /** `.limit(n)` on a `find` query: zero means no limit. */
  function MongoLimit<T>(s: seq<T>, n: nat): (r: seq<T>)
    ensures n == 0 ==> r == s
    ensures 0 < n ==> r == Seqs.Slice(s, n)
  {
    if n == 0 then s else Seqs.Slice(s, n)
  }

  /** The products whose join field equals `key`, in store order, each paired with `count`. */
  function Matches(products: seq<StoredProduct>, key: string, count: nat, field: StoredProduct -> string): (rows: seq<Scored>)
    ensures forall i :: 0 <= i < |rows| ==> rows[i].product in products && field(rows[i].product) == key && rows[i].count == count
    ensures forall d | d in products && field(d) == key :: Scored(d, count) in rows
  {
    if products == [] then []
    else
      (if field(products[0]) == key then [Scored(products[0], count)] else []) + Matches(products[1..], key, count, field)
  }

  /**
   * `$lookup` followed by `$unwind`: every group paired with every product whose join field is
   * its key, and nothing else.
   */
  function Lookup(groups: seq<Group>, products: seq<StoredProduct>, field: StoredProduct -> string): (rows: seq<Scored>)
    ensures forall i :: 0 <= i < |rows| ==> rows[i].product in products && Group(field(rows[i].product), rows[i].count) in groups
    ensures forall g, d | g in groups && d in products && field(d) == g.key :: Scored(d, g.count) in rows
  {
    if groups == [] then []
    else
      var here := Matches(products, groups[0].key, groups[0].count, field);
      var rest := Lookup(groups[1..], products, field);
      assert forall i :: 0 <= i < |rest| ==> rest[i] == (here + rest)[|here| + i];
      here + rest
  }

  /** `$sort: { count: -1 }` and `$limit: limit * 2` on the groups. */
  function TopGroups(groups: seq<Group>, limit: nat): seq<Group>
  {
    Seqs.Slice(Seqs.SortBy(groups, MoreCounted), 2 * limit)
  }

  /** The rows the pipeline ranks: the top groups joined to their products. */
  function Joined(groups: seq<Group>, products: seq<StoredProduct>, field: StoredProduct -> string, limit: nat): seq<Scored>
  {
    Lookup(TopGroups(groups, limit), products, field)
  }

  /**
   * The common tail of both aggregation pipelines: the `2 * limit` most counted groups, joined
   * to their products, ordered by count and then creation time, newest first, and cut to `limit`.
   */
  function RankRows(groups: seq<Group>, products: seq<StoredProduct>, field: StoredProduct -> string, limit: nat): seq<Scored>
  {
    Seqs.Slice(Seqs.SortBy(Joined(groups, products, field, limit), RankedBefore), limit)
  }

  /**
   * The pipelines keep the `2 * limit` most counted groups, or all when fewer: every group left
   * out (counting repeats) has a count no larger than each group kept.
   */
  lemma TopGroupsBest(groups: seq<Group>, limit: nat)
    ensures var top := TopGroups(groups, limit);
      && |top| == (if 2 * limit < |groups| then 2 * limit else |groups|)
      && multiset(top) <= multiset(groups)
      && forall g | g in multiset(groups) - multiset(top) :: forall i | 0 <= i < |top| :: top[i].count >= g.count
  {
    assert Seqs.TotalPreorder(MoreCounted);
    Seqs.TopK(groups, MoreCounted, 2 * limit);
  }

  /**
   * Of the rows the top groups join to, the pipelines return the `limit` best (or all, when
   * fewer), ordered by count and then newest first: every joined row left out (counting repeats)
   * ranks no higher than each row returned. Each row pairs a stored product with the count of
   * the group its join field names.
   */
  lemma RankRowsProperties(groups: seq<Group>, products: seq<StoredProduct>, field: StoredProduct -> string, limit: nat)
    ensures var joined := Joined(groups, products, field, limit);
      var rows := RankRows(groups, products, field, limit);
      && |rows| == (if limit < |joined| then limit else |joined|)
      && multiset(rows) <= multiset(joined)
      && Seqs.SortedBy(rows, RankedBefore)
      && (forall x | x in multiset(joined) - multiset(rows) :: forall i | 0 <= i < |rows| :: RankedBefore(rows[i], x))
      && forall i :: 0 <= i < |rows| ==> rows[i].product in products && Group(field(rows[i].product), rows[i].count) in groups
  {
    var joined := Joined(groups, products, field, limit);
    var rows := RankRows(groups, products, field, limit);
    assert Seqs.TotalPreorder(RankedBefore);
    Seqs.TopK(joined, RankedBefore, limit);
    RankRowsSound(groups, products, field, limit);
  }

  /** Each row the pipelines return pairs a stored product with the count of the group its join field names. */
  lemma RankRowsSound(groups: seq<Group>, products: seq<StoredProduct>, field: StoredProduct -> string, limit: nat)
    ensures var rows := RankRows(groups, products, field, limit);
      forall i :: 0 <= i < |rows| ==> rows[i].product in products && Group(field(rows[i].product), rows[i].count) in groups
  {
    var top := TopGroups(groups, limit);
    var joined := Joined(groups, products, field, limit);
    var rows := RankRows(groups, products, field, limit);
    TopGroupsBest(groups, limit);
    forall i | 0 <= i < |rows|
      ensures rows[i].product in products && Group(field(rows[i].product), rows[i].count) in groups
    {
      assert rows[i] in multiset(joined);
      assert rows[i] in joined;
      var g := Group(field(rows[i].product), rows[i].count);
      assert g in top;
      assert g in multiset(groups);
    }
  }

  /** `$match` on a non-empty `favorites` array and `$unwind`: every favorite slot of every user. */
  function FavoriteSlugs(users: seq<User>): seq<string>
  {
    if users == [] then []
    else
      var u := users[0];
      (if u.favorites.Some? && u.favorites.value != [] then u.favorites.value else []) + FavoriteSlugs(users[1..])
  }

  /** The aggregation of `getMostFavoritedProducts`: favorite counts per slug, joined on the slug. */
  function MostFavoritedRows(store: Store, limit: nat): seq<Scored>
  {
    RankRows(GroupCount(FavoriteSlugs(store.users)), store.products, SlugField, limit)
  }

  /** `$match: { createdAt: { $gte: now - 12h } }`. */
  function InWindow(now: nat): FavoriteEvent -> bool
  {
    (e: FavoriteEvent) => e.createdAt >= now - TrendingWindowMs
  }

  /** The product id of an event. */
  function EventProduct(e: FavoriteEvent): string
  {
    e.product
  }

  /** The aggregation of `getTrendingProducts`: recent favorite counts per product id, joined on the id. */
  function TrendingRows(store: Store, now: nat, limit: nat): seq<Scored>
  {
    var recent := Seqs.Filter(store.events, InWindow(now));
    RankRows(GroupCount(Seqs.Map(recent, EventProduct)), store.products, IdField, limit)
  }

  /** The stored product of a pipeline row. */
  function RowProduct(row: Scored): StoredProduct
  {
    row.product
  }

  // ---------------------------------------------------------------------------------------------
  // De-duplicated accumulation

  /** The ids of a sequence of products. */
  function Ids(ps: seq<Product>): set<string>
  {
    set p | p in ps :: p.id
  }

  /** No two products share an id. */
  ghost predicate DistinctIds(ps: seq<Product>)
  {
    forall i, j :: 0 <= i < j < |ps| ==> ps[i].id != ps[j].id
  }

  /** No two stored products share an id (what the store guarantees for `_id`). */
  ghost predicate UniqueIds(docs: seq<StoredProduct>)
  {
    forall i, j :: 0 <= i < j < |docs| ==> docs[i].id != docs[j].id
  }

  /** No two stored products share a slug (what the catalog promises for slugs). */
  ghost predicate UniqueSlugs(docs: seq<StoredProduct>)
  {
    forall i, j :: 0 <= i < j < |docs| ==> docs[i].slug != docs[j].slug
  }

  lemma IdsConcat(a: seq<Product>, b: seq<Product>)
    ensures Ids(a + b) == Ids(a) + Ids(b)
  {
    assert forall p :: p in a + b <==> p in a || p in b;
  }

  /**
   * The loop `if (!seen.has(product.id)) { mapped.push(product); seen.add(product.id); }` run
   * over `items` after `acc`: `acc` stays in front, each item whose id is not yet present is
   * appended, in item order.
   */
  function AppendUnseen(acc: seq<Product>, items: seq<Product>): (r: seq<Product>)
    ensures |acc| <= |r| <= |acc| + |items| && r[..|acc|] == acc
    ensures forall i :: |acc| <= i < |r| ==> r[i] in items
    decreases |items|
  {
    if items == [] then acc
    else
      var init, p := items[..|items| - 1], items[|items| - 1];
      var prev := AppendUnseen(acc, init);
      if p.id in Ids(prev) then prev
      else
        assert (prev + [p])[..|acc|] == prev[..|acc|];
        prev + [p]
  }

  /**
   * `AppendUnseen` adds exactly the ids of the items, keeps ids distinct, and appends only
   * products whose id was not already in `acc`.
   */
  lemma {:induction false} AppendUnseenIds(acc: seq<Product>, items: seq<Product>)
    ensures var r := AppendUnseen(acc, items);
      && Ids(r) == Ids(acc) + Ids(items)
      && (DistinctIds(acc) ==> DistinctIds(r))
      && forall i :: |acc| <= i < |r| ==> r[i].id !in Ids(acc)
    decreases |items|
  {
    if items != [] {
      var init, p := items[..|items| - 1], items[|items| - 1];
      var prev := AppendUnseen(acc, init);
      AppendUnseenIds(acc, init);
      assert items == init + [p];
      if p.id !in Ids(prev) {
        AppendUnseenSnoc(acc, prev, init, p);
      } else {
        AppendUnseenSkip(acc, prev, init, p);
      }
    }
  }

  /** The step of `AppendUnseen` that skips a product with a known id keeps the ids as they are. */
  lemma AppendUnseenSkip(acc: seq<Product>, prev: seq<Product>, init: seq<Product>, p: Product)
    requires Ids(prev) == Ids(acc) + Ids(init)
    requires p.id in Ids(prev)
    ensures Ids(prev) == Ids(acc) + Ids(init + [p])
  {
    IdsConcat(init, [p]);
    assert Ids([p]) == {p.id};
  }

  /** The step of `AppendUnseen` that appends a product with a new id keeps the facts of `AppendUnseenIds`. */
  lemma AppendUnseenSnoc(acc: seq<Product>, prev: seq<Product>, init: seq<Product>, p: Product)
    requires |acc| <= |prev| && prev[..|acc|] == acc
    requires forall i :: |acc| <= i < |prev| ==> prev[i].id !in Ids(acc)
    requires Ids(prev) == Ids(acc) + Ids(init)
    requires p.id !in Ids(prev)
    ensures var r := prev + [p];
      && Ids(r) == Ids(acc) + Ids(init + [p])
      && (DistinctIds(prev) ==> DistinctIds(r))
      && forall i :: |acc| <= i < |r| ==> r[i].id !in Ids(acc)
  {
    var r := prev + [p];
    IdsConcat(prev, [p]);
    IdsConcat(init, [p]);
    assert Ids([p]) == {p.id};
    IdsOfPrefix(acc, prev);
    forall i | 0 <= i < |prev|
      ensures prev[i].id != p.id
    {
      assert prev[i] in prev;
    }
    forall i | |acc| <= i < |r|
      ensures r[i].id !in Ids(acc)
    {
      if i < |prev| {
        assert r[i] == prev[i];
      }
    }
  }

  /** One more item: `AppendUnseen` appends it exactly when its id is new. */
  lemma AppendUnseenPush(acc: seq<Product>, items: seq<Product>, p: Product)
    ensures AppendUnseen(acc, items + [p]) ==
      var prev := AppendUnseen(acc, items);
      if p.id in Ids(prev) then prev else prev + [p]
  {
    assert (items + [p])[..|items|] == items;
  }

  /** The products appended by `AppendUnseen` keep the order they have among the items. */
  lemma {:induction false} AppendUnseenKeepsOrder(acc: seq<Product>, items: seq<Product>)
    ensures Seqs.IsSubsequence(AppendUnseen(acc, items)[|acc|..], items)
    decreases |items|
  {
    var r := AppendUnseen(acc, items);
    if items == [] {
      assert r[|acc|..] == [];
    } else {
      var init, p := items[..|items| - 1], items[|items| - 1];
      var prev := AppendUnseen(acc, init);
      assert items == init + [p];
      AppendUnseenKeepsOrder(acc, init);
      if p.id in Ids(prev) {
        Seqs.SubsequenceExtend(prev[|acc|..], init, p);
      } else {
        assert r[|acc|..] == prev[|acc|..] + [p];
        Seqs.SubsequenceSnoc(prev[|acc|..], init, p);
      }
    }
  }

  /**
   * What the most-favorited and trending functions return: the primary products de-duplicated
   * by id; when fewer than `limit`, followed by the unseen ones among the first
   * `limit - |primary|` fallback products; the whole cut to `limit`.
   */
  function Backfill(primary: seq<Product>, fallback: seq<Product>, limit: nat): (r: seq<Product>)
    ensures |r| <= limit
    ensures DistinctIds(r)
  {
    var mapped := AppendUnseen([], primary);
    AppendUnseenIds([], primary);
    var full :=
      if |mapped| < limit then
        var requested := MongoLimit(fallback, limit - |mapped|);
        AppendUnseenIds(mapped, requested);
        AppendUnseen(mapped, requested)
      else mapped;
    var r := Seqs.Slice(full, limit);
    assert forall i :: 0 <= i < |r| ==> r[i] == full[i];
    r
  }

  /**
   * Primary products come first and in their order; the fallback is consulted only when the
   * primary phase yields fewer than `limit` products, and then contributes exactly the requested
   * fallback products whose ids are new, in fallback order. The result can be shorter than `limit`
   * even when the fallback has more products: see `BackfillCanFallShort`.
   */
  lemma BackfillStructure(primary: seq<Product>, fallback: seq<Product>, limit: nat)
    ensures var mapped := AppendUnseen([], primary);
      var r := Backfill(primary, fallback, limit);
      && Seqs.IsSubsequence(mapped, primary)
      && Ids(mapped) == Ids(primary)
      && (|mapped| >= limit ==> r == mapped[..limit])
      && (|mapped| < limit ==>
            var requested := Seqs.Slice(fallback, limit - |mapped|);
            && r[..|mapped|] == mapped
            && Ids(r) == Ids(primary) + Ids(requested)
            && Seqs.IsSubsequence(r[|mapped|..], requested)
            && forall i :: |mapped| <= i < |r| ==> r[i].id !in Ids(primary))
  {
    var mapped := AppendUnseen([], primary);
    AppendUnseenKeepsOrder([], primary);
    AppendUnseenIds([], primary);
    assert mapped[0..] == mapped;
    assert Ids([]) == {};
    if |mapped| < limit {
      BackfillShort(primary, fallback, limit, mapped);
    }
  }

  /** `BackfillStructure` when the primary phase yields fewer than `limit` products. */
  lemma BackfillShort(primary: seq<Product>, fallback: seq<Product>, limit: nat, mapped: seq<Product>)
    requires mapped == AppendUnseen([], primary) && |mapped| < limit && Ids(mapped) == Ids(primary)
    ensures var r := Backfill(primary, fallback, limit);
      var requested := Seqs.Slice(fallback, limit - |mapped|);
      && r[..|mapped|] == mapped
      && Ids(r) == Ids(primary) + Ids(requested)
      && Seqs.IsSubsequence(r[|mapped|..], requested)
      && forall i :: |mapped| <= i < |r| ==> r[i].id !in Ids(primary)
  {
    var requested := Seqs.Slice(fallback, limit - |mapped|);
    var full := AppendUnseen(mapped, requested);
    assert Backfill(primary, fallback, limit) == full by {
      assert MongoLimit(fallback, limit - |mapped|) == requested;
      AppendUnseenIds(mapped, requested);
      assert Seqs.Slice(full, limit) == full;
    }
    AppendUnseenKeepsOrder(mapped, requested);
    AppendUnseenIds(mapped, requested);
  }

  /**
   * The fallback can overlap the primary products: with one favorited product `a` that is also
   * the newest, asking for two products yields only `a`, although the catalog holds `b` too.
   */
  lemma BackfillCanFallShort(a: Product, b: Product)
    requires a.id != b.id
    ensures Backfill([a], [a, b], 2) == [a]
  {
    assert AppendUnseen([], [a]) == [a] by {
      assert [a][..0] == [];
    }
    assert Seqs.Slice([a, b], 1) == [a];
    assert AppendUnseen([a], [a]) == [a] by {
      assert [a][..0] == [];
      assert a.id in Ids([a]);
    }
  }

  // ---------------------------------------------------------------------------------------------
  // getMostFavoritedProducts and getTrendingProducts

  /** The products `getMostFavoritedProducts(limit)` returns. */
  function MostFavorited(store: Store, limit: nat, rt: Runtime): seq<Product>
  {
    var primary := MapProducts(Seqs.Map(MostFavoritedRows(store, limit), RowProduct), rt);
    Backfill(primary, MapProducts(Seqs.SortBy(store.products, NewerFirst), rt), limit)
  }

  /** The products `getTrendingProducts(limit)` returns at time `rt.now`. */
  function Trending(store: Store, limit: nat, rt: Runtime): seq<Product>
  {
    var primary := MapProducts(Seqs.Map(TrendingRows(store, rt.now, limit), RowProduct), rt);
    Backfill(primary, MapProducts(Seqs.SortBy(store.products, RecentlyUpdatedFirst), rt), limit)
  }

  /**
   * The loop both ranking functions run over a query result: each product whose id is not in
   * `seen` is pushed onto `mapped` and its id added to `seen`.
   */
  method PushUnseen(mapped: seq<Product>, seen: set<string>, items: seq<Product>) returns (next: seq<Product>, nextSeen: set<string>)
    requires seen == Ids(mapped)
    ensures next == AppendUnseen(mapped, items)
    ensures nextSeen == Ids(next)
  {
    next, nextSeen := mapped, seen;
    for i := 0 to |items|
      invariant next == AppendUnseen(mapped, items[..i])
      invariant nextSeen == Ids(next)
    {
      var product := items[i];
      assert items[..i + 1] == items[..i] + [product];
      AppendUnseenPush(mapped, items[..i], product);
      if product.id !in nextSeen {
        IdsConcat(next, [product]);
        next := next + [product];
        nextSeen := nextSeen + {product.id};
      }
    }
    assert items[..|items|] == items;
  }

  /**
   * What both ranking functions do with their query results: the primary products first, then,
   * when fewer than `limit` result, the first `limit - |mapped|` fallback products, skipping ids
   * already seen throughout; at most `limit` are returned.
   */
  method CollectUnseen(primary: seq<Product>, fallback: seq<Product>, limit: nat) returns (result: seq<Product>)
    ensures result == Backfill(primary, fallback, limit)
  {
    assert Ids([]) == {};
    var mapped, seen := PushUnseen([], {}, primary);
    if |mapped| < limit {
      mapped, seen := PushUnseen(mapped, seen, MongoLimit(fallback, limit - |mapped|));
    }
    result := Seqs.Slice(mapped, limit);
  }

  /**
   * `getMostFavoritedProducts(limit)`: the aggregation, then `CollectUnseen` with the newest
   * products as fallback. The store rejects a `$limit` stage of zero, so callers pass a positive
   * limit (the default is 8).
   */
  method MostFavoritedProducts(store: Store, limit: nat, rt: Runtime) returns (result: seq<Product>)
    requires limit > 0
    ensures result == MostFavorited(store, limit, rt)
    ensures |result| <= limit && DistinctIds(result)
  {
    var favorites := MostFavoritedRows(store, limit);
    var newest := Seqs.SortBy(store.products, NewerFirst);
    result := CollectUnseen(MapProducts(Seqs.Map(favorites, RowProduct), rt), MapProducts(newest, rt), limit);
  }

  /**
   * `getTrendingProducts(limit)`, with `Date.now()` read from `rt.now`: the aggregation over the
   * last twelve hours, then `CollectUnseen` with the most recently updated products as fallback.
   * The store rejects a `$limit` stage of zero, so callers pass a positive limit (the default is 8).
   */
  method TrendingProducts(store: Store, limit: nat, rt: Runtime) returns (result: seq<Product>)
    requires limit > 0
    ensures result == Trending(store, limit, rt)
    ensures |result| <= limit && DistinctIds(result)
  {
    var events := TrendingRows(store, rt.now, limit);
    var updated := Seqs.SortBy(store.products, RecentlyUpdatedFirst);
    result := CollectUnseen(MapProducts(Seqs.Map(events, RowProduct), rt), MapProducts(updated, rt), limit);
  }

  /** Each ranked row's count is the number of keys equal to its product's join field, and is positive. */
  lemma GroupRowCounts(keys: seq<string>, products: seq<StoredProduct>, field: StoredProduct -> string, limit: nat)
    ensures var rows := RankRows(GroupCount(keys), products, field, limit);
      forall i :: 0 <= i < |rows| ==>
        rows[i].product in products && rows[i].count == multiset(keys)[field(rows[i].product)] > 0
  {
    var groups := GroupCount(keys);
    var rows := RankRows(groups, products, field, limit);
    RankRowsSound(groups, products, field, limit);
    forall i | 0 <= i < |rows|
      ensures rows[i].count == multiset(keys)[field(rows[i].product)] > 0
    {
      var g := Group(field(rows[i].product), rows[i].count);
      assert g in groups;
    }
  }

  /**
   * Both pipelines over the join keys `keys`: the groups left out of the top `2 * limit` count no
   * more than any kept one, every product matching a kept group is joined, and the rows returned
   * are the best `limit` joined rows in rank order, each counting the occurrences of its key.
   */
  lemma KeyRowsProperties(keys: seq<string>, products: seq<StoredProduct>, field: StoredProduct -> string, limit: nat)
    ensures var groups := GroupCount(keys);
      var top := TopGroups(groups, limit);
      && (forall g | g in multiset(groups) - multiset(top) :: forall i | 0 <= i < |top| :: top[i].count >= g.count)
      && forall g, d | g in top && d in products && field(d) == g.key :: Scored(d, g.count) in Joined(groups, products, field, limit)
    ensures var joined := Joined(GroupCount(keys), products, field, limit);
      var rows := RankRows(GroupCount(keys), products, field, limit);
      && |rows| == (if limit < |joined| then limit else |joined|)
      && Seqs.SortedBy(rows, RankedBefore)
      && (forall x | x in multiset(joined) - multiset(rows) :: forall i | 0 <= i < |rows| :: RankedBefore(rows[i], x))
      && forall i :: 0 <= i < |rows| ==>
           rows[i].product in products && rows[i].count == multiset(keys)[field(rows[i].product)] > 0
  {
    var groups := GroupCount(keys);
    TopGroupsBest(groups, limit);
    RankRowsProperties(groups, products, field, limit);
    GroupRowCounts(keys, products, field, limit);
  }

  /**
   * The most-favorited candidates. The favorite counts per slug are cut to the `2 * limit`
   * largest; every stored product whose slug one of those names is joined with its count; and
   * of those rows the `limit` best are returned (all, when fewer), ordered by favorite count and
   * then newest first, each a stored product whose count is the number of favorite slots holding
   * its slug.
   */
  lemma MostFavoritedRowsCounts(store: Store, limit: nat)
    ensures var groups := GroupCount(FavoriteSlugs(store.users));
      var top := TopGroups(groups, limit);
      && (forall g | g in multiset(groups) - multiset(top) :: forall i | 0 <= i < |top| :: top[i].count >= g.count)
      && forall g, d | g in top && d in store.products && SlugField(d) == g.key ::
           Scored(d, g.count) in Joined(groups, store.products, SlugField, limit)
    ensures var joined := Joined(GroupCount(FavoriteSlugs(store.users)), store.products, SlugField, limit);
      var rows := MostFavoritedRows(store, limit);
      && |rows| == (if limit < |joined| then limit else |joined|)
      && Seqs.SortedBy(rows, RankedBefore)
      && (forall x | x in multiset(joined) - multiset(rows) :: forall i | 0 <= i < |rows| :: RankedBefore(rows[i], x))
      && forall i :: 0 <= i < |rows| ==>
           rows[i].product in store.products && rows[i].count == multiset(FavoriteSlugs(store.users))[rows[i].product.slug] > 0
  {
    KeyRowsProperties(FavoriteSlugs(store.users), store.products, SlugField, limit);
  }

  /**
   * The trending candidates. The counts of favorite events of the last twelve hours per product
   * id are cut to the `2 * limit` largest; every stored product whose id one of those names is
   * joined with its count; and of those rows the `limit` best are returned (all, when fewer),
   * ordered by recent favorite count and then newest first, each a stored product whose count
   * is the number of its favorite events in the window.
   */
  lemma TrendingRowsCounts(store: Store, now: nat, limit: nat)
    ensures var groups := GroupCount(Seqs.Map(Seqs.Filter(store.events, InWindow(now)), EventProduct));
      var top := TopGroups(groups, limit);
      && (forall g | g in multiset(groups) - multiset(top) :: forall i | 0 <= i < |top| :: top[i].count >= g.count)
      && forall g, d | g in top && d in store.products && IdField(d) == g.key ::
           Scored(d, g.count) in Joined(groups, store.products, IdField, limit)
    ensures var recent := Seqs.Filter(store.events, InWindow(now));
      var joined := Joined(GroupCount(Seqs.Map(recent, EventProduct)), store.products, IdField, limit);
      var rows := TrendingRows(store, now, limit);
      && |rows| == (if limit < |joined| then limit else |joined|)
      && Seqs.SortedBy(rows, RankedBefore)
      && (forall x | x in multiset(joined) - multiset(rows) :: forall i | 0 <= i < |rows| :: RankedBefore(rows[i], x))
      && forall i :: 0 <= i < |rows| ==>
           rows[i].product in store.products && rows[i].count == multiset(Seqs.Map(recent, EventProduct))[rows[i].product.id] > 0
  {
    KeyRowsProperties(Seqs.Map(Seqs.Filter(store.events, InWindow(now)), EventProduct), store.products, IdField, limit);
  }

  /**
   * A favorite event older than twelve hours has no effect: inserting one anywhere into the
   * event log leaves the trending candidates, and so the trending products, unchanged.
   */
  lemma TrendingIgnoresOldEvents(store: Store, limit: nat, rt: Runtime, e: FavoriteEvent, at: nat)
    requires e.createdAt < rt.now - TrendingWindowMs && at <= |store.events|
    ensures var later := store.(events := store.events[..at] + [e] + store.events[at..]);
      TrendingRows(later, rt.now, limit) == TrendingRows(store, rt.now, limit)
      && Trending(later, limit, rt) == Trending(store, limit, rt)
  {
    var keep := InWindow(rt.now);
    var later := store.(events := store.events[..at] + [e] + store.events[at..]);
    var a, b := store.events[..at], store.events[at..];
    assert a + b == store.events;
    Seqs.FilterSkips(a, e, b, keep);
    assert Seqs.Filter(later.events, keep) == Seqs.Filter(store.events, keep);
    assert later.products == store.products;
  }

  // ---------------------------------------------------------------------------------------------
  // getProductRecommendations

  /** The filter `{ _id: { $ne: current._id }, brand: current.brand }`. */
  function SameBrandOther(current: StoredProduct): StoredProduct -> bool
  {
    (d: StoredProduct) => d.id != current.id && d.brand == current.brand
  }

  /** The same-brand query: the other products of the brand, newest first, at most `limit` (zero: all). */
  function SameBrandQuery(products: seq<StoredProduct>, current: StoredProduct, limit: nat): seq<StoredProduct>
  {
    MongoLimit(Seqs.SortBy(Seqs.Filter(products, SameBrandOther(current)), NewerFirst), limit)
  }

  /**
   * The fallback loop of `getProductRecommendations`: skip the subject's slug, append products
   * whose id is new, and stop as soon as `limit` products are collected. When it ends below
   * `limit` it has taken every item it could: each item other than the subject then has its id in
   * the result. `FillUpToInOrder` adds that what it takes keeps the items' order.
   */
  function FillUpTo(acc: seq<Product>, items: seq<Product>, slug: string, limit: nat): (r: seq<Product>)
    ensures |acc| <= |r| && r[..|acc|] == acc
    ensures |acc| < limit ==> |r| <= limit
    ensures DistinctIds(acc) ==> DistinctIds(r)
    ensures forall i :: |acc| <= i < |r| ==> r[i] in items && r[i].slug != slug && r[i].id !in Ids(acc)
    ensures |r| < limit ==> forall i :: 0 <= i < |items| && items[i].slug != slug ==> items[i].id in Ids(r)
    decreases |items|
  {
    if items == [] then acc
    else if items[0].slug == slug then
      var r := FillUpTo(acc, items[1..], slug, limit);
      FillUpToSkipStep(acc, items, r, slug, limit);
      r
    else
      var p := items[0];
      var next := if p.id in Ids(acc) then acc else acc + [p];
      FillUpToPush(acc, p);
      if |next| >= limit then next
      else
        var r := FillUpTo(next, items[1..], slug, limit);
        FillUpToTakeStep(acc, next, items, r, slug, limit);
        r
  }

  /** Pushing `p` when its id is new: one product more at most, with the id of `p` now present. */
  lemma FillUpToPush(acc: seq<Product>, p: Product)
    ensures var next := if p.id in Ids(acc) then acc else acc + [p];
      && |acc| <= |next| <= |acc| + 1 && next[..|acc|] == acc
      && (forall i :: |acc| <= i < |next| ==> next[i] == p && p.id !in Ids(acc))
      && Ids(next) == Ids(acc) + {p.id}
      && (DistinctIds(acc) ==> DistinctIds(next))
  {
    IdsConcat(acc, [p]);
    assert Ids([p]) == {p.id};
    if p.id !in Ids(acc) {
      forall i | 0 <= i < |acc|
        ensures acc[i].id != p.id
      {
        assert acc[i] in acc;
      }
    }
  }

  /** The step of `FillUpTo` that skips the subject keeps every fact the rest of the walk has. */
  lemma FillUpToSkipStep(acc: seq<Product>, items: seq<Product>, r: seq<Product>, slug: string, limit: nat)
    requires items != [] && items[0].slug == slug
    requires forall i :: |acc| <= i < |r| ==> r[i] in items[1..]
    requires |r| < limit ==> forall i :: 0 <= i < |items[1..]| && items[1..][i].slug != slug ==> items[1..][i].id in Ids(r)
    ensures forall i :: |acc| <= i < |r| ==> r[i] in items
    ensures |r| < limit ==> forall i :: 0 <= i < |items| && items[i].slug != slug ==> items[i].id in Ids(r)
  {
    assert items == [items[0]] + items[1..];
    assert forall i :: 0 < i < |items| ==> items[i] == items[1..][i - 1];
  }

  /**
   * The step of `FillUpTo` that takes a first item other than the subject and goes on: what the
   * rest of the walk promises about `next` it promises about `acc` and the whole of `items`.
   */
  lemma FillUpToTakeStep(acc: seq<Product>, next: seq<Product>, items: seq<Product>, r: seq<Product>, slug: string, limit: nat)
    requires items != [] && items[0].slug != slug
    requires |acc| <= |next| && next[..|acc|] == acc
    requires forall i :: |acc| <= i < |next| ==> next[i] == items[0] && items[0].id !in Ids(acc)
    requires Ids(next) == Ids(acc) + {items[0].id}
    requires DistinctIds(acc) ==> DistinctIds(next)
    requires |next| <= |r| && r[..|next|] == next
    requires DistinctIds(next) ==> DistinctIds(r)
    requires forall i :: |next| <= i < |r| ==> r[i] in items[1..] && r[i].slug != slug && r[i].id !in Ids(next)
    requires |r| < limit ==> forall i :: 0 <= i < |items[1..]| && items[1..][i].slug != slug ==> items[1..][i].id in Ids(r)
    ensures r[..|acc|] == acc
    ensures DistinctIds(acc) ==> DistinctIds(r)
    ensures forall i :: |acc| <= i < |r| ==> r[i] in items && r[i].slug != slug && r[i].id !in Ids(acc)
    ensures |r| < limit ==> forall i :: 0 <= i < |items| && items[i].slug != slug ==> items[i].id in Ids(r)
  {
    assert r[..|acc|] == r[..|next|][..|acc|];
    assert items == [items[0]] + items[1..];
    IdsOfPrefix(next, r);
    forall i | |acc| <= i < |r|
      ensures r[i] in items && r[i].slug != slug && r[i].id !in Ids(acc)
    {
      if i < |next| {
        assert r[i] == next[i];
      }
    }
    assert forall i :: 0 < i < |items| ==> items[i] == items[1..][i - 1];
  }

  /** What the fallback loop adds is taken from `items` in their order. */
  lemma {:induction false} FillUpToInOrder(acc: seq<Product>, items: seq<Product>, slug: string, limit: nat)
    ensures var r := FillUpTo(acc, items, slug, limit);
      Seqs.IsSubsequence(r[|acc|..], items)
    decreases |items|
  {
    var r := FillUpTo(acc, items, slug, limit);
    if items != [] {
      var p := items[0];
      if p.slug == slug {
        FillUpToInOrder(acc, items[1..], slug, limit);
      } else {
        var next := if p.id in Ids(acc) then acc else acc + [p];
        if |next| >= limit {
          if next != acc {
            assert r[|acc|..] == [p];
            assert Seqs.IsSubsequence([p][1..], items[1..]);
          }
        } else {
          FillUpToInOrder(next, items[1..], slug, limit);
          if next != acc {
            var added := r[|acc|..];
            assert added[0] == r[|acc|] == next[|acc|] == p;
            assert added[1..] == r[|next|..];
          }
        }
      }
    }
  }

  /** The ids of a prefix are ids of the whole. */
  lemma IdsOfPrefix(a: seq<Product>, r: seq<Product>)
    requires |a| <= |r| && r[..|a|] == a
    ensures Ids(a) <= Ids(r)
  {
    assert r == a + r[|a|..];
    IdsConcat(a, r[|a|..]);
  }

  /** The products `getProductRecommendations(slug, limit)` returns. */
  function Recommendations(store: Store, slug: string, limit: nat, rt: Runtime): (r: seq<Product>)
    ensures |r| <= limit
  {
    match FindBySlug(store.products, slug)
    case None => []
    case Some(current) => RecommendationsFor(store, current, slug, limit, rt)
  }

  /** The recommendations once the subject `current` is found: its brand first, then favorites. */
  function RecommendationsFor(store: Store, current: StoredProduct, slug: string, limit: nat, rt: Runtime): (r: seq<Product>)
    ensures |r| <= limit
  {
    var sameBrand := MapProducts(SameBrandQuery(store.products, current, limit), rt);
    var recommendations :=
      if |sameBrand| < limit then FillUpTo(sameBrand, MostFavorited(store, limit + 4, rt), slug, limit)
      else sameBrand;
    Seqs.Slice(recommendations, limit)
  }

  /** The first loop of `getProductRecommendations`: map every same-brand product and record its id. */
  method MapAll(docs: seq<StoredProduct>, rt: Runtime) returns (mapped: seq<Product>, seen: set<string>)
    ensures mapped == MapProducts(docs, rt)
    ensures seen == Ids(mapped)
  {
    mapped, seen := [], {};
    for i := 0 to |docs|
      invariant mapped == MapProducts(docs[..i], rt)
      invariant seen == Ids(mapped)
    {
      var product := MapProduct(docs[i], rt);
      assert docs[..i + 1] == docs[..i] + [docs[i]];
      MapProductsSnoc(docs[..i], docs[i], rt);
      IdsConcat(mapped, [product]);
      mapped := mapped + [product];
      seen := seen + {product.id};
    }
    assert docs[..|docs|] == docs;
  }

  /**
   * The fallback loop of `getProductRecommendations` over the most-favorited products: skip the
   * subject, push products whose id is not in `seen`, stop once `limit` are collected.
   */
  method FillFromFallback(recommendations: seq<Product>, seen: set<string>, hypeFallback: seq<Product>, slug: string, limit: nat)
    returns (filled: seq<Product>, filledSeen: set<string>)
    requires |recommendations| < limit && seen == Ids(recommendations)
    ensures filled == FillUpTo(recommendations, hypeFallback, slug, limit)
    ensures filledSeen == Ids(filled)
  {
    filled, filledSeen := recommendations, seen;
    ghost var target := FillUpTo(recommendations, hypeFallback, slug, limit);
    var i := 0;
    while i < |hypeFallback|
      invariant 0 <= i <= |hypeFallback|
      invariant FillUpTo(filled, hypeFallback[i..], slug, limit) == target
      invariant |filled| < limit
      invariant filledSeen == Ids(filled)
    {
      var product := hypeFallback[i];
      FillUpToStep(filled, hypeFallback, i, slug, limit);
      i := i + 1;
      if product.slug == slug {
        continue;
      }
      if product.id !in filledSeen {
        IdsConcat(filled, [product]);
        filled := filled + [product];
        filledSeen := filledSeen + {product.id};
      }
      if |filled| >= limit {
        break;
      }
    }
  }

  /**
   * One step of `FillUpTo` over `items[i..]`: the item at `i` is skipped, appended when its id is
   * new, and the walk stops at `limit`.
   */
  lemma FillUpToStep(acc: seq<Product>, items: seq<Product>, i: nat, slug: string, limit: nat)
    requires i < |items|
    ensures var p := items[i];
      var next := if p.id in Ids(acc) then acc else acc + [p];
      FillUpTo(acc, items[i..], slug, limit) ==
        if p.slug == slug then FillUpTo(acc, items[i + 1..], slug, limit)
        else if |next| >= limit then next
        else FillUpTo(next, items[i + 1..], slug, limit)
    ensures i + 1 == |items| ==> FillUpTo(acc, items[i + 1..], slug, limit) == acc
  {
    assert items[i..][1..] == items[i + 1..];
  }

  /** `getProductRecommendations(slug, limit)`. */
  method ProductRecommendations(store: Store, slug: string, limit: nat, rt: Runtime) returns (result: seq<Product>)
    ensures result == Recommendations(store, slug, limit, rt)
  {
    var found := FindBySlug(store.products, slug);
    if found.None? {
      return [];
    }
    result := RecommendFor(store, found.value, slug, limit, rt);
  }

  /** The part of `getProductRecommendations` after the subject is found. */
  method RecommendFor(store: Store, current: StoredProduct, slug: string, limit: nat, rt: Runtime) returns (result: seq<Product>)
    ensures result == RecommendationsFor(store, current, slug, limit, rt)
  {
    var sameBrand := SameBrandQuery(store.products, current, limit);
    var recommendations, seen := MapAll(sameBrand, rt);

    if |recommendations| < limit {
      var hypeFallback := MostFavoritedProducts(store, limit + 4, rt);
      RecommendationsForShort(store, current, slug, limit, rt, recommendations, hypeFallback);
      recommendations, seen := FillFromFallback(recommendations, seen, hypeFallback, slug, limit);
    } else {
      RecommendationsForLong(store, current, slug, limit, rt, recommendations);
    }

    result := Seqs.Slice(recommendations, limit);
  }

  /** `RecommendationsFor` when the same-brand products are fewer than `limit`. */
  lemma RecommendationsForShort(store: Store, current: StoredProduct, slug: string, limit: nat, rt: Runtime,
                                mapped: seq<Product>, fallback: seq<Product>)
    requires mapped == MapProducts(SameBrandQuery(store.products, current, limit), rt) && |mapped| < limit
    requires fallback == MostFavorited(store, limit + 4, rt)
    ensures RecommendationsFor(store, current, slug, limit, rt) == Seqs.Slice(FillUpTo(mapped, fallback, slug, limit), limit)
  {
  }

  /** `RecommendationsFor` when there are at least `limit` same-brand products. */
  lemma RecommendationsForLong(store: Store, current: StoredProduct, slug: string, limit: nat, rt: Runtime, mapped: seq<Product>)
    requires mapped == MapProducts(SameBrandQuery(store.products, current, limit), rt) && |mapped| >= limit
    ensures RecommendationsFor(store, current, slug, limit, rt) == Seqs.Slice(mapped, limit)
  {
  }

  /** A slug no stored product carries yields no recommendations. */
  lemma RecommendationsUnknownSlug(store: Store, slug: string, limit: nat, rt: Runtime)
    requires forall d :: d in store.products ==> d.slug != slug
    ensures Recommendations(store, slug, limit, rt) == []
  {
  }

  /**
   * The subject's brand comes first: the same-brand products, newest first, open the list; the
   * most-favorited fallback is consulted only when they are fewer than `limit`, and whatever it
   * adds is unseen, is not the subject and is among the `limit + 4` most-favorited products.
   */
  lemma RecommendationsSameBrandFirst(store: Store, current: StoredProduct, slug: string, limit: nat, rt: Runtime)
    ensures var sameBrand := MapProducts(SameBrandQuery(store.products, current, limit), rt);
      var r := RecommendationsFor(store, current, slug, limit, rt);
      && (|sameBrand| >= limit ==> r == sameBrand[..limit])
      && (|sameBrand| < limit ==>
            && r[..|sameBrand|] == sameBrand
            && forall i :: |sameBrand| <= i < |r| ==>
                 r[i] in MostFavorited(store, limit + 4, rt) && r[i].slug != slug && r[i].id !in Ids(sameBrand))
  {
    var sameBrand := MapProducts(SameBrandQuery(store.products, current, limit), rt);
    if |sameBrand| < limit {
      var filled := FillUpTo(sameBrand, MostFavorited(store, limit + 4, rt), slug, limit);
      assert Seqs.Slice(filled, limit) == filled;
    }
  }

  /**
   * When the same-brand products are fewer than `limit`, what the fallback adds is taken from
   * the `limit + 4` most-favorited products in their order; and when the list still ends below
   * `limit`, every one of those products other than the subject has its id in it.
   */
  lemma RecommendationsFallbackComplete(store: Store, current: StoredProduct, slug: string, limit: nat, rt: Runtime)
    ensures var sameBrand := MapProducts(SameBrandQuery(store.products, current, limit), rt);
      var fallback := MostFavorited(store, limit + 4, rt);
      var r := RecommendationsFor(store, current, slug, limit, rt);
      |sameBrand| < limit ==>
        && Seqs.IsSubsequence(r[|sameBrand|..], fallback)
        && (|r| < limit ==> forall i :: 0 <= i < |fallback| && fallback[i].slug != slug ==> fallback[i].id in Ids(r))
  {
    var sameBrand := MapProducts(SameBrandQuery(store.products, current, limit), rt);
    if |sameBrand| < limit {
      var fallback := MostFavorited(store, limit + 4, rt);
      var filled := FillUpTo(sameBrand, fallback, slug, limit);
      assert Seqs.Slice(filled, limit) == filled;
      FillUpToInOrder(sameBrand, fallback, slug, limit);
    }
  }

  /** The subject of the page is never recommended to itself when slugs are unique. */
  lemma RecommendationsExcludeSubject(store: Store, slug: string, limit: nat, rt: Runtime)
    requires UniqueSlugs(store.products)
    ensures forall p :: p in Recommendations(store, slug, limit, rt) ==> p.slug != slug
  {
    var found := FindBySlug(store.products, slug);
    if found.Some? {
      SameBrandOthersSlugs(store, found.value, slug, limit, rt);
      RecommendationsForOmitSlug(store, found.value, slug, limit, rt);
    }
  }

  /** When no same-brand product carries the slug, no recommendation does. */
  lemma RecommendationsForOmitSlug(store: Store, current: StoredProduct, slug: string, limit: nat, rt: Runtime)
    requires var sameBrand := MapProducts(SameBrandQuery(store.products, current, limit), rt);
      forall i :: 0 <= i < |sameBrand| ==> sameBrand[i].slug != slug
    ensures forall p :: p in RecommendationsFor(store, current, slug, limit, rt) ==> p.slug != slug
  {
    var sameBrand := MapProducts(SameBrandQuery(store.products, current, limit), rt);
    RecommendationsSameBrandFirst(store, current, slug, limit, rt);
    var r := RecommendationsFor(store, current, slug, limit, rt);
    forall i | 0 <= i < |r|
      ensures r[i].slug != slug
    {
      if i < |sameBrand| {
        if |sameBrand| >= limit {
          assert r[i] == sameBrand[i];
        } else {
          assert r[i] == r[..|sameBrand|][i];
        }
      }
    }
  }

  /** When the subject was found by its slug in a store with unique slugs, no same-brand product carries that slug. */
  lemma SameBrandOthersSlugs(store: Store, current: StoredProduct, slug: string, limit: nat, rt: Runtime)
    requires UniqueSlugs(store.products) && current in store.products && current.slug == slug
    ensures var sameBrand := MapProducts(SameBrandQuery(store.products, current, limit), rt);
      forall i :: 0 <= i < |sameBrand| ==> sameBrand[i].slug != slug
  {
    var docs := SameBrandQuery(store.products, current, limit);
    SameBrandQueryMembers(store.products, current, limit);
    forall i | 0 <= i < |docs|
      ensures docs[i].slug != slug
    {
      assert docs[i] in store.products && docs[i] != current;
      SlugsDiffer(store.products, docs[i], current);
    }
  }

  /** Two different documents of a store with unique slugs have different slugs. */
  lemma SlugsDiffer(docs: seq<StoredProduct>, a: StoredProduct, b: StoredProduct)
    requires UniqueSlugs(docs) && a in docs && b in docs && a != b
    ensures a.slug != b.slug
  {
    var i :| 0 <= i < |docs| && docs[i] == a;
    var j :| 0 <= j < |docs| && docs[j] == b;
  }

  /** The same-brand query returns other products of the subject's brand from the store. */
  lemma SameBrandQueryMembers(products: seq<StoredProduct>, current: StoredProduct, limit: nat)
    ensures var docs := SameBrandQuery(products, current, limit);
      forall i :: 0 <= i < |docs| ==> docs[i] in products && docs[i].id != current.id && docs[i].brand == current.brand
  {
    var filtered := Seqs.Filter(products, SameBrandOther(current));
    var sorted := Seqs.SortBy(filtered, NewerFirst);
    var docs := SameBrandQuery(products, current, limit);
    forall i | 0 <= i < |docs|
      ensures docs[i] in products && docs[i].id != current.id && docs[i].brand == current.brand
    {
      assert docs[i] in sorted;
      assert docs[i] in multiset(filtered);
      assert SameBrandOther(current)(docs[i]);
    }
  }

  /**
   * The same-brand query returns the newest of the subject's brand, newest first: `limit` of
   * them when there are more (all when `limit` is zero), and any other product of the brand it
   * leaves out is no newer than each one it returns.
   */
  lemma SameBrandQueryNewest(products: seq<StoredProduct>, current: StoredProduct, limit: nat)
    ensures var docs := SameBrandQuery(products, current, limit);
      var candidates := Seqs.Filter(products, SameBrandOther(current));
      && Seqs.SortedBy(docs, NewerFirst)
      && |docs| == (if 0 < limit < |candidates| then limit else |candidates|)
      && forall d | d in products && d.id != current.id && d.brand == current.brand && d !in docs ::
           0 < limit && forall i | 0 <= i < |docs| :: NewerFirst(docs[i], d)
  {
    var candidates := Seqs.Filter(products, SameBrandOther(current));
    var docs := SameBrandQuery(products, current, limit);
    assert Seqs.TotalPreorder(NewerFirst);
    Seqs.SortBySorted(candidates, NewerFirst);
    Seqs.TopK(candidates, NewerFirst, limit);
    forall d | d in products && d.id != current.id && d.brand == current.brand && d !in docs
      ensures 0 < limit && forall i | 0 <= i < |docs| :: NewerFirst(docs[i], d)
    {
      SameBrandLeftOut(products, current, limit, d);
    }
  }

  /** A product of the subject's brand the same-brand query leaves out is no newer than each one it returns. */
  lemma SameBrandLeftOut(products: seq<StoredProduct>, current: StoredProduct, limit: nat, d: StoredProduct)
    requires d in products && d.id != current.id && d.brand == current.brand
    requires d !in SameBrandQuery(products, current, limit)
    ensures 0 < limit
    ensures var docs := SameBrandQuery(products, current, limit);
      forall i | 0 <= i < |docs| :: NewerFirst(docs[i], d)
  {
    var candidates := Seqs.Filter(products, SameBrandOther(current));
    var sorted := Seqs.SortBy(candidates, NewerFirst);
    var docs := SameBrandQuery(products, current, limit);
    var k :| 0 <= k < |products| && products[k] == d;
    assert SameBrandOther(current)(products[k]);
    assert d in candidates;
    assert d in multiset(sorted);
    assert limit == 0 ==> docs == sorted;
    assert Seqs.TotalPreorder(NewerFirst);
    Seqs.TopK(candidates, NewerFirst, limit);
    assert multiset(docs)[d] == 0;
    assert d in multiset(candidates) - multiset(docs);
  }

  /**
   * Recommendations never repeat a product when the store's ids are unique: the same-brand
   * products are distinct store documents, and the fallback adds only unseen ids.
   */
  lemma RecommendationsDistinct(store: Store, slug: string, limit: nat, rt: Runtime)
    requires UniqueIds(store.products)
    ensures DistinctIds(Recommendations(store, slug, limit, rt))
  {
    var found := FindBySlug(store.products, slug);
    if found.Some? {
      var current := found.value;
      var docs := SameBrandQuery(store.products, current, limit);
      SameBrandQueryDistinct(store.products, current, limit);
      var sameBrand := MapProducts(docs, rt);
      MappedDistinct(docs, rt);
      var full :=
        if |sameBrand| < limit then FillUpTo(sameBrand, MostFavorited(store, limit + 4, rt), slug, limit)
        else sameBrand;
      DistinctPrefix(full, limit);
    }
  }

  /** Mapping documents with unique ids gives products with distinct ids. */
  lemma MappedDistinct(docs: seq<StoredProduct>, rt: Runtime)
    requires UniqueIds(docs)
    ensures DistinctIds(MapProducts(docs, rt))
  {
  }

  /** The first products of a list with distinct ids have distinct ids. */
  lemma DistinctPrefix(ps: seq<Product>, limit: nat)
    requires DistinctIds(ps)
    ensures DistinctIds(Seqs.Slice(ps, limit))
  {
    var r := Seqs.Slice(ps, limit);
    assert forall i :: 0 <= i < |r| ==> r[i] == ps[i];
  }

  /** With unique ids in the store, the same-brand query returns documents with unique ids. */
  lemma SameBrandQueryDistinct(products: seq<StoredProduct>, current: StoredProduct, limit: nat)
    requires UniqueIds(products)
    ensures UniqueIds(SameBrandQuery(products, current, limit))
  {
    var filtered := Seqs.Filter(products, SameBrandOther(current));
    var sorted := Seqs.SortBy(filtered, NewerFirst);
    var docs := SameBrandQuery(products, current, limit);
    assert Seqs.NoDuplicates(products);
    Seqs.SortByNoDuplicates(filtered, NewerFirst);
    assert forall i :: 0 <= i < |docs| ==> docs[i] == sorted[i];
    SameBrandQueryMembers(products, current, limit);
    forall i, j | 0 <= i < j < |docs|
      ensures docs[i].id != docs[j].id
    {
      assert docs[i] != docs[j];
      IdsIdentify(products, docs[i], docs[j]);
    }
  }

  /** In a store with unique ids, the id identifies the document. */
  lemma IdsIdentify(docs: seq<StoredProduct>, a: StoredProduct, b: StoredProduct)
    requires UniqueIds(docs) && a in docs && b in docs && a != b
    ensures a.id != b.id
  {
    var i :| 0 <= i < |docs| && docs[i] == a;
    var j :| 0 <= j < |docs| && docs[j] == b;
  }
}
