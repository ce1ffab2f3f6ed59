/**
 The admin endpoints of `server/routes/admin.js`: the dashboard statistics
 (`GET /stats`), the order list (`GET /orders`) and the wholesaler
 verification toggle (`PUT /wholesalers/:id/approve`). Every route sits
 behind the admin gate, which is not part of this model.
 */
module Admin {
  import opened Results
  import opened Identity
  import Seqs
  import Paging
  import opened Orders

  /** The `stats` block of the dashboard response. */
  datatype Stats = Stats(
    totalUsers: nat,
    totalWholesalers: nat,
    totalCustomers: nat,
    totalProducts: nat,
    activeProducts: nat,
    totalOrders: nat,
    pendingOrders: nat,
    totalRevenue: int)

  function HasRole(role: Role): User -> bool
  {
    (u: User) => u.role == role
  }

  function HasStatus(status: string): Order -> bool
  {
    (o: Order) => o.status == status
  }

  /** What one order adds to the revenue: its total when delivered. */
  function Earned(o: Order): int
  {
    if o.status == Delivered then o.totalAmount else 0
  }

  /** The `$match: delivered` / `$sum: totalAmount` aggregate; an empty match yields 0. */
  function Revenue(orders: seq<Order>): int
  {
    if |orders| == 0 then 0 else Earned(orders[0]) + Revenue(orders[1..])
  }

  /** The product documents matching `{ isActive: true }`. */
  function ActiveIds(catalog: Catalog): (ids: set<ProductId>)
    ensures ids <= catalog.Keys
    ensures forall pid :: pid in catalog ==> (pid in ids <==> catalog[pid].isActive)
  {
    set pid | pid in catalog && catalog[pid].isActive
  }

  lemma SubsetSize<T>(a: set<T>, b: set<T>)
    requires a <= b
    ensures |a| <= |b|
  {
    assert b == a + (b - a);
  }

  /**
   `GET /api/admin/stats`, the counters. Users are counted by exact role, so
   wholesalers and customers together never exceed all users; active
   products and pending orders are subsets of their collections.
   */
  function DashboardStats(users: seq<User>, catalog: Catalog, orders: seq<Order>): (s: Stats)
    ensures s.totalUsers == |users| && s.totalProducts == |catalog| && s.totalOrders == |orders|
    ensures s.totalWholesalers == Seqs.Count(users, HasRole(Wholesaler))
    ensures s.totalCustomers == Seqs.Count(users, HasRole(Customer))
    ensures s.totalWholesalers + s.totalCustomers <= s.totalUsers
    ensures s.activeProducts == |ActiveIds(catalog)| && s.activeProducts <= s.totalProducts
    ensures s.pendingOrders == Seqs.Count(orders, HasStatus(Pending)) && s.pendingOrders <= s.totalOrders
    ensures s.totalRevenue == Revenue(orders)
  {
    Seqs.CountExclusive(users, HasRole(Wholesaler), HasRole(Customer));
    SubsetSize(ActiveIds(catalog), catalog.Keys);
    Stats(
      |users|,
      Seqs.Count(users, HasRole(Wholesaler)),
      Seqs.Count(users, HasRole(Customer)),
      |catalog|,
      |ActiveIds(catalog)|,
      |orders|,
      Seqs.Count(orders, HasStatus(Pending)),
      Revenue(orders))
  }

  /** Revenue adds up over the collection. */
  lemma {:induction false} RevenueAppend(a: seq<Order>, b: seq<Order>)
    ensures Revenue(a + b) == Revenue(a) + Revenue(b)
  {
    if |a| == 0 {
      assert a + b == b;
    } else {
      assert (a + b)[1..] == a[1..] + b;
      RevenueAppend(a[1..], b);
    }
  }

  /** Without a delivered order the revenue is 0. */
  lemma {:induction false} RevenueWithoutDeliveries(orders: seq<Order>)
    requires forall i :: 0 <= i < |orders| ==> orders[i].status != Delivered
    ensures Revenue(orders) == 0
  {
    if |orders| > 0 {
      RevenueWithoutDeliveries(orders[1..]);
    }
  }

  /** Replacing one order changes the revenue by the difference of what the two earn. */
  lemma {:induction false} RevenueReplace(orders: seq<Order>, k: nat, o: Order)
    requires k < |orders|
    ensures Revenue(orders[k := o]) == Revenue(orders) - Earned(orders[k]) + Earned(o)
  {
    if k > 0 {
      assert orders[k := o][1..] == orders[1..][k - 1 := o];
      RevenueReplace(orders[1..], k - 1, o);
    } else {
      assert orders[k := o][1..] == orders[1..];
    }
  }

  /** A new order is pending: storing it adds one pending order and no revenue. */
  lemma NewOrderIsPendingAndEarnsNothing(
    orders: seq<Order>, catalog: Catalog, customer: UserId, items: Option<seq<Line>>, shippingAddress: string,
    paymentMethod: Option<string>, notes: string, id: OrderId, now: int)
    requires CreateOrder(catalog, customer, items, shippingAddress, paymentMethod, notes, id, now).Success?
    ensures
      var o := CreateOrder(catalog, customer, items, shippingAddress, paymentMethod, notes, id, now).value.order;
      && Revenue(orders + [o]) == Revenue(orders)
      && Seqs.Count(orders + [o], HasStatus(Pending)) == Seqs.Count(orders, HasStatus(Pending)) + 1
  {
    var o := CreateOrder(catalog, customer, items, shippingAddress, paymentMethod, notes, id, now).value.order;
    RevenueAppend(orders, [o]);
    assert Revenue([o]) == 0;
    Seqs.FilterAppend(orders, [o], HasStatus(Pending));
    assert Seqs.Filter([o], HasStatus(Pending)) == [o];
  }

  /** Marking a not-yet-delivered order `delivered` adds exactly its total to the revenue. */
  lemma DeliveringAddsItsTotal(orders: seq<Order>, id: OrderId, caller: Caller)
    requires UpdateStatus(orders, id, Delivered, caller).Success?
    ensures
      var k := Seqs.IndexOf(orders, OrderKey, id).value;
      orders[k].status != Delivered ==>
        Revenue(UpdateStatus(orders, id, Delivered, caller).value) == Revenue(orders) + orders[k].totalAmount
  {
    var k := Seqs.IndexOf(orders, OrderKey, id).value;
    RevenueReplace(orders, k, orders[k].(status := Delivered));
  }

  /** The five newest orders (`sort({ createdAt: -1 }).limit(5)`). */
  function RecentOrders(orders: seq<Order>): (r: seq<Order>)
    ensures |r| == Paging.Min(5, |orders|)
    ensures forall i :: 0 <= i < |r| ==> r[i] in orders
    ensures Seqs.SortedDesc(r, OrderCreatedAt)
    ensures multiset(r) <= multiset(orders)
    ensures forall j :: 0 <= j < |orders| && orders[j] !in r ==>
              forall i :: 0 <= i < |r| ==> r[i].createdAt >= orders[j].createdAt
  {
    Seqs.TopN(orders, OrderCreatedAt, 5)
  }

  /** The products of an order's lines, one entry per line (`$unwind: '$items'`). */
  function ProductsOf(items: seq<OrderItem>): (ps: seq<ProductId>)
    ensures |ps| == |items|
    ensures forall i :: 0 <= i < |items| ==> ps[i] == items[i].product
  {
    seq(|items|, i requires 0 <= i < |items| => items[i].product)
  }

  /** Every order line's product, over the whole collection. */
  function ItemProducts(orders: seq<Order>): seq<ProductId>
  {
    if |orders| == 0 then [] else ProductsOf(orders[0].items) + ItemProducts(orders[1..])
  }

  /** `orderCount`: how many order lines name `pid`, whatever their quantities. */
  function LineCount(orders: seq<Order>, pid: ProductId): nat
  {
    multiset(ItemProducts(orders))[pid]
  }

  /** One group of the `$group` stage. */
  datatype ProductCount = ProductCount(product: ProductId, orderCount: nat)

  function CountOf(g: ProductCount): int
  {
    g.orderCount
  }

  /** The groups: one per distinct product that some line names, with its line count. */
  function Groups(orders: seq<Order>): (gs: seq<ProductCount>)
    ensures forall i :: 0 <= i < |gs| ==> gs[i].orderCount == LineCount(orders, gs[i].product) > 0
    ensures forall pid :: LineCount(orders, pid) > 0 ==> ProductCount(pid, LineCount(orders, pid)) in gs
    ensures Seqs.Distinct(gs)
  {
    var keys := Seqs.Dedup(ItemProducts(orders));
    var gs := seq(|keys|, i requires 0 <= i < |keys| => ProductCount(keys[i], LineCount(orders, keys[i])));
    assert forall pid :: LineCount(orders, pid) > 0 ==> ProductCount(pid, LineCount(orders, pid)) in gs by {
      forall pid | LineCount(orders, pid) > 0
        ensures ProductCount(pid, LineCount(orders, pid)) in gs
      {
        assert pid in ItemProducts(orders);
        var j :| 0 <= j < |ItemProducts(orders)| && ItemProducts(orders)[j] == pid;
        assert pid in keys;
        var m :| 0 <= m < |keys| && keys[m] == pid;
        assert gs[m] == ProductCount(pid, LineCount(orders, pid));
      }
    }
    gs
  }

  /**
   The five largest groups (`$sort: { orderCount: -1 }`, `$limit: 5`): no
   product left out has more lines than any product kept.
   */
  function TopGroups(orders: seq<Order>): (r: seq<ProductCount>)
    ensures |r| == Paging.Min(5, |Groups(orders)|)
    ensures forall i, j :: 0 <= i < j < |r| ==> r[i].product != r[j].product
    ensures forall i :: 0 <= i < |r| ==> r[i].orderCount == LineCount(orders, r[i].product) > 0
    ensures Seqs.SortedDesc(r, CountOf)
    ensures forall pid :: LineCount(orders, pid) > 0 && (forall i :: 0 <= i < |r| ==> r[i].product != pid) ==>
              forall i :: 0 <= i < |r| ==> r[i].orderCount >= LineCount(orders, pid)
  {
    var r := Seqs.TopN(Groups(orders), CountOf, 5);
    TopKept(orders, r);
    r
  }

  lemma TopKept(orders: seq<Order>, r: seq<ProductCount>)
    requires r == Seqs.TopN(Groups(orders), CountOf, 5)
    ensures forall i, j :: 0 <= i < j < |r| ==> r[i].product != r[j].product
    ensures forall i :: 0 <= i < |r| ==> r[i].orderCount == LineCount(orders, r[i].product) > 0
    ensures forall pid :: LineCount(orders, pid) > 0 && (forall i :: 0 <= i < |r| ==> r[i].product != pid) ==>
              forall i :: 0 <= i < |r| ==> r[i].orderCount >= LineCount(orders, pid)
  {
    var gs := Groups(orders);
    GroupsKept(orders, gs, r);
    Seqs.DistinctPart(gs, r);
    CountedDistinct(orders, r);
    forall pid | LineCount(orders, pid) > 0 && (forall i :: 0 <= i < |r| ==> r[i].product != pid)
      ensures forall i :: 0 <= i < |r| ==> r[i].orderCount >= LineCount(orders, pid)
    {
      GroupLeftOut(orders, gs, r, pid);
    }
  }

  /** Distinct groups that carry their product's own line count name distinct products. */
  lemma CountedDistinct(orders: seq<Order>, r: seq<ProductCount>)
    requires Seqs.Distinct(r)
    requires forall i :: 0 <= i < |r| ==> r[i].orderCount == LineCount(orders, r[i].product)
    ensures forall i, j :: 0 <= i < j < |r| ==> r[i].product != r[j].product
  {
    forall i, j | 0 <= i < j < |r|
      ensures r[i].product != r[j].product
    {
      assert r[i] != r[j];
    }
  }

  lemma GroupsKept(orders: seq<Order>, gs: seq<ProductCount>, r: seq<ProductCount>)
    requires forall i :: 0 <= i < |gs| ==> gs[i].orderCount == LineCount(orders, gs[i].product) > 0
    requires forall i :: 0 <= i < |r| ==> r[i] in gs
    ensures forall i :: 0 <= i < |r| ==> r[i].orderCount == LineCount(orders, r[i].product) > 0
  {
    forall i | 0 <= i < |r|
      ensures r[i].orderCount == LineCount(orders, r[i].product) > 0
    {
      var m :| 0 <= m < |gs| && gs[m] == r[i];
    }
  }

  lemma GroupLeftOut(orders: seq<Order>, gs: seq<ProductCount>, r: seq<ProductCount>, pid: ProductId)
    requires gs == Groups(orders) && r == Seqs.TopN(gs, CountOf, 5)
    requires LineCount(orders, pid) > 0
    requires forall i :: 0 <= i < |r| ==> r[i].product != pid
    ensures forall i :: 0 <= i < |r| ==> r[i].orderCount >= LineCount(orders, pid)
  {
    var g := ProductCount(pid, LineCount(orders, pid));
    assert g in gs;
    var m :| 0 <= m < |gs| && gs[m] == g;
    assert gs[m] !in r;
    forall i | 0 <= i < |r|
      ensures r[i].orderCount >= LineCount(orders, pid)
    {
      assert CountOf(r[i]) >= CountOf(gs[m]);
    }
  }

  /** A top-products entry after the `$lookup` and `$project` stages. */
  datatype TopProduct = TopProduct(product: ProductId, name: string, category: string, orderCount: nat)

  function TopCountOf(t: TopProduct): int
  {
    t.orderCount
  }

  /**
   The `$lookup` / `$unwind: '$product'` stages: each group joined with its
   catalog product; a group whose product no longer exists is dropped.
   */
  function JoinCatalog(groups: seq<ProductCount>, catalog: Catalog): (r: seq<TopProduct>)
    ensures |r| <= |groups|
    ensures forall i :: 0 <= i < |r| ==>
              && r[i].product in catalog
              && r[i].name == catalog[r[i].product].name
              && r[i].category == catalog[r[i].product].category
              && ProductCount(r[i].product, r[i].orderCount) in groups
    ensures forall j :: 0 <= j < |groups| && groups[j].product in catalog ==>
              TopProduct(groups[j].product, catalog[groups[j].product].name,
                         catalog[groups[j].product].category, groups[j].orderCount) in r
  {
    if |groups| == 0 then []
    else
      var g := groups[0];
      var rest := JoinCatalog(groups[1..], catalog);
      assert forall j :: 1 <= j < |groups| ==> groups[j] == groups[1..][j - 1];
      if g.product in catalog then
        [TopProduct(g.product, catalog[g.product].name, catalog[g.product].category, g.orderCount)] + rest
      else
        rest
  }

  /** Joining drops groups but never reorders them, so the count order survives. */
  lemma {:induction false} JoinKeepsOrder(groups: seq<ProductCount>, catalog: Catalog)
    requires Seqs.SortedDesc(groups, CountOf)
    ensures Seqs.SortedDesc(JoinCatalog(groups, catalog), TopCountOf)
  {
    if |groups| > 0 {
      var rest := JoinCatalog(groups[1..], catalog);
      JoinKeepsOrder(groups[1..], catalog);
      forall i | 0 <= i < |rest|
        ensures TopCountOf(rest[i]) <= CountOf(groups[0])
      {
        var pc := ProductCount(rest[i].product, rest[i].orderCount);
        var m :| 0 <= m < |groups[1..]| && groups[1..][m] == pc;
        assert groups[1..][m] == groups[m + 1];
      }
      var g := groups[0];
      if g.product in catalog {
        var t := TopProduct(g.product, catalog[g.product].name, catalog[g.product].category, g.orderCount);
        Seqs.SortedCons(t, rest, TopCountOf);
      }
    }
  }

  /** Joining keeps each group's count, so the joined counts are still line counts. */
  lemma JoinedCountsHold(orders: seq<Order>, top: seq<ProductCount>, r: seq<TopProduct>)
    requires forall i :: 0 <= i < |top| ==> top[i].orderCount == LineCount(orders, top[i].product) > 0
    requires forall i :: 0 <= i < |r| ==> ProductCount(r[i].product, r[i].orderCount) in top
    ensures forall i :: 0 <= i < |r| ==> r[i].orderCount == LineCount(orders, r[i].product) > 0
  {
    forall i | 0 <= i < |r|
      ensures r[i].orderCount == LineCount(orders, r[i].product) > 0
    {
      var m :| 0 <= m < |top| && top[m] == ProductCount(r[i].product, r[i].orderCount);
    }
  }

  /**
   `topProducts`: the five largest groups joined with the catalog, largest
   line count first; a group whose product has left the catalog is dropped,
   so fewer than five can remain, but no other group is lost.
   */
  function TopProducts(orders: seq<Order>, catalog: Catalog): (r: seq<TopProduct>)
    ensures |r| <= 5
    ensures Seqs.SortedDesc(r, TopCountOf)
    ensures forall i :: 0 <= i < |r| ==>
              && r[i].product in catalog
              && r[i].orderCount == LineCount(orders, r[i].product) > 0
              && r[i].name == catalog[r[i].product].name
              && r[i].category == catalog[r[i].product].category
              && ProductCount(r[i].product, r[i].orderCount) in TopGroups(orders)
    ensures forall i, j :: 0 <= i < j < |r| ==> r[i].product != r[j].product
    ensures var top := TopGroups(orders);
      forall j :: 0 <= j < |top| && top[j].product in catalog ==>
        TopProduct(top[j].product, catalog[top[j].product].name, catalog[top[j].product].category, top[j].orderCount) in r
  {
    var top := TopGroups(orders);
    var r := JoinCatalog(top, catalog);
    JoinKeepsOrder(top, catalog);
    JoinedCountsHold(orders, top, r);
    JoinKeepsDistinct(top, catalog);
    r
  }

  /** No two top-products entries name the same product. */
  predicate DistinctProducts(r: seq<TopProduct>)
  {
    forall i, j :: 0 <= i < j < |r| ==> r[i].product != r[j].product
  }

  /** Joining groups of distinct products gives entries of distinct products. */
  lemma {:induction false} JoinKeepsDistinct(groups: seq<ProductCount>, catalog: Catalog)
    requires forall i, j :: 0 <= i < j < |groups| ==> groups[i].product != groups[j].product
    ensures DistinctProducts(JoinCatalog(groups, catalog))
  {
    if |groups| > 0 {
      var g, tail := groups[0], groups[1..];
      assert forall i, j :: 0 <= i < j < |tail| ==> tail[i].product != tail[j].product by {
        forall i, j | 0 <= i < j < |tail|
          ensures tail[i].product != tail[j].product
        {
          assert tail[i] == groups[i + 1] && tail[j] == groups[j + 1];
        }
      }
      var rest := JoinCatalog(tail, catalog);
      JoinKeepsDistinct(tail, catalog);
      forall i | 0 <= i < |rest|
        ensures rest[i].product != g.product
      {
        var m :| 0 <= m < |tail| && tail[m] == ProductCount(rest[i].product, rest[i].orderCount);
        assert tail[m] == groups[m + 1];
      }
      if g.product in catalog {
        var t := TopProduct(g.product, catalog[g.product].name, catalog[g.product].category, g.orderCount);
        ConsKeepsDistinct(t, rest);
        assert JoinCatalog(groups, catalog) == [t] + rest;
      } else {
        assert JoinCatalog(groups, catalog) == rest;
      }
    }
  }

  /** An entry whose product none of the others has keeps the products distinct. */
  lemma ConsKeepsDistinct(t: TopProduct, rest: seq<TopProduct>)
    requires DistinctProducts(rest)
    requires forall i :: 0 <= i < |rest| ==> rest[i].product != t.product
    ensures DistinctProducts([t] + rest)
  {
    var r := [t] + rest;
    forall i, j | 0 <= i < j < |r|
      ensures r[i].product != r[j].product
    {
      assert r[j] == rest[j - 1];
      if i > 0 {
        assert r[i] == rest[i - 1];
      }
    }
  }

  /**
   `GET /api/admin/orders`. The search clause is added to the filter only
   after the list query was built from it, so the page ignores the search
   while the count obeys it. `searchHit` stands for the case-insensitive
   match on `orderNumber`, present when the request has a non-empty search.
   */
  function AdminOrders(
    orders: seq<Order>, status: Option<string>, searchHit: Option<Order -> bool>, page: int, limit: int): (r: Paging.Listing<Order>)
    requires page >= 1 && limit >= 1
    ensures |r.items| <= limit
    ensures forall i :: 0 <= i < |r.items| ==> r.items[i] in orders && StatusMatches(r.items[i], status)
    ensures Seqs.SortedDesc(r.items, OrderCreatedAt)
    ensures r.items == Paging.NewestFirstPage(orders, StatusFilter(status), OrderCreatedAt, page, limit).items
    ensures r.total == Seqs.Count(orders, CountFilter(status, searchHit))
    ensures r.total <= Seqs.Count(orders, StatusFilter(status))
    ensures searchHit.None? ==> r.total == Seqs.Count(orders, StatusFilter(status))
    ensures r.totalPages == Paging.TotalPages(r.total, limit)
    ensures r.currentPage == page
  {
    var listed := Paging.NewestFirstPage(orders, StatusFilter(status), OrderCreatedAt, page, limit);
    var total := Seqs.Count(orders, CountFilter(status, searchHit));
    Seqs.CountMonotone(orders, CountFilter(status, searchHit), StatusFilter(status));
    assert searchHit.None? ==> total == Seqs.Count(orders, StatusFilter(status)) by {
      if searchHit.None? {
        Seqs.CountSame(orders, CountFilter(status, searchHit), StatusFilter(status));
      }
    }
    Paging.Listing(listed.items, page, Paging.TotalPages(total, limit), total)
  }

  function StatusFilter(status: Option<string>): Order -> bool
  {
    (o: Order) => StatusMatches(o, status)
  }

  /** The filter as it stands when the count runs: status, and the search clause when present. */
  function CountFilter(status: Option<string>, searchHit: Option<Order -> bool>): Order -> bool
  {
    (o: Order) => StatusMatches(o, status) && (searchHit.None? || searchHit.value(o))
  }

  /**
   `PUT /api/admin/wholesalers/:id/approve`. A missing user is reported
   first, a user who is not a wholesaler is refused unchanged, and otherwise
   only the verification flag takes the requested value.
   */
  function ApproveWholesaler(users: seq<User>, id: UserId, isVerified: bool): (r: Result<seq<User>, Denial>)
    ensures Seqs.IndexOf(users, UserKey, id).None? ==> r == Failure(NotFound)
    ensures Seqs.IndexOf(users, UserKey, id).Some? ==>
              var k := Seqs.IndexOf(users, UserKey, id).value;
              && (r.Failure? <==> users[k].role != Wholesaler)
              && (r.Failure? ==> r.error == NotWholesaler)
              && (r.Success? ==>
                    && |r.value| == |users|
                    && r.value[k].isVerified == isVerified
                    && r.value[k].(isVerified := users[k].isVerified) == users[k]
                    && forall j :: 0 <= j < |users| && j != k ==> r.value[j] == users[j])
  {
    match Seqs.IndexOf(users, UserKey, id)
    case None => Failure(NotFound)
    case Some(k) =>
      if users[k].role != Wholesaler then Failure(NotWholesaler)
      else Success(users[k := users[k].(isVerified := isVerified)])
  }
}
