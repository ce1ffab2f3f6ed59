/**
 The order workflow of `server/routes/orders.js`: creating an order from a
 cart (`POST /`), listing a customer's or a wholesaler's orders, and updating
 an order's status (`PUT /:id/status`).

 The catalog is the map from product id to product document; the order
 collection is the sequence of order documents in insertion order.
 */
module Orders {
  import opened Results
  import opened Identity
  import Seqs
  import Paging

  type ProductId = nat
  type OrderId = nat

  /**
   A catalog product as the order handler reads it. The handler tests
   `isActive` and `availableQuantity`, while the product schema it loads
   (server/models/Product.js) names those fields `available` and `quantity`;
   read against that schema every product would count as inactive. The
   model follows the fields the handler reads.
   Prices are whole minor currency units.
   */
  datatype Product = Product(
    name: string,
    category: string,
    unit: string,
    price: nat,
    minimumOrder: int,
    availableQuantity: int,
    isActive: bool,
    wholesaler: UserId)

  type Catalog = map<ProductId, Product>

  /** One requested cart line: `{ product, quantity }`. */
  datatype Line = Line(product: ProductId, quantity: int)

  /** One stored order line: the catalog price at the time of ordering and the line total. */
  datatype OrderItem = OrderItem(product: ProductId, quantity: int, price: nat, total: int)

  datatype Order = Order(
    id: OrderId,
    customer: UserId,
    wholesaler: UserId,
    items: seq<OrderItem>,
    totalAmount: int,
    shippingAddress: string,
    paymentMethod: string,
    notes: string,
    status: string,
    createdAt: int)

  datatype OrderError =
    | EmptyCart
    | ProductNotFound(missing: ProductId)
    | ProductUnavailable(inactive: ProductId)
    | BelowMinimum(short: ProductId)
    | InsufficientStock(scarce: ProductId)
    | MixedWholesaler
  {
    function HttpStatus(): int
    {
      if ProductNotFound? then 404 else 400
    }
  }

  const Pending: string := "pending"
  const Delivered: string := "delivered"
  const DefaultPaymentMethod: string := "cash"

  function OrderKey(o: Order): nat
  {
    o.id
  }

  function OrderCreatedAt(o: Order): int
  {
    o.createdAt
  }

  /** The quantity a line may ask of a product: active, and within minimum order and stock, both ends included. */
  predicate Acceptable(p: Product, quantity: int)
  {
    p.isActive && p.minimumOrder <= quantity <= p.availableQuantity
  }

  /**
   The checks run on one cart line, in the handler's order: the product
   exists, is active, the quantity reaches the minimum order, does not exceed
   the stock, and the product's wholesaler is `owner`, the wholesaler of the
   lines before (none for the first line).
   */
  function LineFault(catalog: Catalog, line: Line, owner: Option<UserId>): (r: Option<OrderError>)
    ensures r.None? <==>
              && line.product in catalog
              && Acceptable(catalog[line.product], line.quantity)
              && (owner.Some? ==> catalog[line.product].wholesaler == owner.value)
    ensures line.product !in catalog <==> r == Some(ProductNotFound(line.product))
    ensures line.product in catalog ==>
              var p := catalog[line.product];
              && (!p.isActive ==> r == Some(ProductUnavailable(line.product)))
              && (p.isActive && line.quantity < p.minimumOrder ==> r == Some(BelowMinimum(line.product)))
              && (p.isActive && p.minimumOrder <= line.quantity && line.quantity > p.availableQuantity ==>
                    r == Some(InsufficientStock(line.product)))
              && (Acceptable(p, line.quantity) && owner.Some? && owner.value != p.wholesaler ==>
                    r == Some(MixedWholesaler))
    ensures r == Some(MixedWholesaler) ==> owner.Some? && Acceptable(catalog[line.product], line.quantity)
  {
    if line.product !in catalog then Some(ProductNotFound(line.product))
    else
      var p := catalog[line.product];
      if !p.isActive then Some(ProductUnavailable(line.product))
      else if line.quantity < p.minimumOrder then Some(BelowMinimum(line.product))
      else if line.quantity > p.availableQuantity then Some(InsufficientStock(line.product))
      else if owner.Some? && owner.value != p.wholesaler then Some(MixedWholesaler)
      else None
  }

  /** The wholesaler every line after the first must match: that of the first line's product. */
  function OwnerAt(catalog: Catalog, cart: seq<Line>, i: nat): Option<UserId>
    requires i < |cart|
  {
    if i == 0 || cart[0].product !in catalog then None
    else Some(catalog[cart[0].product].wholesaler)
  }

  /** The fault of line `i` of the cart, judged on its own against the first line. */
  function FaultAt(catalog: Catalog, cart: seq<Line>, i: nat): Option<OrderError>
    requires i < |cart|
  {
    LineFault(catalog, cart[i], OwnerAt(catalog, cart, i))
  }

  /** Line `i` is the first line of the cart that fails, and it fails with `e`. */
  predicate FirstFault(catalog: Catalog, cart: seq<Line>, i: nat, e: OrderError)
  {
    && i < |cart|
    && FaultAt(catalog, cart, i) == Some(e)
    && forall j :: 0 <= j < i ==> FaultAt(catalog, cart, j).None?
  }

  /** `item` is the stored snapshot of `line`: the catalog price, and total = price x quantity. */
  predicate Snapshot(catalog: Catalog, line: Line, item: OrderItem)
  {
    && line.product in catalog
    && item.product == line.product
    && item.quantity == line.quantity
    && item.price == catalog[line.product].price
    && item.total == item.price * item.quantity
  }

  /**
   The handler's loop over the cart from line `k` on, carrying the
   wholesaler of the lines already accepted: the first failing check ends
   the walk, otherwise every line yields its snapshot.
   */
  function Scan(catalog: Catalog, cart: seq<Line>, k: nat, owner: Option<UserId>): (r: Result<seq<OrderItem>, OrderError>)
    requires k <= |cart|
    ensures r.Success? ==> |r.value| == |cart| - k
    ensures r.Success? ==> forall j :: 0 <= j < |r.value| ==> Snapshot(catalog, cart[k + j], r.value[j])
    ensures r.Success? ==> forall j :: k <= j < |cart| ==>
              && cart[j].product in catalog
              && Acceptable(catalog[cart[j].product], cart[j].quantity)
              && (owner.Some? ==> catalog[cart[j].product].wholesaler == owner.value)
    ensures r.Success? && k < |cart| ==> forall j :: k <= j < |cart| ==>
              catalog[cart[j].product].wholesaler == catalog[cart[k].product].wholesaler
    ensures r.Failure? ==> r.error != EmptyCart
    decreases |cart| - k
  {
    if k == |cart| then Success([])
    else
      match LineFault(catalog, cart[k], owner)
      case Some(e) => Failure(e)
      case None =>
        var p := catalog[cart[k].product];
        var rest :- Scan(catalog, cart, k + 1, Some(p.wholesaler));
        Success([OrderItem(cart[k].product, cart[k].quantity, p.price, p.price * cart[k].quantity)] + rest)
  }

  /** The order total: the sum of the line totals. */
  function SumTotals(items: seq<OrderItem>): int
  {
    if |items| == 0 then 0 else items[0].total + SumTotals(items[1..])
  }

  /** The quantity of product `pid` the items ask for, summed over every line naming it. */
  function Demand(items: seq<OrderItem>, pid: ProductId): int
  {
    if |items| == 0 then 0
    else (if items[0].product == pid then items[0].quantity else 0) + Demand(items[1..], pid)
  }

  /** The stock after the order: each line's `$inc: { availableQuantity: -quantity }`, in line order. */
  function Decrement(catalog: Catalog, items: seq<OrderItem>): (c: Catalog)
    ensures c.Keys == catalog.Keys
    ensures forall pid :: pid in catalog ==>
              c[pid] == catalog[pid].(availableQuantity := catalog[pid].availableQuantity - Demand(items, pid))
  {
    if |items| == 0 then catalog
    else
      var it := items[0];
      var next :=
        if it.product in catalog
        then catalog[it.product := catalog[it.product].(availableQuantity := catalog[it.product].availableQuantity - it.quantity)]
        else catalog;
      Decrement(next, items[1..])
  }

  /** The payment method stored: the requested one, or `cash` when it is missing or empty. */
  function PaymentOrDefault(paymentMethod: Option<string>): (m: string)
    ensures m == DefaultPaymentMethod <==> paymentMethod.None? || paymentMethod.value in {"", DefaultPaymentMethod}
    ensures m != DefaultPaymentMethod ==> paymentMethod == Some(m)
  {
    if paymentMethod.None? || paymentMethod.value == "" then DefaultPaymentMethod else paymentMethod.value
  }

  /** A created order together with the catalog after the stock decrement. */
  datatype Placement = Placement(order: Order, catalog: Catalog)

  /**
   `POST /api/orders`. A missing or empty item list is refused first; then
   the first failing line decides the error; otherwise the order snapshots
   each line's price, totals the lines, takes the common wholesaler, and the
   stock of every product drops by what the cart asks of it. A failure
   carries no catalog: nothing is written.
   */
  function CreateOrder(
    catalog: Catalog, customer: UserId, items: Option<seq<Line>>, shippingAddress: string,
    paymentMethod: Option<string>, notes: string, id: OrderId, now: int): (r: Result<Placement, OrderError>)
    ensures r == Failure(EmptyCart) <==> items.None? || |items.value| == 0
    ensures r.Success? ==>
              && items.Some? && |items.value| > 0
              && forall i :: 0 <= i < |items.value| ==> FaultAt(catalog, items.value, i).None?
    ensures r.Success? ==>
              var o := r.value.order;
              var cart := items.value;
              && |o.items| == |cart|
              && (forall i :: 0 <= i < |cart| ==> Snapshot(catalog, cart[i], o.items[i]))
              && o.totalAmount == SumTotals(o.items)
              && o.wholesaler == catalog[cart[0].product].wholesaler
              && (forall i :: 0 <= i < |cart| ==> catalog[cart[i].product].wholesaler == o.wholesaler)
              && o.customer == customer && o.id == id && o.createdAt == now
              && o.status == Pending
              && o.paymentMethod == PaymentOrDefault(paymentMethod)
              && o.shippingAddress == shippingAddress && o.notes == notes
    ensures r.Success? ==>
              && r.value.catalog.Keys == catalog.Keys
              && forall pid :: pid in catalog ==>
                   r.value.catalog[pid] == catalog[pid].(availableQuantity :=
                     catalog[pid].availableQuantity - Demand(r.value.order.items, pid))
  {
    if items.None? || |items.value| == 0 then Failure(EmptyCart)
    else
      var cart := items.value;
      var lines :- Scan(catalog, cart, 0, None);
      assert forall i :: 0 <= i < |cart| ==> FaultAt(catalog, cart, i).None? by {
        forall i | 0 <= i < |cart|
          ensures FaultAt(catalog, cart, i).None?
        {
          assert cart[0].product in catalog;
        }
      }
      var order := Order(
        id, customer, catalog[cart[0].product].wholesaler, lines, SumTotals(lines),
        shippingAddress, PaymentOrDefault(paymentMethod), notes, Pending, now);
      Success(Placement(order, Decrement(catalog, lines)))
  }

  /** Walking from line `k`, the first failing line `i` decides the error. */
  lemma {:induction false} ScanStopsAtFirstFault(catalog: Catalog, cart: seq<Line>, k: nat, i: nat)
    requires k <= i < |cart|
    requires forall j :: 0 <= j < i ==> FaultAt(catalog, cart, j).None?
    requires FaultAt(catalog, cart, i).Some?
    ensures Scan(catalog, cart, k, OwnerAt(catalog, cart, k)) == Failure(FaultAt(catalog, cart, i).value)
    decreases i - k
  {
    if k < i {
      assert FaultAt(catalog, cart, k).None?;
      var p := catalog[cart[k].product];
      assert Some(p.wholesaler) == OwnerAt(catalog, cart, k + 1) by {
        assert cart[0].product in catalog by {
          assert FaultAt(catalog, cart, 0).None?;
        }
      }
      ScanStopsAtFirstFault(catalog, cart, k + 1, i);
    }
  }

  /** Walking from line `k`, a cart none of whose lines fails is accepted. */
  lemma {:induction false} ScanAcceptsFaultless(catalog: Catalog, cart: seq<Line>, k: nat)
    requires k <= |cart|
    requires forall j :: 0 <= j < |cart| ==> FaultAt(catalog, cart, j).None?
    ensures k < |cart| ==> Scan(catalog, cart, k, OwnerAt(catalog, cart, k)).Success?
    decreases |cart| - k
  {
    if k < |cart| {
      assert FaultAt(catalog, cart, k).None?;
      var p := catalog[cart[k].product];
      if k + 1 < |cart| {
        assert FaultAt(catalog, cart, 0).None?;
        assert Some(p.wholesaler) == OwnerAt(catalog, cart, k + 1);
        ScanAcceptsFaultless(catalog, cart, k + 1);
      }
    }
  }

  /**
   The checks run line by line in input order, and the first failing line,
   with the first failing check on it, is the answer; a non-empty cart with
   no failing line is accepted.
   */
  lemma CreateOrderFirstFaultWins(
    catalog: Catalog, customer: UserId, cart: seq<Line>, shippingAddress: string,
    paymentMethod: Option<string>, notes: string, id: OrderId, now: int)
    ensures forall i, e :: FirstFault(catalog, cart, i, e) ==>
              CreateOrder(catalog, customer, Some(cart), shippingAddress, paymentMethod, notes, id, now) == Failure(e)
    ensures (|cart| > 0 && forall i :: 0 <= i < |cart| ==> FaultAt(catalog, cart, i).None?) ==>
              CreateOrder(catalog, customer, Some(cart), shippingAddress, paymentMethod, notes, id, now).Success?
  {
    forall i, e | FirstFault(catalog, cart, i, e)
      ensures CreateOrder(catalog, customer, Some(cart), shippingAddress, paymentMethod, notes, id, now) == Failure(e)
    {
      ScanStopsAtFirstFault(catalog, cart, 0, i);
    }
    if |cart| > 0 && forall i :: 0 <= i < |cart| ==> FaultAt(catalog, cart, i).None? {
      ScanAcceptsFaultless(catalog, cart, 0);
    }
  }

  /** A product that no cart line names keeps its stock. */
  lemma {:induction false} UnorderedStockUnchanged(items: seq<OrderItem>, pid: ProductId)
    requires forall i :: 0 <= i < |items| ==> items[i].product != pid
    ensures Demand(items, pid) == 0
  {
    if |items| > 0 {
      UnorderedStockUnchanged(items[1..], pid);
    }
  }

  /**
   A product repeated over two lines is checked against its stock before
   the order on each line, yet decremented once per line: two lines of 3
   against a stock of 5 are accepted and leave -1.
   */
  lemma RepeatedLineOverdraws()
    ensures
      var catalog := map[1 := Product("teff", "grains", "kg", 40, 1, 5, true, 7)];
      var r := CreateOrder(catalog, 2, Some([Line(1, 3), Line(1, 3)]), "Addis Ababa", None, "", 9, 0);
      && r.Success?
      && r.value.order.totalAmount == 240
      && r.value.catalog[1].availableQuantity == -1
  {
    var catalog := map[1 := Product("teff", "grains", "kg", 40, 1, 5, true, 7)];
    var cart := [Line(1, 3), Line(1, 3)];
    assert FaultAt(catalog, cart, 0).None?;
    assert FaultAt(catalog, cart, 1).None?;
    ScanAcceptsFaultless(catalog, cart, 0);
    var r := CreateOrder(catalog, 2, Some(cart), "Addis Ababa", None, "", 9, 0);
    var its := r.value.order.items;
    assert Snapshot(catalog, cart[0], its[0]) && Snapshot(catalog, cart[1], its[1]);
    assert its[1..][1..] == [];
    assert Demand(its, 1) == 6;
    assert SumTotals(its) == 240;
  }

  /**
   The request `status` filter: absent or empty means every status,
   otherwise an exact match.
   */
  predicate StatusMatches(o: Order, status: Option<string>)
  {
    status.None? || status.value == "" || o.status == status.value
  }

  /** The filter of `my-orders`: `{ customer: caller, status? }`. */
  function CustomerFilter(customer: UserId, status: Option<string>): Order -> bool
  {
    (o: Order) => o.customer == customer && StatusMatches(o, status)
  }

  /** The filter of `wholesaler-orders`: `{ wholesaler: caller, status? }`. */
  function WholesalerFilter(wholesaler: UserId, status: Option<string>): Order -> bool
  {
    (o: Order) => o.wholesaler == wholesaler && StatusMatches(o, status)
  }

  /** `GET /api/orders/my-orders`: the caller's own orders, newest first, one page. */
  function MyOrders(orders: seq<Order>, caller: Caller, status: Option<string>, page: int, limit: int): (r: Paging.Listing<Order>)
    requires page >= 1 && limit >= 1
    ensures |r.items| <= limit
    ensures forall i :: 0 <= i < |r.items| ==>
              r.items[i] in orders && r.items[i].customer == caller.id && StatusMatches(r.items[i], status)
    ensures Seqs.SortedDesc(r.items, OrderCreatedAt)
    ensures r.total == Seqs.Count(orders, CustomerFilter(caller.id, status))
    ensures r.items == Paging.Page(Seqs.SortDesc(Seqs.Filter(orders, CustomerFilter(caller.id, status)), OrderCreatedAt), page, limit)
    ensures r.totalPages == Paging.TotalPages(r.total, limit)
    ensures r.currentPage == page
  {
    Paging.NewestFirstPage(orders, CustomerFilter(caller.id, status), OrderCreatedAt, page, limit)
  }

  /** `GET /api/orders/wholesaler-orders`: the orders placed with the caller, newest first, one page. */
  function WholesalerOrders(orders: seq<Order>, caller: Caller, status: Option<string>, page: int, limit: int): (r: Paging.Listing<Order>)
    requires page >= 1 && limit >= 1
    ensures |r.items| <= limit
    ensures forall i :: 0 <= i < |r.items| ==>
              r.items[i] in orders && r.items[i].wholesaler == caller.id && StatusMatches(r.items[i], status)
    ensures Seqs.SortedDesc(r.items, OrderCreatedAt)
    ensures r.total == Seqs.Count(orders, WholesalerFilter(caller.id, status))
    ensures r.items == Paging.Page(Seqs.SortDesc(Seqs.Filter(orders, WholesalerFilter(caller.id, status)), OrderCreatedAt), page, limit)
    ensures r.totalPages == Paging.TotalPages(r.total, limit)
    ensures r.currentPage == page
  {
    Paging.NewestFirstPage(orders, WholesalerFilter(caller.id, status), OrderCreatedAt, page, limit)
  }

  /**
   `PUT /api/orders/:id/status`. A missing order is reported before any
   authorisation; then only the order's wholesaler or an admin may proceed;
   the status is set to whatever is asked, with no transition check, and
   nothing else changes.
   */
  function UpdateStatus(orders: seq<Order>, id: OrderId, status: string, caller: Caller): (r: Result<seq<Order>, Denial>)
    ensures Seqs.IndexOf(orders, OrderKey, id).None? ==> r == Failure(NotFound)
    ensures Seqs.IndexOf(orders, OrderKey, id).Some? ==>
              var k := Seqs.IndexOf(orders, OrderKey, id).value;
              && (r.Success? <==> OwnerOrAdmin(caller, orders[k].wholesaler))
              && (r.Failure? ==> r.error == Forbidden)
              && (r.Success? ==>
                    && |r.value| == |orders|
                    && r.value[k].status == status
                    && r.value[k].(status := orders[k].status) == orders[k]
                    && forall j :: 0 <= j < |orders| && j != k ==> r.value[j] == orders[j])
  {
    match Seqs.IndexOf(orders, OrderKey, id)
    case None => Failure(NotFound)
    case Some(k) =>
      if orders[k].wholesaler != caller.id && caller.role != Admin then Failure(Forbidden)
      else Success(orders[k := orders[k].(status := status)])
  }
}
