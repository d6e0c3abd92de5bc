/** The shop's orders (`store.ts`, `shop-routes.ts`) over any interleaving of order creation,
    catalog edits and payment claims. A table is the sequence of its rows in rowid order;
    a transaction is one step that commits or leaves no trace. */
module Shop {
  import opened Text
  import opened Cart

  datatype Order = Order(id: string, user: string, paid: bool, totalCents: int,
                         paidAt: Option<int>, paymentHash: Option<string>, createdAt: int)

  /** The name and the price are copies made when the order was placed. */
  datatype Item = Item(orderId: string, productId: string, sku: string, name: string, unitPriceCents: int, quantity: nat)

  /** A claim that committed and updated its row. */
  datatype Win = Win(reference: string, paidAt: int, paymentHash: string)

  datatype Store = Store(users: set<string>, products: seq<Product>, orders: seq<Order>, items: seq<Item>, wins: seq<Win>)

  predicate IsHex(c: char) { '0' <= c <= '9' || 'a' <= c <= 'f' || 'A' <= c <= 'F' }

  /** Eight, four, four, four and twelve hex digits between dashes. */
  predicate IsReference(s: string) {
    |s| == 36 && forall i :: 0 <= i < 36 ==> if i in {8, 13, 18, 23} then s[i] == '-' else IsHex(s[i])
  }

  /** The row with this id, or the number of rows. */
  function Find(orders: seq<Order>, id: string): (i: nat)
    ensures i <= |orders|
    ensures i < |orders| ==> orders[i].id == id
    ensures forall k :: 0 <= k < i ==> orders[k].id != id
  {
    if orders == [] || orders[0].id == id then 0 else 1 + Find(orders[1..], id)
  }

  predicate Exists(orders: seq<Order>, id: string) { Find(orders, id) < |orders| }

  function Cost(lines: seq<Line>): int {
    if lines == [] then 0
    else Cost(lines[..|lines| - 1]) + lines[|lines| - 1].product.priceCents * lines[|lines| - 1].quantity
  }

  function ItemOf(id: string, line: Line): Item {
    Item(id, line.product.id, line.product.sku, line.product.name, line.product.priceCents, line.quantity)
  }

  function ItemsFor(id: string, lines: seq<Line>): seq<Item> {
    if lines == [] then [] else ItemsFor(id, lines[..|lines| - 1]) + [ItemOf(id, lines[|lines| - 1])]
  }

  /** What the tables' own constraints let in: a known user, positive prices and quantities,
      one line per sku. */
  predicate LineAllowed(line: Line) { line.product.priceCents > 0 && line.quantity > 0 }

  predicate Insertable(s: Store, id: string, lines: seq<Line>, user: string) {
    && user in s.users && !Exists(s.orders, id) && Cost(lines) > 0
    && (forall i :: 0 <= i < |lines| ==> LineAllowed(lines[i]))
    && (forall i, j :: 0 <= i < j < |lines| ==> lines[i].product.sku != lines[j].product.sku)
  }

  function NewOrder(id: string, lines: seq<Line>, user: string, now: int): Order {
    Order(id, user, false, Cost(lines), None, None, now)
  }

  function CreateOrder(s: Store, id: string, lines: seq<Line>, user: string, now: int): Store {
    if !Insertable(s, id, lines, user) then s
    else s.(orders := s.orders + [NewOrder(id, lines, user, now)], items := s.items + ItemsFor(id, lines))
  }

  function PaidOrder(o: Order, paidAt: int, paymentHash: string): Order {
    o.(paid := true, paidAt := Some(paidAt), paymentHash := Some(paymentHash))
  }

  /** `UPDATE … WHERE id = ? AND state = 'awaiting_payment'` finds a row. */
  predicate Claimable(s: Store, reference: string) {
    && IsReference(reference) && Exists(s.orders, reference)
    && !s.orders[Find(s.orders, reference)].paid
  }

  /** A claim whose transaction commits. */
  function Claim(s: Store, reference: string, paidAt: int, paymentHash: string): Store {
    if !Claimable(s, reference) then s
    else
      var i := Find(s.orders, reference);
      s.(orders := s.orders[i := PaidOrder(s.orders[i], paidAt, paymentHash)],
         wins := s.wins + [Win(reference, paidAt, paymentHash)])
  }

  // ----- the public totals -----------------------------------------------------------------

  predicate Paid(orders: seq<Order>, id: string) { Exists(orders, id) && orders[Find(orders, id)].paid }

  /** `SELECT COUNT(*) … WHERE state = 'paid'` */
  function PaidOrders(orders: seq<Order>): nat {
    if orders == [] then 0 else PaidOrders(orders[..|orders| - 1]) + if orders[|orders| - 1].paid then 1 else 0
  }

  /** `SUM(quantity)` over the items joined with their paid orders. */
  function ButtonsSold(items: seq<Item>, orders: seq<Order>): nat {
    if items == [] then 0
    else
      var last := items[|items| - 1];
      ButtonsSold(items[..|items| - 1], orders) + if Paid(orders, last.orderId) then last.quantity else 0
  }

  /** What one order holds, in buttons and in cents. */
  function Quantity(items: seq<Item>, id: string): nat {
    if items == [] then 0
    else Quantity(items[..|items| - 1], id) + if items[|items| - 1].orderId == id then items[|items| - 1].quantity else 0
  }

  function Price(items: seq<Item>, id: string): int {
    if items == [] then 0
    else
      var last := items[|items| - 1];
      Price(items[..|items| - 1], id) + if last.orderId == id then last.unitPriceCents * last.quantity else 0
  }

  function Won(items: seq<Item>, wins: seq<Win>): nat {
    if wins == [] then 0 else Won(items, wins[..|wins| - 1]) + Quantity(items, wins[|wins| - 1].reference)
  }

  // ----- runs ---------------------------------------------------------------------------------

  datatype Op =
    | VisitOp(user: string)
    | CreateOp(id: string, lines: seq<Line>, user: string, now: int)
    | EditOp(products: seq<Product>)
    | ClaimOp(reference: string, paidAt: int, paymentHash: string, commits: bool)

  function Step(s: Store, op: Op): Store {
    match op
    case VisitOp(user) => s.(users := s.users + {user})
    case CreateOp(id, lines, user, now) => CreateOrder(s, id, lines, user, now)
    case EditOp(products) => s.(products := products)
    case ClaimOp(reference, paidAt, hash, commits) => if commits then Claim(s, reference, paidAt, hash) else s
  }

  function Run(s: Store, ops: seq<Op>): Store
    decreases |ops|
  {
    if ops == [] then s else Step(Run(s, ops[..|ops| - 1]), ops[|ops| - 1])
  }

  const EMPTY: Store := Store({}, [], [], [], [])

  /** The win that paid an order says when and by what. */
  predicate WonBy(o: Order, w: Win) {
    w.reference == o.id && o.paidAt == Some(w.paidAt) && o.paymentHash == Some(w.paymentHash)
  }

  predicate OrderKept(s: Store, o: Order) {
    && o.totalCents == Price(s.items, o.id)
    && (o.paid <==> exists k :: 0 <= k < |s.wins| && s.wins[k].reference == o.id)
    && (forall k :: 0 <= k < |s.wins| && s.wins[k].reference == o.id ==> WonBy(o, s.wins[k]))
    && (!o.paid ==> o.paidAt == None && o.paymentHash == None)
  }

  predicate DistinctIds(orders: seq<Order>) {
    forall i, j :: 0 <= i < j < |orders| ==> orders[i].id != orders[j].id
  }

  predicate DistinctWins(wins: seq<Win>) {
    forall i, j :: 0 <= i < j < |wins| ==> wins[i].reference != wins[j].reference
  }

  predicate References(s: Store) {
    && (forall k :: 0 <= k < |s.wins| ==> Exists(s.orders, s.wins[k].reference))
    && (forall k :: 0 <= k < |s.items| ==> Exists(s.orders, s.items[k].orderId))
  }

  predicate Totals(s: Store) {
    PaidOrders(s.orders) == |s.wins| && ButtonsSold(s.items, s.orders) == Won(s.items, s.wins)
  }

  predicate Inv(s: Store) {
    && DistinctIds(s.orders) && DistinctWins(s.wins) && References(s)
    && (forall i :: 0 <= i < |s.orders| ==> OrderKept(s, s.orders[i]))
    && Totals(s)
  }

  // ----- how the sums move ----------------------------------------------------------------------

  lemma {:induction false} PayOne(orders: seq<Order>, i: nat, o: Order)
    requires i < |orders| && !orders[i].paid && o.paid && o.id == orders[i].id
    ensures PaidOrders(orders[i := o]) == PaidOrders(orders) + 1
    ensures forall id :: Find(orders[i := o], id) == Find(orders, id)
    decreases |orders|
  {
    var front, after := orders[..|orders| - 1], orders[i := o];
    FindSame(orders, after);
    if i == |front| {
      assert after[..|after| - 1] == front;
    } else {
      PayOne(front, i, o);
      assert after[..|after| - 1] == front[i := o];
    }
  }

  lemma {:induction false} FindSame(a: seq<Order>, b: seq<Order>)
    requires |a| == |b| && forall k :: 0 <= k < |a| ==> a[k].id == b[k].id
    ensures forall id :: Find(a, id) == Find(b, id)
  {
    if a != [] { FindSame(a[1..], b[1..]); }
  }

  lemma {:induction false} SellOne(items: seq<Item>, orders: seq<Order>, i: nat, o: Order)
    requires i < |orders| && Find(orders, o.id) == i && !orders[i].paid && o.paid && o.id == orders[i].id
    ensures ButtonsSold(items, orders[i := o]) == ButtonsSold(items, orders) + Quantity(items, o.id)
    decreases |items|
  {
    PayOne(orders, i, o);
    if items != [] { SellOne(items[..|items| - 1], orders, i, o); }
  }

  lemma {:induction false} FindAppend(orders: seq<Order>, o: Order, id: string)
    ensures Find(orders + [o], id) == if Exists(orders, id) then Find(orders, id) else if o.id == id then |orders| else |orders| + 1
  {
    if orders != [] {
      FindAppend(orders[1..], o, id);
      assert (orders + [o])[1..] == orders[1..] + [o];
    }
  }

  lemma {:induction false} NewOrderSells(items: seq<Item>, orders: seq<Order>, o: Order)
    requires !o.paid && !Exists(orders, o.id)
    ensures ButtonsSold(items, orders + [o]) == ButtonsSold(items, orders)
    decreases |items|
  {
    if items != [] {
      NewOrderSells(items[..|items| - 1], orders, o);
      FindAppend(orders, o, items[|items| - 1].orderId);
    }
  }

  /** The rows of one order are added to nobody else's sums. */
  lemma {:induction false} ItemsAdded(items: seq<Item>, id: string, lines: seq<Line>, orders: seq<Order>)
    requires !Paid(orders, id)
    ensures var all := items + ItemsFor(id, lines);
            && ButtonsSold(all, orders) == ButtonsSold(items, orders)
            && Price(all, id) == Price(items, id) + Cost(lines)
            && (forall other :: other != id ==> Quantity(all, other) == Quantity(items, other) && Price(all, other) == Price(items, other))
    decreases |lines|
  {
    var all := items + ItemsFor(id, lines);
    if lines == [] {
      assert all == items;
    } else {
      ItemsAdded(items, id, lines[..|lines| - 1], orders);
      assert all[..|all| - 1] == items + ItemsFor(id, lines[..|lines| - 1]);
    }
  }

  lemma {:induction false} NoItemsYet(items: seq<Item>, id: string)
    requires forall k :: 0 <= k < |items| ==> items[k].orderId != id
    ensures Quantity(items, id) == 0 && Price(items, id) == 0
    decreases |items|
  {
    if items != [] { NoItemsYet(items[..|items| - 1], id); }
  }

  lemma {:induction false} WonSame(a: seq<Item>, b: seq<Item>, wins: seq<Win>)
    requires forall k :: 0 <= k < |wins| ==> Quantity(a, wins[k].reference) == Quantity(b, wins[k].reference)
    ensures Won(a, wins) == Won(b, wins)
    decreases |wins|
  {
    if wins != [] { WonSame(a, b, wins[..|wins| - 1]); }
  }

  // ----- every step keeps the invariant -----------------------------------------------------------

  lemma FindIs(orders: seq<Order>, i: nat)
    requires DistinctIds(orders) && i < |orders|
    ensures Find(orders, orders[i].id) == i
  {
    var k := Find(orders, orders[i].id);
    assert k <= i;
  }

  lemma CreateRows(s: Store, id: string, lines: seq<Line>, user: string, now: int)
    requires Inv(s) && Insertable(s, id, lines, user)
    ensures var s' := CreateOrder(s, id, lines, user, now);
            DistinctIds(s'.orders) && DistinctWins(s'.wins) && References(s')
  {
    hide OrderKept, Totals, ItemOf, Cost;
    var s' := CreateOrder(s, id, lines, user, now);
    forall other: string ensures Exists(s.orders, other) || other == id ==> Exists(s'.orders, other) {
      FindAppend(s.orders, NewOrder(id, lines, user, now), other);
    }
    forall k | 0 <= k < |s'.items| ensures Exists(s'.orders, s'.items[k].orderId) {
      if k >= |s.items| { ItemsForId(id, lines, k - |s.items|); }
    }
  }

  lemma {:induction false} ItemsForId(id: string, lines: seq<Line>, k: nat)
    requires k < |ItemsFor(id, lines)|
    ensures ItemsFor(id, lines)[k].orderId == id
    decreases |lines|
  {
    if k < |ItemsFor(id, lines[..|lines| - 1])| { ItemsForId(id, lines[..|lines| - 1], k); }
  }

  lemma CreateTotals(s: Store, id: string, lines: seq<Line>, user: string, now: int)
    requires Inv(s) && Insertable(s, id, lines, user)
    ensures Totals(CreateOrder(s, id, lines, user, now))
  {
    var s' := CreateOrder(s, id, lines, user, now);
    var o := NewOrder(id, lines, user, now);
    assert s'.orders[..|s.orders|] == s.orders;
    FindAppend(s.orders, o, id);
    ItemsAdded(s.items, id, lines, s'.orders);
    NewOrderSells(s.items, s.orders, o);
    WonSame(s.items, s'.items, s.wins);
  }

  lemma CreateKept(s: Store, id: string, lines: seq<Line>, user: string, now: int, o: Order)
    requires Inv(s) && Insertable(s, id, lines, user)
    requires o in CreateOrder(s, id, lines, user, now).orders
    ensures OrderKept(CreateOrder(s, id, lines, user, now), o)
  {
    ItemsAdded(s.items, id, lines, s.orders);
    if o.id == id {
      forall k | 0 <= k < |s.items| ensures s.items[k].orderId != id { assert Exists(s.orders, s.items[k].orderId); }
      NoItemsYet(s.items, id);
      forall k | 0 <= k < |s.wins| ensures s.wins[k].reference != id { assert Exists(s.orders, s.wins[k].reference); }
    }
  }

  lemma CreateInv(s: Store, id: string, lines: seq<Line>, user: string, now: int)
    requires Inv(s)
    ensures Inv(CreateOrder(s, id, lines, user, now))
  {
    if Insertable(s, id, lines, user) {
      hide Totals, OrderKept, Insertable;
      CreateRows(s, id, lines, user, now);
      CreateTotals(s, id, lines, user, now);
      var s' := CreateOrder(s, id, lines, user, now);
      forall i | 0 <= i < |s'.orders| ensures OrderKept(s', s'.orders[i]) {
        CreateKept(s, id, lines, user, now, s'.orders[i]);
      }
    }
  }

  lemma ClaimTotals(s: Store, reference: string, paidAt: int, paymentHash: string)
    requires Inv(s) && Claimable(s, reference)
    ensures Totals(Claim(s, reference, paidAt, paymentHash))
  {
    var s' := Claim(s, reference, paidAt, paymentHash);
    var i := Find(s.orders, reference);
    PayOne(s.orders, i, s'.orders[i]);
    SellOne(s.items, s.orders, i, s'.orders[i]);
    assert s'.wins[..|s.wins|] == s.wins;
  }

  lemma ClaimRows(s: Store, reference: string, paidAt: int, paymentHash: string)
    requires Inv(s) && Claimable(s, reference)
    ensures var s' := Claim(s, reference, paidAt, paymentHash);
            DistinctIds(s'.orders) && DistinctWins(s'.wins) && References(s')
  {
    hide Totals, Price, IsReference;
    var s' := Claim(s, reference, paidAt, paymentHash);
    FindSame(s.orders, s'.orders);
    assert OrderKept(s, s.orders[Find(s.orders, reference)]);
  }

  lemma ClaimKept(s: Store, reference: string, paidAt: int, paymentHash: string, i: nat)
    requires Inv(s) && Claimable(s, reference) && i < |s.orders|
    ensures var s' := Claim(s, reference, paidAt, paymentHash); OrderKept(s', s'.orders[i])
  {
    var s' := Claim(s, reference, paidAt, paymentHash);
    assert OrderKept(s, s.orders[i]);
    FindIs(s.orders, i);
    assert s'.wins[|s.wins|].reference == reference;
    assert forall k :: 0 <= k < |s.wins| ==> s'.wins[k] == s.wins[k];
  }

  lemma ClaimInv(s: Store, reference: string, paidAt: int, paymentHash: string)
    requires Inv(s)
    ensures Inv(Claim(s, reference, paidAt, paymentHash))
  {
    if Claimable(s, reference) {
      hide Totals, OrderKept, DistinctIds, DistinctWins, References, Claimable;
      ClaimRows(s, reference, paidAt, paymentHash);
      ClaimTotals(s, reference, paidAt, paymentHash);
      var s' := Claim(s, reference, paidAt, paymentHash);
      forall i | 0 <= i < |s'.orders| ensures OrderKept(s', s'.orders[i]) {
        ClaimKept(s, reference, paidAt, paymentHash, i);
      }
    }
  }

  lemma StepInv(s: Store, op: Op)
    requires Inv(s)
    ensures Inv(Step(s, op))
  {
    hide CreateOrder, Claim, DistinctIds, DistinctWins, References, Totals;
    match op
    case CreateOp(id, lines, user, now) => CreateInv(s, id, lines, user, now);
    case ClaimOp(reference, paidAt, hash, commits) => ClaimInv(s, reference, paidAt, hash);
    case VisitOp(user) => SameTables(s, Step(s, op));
    case EditOp(products) => SameTables(s, Step(s, op));
  }

  lemma SameTables(s: Store, s': Store)
    requires Inv(s) && s'.orders == s.orders && s'.items == s.items && s'.wins == s.wins
    ensures Inv(s')
  {
    assert forall i :: 0 <= i < |s.orders| ==> OrderKept(s, s.orders[i]) && OrderKept(s', s.orders[i]);
  }

  lemma {:induction false} RunInv(ops: seq<Op>)
    ensures Inv(Run(EMPTY, ops))
    decreases |ops|
  {
    if ops != [] {
      RunInv(ops[..|ops| - 1]);
      StepInv(Run(EMPTY, ops[..|ops| - 1]), ops[|ops| - 1]);
    }
  }

  // ----- the laws ---------------------------------------------------------------------------------

  /** At most one claim per order ever commits as the winner, an order is paid exactly when one
      did, and it says when and by what. */
  lemma OneWinner(ops: seq<Op>)
    ensures var s := Run(EMPTY, ops);
            && DistinctWins(s.wins)
            && forall o <- s.orders ::
                 && (o.paid <==> exists w <- s.wins :: w.reference == o.id)
                 && forall w <- s.wins :: w.reference == o.id ==> WonBy(o, w)
  {
    RunInv(ops);
    var s := Run(EMPTY, ops);
    forall o | o in s.orders
      ensures o.paid <==> exists w <- s.wins :: w.reference == o.id
      ensures forall w <- s.wins :: w.reference == o.id ==> WonBy(o, w)
    {
      assert OrderKept(s, o);
    }
  }

  /** The public feed's totals are those of the orders that were won. */
  lemma FeedTotalsAddUp(ops: seq<Op>)
    ensures var s := Run(EMPTY, ops);
            PaidOrders(s.orders) == |s.wins| && ButtonsSold(s.items, s.orders) == Won(s.items, s.wins)
  {
    RunInv(ops);
  }

  /** An order's total is the sum of its own snapshots, whatever became of the catalog. */
  lemma TotalsMatchSnapshots(ops: seq<Op>)
    ensures var s := Run(EMPTY, ops); forall o <- s.orders :: o.totalCents == Price(s.items, o.id)
  {
    RunInv(ops);
    var s := Run(EMPTY, ops);
    forall o | o in s.orders ensures o.totalCents == Price(s.items, o.id) { assert OrderKept(s, o); }
  }

  /** The same order later: only an unpaid one may change, and then only by being paid. */
  predicate OrderLater(o: Order, o': Order) {
    o' == o || (!o.paid && o'.paid && o' == o.(paid := true, paidAt := o'.paidAt, paymentHash := o'.paymentHash))
  }

  predicate StoreLater(s: Store, s': Store) {
    && |s.orders| <= |s'.orders| && (forall i :: 0 <= i < |s.orders| ==> OrderLater(s.orders[i], s'.orders[i]))
    && s.items <= s'.items && s.wins <= s'.wins
  }

  /** Orders, items and wins are only ever added; `paid_at` and `payment_hash` are written once. */
  lemma {:induction false} WriteOnce(s: Store, ops: seq<Op>)
    ensures StoreLater(s, Run(s, ops))
    decreases |ops|
  {
    if ops != [] {
      WriteOnce(s, ops[..|ops| - 1]);
      StepLater(Run(s, ops[..|ops| - 1]), ops[|ops| - 1]);
    }
  }

  lemma StepLater(s: Store, op: Op)
    ensures StoreLater(s, Step(s, op))
  {
    hide Insertable, ItemsFor;
  }

  // ----- downloads ----------------------------------------------------------------------------------

  datatype Download = File(name: string) | NotFound | NotPaid

  /** `path.basename`: what follows the last slash, trailing slashes aside. */
  function Basename(path: string): (name: string)
    ensures '/' !in name
  {
    if path == "" then ""
    else if path[|path| - 1] == '/' then Basename(path[..|path| - 1])
    else LastPart(path)
  }

  function LastPart(path: string): (name: string)
    ensures '/' !in name
  {
    if path == "" || path[|path| - 1] == '/' then "" else LastPart(path[..|path| - 1]) + [path[|path| - 1]]
  }

  /** The first item of the order with this sku. */
  function ItemBySku(items: seq<Item>, id: string, sku: string): (item: Option<Item>)
    ensures item.Some? ==> item.value in items && item.value.orderId == id && item.value.sku == sku
    ensures item.None? ==> forall i <- items :: i.orderId != id || i.sku != sku
  {
    if items == [] then None
    else if items[0].orderId == id && items[0].sku == sku then Some(items[0])
    else ItemBySku(items[1..], id, sku)
  }

  function ImageName(products: seq<Product>, item: Item): string {
    if products == [] then "openreceive-" + item.sku + "-button.webp"
    else if products[0].id == item.productId then products[0].imageName
    else ImageName(products[1..], item)
  }

  /** The download handler: the owner's own order, paid, one of its items, an existing file. */
  function DownloadOf(s: Store, user: string, reference: string, sku: string, onDisk: string -> bool): Download {
    if !IsReference(reference) || !Exists(s.orders, reference) then NotFound
    else
      var o := s.orders[Find(s.orders, reference)];
      if o.user != user then NotFound
      else if !o.paid then NotPaid
      else
        match ItemBySku(s.items, reference, sku)
        case None => NotFound
        case Some(item) =>
          var file := Basename(ImageName(s.products, item));
          if onDisk(file) then File(file) else NotFound
  }

  /** The user owns an order that a committed claim has paid. */
  predicate Bought(s: Store, user: string, reference: string) {
    exists o <- s.orders, w <- s.wins :: o.id == reference && o.user == user && WonBy(o, w)
  }

  predicate Owned(s: Store, user: string, reference: string) {
    Exists(s.orders, reference) && s.orders[Find(s.orders, reference)].user == user
  }

  lemma BoughtIffPaid(ops: seq<Op>, user: string, reference: string)
    ensures var s := Run(EMPTY, ops);
            Bought(s, user, reference) <==> Paid(s.orders, reference) && s.orders[Find(s.orders, reference)].user == user
  {
    var s := Run(EMPTY, ops);
    OneWinner(ops);
    RunInv(ops);
    if Exists(s.orders, reference) {
      var o := s.orders[Find(s.orders, reference)];
      assert o in s.orders;
      if o.paid && o.user == user {
        var w :| w in s.wins && w.reference == o.id;
        assert WonBy(o, w);
      }
    }
    if Bought(s, user, reference) {
      var o, w :| o in s.orders && w in s.wins && o.id == reference && o.user == user && WonBy(o, w);
      var i :| 0 <= i < |s.orders| && s.orders[i] == o;
      FindIs(s.orders, i);
    }
  }

  /** A file is served exactly to the owner of a paid order, for a sku on that order, when it
      is on disk; it is that item's own image, by a name without a slash. Only the owner hears
      that an order is not paid: anybody else's answer is that of an order that does not exist. */
  lemma {:induction false} DownloadIffBought(ops: seq<Op>, user: string, reference: string, sku: string, onDisk: string -> bool)
    ensures var s := Run(EMPTY, ops);
            var r, item := DownloadOf(s, user, reference, sku, onDisk), ItemBySku(s.items, reference, sku);
            && (r.File? <==> IsReference(reference) && Bought(s, user, reference) && item.Some?
                             && onDisk(Basename(ImageName(s.products, item.value))))
            && (r.File? ==> r.name == Basename(ImageName(s.products, item.value)) && '/' !in r.name)
            && (r.NotPaid? <==> IsReference(reference) && Owned(s, user, reference) && !Bought(s, user, reference))
  {
    hide Run, Find, ItemBySku, ImageName, Basename;
    BoughtIffPaid(ops, user, reference);
  }

  /** `path.join` of a directory, given by its segments, and a name without a slash. */
  function Joined(dir: seq<string>, name: string): seq<string> {
    if name == "" || name == "." then dir
    else if name == ".." then (if dir == [] then [] else dir[..|dir| - 1])
    else dir + [name]
  }

  predicate Entry(dir: seq<string>, path: seq<string>) { |path| == |dir| + 1 && dir <= path }

  /** A corollary: what is served lies in the artwork directory if and only if the image's base name is not
      `..`, and is an entry of it if and only if that name is not empty or `.` either. */
  lemma DownloadContained(ops: seq<Op>, user: string, reference: string, sku: string, onDisk: string -> bool, dir: seq<string>)
    requires dir != [] && DownloadOf(Run(EMPTY, ops), user, reference, sku, onDisk).File?
    ensures var s := Run(EMPTY, ops);
            var path := Joined(dir, DownloadOf(s, user, reference, sku, onDisk).name);
            var base := Basename(ImageName(s.products, ItemBySku(s.items, reference, sku).value));
            && ItemBySku(s.items, reference, sku).Some?
            && (dir <= path <==> base != "..")
            && (Entry(dir, path) <==> base !in ["", ".", ".."])
  {
    hide Run, DownloadOf, ItemBySku, ImageName, Basename;
    DownloadIffBought(ops, user, reference, sku, onDisk);
  }

  function Open(p: Product, id: string, user: string, now: int): Store {
    Store({user}, [p], [Order(id, user, false, p.priceCents, None, None, now)], [ItemOf(id, Line(p, 1))], [])
  }

  lemma OpenFrom(p: Product, id: string, user: string, now: int)
    requires p.priceCents > 0
    ensures CreateOrder(Store({user}, [p], [], [], []), id, [Line(p, 1)], user, now) == Open(p, id, user, now)
  {
    OneLine(p, id);
  }

  lemma PaidServes(p: Product, id: string, user: string, now: int, hash: string, onDisk: string -> bool)
    requires IsReference(id) && p.imageName == ".." && onDisk("..")
    ensures DownloadOf(Claim(Open(p, id, user, now), id, now, hash), user, id, p.sku, onDisk) == File("..")
  {
    hide IsReference, Basename;
    var s := Claim(Open(p, id, user, now), id, now, hash);
    assert Find(s.orders, id) == 0;
    assert ItemBySku(s.items, id, p.sku) == Some(ItemOf(id, Line(p, 1)));
    ParentName();
  }

  /** A failing input: a catalog row whose image name is `..`, bought and paid for. */
  lemma ParentServed(p: Product, id: string, user: string, now: int, hash: string, onDisk: string -> bool)
    requires IsReference(id) && p.priceCents > 0 && p.imageName == ".." && onDisk("..")
    ensures var ops := [VisitOp(user), EditOp([p]), CreateOp(id, [Line(p, 1)], user, now), ClaimOp(id, now, hash, true)];
            DownloadOf(Run(EMPTY, ops), user, id, p.sku, onDisk) == File("..")
  {
    hide Run, CreateOrder, Claim, DownloadOf, IsReference;
    var visit, edit := VisitOp(user), EditOp([p]);
    var create, claim := CreateOp(id, [Line(p, 1)], user, now), ClaimOp(id, now, hash, true);
    RunPush([], visit);
    RunPush([visit], edit);
    RunPush([visit, edit], create);
    RunPush([visit, edit, create], claim);
    assert [] + [visit] == [visit] && [visit] + [edit] == [visit, edit];
    assert [visit, edit] + [create] == [visit, edit, create] && [visit, edit, create] + [claim] == [visit, edit, create, claim];
    OpenFrom(p, id, user, now);
    assert Run(EMPTY, [visit]) == Store({user}, [], [], [], []);
    assert Run(EMPTY, [visit, edit]) == Store({user}, [p], [], [], []);
    assert Run(EMPTY, [visit, edit, create]) == Open(p, id, user, now);
    assert Run(EMPTY, [visit, edit, create, claim]) == Claim(Open(p, id, user, now), id, now, hash);
    PaidServes(p, id, user, now, hash, onDisk);
  }

  lemma RunPush(ops: seq<Op>, op: Op)
    ensures Run(EMPTY, ops + [op]) == Step(Run(EMPTY, ops), op) && Run(EMPTY, []) == EMPTY
  {
    assert (ops + [op])[..|ops|] == ops;
  }

  lemma OneLine(p: Product, id: string)
    ensures Cost([Line(p, 1)]) == p.priceCents && ItemsFor(id, [Line(p, 1)]) == [ItemOf(id, Line(p, 1))]
  {
    assert [Line(p, 1)][..0] == [];
  }

  lemma ParentName()
    ensures Basename("..") == ".."
  {
    assert ".."[..1] == "." && "."[..0] == "";
    assert LastPart(".") == ".";
  }
}
