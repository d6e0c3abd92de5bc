/** The store object of `store.ts`, proved against the transitions of `Shop`. */
module ShopStore {
  import opened Text
  import opened Cart
  import opened Shop

  class Database {
    var users: set<string>
    var products: seq<Product>
    var orders: seq<Order>
    var items: seq<Item>
    ghost var wins: seq<Win>

    ghost function Model(): Store
      reads this
    {
      Store(users, products, orders, items, wins)
    }

    constructor ()
      ensures Model() == EMPTY
    {
      users, products, orders, items, wins := {}, [], [], [], [];
    }

    method EditCatalog(table: seq<Product>)
      modifies this`products
      ensures Model() == Step(old(Model()), EditOp(table))
    {
      products := table;
    }

    /** The order and every item in one transaction; a row the tables refuse rolls all of it
        back (the source rethrows). */
    method CreateOrder(id: string, lines: seq<Line>, user: string, now: int) returns (ok: bool)
      modifies this`orders, this`items
      ensures ok <==> Insertable(old(Model()), id, lines, user)
      ensures Model() == Step(old(Model()), CreateOp(id, lines, user, now))
    {
      hide Find, LineAllowed, Cost, Exists, ItemsFor;
      var savedOrders, savedItems := orders, items;
      var total := TotalOf(lines);
      if user !in users || Exists(orders, id) || total <= 0 { return false; }
      orders := orders + [Order(id, user, false, total, None, None, now)];
      ok := InsertItems(id, lines);
      if !ok { orders, items := savedOrders, savedItems; }
    }

    /** False at the first line a table refuses. */
    method InsertItems(id: string, lines: seq<Line>) returns (ok: bool)
      modifies this`items
      ensures ok <==> (forall k :: 0 <= k < |lines| ==> LineAllowed(lines[k]))
                      && (forall j, k :: 0 <= j < k < |lines| ==> lines[j].product.sku != lines[k].product.sku)
      ensures ok ==> items == old(items) + ItemsFor(id, lines)
    {
      hide LineAllowed;
      for i := 0 to |lines|
        invariant items == old(items) + ItemsFor(id, lines[..i])
        invariant forall k :: 0 <= k < i ==> LineAllowed(lines[k])
        invariant forall j, k :: 0 <= j < k < i ==> lines[j].product.sku != lines[k].product.sku
      {
        if !LineAllowed(lines[i]) || exists k | 0 <= k < i :: lines[k].product.sku == lines[i].product.sku { return false; }
        assert lines[..i + 1][..i] == lines[..i];
        items := items + [ItemOf(id, lines[i])];
      }
      assert lines[..|lines|] == lines;
      return true;
    }

    method TotalOf(lines: seq<Line>) returns (total: int)
      ensures total == Cost(lines)
    {
      total := 0;
      for i := 0 to |lines|
        invariant total == Cost(lines[..i])
      {
        assert lines[..i + 1][..i] == lines[..i];
        total := total + lines[i].product.priceCents * lines[i].quantity;
      }
      assert lines[..|lines|] == lines;
    }

    /** True when this call flipped the order to paid. */
    method ClaimShopOrderPaid(reference: string, paidAt: int, paymentHash: string) returns (won: bool)
      modifies this`orders, this`wins
      ensures won <==> Claimable(old(Model()), reference)
      ensures Model() == Step(old(Model()), ClaimOp(reference, paidAt, paymentHash, true))
    {
      if !IsReference(reference) { return false; }
      var i := Find(orders, reference);
      if i == |orders| || orders[i].paid { return false; }
      orders := orders[i := orders[i].(paid := true, paidAt := Some(paidAt), paymentHash := Some(paymentHash))];
      wins := wins + [Win(reference, paidAt, paymentHash)];
      return true;
    }

    /** The create handler: the cart is normalized against the live catalog, an empty one is
        refused, anything else becomes an order. */
    method PlaceOrder(request: Request, id: string, user: string, now: int) returns (placed: bool)
      requires Keyed(products) && user in users && !Exists(orders, id)
      requires forall p <- products :: p.priceCents > 0
      modifies this`orders, this`items
      ensures placed <==> CartOf(request, products) != []
      ensures Model() == Step(old(Model()), CreateOp(id, CartOf(request, products), user, now))
      ensures !placed ==> Model() == old(Model())
    {
      var lines := NormalizedLines(request, products);
      if lines == [] {
        assert Cost([]) == 0;
        return false;
      }
      CartInserts(Model(), request, id, user);
      placed := CreateOrder(id, lines, user, now);
    }
  }

  /** Whatever the browser sends, a cart with a line in it always passes the tables' checks. */
  lemma CartInserts(s: Store, request: Request, id: string, user: string)
    requires Keyed(s.products) && user in s.users && !Exists(s.orders, id)
    requires forall p <- s.products :: p.priceCents > 0
    requires CartOf(request, s.products) != []
    ensures Insertable(s, id, CartOf(request, s.products), user)
  {
    var lines, catalog := CartOf(request, s.products), ActiveCatalog(s.products);
    ActiveKeyed(s.products);
    LinesTrusted(request.claims, catalog);
    forall i | 0 <= i < |lines| ensures LineAllowed(lines[i]) {
      assert lines[i] in lines;
      ActiveRows(s.products, lines[i].product);
    }
    PositiveCost(lines);
  }

  lemma {:induction false} PositiveCost(lines: seq<Line>)
    requires forall i :: 0 <= i < |lines| ==> LineAllowed(lines[i])
    ensures if lines == [] then Cost(lines) == 0 else Cost(lines) > 0
    decreases |lines|
  {
    if lines != [] {
      PositiveCost(lines[..|lines| - 1]);
      var last := lines[|lines| - 1];
      assert last.product.priceCents * last.quantity > 0;
    }
  }
}
