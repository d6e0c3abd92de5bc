/** What each operation of the shop does to its tables, row by row, and what a download is named after. */
module ShopSteps {
  import opened Text
  import opened Cart
  import opened Shop

  /** A committed claim of an order awaiting payment marks that order paid, with the time and hash the
      claim carries, and leaves every other row as it was. */
  lemma ClaimDoes(s: Store, reference: string, paidAt: int, paymentHash: string, i: nat)
    requires DistinctIds(s.orders) && i < |s.orders| && s.orders[i].id == reference && IsReference(reference) && !s.orders[i].paid
    ensures var s', o := Shop.Claim(s, reference, paidAt, paymentHash), s.orders[i];
            && |s'.orders| == |s.orders| && (forall k :: 0 <= k < |s.orders| && k != i ==> s'.orders[k] == s.orders[k])
            && s'.orders[i] == Order(o.id, o.user, true, o.totalCents, Some(paidAt), Some(paymentHash), o.createdAt)
            && s'.wins == s.wins + [Win(reference, paidAt, paymentHash)]
            && s'.users == s.users && s'.products == s.products && s'.items == s.items
  {
    hide IsReference;
  }

  /** A claim that names no such order changes nothing. */
  lemma ClaimLost(s: Store, reference: string, paidAt: int, paymentHash: string)
    requires !IsReference(reference) || forall i :: 0 <= i < |s.orders| && s.orders[i].id == reference ==> s.orders[i].paid
    ensures Shop.Claim(s, reference, paidAt, paymentHash) == s
  {
    hide IsReference;
  }

  /** A claim whose transaction does not commit leaves no trace; a visit only adds the visitor, and a
      catalog edit only replaces the catalog. */
  lemma StepOtherwise(s: Store, user: string, products: seq<Product>, reference: string, paidAt: int, paymentHash: string)
    ensures Step(s, Op.ClaimOp(reference, paidAt, paymentHash, false)) == s
    ensures Step(s, VisitOp(user)) == Store(s.users + {user}, s.products, s.orders, s.items, s.wins)
    ensures Step(s, EditOp(products)) == Store(s.users, products, s.orders, s.items, s.wins)
  {
  }

  /** The tables take an order of a known user under a new id, with at least one line, one line a sku,
      each at a positive price and quantity. */
  predicate Acceptable(s: Store, id: string, lines: seq<Line>, user: string) {
    && user in s.users && (forall k :: 0 <= k < |s.orders| ==> s.orders[k].id != id) && lines != []
    && (forall k :: 0 <= k < |lines| ==> lines[k].product.priceCents > 0 && lines[k].quantity > 0)
    && (forall j, k :: 0 <= j < k < |lines| ==> lines[j].product.sku != lines[k].product.sku)
  }

  lemma AcceptableIff(s: Store, id: string, lines: seq<Line>, user: string)
    ensures Insertable(s, id, lines, user) <==> Acceptable(s, id, lines, user)
  {
    hide Find;
    if forall i :: 0 <= i < |lines| ==> LineAllowed(lines[i]) {
      Positive(lines);
      assert forall k :: 0 <= k < |lines| ==> LineAllowed(lines[k]) && lines[k].product.priceCents > 0 && lines[k].quantity > 0;
    }
    if Acceptable(s, id, lines, user) {
      assert forall i :: 0 <= i < |lines| ==> LineAllowed(lines[i]);
    }
  }

  lemma {:induction false} Positive(lines: seq<Line>)
    requires forall i :: 0 <= i < |lines| ==> LineAllowed(lines[i])
    ensures if lines == [] then Cost(lines) == 0 else Cost(lines) > 0
  {
    if lines != [] {
      var n := |lines| - 1;
      Positive(lines[..n]);
      assert LineAllowed(lines[n]);
      Times(lines[n].product.priceCents, lines[n].quantity);
    }
  }

  lemma Times(a: int, b: int)
    requires a > 0 && b > 0
    ensures a * b > 0
  {
  }

  /** The total is the sum over the lines of price times quantity. */
  lemma {:induction false} CostSums(a: seq<Line>, line: Line, b: seq<Line>)
    ensures Cost(a + [line] + b) == Cost(a) + line.product.priceCents * line.quantity + Cost(b)
    ensures Cost([]) == 0
    decreases |b|
  {
    var all := a + [line] + b;
    if b == [] {
      assert all[..|all| - 1] == a;
    } else {
      CostSums(a, line, b[..|b| - 1]);
      assert all[..|all| - 1] == a + [line] + b[..|b| - 1];
    }
  }

  lemma {:induction false} ItemsAre(id: string, lines: seq<Line>)
    ensures |ItemsFor(id, lines)| == |lines|
    ensures forall k :: 0 <= k < |lines| ==> ItemsFor(id, lines)[k] == ItemOf(id, lines[k])
  {
    if lines != [] { ItemsAre(id, lines[..|lines| - 1]); }
  }

  /** The item is a copy of the line: the product's id, sku, name and price as they are now, and how many. */
  predicate Snapshot(item: Item, id: string, line: Line) {
    && item.orderId == id && item.productId == line.product.id && item.sku == line.product.sku && item.name == line.product.name
    && item.unitPriceCents == line.product.priceCents && item.quantity == line.quantity
  }

  /** An accepted order is stored unpaid, under its id and user and at the moment it was placed, with the
      total of its lines and one item a line, in order; any other changes nothing. */
  lemma CreateDoes(s: Store, id: string, lines: seq<Line>, user: string, now: int)
    ensures !Acceptable(s, id, lines, user) ==> CreateOrder(s, id, lines, user, now) == s
    ensures Acceptable(s, id, lines, user) ==>
              var s' := CreateOrder(s, id, lines, user, now);
              && s'.orders == s.orders + [Order(id, user, false, Cost(lines), None, None, now)]
              && |s'.items| == |s.items| + |lines| && s.items <= s'.items
              && (forall k :: 0 <= k < |lines| ==> Snapshot(s'.items[|s.items| + k], id, lines[k]))
              && s'.users == s.users && s'.products == s.products && s'.wins == s.wins
  {
    hide Insertable, Acceptable, Cost;
    AcceptableIff(s, id, lines, user);
    ItemsAre(id, lines);
  }

  /** The feed counts paid orders, and every item of a paid order by its quantity. */
  lemma {:induction false} FeedCounts(items: seq<Item>, orders: seq<Order>)
    ensures PaidOrders(orders) == |set i | 0 <= i < |orders| && orders[i].paid|
    ensures forall item :: ButtonsSold(items + [item], orders)
              == ButtonsSold(items, orders) + if Paid(orders, item.orderId) then item.quantity else 0
    ensures ButtonsSold([], orders) == 0
  {
    forall item ensures ButtonsSold(items + [item], orders)
              == ButtonsSold(items, orders) + if Paid(orders, item.orderId) then item.quantity else 0
    {
      assert (items + [item])[..|items|] == items;
    }
    PaidCount(orders);
  }

  lemma {:induction false} PaidCount(orders: seq<Order>)
    ensures PaidOrders(orders) == |set i | 0 <= i < |orders| && orders[i].paid|
  {
    if orders != [] {
      var n := |orders| - 1;
      PaidCount(orders[..n]);
      var before, after := set i | 0 <= i < n && orders[..n][i].paid, set i | 0 <= i < |orders| && orders[i].paid;
      assert after == before + if orders[n].paid then {n} else {};
    }
  }

  // ----- what is served --------------------------------------------------------------------------

  /** The image is the product's own as long as the catalog still has the product, and the one its sku is
      named by otherwise. */
  lemma {:induction false} ImageOf(products: seq<Product>, item: Item)
    requires Keyed(products)
    ensures forall p <- products :: p.id == item.productId ==> ImageName(products, item) == p.imageName
    ensures (forall p <- products :: p.id != item.productId) ==> ImageName(products, item) == "openreceive-" + item.sku + "-button.webp"
    decreases |products|
  {
    if products != [] {
      ImageOf(products[1..], item);
      assert products == [products[0]] + products[1..];
    }
  }

  predicate Slashes(s: string) { forall i :: 0 <= i < |s| ==> s[i] == '/' }

  lemma {:induction false} LastPartOf(dir: string, name: string)
    requires '/' !in name && (dir == "" || dir[|dir| - 1] == '/')
    ensures LastPart(dir + name) == name
    decreases |name|
  {
    if name != "" {
      var all := dir + name;
      assert all[..|all| - 1] == dir + name[..|name| - 1];
      LastPartOf(dir, name[..|name| - 1]);
    } else {
      assert dir + name == dir;
    }
  }

  /** The base name is the last name in the path, whatever slashes follow it; a path of nothing but
      slashes has none. */
  lemma {:induction false} BasenameOf(dir: string, name: string, slashes: string)
    requires '/' !in name && Slashes(slashes) && (dir == "" || dir[|dir| - 1] == '/')
    ensures name != "" ==> Basename(dir + name + slashes) == name
    ensures Basename(slashes) == ""
    decreases |slashes|
  {
    if slashes != "" {
      var all, fewer := dir + name + slashes, slashes[..|slashes| - 1];
      BasenameOf(dir, name, fewer);
      assert all[..|all| - 1] == dir + name + fewer;
    } else {
      assert dir + name + slashes == dir + name;
      LastPartOf(dir, name);
      if name != "" { assert (dir + name)[|dir + name| - 1] == name[|name| - 1]; }
    }
  }

  /** The hex digits, in either case. */
  predicate HexDigit(c: char) {
    c in {'0', '1', '2', '3', '4', '5', '6', '7', '8', '9', 'a', 'b', 'c', 'd', 'e', 'f', 'A', 'B', 'C', 'D', 'E', 'F'}
  }

  lemma HexIs(c: char)
    ensures IsHex(c) <==> HexDigit(c)
  {
    var n := c as int;
    if IsHex(c) { assert n as char == c; }
  }

  /** `n` hex digits. */
  predicate Hex(s: string, n: nat) { |s| == n && forall i :: 0 <= i < n ==> HexDigit(s[i]) }

  /** A reference is five groups of hex digits between dashes. */
  lemma ReferenceGroups(s: string)
    ensures IsReference(s) <==>
              exists a, b, c, d, e :: Hex(a, 8) && Hex(b, 4) && Hex(c, 4) && Hex(d, 4) && Hex(e, 12)
                && s == a + "-" + b + "-" + c + "-" + d + "-" + e
  {
    hide IsHex, HexDigit;
    forall c ensures IsHex(c) <==> HexDigit(c) { HexIs(c); }
    if IsReference(s) {
      var a, b, c, d, e := s[..8], s[9..13], s[14..18], s[19..23], s[24..];
      assert Hex(a, 8) && Hex(b, 4) && Hex(c, 4) && Hex(d, 4) && Hex(e, 12);
      assert s == a + "-" + b + "-" + c + "-" + d + "-" + e;
    }
  }
}
