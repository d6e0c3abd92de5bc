/** The cart trust boundary (`normalizedLines` in `store.ts`): a list of claims becomes
    priced lines of the live catalog. */
module Cart {
  import opened Text

  /** `Number(claim.quantity)`. */
  datatype Number = NotFinite | Finite(value: real)

  /** One entry of the requested array: not an object at all, or an object whose `sku` may
      not be a string. */
  datatype Claim = Junk | Claim(sku: Option<string>, quantity: Number)

  datatype Request = NotAnArray | Claims(claims: seq<Claim>)

  datatype Product = Product(id: string, sku: string, name: string, priceCents: int, imageName: string, active: bool)

  datatype Line = Line(product: Product, quantity: nat)

  const MAX_PER_SKU: nat := 10

  predicate IsLetter(c: char) { 'a' <= c <= 'z' }

  /** `^[a-z]+(?:-[a-z]+)*$` */
  predicate IsSku(s: string) {
    && s != "" && IsLetter(s[0]) && IsLetter(s[|s| - 1])
    && forall i :: 0 <= i < |s| ==> SkuAt(s, i)
  }

  /** A letter, or a hyphen that follows no other. */
  predicate SkuAt(s: string, i: nat)
    requires i < |s|
  {
    IsLetter(s[i]) || (s[i] == '-' && (i == 0 || s[i - 1] != '-'))
  }

  /** The products table in catalog order (position, then price); `id` is its primary key and
      `sku` has a unique index. */
  predicate Keyed(table: seq<Product>) {
    forall i, j :: 0 <= i < j < |table| ==> table[i].id != table[j].id && table[i].sku != table[j].sku
  }

  function ActiveCatalog(table: seq<Product>): seq<Product> {
    if table == [] then []
    else (if table[0].active then [table[0]] else []) + ActiveCatalog(table[1..])
  }

  lemma {:induction false} ActiveRows(table: seq<Product>, p: Product)
    ensures p in ActiveCatalog(table) <==> p in table && p.active
    decreases |table|
  {
    if table != [] {
      ActiveRows(table[1..], p);
      assert table == [table[0]] + table[1..];
    }
  }

  lemma {:induction false} ActiveKeyed(table: seq<Product>)
    requires Keyed(table)
    ensures Keyed(ActiveCatalog(table))
    decreases |table|
  {
    if table != [] {
      ActiveKeyed(table[1..]);
      var rest := ActiveCatalog(table[1..]);
      forall j | 0 <= j < |rest| ensures rest[j].id != table[0].id && rest[j].sku != table[0].sku {
        ActiveRows(table[1..], rest[j]);
        var k :| 0 <= k < |table[1..]| && table[1..][k] == rest[j];
        assert table[k + 1] == rest[j];
      }
    }
  }

  /** The row a claimed sku names, if it is well-formed and active. */
  function ActiveProductBySku(table: seq<Product>, sku: Option<string>): (p: Option<Product>)
    ensures p.Some? ==> p.value in table && p.value.active && sku == Some(p.value.sku) && IsSku(p.value.sku)
    ensures p.None? ==> forall q <- table :: q.active && IsSku(q.sku) ==> sku != Some(q.sku)
  {
    if sku.None? || !IsSku(sku.value) || table == [] then None
    else if table[0].active && table[0].sku == sku.value then Some(table[0])
    else ActiveProductBySku(table[1..], sku)
  }

  /** `Math.trunc`, 0 for anything that is not finite; only positive results count. */
  function Quantity(n: Number): (q: nat) {
    if n.NotFinite? || n.value < 0.0 then 0 else n.value.Floor
  }

  // ----- the declarative cart ---------------------------------------------------------------

  function Asked(c: Claim, sku: string): nat {
    if c.Claim? && c.sku == Some(sku) then Quantity(c.quantity) else 0
  }

  /** What the claims add up to for a sku. */
  function Wanted(claims: seq<Claim>, sku: string): nat {
    if claims == [] then 0 else Wanted(claims[..|claims| - 1], sku) + Asked(claims[|claims| - 1], sku)
  }

  function Capped(n: nat): nat { if n < MAX_PER_SKU then n else MAX_PER_SKU }

  /** How many of a product the cart holds. */
  function InCart(claims: seq<Claim>, p: Product): nat {
    if IsSku(p.sku) then Capped(Wanted(claims, p.sku)) else 0
  }

  function LineOf(claims: seq<Claim>, p: Product): seq<Line> {
    var n := InCart(claims, p);
    if n > 0 then [Line(p, n)] else []
  }

  /** One line for each active product wanted at all, in catalog order. */
  function Lines(claims: seq<Claim>, catalog: seq<Product>): seq<Line> {
    if catalog == [] then [] else LineOf(claims, catalog[0]) + Lines(claims, catalog[1..])
  }

  function CartOf(r: Request, table: seq<Product>): seq<Line> {
    match r
    case NotAnArray => []
    case Claims(claims) => Lines(claims, ActiveCatalog(table))
  }

  // ----- the loop ------------------------------------------------------------------------------

  /** The `quantities` map agrees with the claims read so far. */
  predicate Tallied(quantities: map<string, Line>, claims: seq<Claim>, catalog: seq<Product>) {
    forall p <- catalog ::
      if InCart(claims, p) > 0 then p.id in quantities && quantities[p.id] == Line(p, InCart(claims, p))
      else p.id !in quantities
  }

  method NormalizedLines(requested: Request, table: seq<Product>) returns (lines: seq<Line>)
    requires Keyed(table)
    ensures lines == CartOf(requested, table)
  {
    if requested.NotAnArray? { return []; }
    var quantities := Tally(requested.claims, table);
    var catalog := ActiveCatalog(table);
    if quantities == map[] {
      NoLines(requested.claims, catalog);
      return [];
    }
    lines := Emit(quantities, requested.claims, catalog);
  }

  method Emit(quantities: map<string, Line>, ghost claims: seq<Claim>, catalog: seq<Product>) returns (lines: seq<Line>)
    requires Tallied(quantities, claims, catalog)
    ensures lines == Lines(claims, catalog)
  {
    lines := [];
    hide InCart;
    for k := 0 to |catalog|
      invariant lines + Lines(claims, catalog[k..]) == Lines(claims, catalog)
    {
      assert catalog[k..][1..] == catalog[k + 1..];
      var line := if catalog[k].id in quantities then [quantities[catalog[k].id]] else [];
      assert catalog[k] in catalog && line == LineOf(claims, catalog[k]);
      Regroup(lines, line, Lines(claims, catalog[k + 1..]), []);
      lines := lines + line;
    }
  }

  method Tally(claims: seq<Claim>, table: seq<Product>) returns (quantities: map<string, Line>)
    requires Keyed(table)
    ensures Tallied(quantities, claims, ActiveCatalog(table))
    ensures quantities == map[] ==> forall p <- ActiveCatalog(table) :: InCart(claims, p) == 0
  {
    quantities := map[];
    ghost var catalog := ActiveCatalog(table);
    ActiveKeyed(table);
    hide Keyed, ActiveCatalog, InCart, Quantity;
    TallyNone(catalog);
    for i := 0 to |claims|
      invariant Tallied(quantities, claims[..i], catalog)
    {
      var claim := claims[i];
      assert claims[..i + 1] == claims[..i] + [claim];
      var product := if claim.Junk? then None else ActiveProductBySku(table, claim.sku);
      if product.None? || Quantity(claim.quantity) == 0 {
        TallySkip(quantities, claims[..i], claim, table);
        continue;
      }
      var p := product.value;
      var existing := if p.id in quantities then quantities[p.id].quantity else 0;
      ActiveRows(table, p);
      TallyOne(quantities, claims[..i], claim, catalog, p);
      quantities := quantities[p.id := Line(p, Capped(existing + Quantity(claim.quantity)))];
    }
    assert claims[..|claims|] == claims;
  }

  lemma TallyNone(catalog: seq<Product>)
    ensures Tallied(map[], [], catalog)
  {
  }

  lemma WantedOne(before: seq<Claim>, claim: Claim, sku: string)
    ensures Wanted(before + [claim], sku) == Wanted(before, sku) + Asked(claim, sku)
  {
    assert (before + [claim])[..|before|] == before;
  }

  lemma TallySkip(quantities: map<string, Line>, before: seq<Claim>, claim: Claim, table: seq<Product>)
    requires Tallied(quantities, before, ActiveCatalog(table))
    requires claim.Claim? && Quantity(claim.quantity) > 0 ==> ActiveProductBySku(table, claim.sku).None?
    ensures Tallied(quantities, before + [claim], ActiveCatalog(table))
  {
    var catalog := ActiveCatalog(table);
    hide Quantity, ActiveCatalog;
    forall p | p in catalog ensures InCart(before + [claim], p) == InCart(before, p) {
      ActiveRows(table, p);
      WantedOne(before, claim, p.sku);
    }
  }

  /** Capping at every step is capping the sum. */
  lemma TallyOne(quantities: map<string, Line>, before: seq<Claim>, claim: Claim, catalog: seq<Product>, p: Product)
    requires Keyed(catalog) && p in catalog && Tallied(quantities, before, catalog)
    requires claim.Claim? && claim.sku == Some(p.sku) && IsSku(p.sku) && Quantity(claim.quantity) > 0
    ensures var existing := if p.id in quantities then quantities[p.id].quantity else 0;
            Tallied(quantities[p.id := Line(p, Capped(existing + Quantity(claim.quantity)))], before + [claim], catalog)
  {
    hide Wanted, Quantity;
    forall q | q in catalog ensures q != p ==> q.id != p.id && q.sku != p.sku {
      var i, j :| 0 <= i < |catalog| && 0 <= j < |catalog| && catalog[i] == p && catalog[j] == q;
    }
    forall q | q in catalog ensures Wanted(before + [claim], q.sku) == Wanted(before, q.sku) + Asked(claim, q.sku) {
      WantedOne(before, claim, q.sku);
    }
  }

  lemma {:induction false} NoLines(claims: seq<Claim>, catalog: seq<Product>)
    requires forall p <- catalog :: InCart(claims, p) == 0
    ensures Lines(claims, catalog) == []
    decreases |catalog|
  {
    if catalog != [] { NoLines(claims, catalog[1..]); }
  }

  // ----- what the browser can and cannot change -----------------------------------------------

  /** Every line is an active catalog row, each row once, 1 to 10 of it. */
  lemma {:induction false} LinesTrusted(claims: seq<Claim>, catalog: seq<Product>)
    requires Keyed(catalog)
    ensures forall l <- Lines(claims, catalog) :: l.product in catalog && 1 <= l.quantity <= MAX_PER_SKU && l.quantity == InCart(claims, l.product)
    ensures forall i, j :: 0 <= i < j < |Lines(claims, catalog)| ==>
              Lines(claims, catalog)[i].product.sku != Lines(claims, catalog)[j].product.sku
    decreases |catalog|
  {
    if catalog != [] {
      LinesTrusted(claims, catalog[1..]);
      var rest := Lines(claims, catalog[1..]);
      forall j | 0 <= j < |rest| ensures rest[j].product.sku != catalog[0].sku {
        assert rest[j] in rest;
        var k :| 0 <= k < |catalog[1..]| && catalog[1..][k] == rest[j].product;
        assert catalog[k + 1] == rest[j].product;
      }
    }
  }

  /** Claims that ask for the same totals make the same cart. */
  lemma {:induction false} SameTotalsSameLines(a: seq<Claim>, b: seq<Claim>, catalog: seq<Product>)
    requires forall p <- catalog :: InCart(a, p) == InCart(b, p)
    ensures Lines(a, catalog) == Lines(b, catalog)
    decreases |catalog|
  {
    if catalog != [] { SameTotalsSameLines(a, b, catalog[1..]); }
  }

  lemma {:induction false} WantedSplit(a: seq<Claim>, b: seq<Claim>, sku: string)
    ensures Wanted(a + b, sku) == Wanted(a, sku) + Wanted(b, sku)
    decreases |b|
  {
    if b == [] {
      assert a + b == a;
    } else {
      WantedSplit(a, b[..|b| - 1], sku);
      assert (a + b)[..|a + b| - 1] == a + b[..|b| - 1];
    }
  }

  lemma WantedMoved(b: seq<Claim>, k: nat, sku: string)
    requires k < |b|
    ensures Wanted(b, sku) == Wanted(b[..k] + b[k + 1..], sku) + Asked(b[k], sku)
    ensures multiset(b) == multiset(b[..k] + b[k + 1..]) + multiset{b[k]}
  {
    assert b == b[..k] + [b[k]] + b[k + 1..];
    WantedSplit(b[..k], b[k + 1..], sku);
    WantedSplit(b[..k] + [b[k]], b[k + 1..], sku);
    WantedOne(b[..k], b[k], sku);
  }

  lemma {:induction false} WantedPermuted(a: seq<Claim>, b: seq<Claim>, sku: string)
    requires multiset(a) == multiset(b)
    ensures Wanted(a, sku) == Wanted(b, sku)
    decreases |a|
  {
    if a == [] {
      assert |multiset(b)| == 0;
    } else {
      var last := |a| - 1;
      WantedMoved(a, last, sku);
      assert a[last] in multiset(b);
      var k :| 0 <= k < |b| && b[k] == a[last];
      WantedMoved(b, k, sku);
      assert multiset(a[..last] + a[last + 1..]) == multiset(a) - multiset{a[last]};
      assert multiset(b[..k] + b[k + 1..]) == multiset(b) - multiset{a[last]};
      WantedPermuted(a[..last] + a[last + 1..], b[..k] + b[k + 1..], sku);
    }
  }

  lemma CartIgnoresOrder(a: seq<Claim>, b: seq<Claim>, table: seq<Product>)
    requires multiset(a) == multiset(b)
    ensures CartOf(Claims(a), table) == CartOf(Claims(b), table)
  {
    forall p | p in ActiveCatalog(table) ensures Wanted(a, p.sku) == Wanted(b, p.sku) { WantedPermuted(a, b, p.sku); }
    SameTotalsSameLines(a, b, ActiveCatalog(table));
  }

  /** One claim and several for the same sku that truncate to the same total are the same
      cart, wherever they stand. */
  lemma CartIgnoresSplitting(before: seq<Claim>, one: Claim, parts: seq<Claim>, after: seq<Claim>, table: seq<Product>)
    requires forall sku :: Wanted([one], sku) == Wanted(parts, sku)
    ensures CartOf(Claims(before + [one] + after), table) == CartOf(Claims(before + parts + after), table)
  {
    forall p | p in ActiveCatalog(table)
      ensures Wanted(before + [one] + after, p.sku) == Wanted(before + parts + after, p.sku)
    {
      WantedSplit(before + [one], after, p.sku);
      WantedSplit(before, [one], p.sku);
      WantedSplit(before + parts, after, p.sku);
      WantedSplit(before, parts, p.sku);
    }
    SameTotalsSameLines(before + [one] + after, before + parts + after, ActiveCatalog(table));
  }

  /** A claim that names no active product changes nothing. */
  lemma CartIgnoresUnknown(before: seq<Claim>, unknown: Claim, after: seq<Claim>, table: seq<Product>)
    requires unknown.Claim? ==> ActiveProductBySku(table, unknown.sku).None?
    ensures CartOf(Claims(before + [unknown] + after), table) == CartOf(Claims(before + after), table)
  {
    forall p | p in ActiveCatalog(table)
      ensures InCart(before + [unknown] + after, p) == InCart(before + after, p)
    {
      ActiveRows(table, p);
      WantedSplit(before + [unknown], after, p.sku);
      WantedSplit(before, after, p.sku);
      WantedOne(before, unknown, p.sku);
    }
    SameTotalsSameLines(before + [unknown] + after, before + after, ActiveCatalog(table));
  }

  // ----- what a cart holds, in the buyer's terms ------------------------------------------------

  /** A number of zero or more counts as the whole number just below it; a negative one, or none at
      all, as nothing. */
  predicate Counts(n: Number, q: nat) {
    if n.Finite? && 0.0 <= n.value then q as real <= n.value < (q + 1) as real else q == 0
  }

  lemma QuantityCounts(n: Number, q: nat)
    ensures Counts(n, q) <==> q == Quantity(n)
  {
  }

  /** What claims that count `counts` ask for of one sku. */
  function Total(claims: seq<Claim>, counts: seq<nat>, sku: string): nat
    requires |counts| == |claims|
  {
    if claims == [] then 0
    else
      var n := |claims| - 1;
      Total(claims[..n], counts[..n], sku) + if claims[n].Claim? && claims[n].sku == Some(sku) then counts[n] else 0
  }

  predicate CountedBy(claims: seq<Claim>, counts: seq<nat>) {
    && |counts| == |claims|
    && forall i :: 0 <= i < |claims| && claims[i].Claim? ==> Counts(claims[i].quantity, counts[i])
  }

  lemma {:induction false} TotalIsWanted(claims: seq<Claim>, counts: seq<nat>, sku: string)
    requires CountedBy(claims, counts)
    ensures Total(claims, counts, sku) == Wanted(claims, sku)
  {
    hide Quantity, Counts;
    if claims != [] {
      var n := |claims| - 1;
      TotalIsWanted(claims[..n], counts[..n], sku);
      if claims[n].Claim? { QuantityCounts(claims[n].quantity, counts[n]); }
    }
  }

  lemma {:induction false} LinesJoined(claims: seq<Claim>, a: seq<Product>, b: seq<Product>)
    ensures Lines(claims, a + b) == Lines(claims, a) + Lines(claims, b)
  {
    hide LineOf;
    if a == [] {
      assert a + b == b;
    } else {
      LinesJoined(claims, a[1..], b);
      assert (a + b)[1..] == a[1..] + b;
    }
  }

  lemma {:induction false} ActiveJoined(a: seq<Product>, b: seq<Product>)
    ensures ActiveCatalog(a + b) == ActiveCatalog(a) + ActiveCatalog(b)
  {
    if a == [] {
      assert a + b == b;
    } else {
      ActiveJoined(a[1..], b);
      assert (a + b)[1..] == a[1..] + b;
      Regroup(if a[0].active then [a[0]] else [], ActiveCatalog(a[1..]), ActiveCatalog(b), []);
    }
  }

  /** The cart, row by row of the catalog: a line for each active product with a well-formed sku that
      the claims ask for at all, as often as they ask, up to ten. */
  lemma CartInTurn(claims: seq<Claim>, counts: seq<nat>, a: seq<Product>, p: Product, b: seq<Product>)
    requires CountedBy(claims, counts)
    ensures var total := Total(claims, counts, p.sku);
            var line := if p.active && IsSku(p.sku) && total > 0 then [Line(p, if total < 10 then total else 10)] else [];
            CartOf(Claims(claims), a + [p] + b) == CartOf(Claims(claims), a) + line + CartOf(Claims(claims), b)
    ensures CartOf(Claims(claims), []) == [] && CartOf(NotAnArray, a) == []
  {
    hide Lines, ActiveCatalog, CountedBy, IsSku;
    ActiveJoined(a + [p], b);
    ActiveJoined(a, [p]);
    LinesJoined(claims, ActiveCatalog(a + [p]), ActiveCatalog(b));
    LinesJoined(claims, ActiveCatalog(a), ActiveCatalog([p]));
    RowLine(claims, counts, p);
    NoRows(claims);
  }

  lemma NoRows(claims: seq<Claim>)
    ensures Lines(claims, ActiveCatalog([])) == []
  {
  }

  lemma RowLine(claims: seq<Claim>, counts: seq<nat>, p: Product)
    requires CountedBy(claims, counts)
    ensures var total := Total(claims, counts, p.sku);
            var line := if p.active && IsSku(p.sku) && total > 0 then [Line(p, if total < 10 then total else 10)] else [];
            Lines(claims, ActiveCatalog([p])) == line
  {
    hide IsSku, CountedBy;
    TotalIsWanted(claims, counts, p.sku);
    assert [p][1..] == [];
  }

  /** One claim of one or more of an active product is a line of that many, up to ten, and nothing else. */
  lemma OneClaim(a: seq<Product>, p: Product, b: seq<Product>, v: real, q: nat)
    requires Keyed(a + [p] + b) && p.active && IsSku(p.sku)
    requires 1 <= q && q as real <= v < (q + 1) as real
    ensures CartOf(Claims([Claim.Claim(Some(p.sku), Finite(v))]), a + [p] + b) == [Line(p, if q < 10 then q else 10)]
  {
    var claims := [Claim.Claim(Some(p.sku), Finite(v))];
    var table := a + [p] + b;
    assert table[|a|] == p;
    forall other | other in a || other in b ensures other.sku != p.sku {
      if k :| 0 <= k < |a| && a[k] == other { assert table[k] == other; }
      if k :| 0 <= k < |b| && b[k] == other { assert table[|a| + 1 + k] == other; }
    }
    hide IsSku, Keyed, CartOf;
    OneTotal(p, v, q, p.sku);
    CartInTurn(claims, [q], a, p, b);
    OtherRows(p, v, q, a);
    OtherRows(p, v, q, b);
  }

  lemma OtherRows(p: Product, v: real, q: nat, table: seq<Product>)
    requires q as real <= v < (q + 1) as real && forall other <- table :: other.sku != p.sku
    ensures CartOf(Claims([Claim.Claim(Some(p.sku), Finite(v))]), table) == []
  {
    var claims := [Claim.Claim(Some(p.sku), Finite(v))];
    hide Lines, IsSku;
    forall other | other in ActiveCatalog(table) ensures InCart(claims, other) == 0 {
      ActiveRows(table, other);
      OneTotal(p, v, q, other.sku);
      TotalIsWanted(claims, [q], other.sku);
    }
    NoLines(claims, ActiveCatalog(table));
  }

  lemma OneTotal(p: Product, v: real, q: nat, sku: string)
    requires q as real <= v < (q + 1) as real
    ensures Total([Claim.Claim(Some(p.sku), Finite(v))], [q], sku) == if sku == p.sku then q else 0
    ensures CountedBy([Claim.Claim(Some(p.sku), Finite(v))], [q])
  {
    var claims := [Claim.Claim(Some(p.sku), Finite(v))];
    assert claims[..0] == [] && [q][..0] == [];
  }

  // ----- the form of a sku ------------------------------------------------------------------------

  predicate Word(w: string) { w != "" && forall i :: 0 <= i < |w| ==> 'a' <= w[i] <= 'z' }

  predicate Words(parts: seq<string>) { forall k :: 0 <= k < |parts| ==> Word(parts[k]) }

  /** What may follow a letter of a sku. */
  predicate Tail(s: string) {
    && (s != "" ==> IsLetter(s[|s| - 1]))
    && forall i :: 0 <= i < |s| ==> SkuAt(s, i)
  }

  lemma TailNext(s: string)
    requires s != ""
    ensures Tail(s) <==> if s[0] == '-' then s[1..] != "" && s[1] != '-' && Tail(s[1..]) else IsLetter(s[0]) && Tail(s[1..])
  {
    var t := s[1..];
    if Tail(s) {
      assert SkuAt(s, 0);
      forall i | 0 <= i < |t| ensures SkuAt(t, i) { assert SkuAt(s, i + 1); }
      if t != "" { assert SkuAt(s, 1); }
    }
    if Tail(t) {
      forall i | 1 <= i < |s| && (i > 1 || IsLetter(s[0]) || s[1] != '-') ensures SkuAt(s, i) { assert SkuAt(t, i - 1); }
    }
  }

  lemma {:induction false} TailWords(s: string)
    ensures var parts := Split(s, "-");
            && (parts[0] == "" <==> s == "" || s[0] == '-')
            && (Tail(s) <==> (parts[0] != "" ==> Word(parts[0])) && Words(parts[1..]))
    decreases |s|
  {
    if s != "" {
      hide Split, Tail;
      TailNext(s);
      SplitNext(s);
      TailWords(s[1..]);
      var rest := Split(s[1..], "-");
      assert rest == [rest[0]] + rest[1..];
      if s[0] != '-' { WordNext(s[0], rest[0]); }
    } else {
      assert Split(s, "-") == [s];
    }
  }

  lemma SplitNext(s: string)
    requires s != ""
    ensures var rest := Split(s[1..], "-");
            Split(s, "-") == if s[0] == '-' then [""] + rest else [[s[0]] + rest[0]] + rest[1..]
  {
    assert "-" <= s <==> s[0] == '-';
  }

  lemma WordNext(c: char, w: string)
    ensures Word([c] + w) <==> IsLetter(c) && (w != "" ==> Word(w))
  {
    var all := [c] + w;
    assert all[0] == c;
    if Word(all) { forall i | 0 <= i < |w| ensures 'a' <= w[i] <= 'z' { assert all[i + 1] == w[i]; } }
  }

  /** A sku is one or more words of small letters with single hyphens between them. */
  lemma SkuWords(s: string)
    ensures IsSku(s) <==> Words(Split(s, "-"))
  {
    hide Split;
    TailWords(s);
    var parts := Split(s, "-");
    assert parts == [parts[0]] + parts[1..];
    SkuTail(s);
  }

  lemma SkuTail(s: string)
    ensures IsSku(s) <==> s != "" && s[0] != '-' && Tail(s)
  {
    if s != "" && Tail(s) { assert SkuAt(s, 0); }
  }
}
