/** The wallet's paged listing: `ListIncomingAsync` (`InMemoryWalletBackend.cs`) and
    `ListTransactionsAsync` (`TestkitWalletService.cs`). */
module WalletListing {
  import opened Text
  import opened WalletStore

  datatype Filter = Filter(from: Option<int>, until: Option<int>, unpaid: bool)

  predicate Matches(f: Filter, invoice: Invoice) {
    && (f.unpaid || invoice.state.Settled?)
    && (f.from.Some? ==> invoice.createdAt >= f.from.value)
    && (f.until.Some? ==> invoice.createdAt <= f.until.value)
  }

  /** An invoice with its place in the list, as it is being sorted. */
  datatype Row = Row(invoice: Invoice, index: nat)

  predicate Before(a: Row, b: Row) {
    a.invoice.createdAt > b.invoice.createdAt
    || (a.invoice.createdAt == b.invoice.createdAt && a.index > b.index)
  }

  predicate Ordered(rows: seq<Row>) {
    forall i, j :: 0 <= i < j < |rows| ==> Before(rows[i], rows[j])
  }

  /** The library's descending sort, one row at a time. */
  function Insert(row: Row, sorted: seq<Row>): seq<Row> {
    if sorted == [] || Before(row, sorted[0]) then [row] + sorted
    else [sorted[0]] + Insert(row, sorted[1..])
  }

  /** The rows among the first `n` that pass the filter, sorted. The clock may read
      differently at each row. */
  function Listing(invoices: seq<Invoice>, f: Filter, clock: nat -> int, n: nat): seq<Row>
    requires n <= |invoices|
  {
    if n == 0 then []
    else
      var row := Row(Lazily(invoices[n - 1], clock(n - 1)), n - 1);
      var rest := Listing(invoices, f, clock, n - 1);
      if Matches(f, row.invoice) then Insert(row, rest) else rest
  }

  function ListIncoming(invoices: seq<Invoice>, f: Filter, clock: nat -> int): seq<Row> {
    Listing(invoices, f, clock, |invoices|)
  }

  lemma {:induction false} InsertOrdered(row: Row, sorted: seq<Row>)
    requires Ordered(sorted) && forall r <- sorted :: r.index != row.index
    ensures Ordered(Insert(row, sorted))
    ensures forall r :: r in Insert(row, sorted) <==> r == row || r in sorted
  {
    if sorted != [] && !Before(row, sorted[0]) {
      InsertOrdered(row, sorted[1..]);
      var rest := Insert(row, sorted[1..]);
      forall j | 0 <= j < |rest| ensures Before(sorted[0], rest[j]) {
        assert rest[j] in rest;
      }
    }
  }

  /** `row` is what the listing shows for some matching invoice. */
  predicate Shows(invoices: seq<Invoice>, f: Filter, clock: nat -> int, row: Row) {
    && row.index < |invoices| && row.invoice == Lazily(invoices[row.index], clock(row.index))
    && Matches(f, invoices[row.index])
  }

  lemma {:induction false} ListingRows(invoices: seq<Invoice>, f: Filter, clock: nat -> int, n: nat)
    requires n <= |invoices|
    ensures var rows := Listing(invoices, f, clock, n);
            Ordered(rows) && forall r :: r in rows <==> r.index < n && Shows(invoices, f, clock, r)
  {
    if n > 0 {
      ListingRows(invoices, f, clock, n - 1);
      var row := Row(Lazily(invoices[n - 1], clock(n - 1)), n - 1);
      if Matches(f, row.invoice) { InsertOrdered(row, Listing(invoices, f, clock, n - 1)); }
    }
  }

  lemma Earlier(rows: seq<Row>, i: nat, j: nat)
    requires Ordered(rows) && i < |rows| && j < |rows| && Before(rows[i], rows[j])
    ensures i < j
  {
  }

  /** Rows of a smaller set sit no further down. */
  lemma {:induction false} PositionGrows(a: seq<Row>, b: seq<Row>, i: nat, j: nat)
    requires Ordered(a) && Ordered(b) && i < |a| && j < |b|
    requires SameKey(a[i], b[j])
    requires forall x <- a :: exists y <- b :: SameKey(x, y)
    ensures i <= j
    decreases i
  {
    if i > 0 {
      assert a[i - 1] in a;
      var y :| y in b && SameKey(a[i - 1], y);
      var k :| 0 <= k < |b| && b[k] == y;
      assert Before(a[i - 1], a[i]);
      Earlier(b, k, j);
      PositionGrows(a, b, i - 1, k);
    }
  }

  predicate SameKey(a: Row, b: Row) {
    a.index == b.index && a.invoice.createdAt == b.invoice.createdAt
  }

  /** The listing is the one arrangement of the matching rows by creation time descending,
      later insertion first. */
  lemma ListingUnique(invoices: seq<Invoice>, f: Filter, clock: nat -> int, rows: seq<Row>)
    requires Ordered(rows) && forall r :: r in rows <==> Shows(invoices, f, clock, r)
    ensures rows == ListIncoming(invoices, f, clock)
  {
    ListingRows(invoices, f, clock, |invoices|);
    SameRows(rows, ListIncoming(invoices, f, clock));
  }

  lemma SameRows(a: seq<Row>, b: seq<Row>)
    requires Ordered(a) && Ordered(b) && forall r :: r in a <==> r in b
    ensures a == b
  {
    if a != [] { SamePlace(a, b, |a| - 1); }
    forall i | 0 <= i < |a| ensures a[i] == b[i] { SamePlace(a, b, i); }
    if b != [] { SamePlace(b, a, |b| - 1); }
  }

  lemma SamePlace(a: seq<Row>, b: seq<Row>, i: nat)
    requires Ordered(a) && Ordered(b) && forall r :: r in a <==> r in b
    requires i < |a|
    ensures i < |b| && a[i] == b[i]
  {
    hide Ordered, Before;
    assert a[i] in b;
    var j :| 0 <= j < |b| && b[j] == a[i];
    assert forall x <- a :: x in b && SameKey(x, x);
    assert forall x <- b :: x in a && SameKey(x, x);
    PositionGrows(a, b, i, j);
    PositionGrows(b, a, j, i);
  }

  /** What the listing is, in the caller's terms: the invoices created in the window, both ends in it,
      and paid unless unpaid ones are asked for too; a pending one past its expiry at the moment it is
      read shows as expired; newest first, the later insertion first among equals. */
  lemma ListedExactly(invoices: seq<Invoice>, from: Option<int>, until: Option<int>, unpaid: bool, clock: nat -> int)
    ensures var rows := ListIncoming(invoices, Filter(from, until, unpaid), clock);
            && (forall row :: row in rows <==>
                  && row.index < |invoices| && ShownAt(invoices[row.index], clock(row.index), row.invoice)
                  && (unpaid || invoices[row.index].state.Settled?)
                  && (from.Some? ==> from.value <= invoices[row.index].createdAt)
                  && (until.Some? ==> invoices[row.index].createdAt <= until.value))
            && (forall i, j :: 0 <= i < j < |rows| ==>
                  || rows[j].invoice.createdAt < rows[i].invoice.createdAt
                  || (rows[j].invoice.createdAt == rows[i].invoice.createdAt && rows[j].index < rows[i].index))
  {
    ListingRows(invoices, Filter(from, until, unpaid), clock, |invoices|);
    hide Listing;
  }

  /** `shown` is the row as it reads at `now`. */
  predicate ShownAt(row: Invoice, now: int, shown: Invoice) {
    if row.state.Pending? && row.expiresAt < now then shown == row.(state := Expired) else shown == row
  }

  // ----- one page --------------------------------------------------------------------------

  /** C#'s unchecked conversion from `long` to `int`. */
  function ToInt32(n: int): int {
    (n + 0x8000_0000) % 0x1_0000_0000 - 0x8000_0000
  }

  datatype Options = Options(pageLimitCap: nat, dropOffset: bool)
  datatype Request = Request(limit: Option<int>, offset: Option<int>, from: Option<int>, until: Option<int>,
                             unpaid: Option<bool>, outgoing: bool)

  function EffectiveLimit(o: Options, r: Request): (n: nat)
    ensures n <= o.pageLimitCap
  {
    var asked := ToInt32(match r.limit case Some(n) => n case None => o.pageLimitCap);
    if asked < 0 then 0 else if asked > o.pageLimitCap then o.pageLimitCap else asked
  }

  function EffectiveOffset(o: Options, r: Request): int {
    if o.dropOffset then 0 else ToInt32(match r.offset case Some(n) => n case None => 0)
  }

  function FilterOf(r: Request): Filter {
    Filter(r.from, r.until, match r.unpaid case Some(b) => b case None => false)
  }

  /** `rows.Skip(offset).Take(limit)`: a negative skip skips nothing. */
  function Page<T>(rows: seq<T>, offset: int, limit: nat): seq<T> {
    var start := if offset < 0 then 0 else if offset > |rows| then |rows| else offset;
    var rest := rows[start..];
    if limit < |rest| then rest[..limit] else rest
  }

  function ListTransactions(invoices: seq<Invoice>, o: Options, r: Request, clock: nat -> int): seq<Row> {
    var rows := if r.outgoing then [] else ListIncoming(invoices, FilterOf(r), clock);
    Page(rows, EffectiveOffset(o, r), EffectiveLimit(o, r))
  }

  /** The conversion keeps the value's lower 32 bits and reads them as a signed number. */
  lemma WrapsToInt32(n: int)
    ensures -0x8000_0000 <= ToInt32(n) < 0x8000_0000
    ensures exists turns: int :: ToInt32(n) == n - turns * 0x1_0000_0000
  {
    var turns := (n + 0x8000_0000) / 0x1_0000_0000;
    assert ToInt32(n) == n - turns * 0x1_0000_0000;
  }

  /** Any page limit a request can carry: within the cap it is honoured, above it cut, below zero
      nothing, left out the cap itself, and 2^32 more make no difference. */
  lemma LimitExactly(o: Options, r: Request)
    requires o.pageLimitCap < 0x8000_0000
    ensures r.limit.None? ==> EffectiveLimit(o, r) == o.pageLimitCap
    ensures r.limit.Some? && 0 <= r.limit.value <= o.pageLimitCap ==> EffectiveLimit(o, r) == r.limit.value
    ensures r.limit.Some? && o.pageLimitCap < r.limit.value < 0x8000_0000 ==> EffectiveLimit(o, r) == o.pageLimitCap
    ensures r.limit.Some? && -0x8000_0000 <= r.limit.value < 0 ==> EffectiveLimit(o, r) == 0
    ensures r.limit.Some? ==> EffectiveLimit(o, r) == EffectiveLimit(o, r.(limit := Some(r.limit.value + 0x1_0000_0000)))
  {
  }

  lemma Stretch<T>(rows: seq<T>, offset: int, limit: nat)
    ensures var page, start := Page(rows, offset, limit), if offset < 0 then 0 else offset;
            && (page == [] || start + |page| <= |rows|)
            && |page| <= limit && (|page| < limit ==> |rows| <= start + |page|)
            && forall k :: 0 <= k < |page| ==> page[k] == rows[start + k]
  {
  }

  lemma OffsetExactly(o: Options, r: Request)
    ensures o.dropOffset || r.offset.None? ==> EffectiveOffset(o, r) == 0
    ensures !o.dropOffset && r.offset.Some? && -0x8000_0000 <= r.offset.value < 0x8000_0000 ==> EffectiveOffset(o, r) == r.offset.value
    ensures r.offset.Some? ==> EffectiveOffset(o, r) == EffectiveOffset(o, r.(offset := Some(r.offset.value + 0x1_0000_0000)))
  {
  }

  predicate SmallOffset(r: Request) { r.offset.Some? ==> -0x8000_0000 <= r.offset.value < 0x8000_0000 }

  /** The page is the stretch of the listing that the request names: from its offset, or from the
      start for a negative or dropped one, up to the page limit, and short only where the listing
      ends. */
  lemma PageExactly(invoices: seq<Invoice>, o: Options, r: Request, clock: nat -> int)
    requires SmallOffset(r) && !r.outgoing
    ensures var page := ListTransactions(invoices, o, r, clock);
            var all := ListIncoming(invoices, Filter(r.from, r.until, r.unpaid == Some(true)), clock);
            var start := if o.dropOffset || r.offset.None? || r.offset.value < 0 then 0 else r.offset.value;
            && (page == [] || start + |page| <= |all|)
            && |page| <= EffectiveLimit(o, r) && (|page| < EffectiveLimit(o, r) ==> |all| <= start + |page|)
            && forall k :: 0 <= k < |page| ==> page[k] == all[start + k]
  {
    hide ListIncoming, EffectiveLimit, EffectiveOffset, Page;
    OffsetExactly(o, r);
    Stretch(ListIncoming(invoices, FilterOf(r), clock), EffectiveOffset(o, r), EffectiveLimit(o, r));
  }

  /** Nothing outgoing is ever listed, and an offset reads the same 2^32 further on. */
  lemma PageOtherwise(invoices: seq<Invoice>, o: Options, r: Request, clock: nat -> int)
    ensures r.outgoing ==> ListTransactions(invoices, o, r, clock) == []
    ensures var later := if r.offset.Some? then r.(offset := Some(r.offset.value + 0x1_0000_0000)) else r;
            ListTransactions(invoices, o, r, clock) == ListTransactions(invoices, o, later, clock)
  {
    hide ListIncoming, EffectiveLimit, EffectiveOffset;
    OffsetExactly(o, r);
    if r.offset.Some? { LimitIgnoresOffset(o, r, Some(r.offset.value + 0x1_0000_0000)); }
  }

  // ----- a walk over the pages while the store changes -----------------------------------------

  /** What the store and the clock were when each page was read. */
  datatype Reading = Reading(invoices: seq<Invoice>, clock: nat -> int)

  /** The client adds the length of each page to the offset it asks for next. */
  function OffsetAt(o: Options, r: Request, readings: seq<Reading>, k: nat): nat
    requires k <= |readings|
    decreases k, 0
  {
    if k == 0 then 0 else OffsetAt(o, r, readings, k - 1) + |PageAt(o, r, readings, k - 1)|
  }

  function PageAt(o: Options, r: Request, readings: seq<Reading>, k: nat): seq<Row>
    requires k < |readings|
    decreases k, 1
  {
    ListTransactions(readings[k].invoices, o, r.(offset := Some(OffsetAt(o, r, readings, k))), readings[k].clock)
  }

  function FullAt(r: Request, readings: seq<Reading>, k: nat): seq<Row>
    requires k < |readings|
  {
    ListIncoming(readings[k].invoices, FilterOf(r), readings[k].clock)
  }

  /** A .NET list holds fewer than 2^31 items, and the store only ever evolves by mints,
      settlements and expiries. */
  predicate Evolving(readings: seq<Reading>) {
    && (forall k :: 0 <= k < |readings| ==> |readings[k].invoices| < 0x8000_0000)
    && (forall k :: 0 < k < |readings| ==> Grows(readings[k - 1].invoices, readings[k].invoices))
  }

  predicate Walk(o: Options, r: Request, readings: seq<Reading>) {
    && !o.dropOffset && !r.outgoing && EffectiveLimit(o, r) >= 1
    && Evolving(readings) && readings != []
    && PageAt(o, r, readings, |readings| - 1) == []
  }

  lemma LimitIgnoresOffset(o: Options, r: Request, offset: Option<int>)
    ensures EffectiveLimit(o, r.(offset := offset)) == EffectiveLimit(o, r)
    ensures FilterOf(r.(offset := offset)) == FilterOf(r)
  {
  }

  lemma {:induction false} InsertLength(row: Row, sorted: seq<Row>)
    ensures |Insert(row, sorted)| == |sorted| + 1
  {
    if sorted != [] && !Before(row, sorted[0]) { InsertLength(row, sorted[1..]); }
  }

  lemma {:induction false} ListingLength(invoices: seq<Invoice>, f: Filter, clock: nat -> int, n: nat)
    requires n <= |invoices|
    ensures |Listing(invoices, f, clock, n)| <= n
  {
    if n > 0 {
      ListingLength(invoices, f, clock, n - 1);
      InsertLength(Row(Lazily(invoices[n - 1], clock(n - 1)), n - 1), Listing(invoices, f, clock, n - 1));
    }
  }

  lemma SmallInt32(n: int)
    requires 0 <= n < 0x8000_0000
    ensures ToInt32(n) == n
  {
  }

  lemma PageIs(o: Options, r: Request, readings: seq<Reading>, k: nat)
    requires k < |readings| && !o.dropOffset && !r.outgoing && OffsetAt(o, r, readings, k) < 0x8000_0000
    ensures PageAt(o, r, readings, k) == Page(FullAt(r, readings, k), OffsetAt(o, r, readings, k), EffectiveLimit(o, r))
  {
    hide ToInt32, Page, ListIncoming;
    SmallInt32(OffsetAt(o, r, readings, k));
    LimitIgnoresOffset(o, r, Some(OffsetAt(o, r, readings, k)));
  }

  lemma PageLength<T>(rows: seq<T>, offset: nat, limit: nat)
    ensures Page(rows, offset, limit) == [] || offset + |Page(rows, offset, limit)| <= |rows|
    ensures Page(rows, offset, limit) == [] && limit > 0 ==> offset >= |rows|
  {
  }

  lemma {:induction false} OffsetSmall(o: Options, r: Request, readings: seq<Reading>, k: nat)
    requires Evolving(readings) && k <= |readings| && !o.dropOffset && !r.outgoing
    ensures OffsetAt(o, r, readings, k) < 0x8000_0000
    decreases k
  {
    if k > 0 {
      hide PageAt, FullAt, Page;
      OffsetSmall(o, r, readings, k - 1);
      PageIs(o, r, readings, k - 1);
      PageLength(FullAt(r, readings, k - 1), OffsetAt(o, r, readings, k - 1), EffectiveLimit(o, r));
      FullLength(r, readings, k - 1);
    }
  }

  lemma FullLength(r: Request, readings: seq<Reading>, k: nat)
    requires k < |readings|
    ensures |FullAt(r, readings, k)| <= |readings[k].invoices|
  {
    ListingLength(readings[k].invoices, FilterOf(r), readings[k].clock, |readings[k].invoices|);
  }

  /** Whatever was listed is still listed after the store has evolved. */
  lemma ListingGrows(before: Reading, after: Reading, f: Filter)
    requires Grows(before.invoices, after.invoices)
    ensures forall x <- ListIncoming(before.invoices, f, before.clock) ::
              exists y <- ListIncoming(after.invoices, f, after.clock) :: SameKey(x, y)
  {
    ListingRows(before.invoices, f, before.clock, |before.invoices|);
    ListingRows(after.invoices, f, after.clock, |after.invoices|);
    forall x | x in ListIncoming(before.invoices, f, before.clock)
      ensures exists y <- ListIncoming(after.invoices, f, after.clock) :: SameKey(x, y)
    {
      assert Later(before.invoices[x.index], after.invoices[x.index]);
      var y := Row(Lazily(after.invoices[x.index], after.clock(x.index)), x.index);
      assert Shows(after.invoices, f, after.clock, y) && SameKey(x, y);
    }
  }

  predicate Seen(o: Options, r: Request, readings: seq<Reading>, k: nat, row: Row)
    requires k <= |readings|
  {
    exists i, x :: 0 <= i < k && x in PageAt(o, r, readings, i) && SameKey(x, row)
  }

  predicate Ahead(o: Options, r: Request, readings: seq<Reading>, k: nat, row: Row)
    requires k < |readings|
  {
    exists j :: OffsetAt(o, r, readings, k) <= j < |FullAt(r, readings, k)| && SameKey(FullAt(r, readings, k)[j], row)
  }

  lemma AheadOrInPage(rows: seq<Row>, offset: nat, limit: nat, j: nat)
    requires offset <= j < |rows|
    ensures rows[j] in Page(rows, offset, limit) || offset + |Page(rows, offset, limit)| <= j
  {
    if j < offset + limit {
      assert Page(rows, offset, limit)[j - offset] == rows[j];
    }
  }

  lemma StillAhead(before: seq<Row>, after: seq<Row>, j: nat) returns (i: nat)
    requires Ordered(before) && Ordered(after) && j < |before|
    requires forall x <- before :: exists y <- after :: SameKey(x, y)
    ensures j <= i < |after| && SameKey(after[i], before[j])
  {
    assert before[j] in before;
    var y :| y in after && SameKey(before[j], y);
    i :| 0 <= i < |after| && after[i] == y;
    PositionGrows(before, after, j, i);
  }

  /** A row listed at the first page is, at every later one, already served or still ahead. */
  lemma {:induction false} SeenOrAhead(o: Options, r: Request, readings: seq<Reading>, k: nat, row: Row)
    requires Evolving(readings) && !o.dropOffset && !r.outgoing && k < |readings|
    requires row in FullAt(r, readings, 0)
    ensures Seen(o, r, readings, k, row) || Ahead(o, r, readings, k, row)
    decreases k
  {
    if k == 0 {
      var j :| 0 <= j < |FullAt(r, readings, 0)| && FullAt(r, readings, 0)[j] == row;
      assert SameKey(FullAt(r, readings, 0)[j], row);
    } else {
      SeenOrAhead(o, r, readings, k - 1, row);
      if Ahead(o, r, readings, k - 1, row) && !Seen(o, r, readings, k, row) {
        var before, after := FullAt(r, readings, k - 1), FullAt(r, readings, k);
        var offset := OffsetAt(o, r, readings, k - 1);
        var j: nat :| offset <= j < |before| && SameKey(before[j], row);
        OffsetSmall(o, r, readings, k - 1);
        PageIs(o, r, readings, k - 1);
        AheadOrInPage(before, offset, EffectiveLimit(o, r), j);
        ListingGrows(readings[k - 1], readings[k], FilterOf(r));
        ListingRows(readings[k - 1].invoices, FilterOf(r), readings[k - 1].clock, |readings[k - 1].invoices|);
        ListingRows(readings[k].invoices, FilterOf(r), readings[k].clock, |readings[k].invoices|);
        var i := StillAhead(before, after, j);
        assert SameKey(after[i], row);
      }
    }
  }

  /** An empty page proves that every row listed when the walk began has been served. */
  lemma EmptyPageProves(o: Options, r: Request, readings: seq<Reading>, k: nat, row: Row)
    requires Evolving(readings) && !o.dropOffset && !r.outgoing && EffectiveLimit(o, r) >= 1
    requires k < |readings| && PageAt(o, r, readings, k) == [] && row in FullAt(r, readings, 0)
    ensures Seen(o, r, readings, k, row)
  {
    hide Seen;
    SeenOrAhead(o, r, readings, k, row);
    OffsetSmall(o, r, readings, k);
    PageIs(o, r, readings, k);
    PageLength(FullAt(r, readings, k), OffsetAt(o, r, readings, k), EffectiveLimit(o, r));
  }

  /** The walk misses nothing that was listed when it began, whatever is minted, settled or
      expired between its pages. */
  lemma WalkMissesNothing(o: Options, r: Request, readings: seq<Reading>, row: Row)
    requires Walk(o, r, readings) && row in FullAt(r, readings, 0)
    ensures Seen(o, r, readings, |readings|, row)
  {
    EmptyPageProves(o, r, readings, |readings| - 1, row);
  }

  /** Page `k` is read `moments[k]` operations into the run. */
  predicate ReadDuring(s: Store, ops: seq<Op>, moments: seq<nat>, readings: seq<Reading>) {
    && |moments| == |readings|
    && (forall k :: 0 <= k < |moments| ==> moments[k] <= |ops|)
    && (forall k :: 0 < k < |moments| ==> moments[k - 1] <= moments[k])
    && (forall k :: 0 <= k < |readings| ==> readings[k].invoices == Run(s, ops[..moments[k]]).invoices)
  }

  predicate Small(readings: seq<Reading>) {
    forall k :: 0 <= k < |readings| ==> |readings[k].invoices| < 0x8000_0000
  }

  lemma RunEvolves(s: Store, ops: seq<Op>, moments: seq<nat>, readings: seq<Reading>)
    requires FreshRun(s, ops) && ReadDuring(s, ops, moments, readings) && Small(readings)
    ensures Evolving(readings)
  {
    hide Run, FreshRun, Grows;
    forall k | 0 < k < |readings| ensures Grows(readings[k - 1].invoices, readings[k].invoices) {
      GrowsBetween(s, ops, moments[k - 1], moments[k]);
    }
  }

  /** The same over the wallet's own runs: pages read at any moments of any run of mints,
      settlements and expiries, up to an empty one, miss no row of the first moment. */
  lemma {:induction false} WalkOverRun(o: Options, r: Request, s: Store, ops: seq<Op>, moments: seq<nat>, readings: seq<Reading>, row: Row)
    requires FreshRun(s, ops) && ReadDuring(s, ops, moments, readings) && Small(readings)
    requires !o.dropOffset && !r.outgoing && EffectiveLimit(o, r) >= 1
    requires readings != [] && PageAt(o, r, readings, |readings| - 1) == [] && row in FullAt(r, readings, 0)
    ensures Seen(o, r, readings, |readings|, row)
  {
    hide Run, FreshRun, PageAt, FullAt, Seen, Evolving;
    RunEvolves(s, ops, moments, readings);
    WalkMissesNothing(o, r, readings, row);
  }

  function Served(o: Options, r: Request, readings: seq<Reading>, k: nat): seq<Row>
    requires k <= |readings|
  {
    if k == 0 then [] else Served(o, r, readings, k - 1) + PageAt(o, r, readings, k - 1)
  }

  /** Over a store that does not change, the pages served so far are the start of the
      listing, and a finished walk has served all of it. */
  lemma {:induction false} PagesConcatenate(o: Options, r: Request, readings: seq<Reading>, k: nat)
    requires Evolving(readings) && !o.dropOffset && !r.outgoing && 0 < k <= |readings|
    requires forall i :: 0 <= i < |readings| ==> readings[i] == readings[0]
    ensures |Served(o, r, readings, k)| == OffsetAt(o, r, readings, k)
    ensures Served(o, r, readings, k) <= FullAt(r, readings, 0)
    decreases k
  {
    hide PageAt, ListIncoming, Page;
    if k > 1 { PagesConcatenate(o, r, readings, k - 1); }
    OffsetSmall(o, r, readings, k - 1);
    PageIs(o, r, readings, k - 1);
    assert FullAt(r, readings, k - 1) == FullAt(r, readings, 0);
    PagePrefix(FullAt(r, readings, 0), Served(o, r, readings, k - 1), EffectiveLimit(o, r));
  }

  lemma PagePrefix<T>(rows: seq<T>, served: seq<T>, limit: nat)
    requires served <= rows
    ensures served + Page(rows, |served|, limit) <= rows
  {
  }

  lemma WalkServesListing(o: Options, r: Request, readings: seq<Reading>)
    requires Walk(o, r, readings)
    requires forall i :: 0 <= i < |readings| ==> readings[i] == readings[0]
    ensures Served(o, r, readings, |readings|) == FullAt(r, readings, 0)
  {
    var last := |readings| - 1;
    PagesConcatenate(o, r, readings, |readings|);
    OffsetSmall(o, r, readings, last);
    PageIs(o, r, readings, last);
    PageLength(FullAt(r, readings, last), OffsetAt(o, r, readings, last), EffectiveLimit(o, r));
  }

  /** The `DropOffset` control breaks the walk for good: over an unchanged store every page is
      the first one again. */
  lemma DroppedOffsetRepeats(o: Options, r: Request, readings: seq<Reading>, k: nat)
    requires o.dropOffset && k < |readings| && readings[k] == readings[0]
    ensures PageAt(o, r, readings, k) == PageAt(o, r, readings, 0)
  {
    LimitIgnoresOffset(o, r, Some(OffsetAt(o, r, readings, k)));
    LimitIgnoresOffset(o, r, Some(OffsetAt(o, r, readings, 0)));
  }
}
