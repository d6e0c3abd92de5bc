/** The test wallet's invoice store (`InMemoryWalletBackend.cs`): minting, settling and
    expiring over a list kept in insertion order. Payment hashes are fresh, as 32 random
    bytes make them; every clock reading is a parameter. */
module WalletStore {
  import opened Text

  datatype InvoiceState = Pending | Expired | Settled

  datatype Invoice = Invoice(hash: string, amountMsats: int, createdAt: int, expiresAt: int,
                             settledAt: Option<int>, state: InvoiceState)

  /** The list, and the invoices the settlement event was raised with so far. */
  datatype Store = Store(invoices: seq<Invoice>, announced: seq<Invoice>)

  function New(hash: string, amountMsats: int, now: int, expirySeconds: Option<int>): Invoice {
    var expiry := match expirySeconds case Some(e) => e case None => 3600;
    Invoice(hash, amountMsats, now, now + expiry, None, Pending)
  }

  /** What a fresh invoice is: pending, unpaid, good for the asked time or an hour. */
  predicate Minted(row: Invoice, hash: string, amountMsats: int, now: int, expirySeconds: Option<int>) {
    && row.hash == hash && row.amountMsats == amountMsats && row.createdAt == now
    && row.expiresAt - row.createdAt == (if expirySeconds.Some? then expirySeconds.value else 60 * 60)
    && row.state.Pending? && row.settledAt.None?
  }

  /** `RemoveAll` by hash, the order of the rest kept. */
  function Without(invoices: seq<Invoice>, hash: string): (r: seq<Invoice>)
    ensures (forall i :: 0 <= i < |invoices| ==> invoices[i].hash != hash) ==> r == invoices
    ensures forall i :: 0 <= i < |r| ==> r[i].hash != hash && r[i] in invoices
  {
    if invoices == [] then []
    else
      var rest := Without(invoices[1..], hash);
      assert invoices == [invoices[0]] + invoices[1..];
      if invoices[0].hash == hash then rest else [invoices[0]] + rest
  }

  function Seeded(invoices: seq<Invoice>, invoice: Invoice): seq<Invoice> {
    Without(invoices, invoice.hash) + [invoice]
  }

  /** `FindIndex` by hash; the length when there is none. */
  function IndexOf(invoices: seq<Invoice>, hash: string): (i: nat)
    ensures i <= |invoices|
    ensures i < |invoices| ==> invoices[i].hash == hash
    ensures forall k :: 0 <= k < i ==> invoices[k].hash != hash
  {
    if invoices == [] || invoices[0].hash == hash then 0 else 1 + IndexOf(invoices[1..], hash)
  }

  function Settle(s: Store, hash: string, now: int): Store {
    var i := IndexOf(s.invoices, hash);
    if i == |s.invoices| || s.invoices[i].state.Settled? then s
    else
      var paid := s.invoices[i].(state := Settled, settledAt := Some(now));
      Store(s.invoices[i := paid], s.announced + [paid])
  }

  function Expire(s: Store, hash: string): Store {
    var i := IndexOf(s.invoices, hash);
    if i == |s.invoices| || s.invoices[i].state.Settled? then s
    else s.(invoices := s.invoices[i := s.invoices[i].(state := Expired)])
  }

  function Balance(invoices: seq<Invoice>): int {
    if invoices == [] then 0
    else
      var last := invoices[|invoices| - 1];
      Balance(invoices[..|invoices| - 1]) + if last.state.Settled? then last.amountMsats else 0
  }

  /** A pending invoice past its expiry reads as expired. */
  function Lazily(invoice: Invoice, now: int): Invoice {
    if invoice.state.Pending? && now > invoice.expiresAt then invoice.(state := Expired) else invoice
  }

  class InMemoryWalletBackend {
    var invoices: seq<Invoice>
    /** Every invoice handed to the `InvoiceSettled` subscribers, in order. */
    var announced: seq<Invoice>

    ghost function Model(): Store
      reads this
    {
      Store(invoices, announced)
    }

    constructor ()
      ensures Model() == Store([], [])
    {
      invoices, announced := [], [];
    }

    method MakeInvoice(hash: string, amountMsats: int, now: int, expirySeconds: Option<int>) returns (invoice: Invoice)
      modifies this`invoices
      ensures invoice == New(hash, amountMsats, now, expirySeconds)
      ensures Minted(invoice, hash, amountMsats, now, expirySeconds)
      ensures invoices == Seeded(old(invoices), invoice)
    {
      invoice := New(hash, amountMsats, now, expirySeconds);
      Seed(invoice);
    }

    method Seed(invoice: Invoice)
      modifies this`invoices
      ensures invoices == Seeded(old(invoices), invoice)
    {
      invoices := Without(invoices, invoice.hash);
      invoices := invoices + [invoice];
    }

    /** False for a hash the store does not know (the source throws). */
    method SettleAsync(hash: string, now: int) returns (known: bool)
      modifies this
      ensures Model() == Settle(old(Model()), hash, now)
      ensures known <==> exists i :: 0 <= i < |old(invoices)| && old(invoices)[i].hash == hash
    {
      var next;
      known, next := Replace(hash, (current: Invoice) =>
        if current.state.Settled? then None else Some(current.(state := Settled, settledAt := Some(now))));
      if next.Some? {
        announced := announced + [next.value];
      }
    }

    method ExpireAsync(hash: string) returns (known: bool)
      modifies this`invoices
      ensures Model() == Expire(old(Model()), hash)
      ensures known <==> exists i :: 0 <= i < |old(invoices)| && old(invoices)[i].hash == hash
    {
      var next;
      known, next := Replace(hash, (current: Invoice) =>
        if current.state.Settled? then None else Some(current.(state := Expired)));
    }

    method Replace(hash: string, update: Invoice -> Option<Invoice>) returns (known: bool, next: Option<Invoice>)
      modifies this`invoices
      ensures known <==> exists i :: 0 <= i < |old(invoices)| && old(invoices)[i].hash == hash
      ensures var i := IndexOf(old(invoices), hash);
              && known == (i < |old(invoices)|)
              && next == (if known then update(old(invoices)[i]) else None)
              && invoices == if next.Some? then old(invoices)[i := next.value] else old(invoices)
    {
      var index := IndexOf(invoices, hash);
      if index == |invoices| { return false, None; }
      next := update(invoices[index]);
      if next.Some? {
        invoices := invoices[index := next.value];
      }
      return true, next;
    }

    method BalanceMsats() returns (sum: int)
      ensures sum == Balance(invoices)
    {
      sum := 0;
      for i := 0 to |invoices|
        invariant sum == Balance(invoices[..i])
      {
        assert invoices[..i + 1][..i] == invoices[..i];
        if invoices[i].state.Settled? { sum := sum + invoices[i].amountMsats; }
      }
      assert invoices[..|invoices|] == invoices;
    }
  }

  // ----- what one operation does ---------------------------------------------------------

  lemma WithoutCons(row: Invoice, rest: seq<Invoice>, hash: string)
    ensures Without([row] + rest, hash) == (if row.hash == hash then [] else [row]) + Without(rest, hash)
    ensures Without([], hash) == []
  {
    assert ([row] + rest)[1..] == rest;
  }

  lemma {:induction false} WithoutJoined(a: seq<Invoice>, b: seq<Invoice>, hash: string)
    ensures Without(a + b, hash) == Without(a, hash) + Without(b, hash)
  {
    hide Without;
    if a == [] {
      assert a + b == b;
      WithoutNone(hash);
    } else {
      var row, rest := a[0], a[1..];
      WithoutJoined(rest, b, hash);
      WithoutCons(row, rest, hash);
      WithoutCons(row, rest + b, hash);
      assert [row] + rest == a && [row] + (rest + b) == a + b;
      Regroup(if row.hash == hash then [] else [row], Without(rest, hash), Without(b, hash), []);
    }
  }

  lemma WithoutNone(hash: string)
    ensures Without([], hash) == []
  {
  }

  /** Seeding keeps every row of another hash, in order, drops those of its own, and puts the new
      row last. */
  lemma SeedKeeps(a: seq<Invoice>, row: Invoice, b: seq<Invoice>, invoice: Invoice)
    ensures Seeded(a + ([row] + b), invoice)
         == Without(a, invoice.hash) + ((if row.hash == invoice.hash then [] else [row]) + Without(b, invoice.hash)) + [invoice]
    ensures Seeded([], invoice) == [invoice]
  {
    hide Without;
    WithoutJoined(a, [row] + b, invoice.hash);
    WithoutCons(row, b, invoice.hash);
    WithoutNone(invoice.hash);
  }

  /** Only row `i` differs. */
  predicate OnlyRow(before: seq<Invoice>, after: seq<Invoice>, i: nat) {
    |after| == |before| && forall k :: 0 <= k < |before| && k != i ==> after[k] == before[k]
  }

  /** Settling a known, unsettled hash stamps its row, announces that row, and touches nothing else;
      settling a settled or unknown hash does nothing. */
  lemma SettleDoes(s: Store, hash: string, now: int)
    requires DistinctHashes(s.invoices)
    ensures var s' := Settle(s, hash, now);
            && (forall i :: 0 <= i < |s.invoices| && s.invoices[i].hash == hash && !s.invoices[i].state.Settled? ==>
                  && OnlyRow(s.invoices, s'.invoices, i)
                  && s'.invoices[i] == s.invoices[i].(state := Settled, settledAt := Some(now))
                  && s'.announced == s.announced + [s'.invoices[i]])
            && (forall i :: 0 <= i < |s.invoices| && s.invoices[i].hash == hash && s.invoices[i].state.Settled? ==> s' == s)
            && ((forall i :: 0 <= i < |s.invoices| ==> s.invoices[i].hash != hash) ==> s' == s)
  {
  }

  /** The same for expiring, which announces nothing. */
  lemma ExpireDoes(s: Store, hash: string)
    requires DistinctHashes(s.invoices)
    ensures var s' := Expire(s, hash);
            && s'.announced == s.announced
            && (forall i :: 0 <= i < |s.invoices| && s.invoices[i].hash == hash && !s.invoices[i].state.Settled? ==>
                  OnlyRow(s.invoices, s'.invoices, i) && s'.invoices[i] == s.invoices[i].(state := Expired))
            && (forall i :: 0 <= i < |s.invoices| && s.invoices[i].hash == hash && s.invoices[i].state.Settled? ==> s' == s)
            && ((forall i :: 0 <= i < |s.invoices| ==> s.invoices[i].hash != hash) ==> s' == s)
  {
  }

  /** A row reads as expired when it was expired, or is pending past its expiry; reading changes
      nothing else. */
  lemma ReadsExpired(row: Invoice, now: int)
    ensures var r := Lazily(row, now);
            && (r.state.Expired? <==> row.state.Expired? || (row.state.Pending? && row.expiresAt < now))
            && (r.state.Settled? <==> row.state.Settled?)
            && r.(state := Pending) == row.(state := Pending)
  {
  }

  // ----- whole runs ----------------------------------------------------------------------

  datatype Op =
    | Mint(hash: string, amountMsats: int, now: int, expirySeconds: Option<int>)
    | SettleOp(hash: string, now: int)
    | ExpireOp(hash: string)

  predicate Known(invoices: seq<Invoice>, hash: string) {
    exists i :: 0 <= i < |invoices| && invoices[i].hash == hash
  }

  predicate Fresh(s: Store, op: Op) { op.Mint? ==> !Known(s.invoices, op.hash) }

  function Apply(s: Store, op: Op): Store {
    match op
    case Mint(hash, amount, now, expiry) => s.(invoices := Seeded(s.invoices, New(hash, amount, now, expiry)))
    case SettleOp(hash, now) => Settle(s, hash, now)
    case ExpireOp(hash) => Expire(s, hash)
  }

  function Run(s: Store, ops: seq<Op>): Store
    decreases |ops|
  {
    if ops == [] then s else Apply(Run(s, ops[..|ops| - 1]), ops[|ops| - 1])
  }

  /** Every mint in the run has a fresh hash. */
  predicate FreshRun(s: Store, ops: seq<Op>)
    decreases |ops|
  {
    ops == [] || (FreshRun(s, ops[..|ops| - 1]) && Fresh(Run(s, ops[..|ops| - 1]), ops[|ops| - 1]))
  }

  function PaidRows(invoices: seq<Invoice>): seq<Invoice> {
    if invoices == [] then []
    else
      var last := invoices[|invoices| - 1];
      PaidRows(invoices[..|invoices| - 1]) + if last.state.Settled? then [last] else []
  }

  function Sum(invoices: seq<Invoice>): int {
    if invoices == [] then 0 else Sum(invoices[..|invoices| - 1]) + invoices[|invoices| - 1].amountMsats
  }

  predicate DistinctHashes(invoices: seq<Invoice>) {
    forall i, j :: 0 <= i < j < |invoices| ==> invoices[i].hash != invoices[j].hash
  }

  /** The event was raised exactly once for each settled row and with that row, and the
      balance is the sum of what was announced. */
  predicate Accounted(s: Store) {
    && multiset(s.announced) == multiset(PaidRows(s.invoices))
    && Balance(s.invoices) == Sum(s.announced)
  }

  predicate Inv(s: Store) {
    && DistinctHashes(s.invoices)
    && Stamped(s.invoices)
    && Accounted(s)
  }

  /** Exactly the settled rows carry a settlement time. */
  predicate Stamped(invoices: seq<Invoice>) {
    forall i :: 0 <= i < |invoices| ==> (invoices[i].state.Settled? <==> invoices[i].settledAt.Some?)
  }

  lemma {:induction false} UpdateRow(invoices: seq<Invoice>, i: nat, row: Invoice)
    requires i < |invoices| && !invoices[i].state.Settled?
    ensures Balance(invoices[i := row]) == Balance(invoices) + if row.state.Settled? then row.amountMsats else 0
    ensures multiset(PaidRows(invoices[i := row]))
         == multiset(PaidRows(invoices)) + if row.state.Settled? then multiset{row} else multiset{}
    decreases |invoices|
  {
    var front, after := invoices[..|invoices| - 1], invoices[i := row];
    if i == |front| {
      assert after[..|after| - 1] == front;
    } else {
      UpdateRow(front, i, row);
      assert after[..|after| - 1] == front[i := row];
    }
  }

  lemma SumPush(invoices: seq<Invoice>, row: Invoice)
    ensures Sum(invoices + [row]) == Sum(invoices) + row.amountMsats
  {
    assert (invoices + [row])[..|invoices|] == invoices;
  }

  lemma PushShape(invoices: seq<Invoice>, row: Invoice)
    requires DistinctHashes(invoices) && Stamped(invoices)
    requires !Known(invoices, row.hash) && row.state.Pending? && row.settledAt.None?
    ensures DistinctHashes(invoices + [row]) && Stamped(invoices + [row])
    ensures Seeded(invoices, row) == invoices + [row]
  {
  }

  lemma MintInv(s: Store, row: Invoice)
    requires Inv(s) && !Known(s.invoices, row.hash) && row.state.Pending? && row.settledAt.None?
    ensures Inv(s.(invoices := Seeded(s.invoices, row)))
  {
    PushShape(s.invoices, row);
    hide DistinctHashes, Stamped;
    var grown := s.invoices + [row];
    assert grown[..|grown| - 1] == s.invoices;
  }

  lemma UpdateShape(invoices: seq<Invoice>, i: nat, row: Invoice)
    requires DistinctHashes(invoices) && Stamped(invoices) && i < |invoices|
    requires row.hash == invoices[i].hash && (row.state.Settled? <==> row.settledAt.Some?)
    ensures DistinctHashes(invoices[i := row]) && Stamped(invoices[i := row])
  {
  }

  lemma SettleInv(s: Store, i: nat, paid: Invoice)
    requires Inv(s) && i < |s.invoices| && !s.invoices[i].state.Settled?
    requires paid.hash == s.invoices[i].hash && paid.state.Settled? && paid.settledAt.Some?
    ensures Inv(Store(s.invoices[i := paid], s.announced + [paid]))
  {
    UpdateShape(s.invoices, i, paid);
    hide Balance, Sum, PaidRows, DistinctHashes, Stamped;
    UpdateRow(s.invoices, i, paid);
    SumPush(s.announced, paid);
    assert multiset(s.announced + [paid]) == multiset(s.announced) + multiset{paid};
  }

  lemma ExpireInv(s: Store, i: nat, expired: Invoice)
    requires Inv(s) && i < |s.invoices| && !s.invoices[i].state.Settled?
    requires expired.hash == s.invoices[i].hash && expired.state.Expired? && expired.settledAt.None?
    ensures Inv(s.(invoices := s.invoices[i := expired]))
  {
    UpdateShape(s.invoices, i, expired);
    hide Balance, Sum, PaidRows, DistinctHashes, Stamped;
    UpdateRow(s.invoices, i, expired);
  }

  lemma ApplyInv(s: Store, op: Op)
    requires Inv(s) && Fresh(s, op)
    ensures Inv(Apply(s, op))
  {
    hide Accounted, DistinctHashes;
    match op
    case Mint(hash, amount, now, expiry) =>
      MintInv(s, New(hash, amount, now, expiry));
    case SettleOp(hash, now) =>
      var i := IndexOf(s.invoices, hash);
      if i < |s.invoices| && !s.invoices[i].state.Settled? {
        SettleInv(s, i, s.invoices[i].(state := Settled, settledAt := Some(now)));
      }
    case ExpireOp(hash) =>
      var i := IndexOf(s.invoices, hash);
      if i < |s.invoices| && !s.invoices[i].state.Settled? {
        ExpireInv(s, i, s.invoices[i].(state := Expired));
      }
  }

  lemma {:induction false} RunInv(s: Store, ops: seq<Op>)
    requires Inv(s) && FreshRun(s, ops)
    ensures Inv(Run(s, ops))
    decreases |ops|
  {
    if ops != [] {
      RunInv(s, ops[..|ops| - 1]);
      ApplyInv(Run(s, ops[..|ops| - 1]), ops[|ops| - 1]);
    }
  }

  /** From an empty wallet, after any run with fresh hashes: one event per settled invoice,
      raised with the row as it still stands, and the balance adds up. */
  lemma {:induction false} AnnouncedOnce(ops: seq<Op>)
    requires FreshRun(Store([], []), ops)
    ensures var s := Run(Store([], []), ops);
            && multiset(s.announced) == multiset(PaidRows(s.invoices))
            && Balance(s.invoices) == Sum(s.announced)
            && DistinctHashes(s.announced)
  {
    var s := Run(Store([], []), ops);
    RunInv(Store([], []), ops);
    PaidDistinct(s.invoices);
    DistinctPermuted(PaidRows(s.invoices), s.announced);
  }

  lemma {:induction false} PaidDistinct(invoices: seq<Invoice>)
    requires DistinctHashes(invoices)
    ensures DistinctHashes(PaidRows(invoices)) && forall r <- PaidRows(invoices) :: r in invoices
    decreases |invoices|
  {
    if invoices != [] {
      var front, last := invoices[..|invoices| - 1], invoices[|invoices| - 1];
      PaidDistinct(front);
      assert forall r <- PaidRows(front) :: r in front && r.hash != last.hash;
    }
  }

  lemma DistinctPermuted(a: seq<Invoice>, b: seq<Invoice>)
    requires DistinctHashes(a) && multiset(a) == multiset(b)
    ensures DistinctHashes(b)
  {
    forall i, j | 0 <= i < j < |b| ensures b[i].hash != b[j].hash {
      if b[i] == b[j] {
        assert b == b[..i] + [b[i]] + b[i + 1..j] + [b[j]] + b[j + 1..];
        assert multiset(b)[b[i]] >= 2;
        OneOf(a, b[i]);
      } else {
        assert b[i] in multiset(b) && b[j] in multiset(b);
        assert b[i] in a && b[j] in a;
      }
    }
  }

  lemma {:induction false} OneOf(a: seq<Invoice>, r: Invoice)
    requires DistinctHashes(a)
    ensures multiset(a)[r] <= 1
    decreases |a|
  {
    if a != [] {
      var front, last := a[..|a| - 1], a[|a| - 1];
      OneOf(front, r);
      assert a == front + [last];
      assert forall k :: 0 <= k < |front| ==> front[k] == a[k];
      assert last !in front && last !in multiset(front);
    }
  }

  // ----- a row tells its history --------------------------------------------------------------

  predicate Mints(op: Op, hash: string) { op.Mint? && op.hash == hash }

  predicate Settles(op: Op, hash: string) { op.SettleOp? && op.hash == hash }

  predicate Expires(op: Op, hash: string) { op.ExpireOp? && op.hash == hash }

  /** Operation `j` settles the hash, after operation `m` and before any other that does. */
  predicate FirstSettle(ops: seq<Op>, hash: string, m: int, j: int) {
    m < j < |ops| && 0 <= j && Settles(ops[j], hash) && forall i :: m < i < j && 0 <= i ==> !Settles(ops[i], hash)
  }

  predicate SettledSince(ops: seq<Op>, hash: string, m: nat) {
    exists j :: m < j < |ops| && Settles(ops[j], hash)
  }

  predicate ExpiredSince(ops: seq<Op>, hash: string, m: nat) {
    exists j :: m < j < |ops| && Expires(ops[j], hash)
  }

  /** The row is the one operation `m` minted: settled exactly when an operation named its hash since,
      at the time of the first of them; else expired exactly when an operation expired it since. */
  ghost predicate Tells(ops: seq<Op>, m: nat, row: Invoice) {
    && m < |ops| && ops[m].Mint?
    && Minted(row.(state := Pending, settledAt := None), ops[m].hash, ops[m].amountMsats, ops[m].now, ops[m].expirySeconds)
    && (row.state.Settled? <==> SettledSince(ops, row.hash, m))
    && (row.settledAt.Some? <==> row.state.Settled?)
    && (forall j :: FirstSettle(ops, row.hash, m, j) ==> row.settledAt == Some(ops[j].now))
    && (row.state.Expired? <==> !SettledSince(ops, row.hash, m) && ExpiredSince(ops, row.hash, m))
  }

  lemma SincePush(ops: seq<Op>, op: Op, hash: string, m: nat)
    requires m < |ops|
    ensures SettledSince(ops + [op], hash, m) <==> SettledSince(ops, hash, m) || Settles(op, hash)
    ensures ExpiredSince(ops + [op], hash, m) <==> ExpiredSince(ops, hash, m) || Expires(op, hash)
  {
    var all := ops + [op];
    assert all[|ops|] == op;
    if j :| m < j < |ops| && Settles(ops[j], hash) { assert Settles(all[j], hash); }
    if j :| m < j < |ops| && Expires(ops[j], hash) { assert Expires(all[j], hash); }
    if j :| m < j < |all| && Settles(all[j], hash) { assert j < |ops| ==> Settles(ops[j], hash); }
    if j :| m < j < |all| && Expires(all[j], hash) { assert j < |ops| ==> Expires(ops[j], hash); }
  }

  lemma FirstPush(ops: seq<Op>, op: Op, hash: string, m: nat, j: int)
    requires m < |ops| && FirstSettle(ops + [op], hash, m, j)
    ensures if j < |ops| then FirstSettle(ops, hash, m, j) && (ops + [op])[j] == ops[j]
            else j == |ops| && Settles(op, hash) && !SettledSince(ops, hash, m)
  {
    var all := ops + [op];
    if j < |ops| {
      forall i | m < i < j && 0 <= i ensures !Settles(ops[i], hash) { assert all[i] == ops[i]; }
    } else {
      forall i | m < i < |ops| ensures !Settles(ops[i], hash) { assert all[i] == ops[i]; }
    }
  }

  lemma FirstIs(ops: seq<Op>, hash: string, m: int, j: int)
    requires FirstSettle(ops, hash, m, j)
    ensures m < j < |ops| && 0 <= j && Settles(ops[j], hash)
  {
  }

  lemma FirstSince(ops: seq<Op>, hash: string, m: nat, j: int)
    requires FirstSettle(ops, hash, m, j)
    ensures SettledSince(ops, hash, m)
  {
  }

  /** One operation's effect on one row. */
  function Touched(row: Invoice, op: Op): Invoice {
    if Settles(op, row.hash) && !row.state.Settled? then row.(state := Settled, settledAt := Some(op.now))
    else if Expires(op, row.hash) && !row.state.Settled? then row.(state := Expired)
    else row
  }

  /** A row told by the operations so far, after one more. */
  lemma TellsPush(ops: seq<Op>, op: Op, m: nat, row: Invoice, after: Invoice)
    requires Tells(ops, m, row) && after == Touched(row, op)
    ensures Tells(ops + [op], m, after)
  {
    hide SettledSince, ExpiredSince, Minted, FirstSettle;
    SincePush(ops, op, row.hash, m);
    assert (ops + [op])[m] == ops[m];
    assert after.(state := Pending, settledAt := None) == row.(state := Pending, settledAt := None);
    forall j | FirstSettle(ops + [op], row.hash, m, j)
      ensures 0 <= j < |ops| + 1 && (ops + [op])[j].SettleOp? && after.settledAt == Some((ops + [op])[j].now)
    {
      FirstIs(ops + [op], row.hash, m, j);
      FirstPush(ops, op, row.hash, m, j);
      if j < |ops| { FirstIs(ops, row.hash, m, j); FirstSince(ops, row.hash, m, j); }
    }
  }

  lemma TellsNew(ops: seq<Op>, op: Op)
    requires op.Mint?
    ensures Tells(ops + [op], |ops|, New(op.hash, op.amountMsats, op.now, op.expirySeconds))
  {
    assert (ops + [op])[|ops|] == op;
  }

  /** What the last operation makes of a row. */
  lemma RowAfter(s: Store, op: Op, i: nat)
    requires Inv(s) && Fresh(s, op) && i < |Apply(s, op).invoices|
    ensures var after := Apply(s, op).invoices[i];
            if i == |s.invoices| then op.Mint? && after == New(op.hash, op.amountMsats, op.now, op.expirySeconds)
            else i < |s.invoices| && after == Touched(s.invoices[i], op)
  {
    match op
    case Mint(hash, amount, now, expiry) => MintedLast(s.invoices, New(hash, amount, now, expiry));
    case SettleOp(hash, now) => SettleRow(s, hash, now, i);
    case ExpireOp(hash) => ExpireRow(s, hash, i);
  }

  lemma SettleRow(s: Store, hash: string, now: int, i: nat)
    requires DistinctHashes(s.invoices) && i < |Settle(s, hash, now).invoices|
    ensures i < |s.invoices| && Settle(s, hash, now).invoices[i] == Touched(s.invoices[i], SettleOp(hash, now))
  {
  }

  lemma ExpireRow(s: Store, hash: string, i: nat)
    requires DistinctHashes(s.invoices) && i < |Expire(s, hash).invoices|
    ensures i < |s.invoices| && Expire(s, hash).invoices[i] == Touched(s.invoices[i], ExpireOp(hash))
  {
  }

  lemma MintedLast(invoices: seq<Invoice>, row: Invoice)
    requires !Known(invoices, row.hash)
    ensures Seeded(invoices, row) == invoices + [row]
  {
  }

  /** After any run from an empty wallet, every row tells its own history. */
  lemma {:induction false} RowTold(ops: seq<Op>, i: nat) returns (m: nat)
    requires FreshRun(Store([], []), ops) && i < |Run(Store([], []), ops).invoices|
    ensures Tells(ops, m, Run(Store([], []), ops).invoices[i])
    decreases |ops|
  {
    hide Apply, Inv, Tells;
    var n := |ops| - 1;
    var front, op := ops[..n], ops[n];
    var s := Run(Store([], []), front);
    EmptyInv();
    RunInv(Store([], []), front);
    RowAfter(s, op, i);
    assert ops == front + [op];
    if i == |s.invoices| {
      m := n;
      TellsNew(front, op);
    } else {
      m := RowTold(front, i);
      TellsPush(front, op, m, s.invoices[i], Run(Store([], []), ops).invoices[i]);
    }
  }

  lemma EmptyInv()
    ensures Inv(Store([], []))
  {
  }

  /** And every invoice minted has its row. */
  lemma {:induction false} MintKept(ops: seq<Op>, m: nat)
    requires FreshRun(Store([], []), ops) && m < |ops| && ops[m].Mint?
    ensures Known(Run(Store([], []), ops).invoices, ops[m].hash)
    decreases |ops|
  {
    hide FreshRun;
    PrefixFresh(Store([], []), ops, m);
    PrefixFresh(Store([], []), ops, m + 1);
    var before := Run(Store([], []), ops[..m]);
    assert ops[..m + 1][..m] == ops[..m];
    var row := New(ops[m].hash, ops[m].amountMsats, ops[m].now, ops[m].expirySeconds);
    MintedLast(before.invoices, row);
    assert Run(Store([], []), ops[..m + 1]).invoices == before.invoices + [row];
    GrowsBetween(Store([], []), ops, m + 1, |ops|);
    assert ops[..|ops|] == ops;
    assert Later((before.invoices + [row])[|before.invoices|], Run(Store([], []), ops).invoices[|before.invoices|]);
  }

  // ----- what a row can become ---------------------------------------------------------------

  function Stage(state: InvoiceState): nat {
    match state
    case Pending => 0
    case Expired => 1
    case Settled => 2
  }

  /** `after` is `before` later on: same invoice, never an earlier stage, and a settled row
      untouched. */
  predicate Later(before: Invoice, after: Invoice) {
    && after == before.(state := after.state, settledAt := after.settledAt)
    && Stage(before.state) <= Stage(after.state)
    && (before.state.Settled? ==> after == before)
  }

  /** Rows keep their place; new ones come last. */
  predicate Grows(before: seq<Invoice>, after: seq<Invoice>) {
    |before| <= |after| && forall i :: 0 <= i < |before| ==> Later(before[i], after[i])
  }

  lemma ApplyGrows(s: Store, op: Op)
    requires Fresh(s, op)
    ensures Grows(s.invoices, Apply(s, op).invoices)
  {
  }

  lemma {:induction false} RunGrows(s: Store, ops: seq<Op>)
    requires FreshRun(s, ops)
    ensures Grows(s.invoices, Run(s, ops).invoices)
    decreases |ops|
  {
    if ops != [] {
      RunGrows(s, ops[..|ops| - 1]);
      ApplyGrows(Run(s, ops[..|ops| - 1]), ops[|ops| - 1]);
    }
  }

  lemma {:induction false} PrefixFresh(s: Store, ops: seq<Op>, n: nat)
    requires FreshRun(s, ops) && n <= |ops|
    ensures FreshRun(s, ops[..n]) && (n < |ops| ==> Fresh(Run(s, ops[..n]), ops[n]))
    decreases |ops|
  {
    if n == |ops| {
      assert ops[..n] == ops;
    } else if n < |ops| - 1 {
      var front := ops[..|ops| - 1];
      PrefixFresh(s, front, n);
      assert front[..n] == ops[..n];
    }
  }

  /** Within one run, the list only grows from any moment to any later one. */
  lemma {:induction false} GrowsBetween(s: Store, ops: seq<Op>, a: nat, b: nat)
    requires FreshRun(s, ops) && a <= b <= |ops|
    ensures Grows(Run(s, ops[..a]).invoices, Run(s, ops[..b]).invoices)
    decreases b
  {
    if a < b {
      GrowsBetween(s, ops, a, b - 1);
      PrefixFresh(s, ops, b - 1);
      assert ops[..b][..b - 1] == ops[..b - 1];
      ApplyGrows(Run(s, ops[..b - 1]), ops[b - 1]);
    }
  }

  /** A reported state only moves forward: pending, expired, settled. */
  lemma ReportedForward(s: Store, ops: seq<Op>, i: nat, before: int, after: int)
    requires FreshRun(s, ops) && i < |s.invoices| && before <= after
    ensures i < |Run(s, ops).invoices|
    ensures var now, then' := Lazily(Run(s, ops).invoices[i], after), Lazily(s.invoices[i], before);
            && Stage(then'.state) <= Stage(now.state)
            && (then'.state.Settled? ==> now == then')
  {
    RunGrows(s, ops);
    assert Later(s.invoices[i], Run(s, ops).invoices[i]);
  }
}
