/** The plugin's scan of the wallet's history (`WalletScan.cs`) against the test wallet of
    `WalletStore` and `WalletListing`. Payment hashes are in normal form, and each page of a walk is
    answered from the store as it stands at that moment. */
module WalletScan {
  import opened Text
  import opened WalletStore
  import opened WalletListing

  const PAGE_LIMIT: int := 20

  /** One walk: its window and view, the readings its pages are answered from, as many as the page
      cap, and the hashes of rows the client cannot use. */
  datatype Scan = Scan(o: Options, from: int, until: int, unpaid: bool, readings: seq<Reading>, dropped: set<string>)

  function RequestOf(w: Scan): Request {
    Request(Some(PAGE_LIMIT), None, Some(w.from), Some(w.until), if w.unpaid then Some(true) else None, false)
  }

  /** The answer to the walk's request at this offset. */
  function Answered(w: Scan, k: nat, offset: nat): seq<Row>
    requires k < |w.readings|
  {
    ListTransactions(w.readings[k].invoices, w.o, RequestOf(w).(offset := Some(offset)), w.readings[k].clock)
  }

  function PageOf(w: Scan, k: nat): seq<Row>
    requires k < |w.readings|
  {
    PageAt(w.o, RequestOf(w), w.readings, k)
  }

  /** The transactions of a page the client can use. */
  function Usable(page: seq<Row>, dropped: set<string>): seq<Invoice> {
    if page == [] then []
    else
      var last := page[|page| - 1].invoice;
      Usable(page[..|page| - 1], dropped) + if last.hash in dropped then [] else [last]
  }

  /** A settled row is never overwritten. */
  function Recorded(found: map<string, Invoice>, row: Invoice): map<string, Invoice> {
    if row.hash in found && found[row.hash].state.Settled? then found else found[row.hash := row]
  }

  function RecordedAll(found: map<string, Invoice>, rows: seq<Invoice>): map<string, Invoice> {
    if rows == [] then found else Recorded(RecordedAll(found, rows[..|rows| - 1]), rows[|rows| - 1])
  }

  /** What the first `k` pages have shown. */
  function Collected(w: Scan, k: nat): map<string, Invoice>
    requires k <= |w.readings|
  {
    if k == 0 then map[] else RecordedAll(Collected(w, k - 1), Usable(PageOf(w, k - 1), w.dropped))
  }

  function Hashes(rows: seq<Invoice>): seq<string> {
    seq(|rows|, i requires 0 <= i < |rows| => rows[i].hash)
  }

  function PageKey(rows: seq<Invoice>): string {
    if rows == [] then "" else Join(Hashes(rows), ",")
  }

  predicate AllSeen(expected: Option<set<string>>, found: map<string, Invoice>) {
    expected.Some? && expected.value <= found.Keys
  }

  /** How many pages the walk reads from page `k` on, counting those before, and whether it ends
      unproven: by the page cap or a repeated page, not by having seen everything or an empty page. */
  function Ends(w: Scan, expected: Option<set<string>>, k: nat): (r: (nat, bool))
    requires k <= |w.readings|
    ensures k <= r.0 <= |w.readings|
    decreases |w.readings| - k
  {
    if k == |w.readings| then (k, true)
    else if AllSeen(expected, Collected(w, k + 1)) || PageOf(w, k) == [] then (k + 1, false)
    else if k > 0 && PageKey(Usable(PageOf(w, k), w.dropped)) == PageKey(Usable(PageOf(w, k - 1), w.dropped)) then (k + 1, true)
    else Ends(w, expected, k + 1)
  }

  datatype WalletWalk = WalletWalk(found: map<string, Invoice>, truncated: bool, pages: nat)

  function Walked(w: Scan, expected: Option<set<string>>): WalletWalk {
    var (pages, truncated) := Ends(w, expected, 0);
    WalletWalk(Collected(w, pages), truncated, pages)
  }

  /** The rows of one page, as the client takes them in. */
  method RecordPage(page: seq<Row>, dropped: set<string>, before: map<string, Invoice>)
    returns (found: map<string, Invoice>, seen: seq<Invoice>)
    ensures seen == Usable(page, dropped) && found == RecordedAll(before, seen)
  {
    NothingRecorded(before, dropped);
    hide Usable, RecordedAll, Recorded;
    found, seen := before, [];
    assert page[..0] == [];
    for i := 0 to |page|
      invariant seen == Usable(page[..i], dropped) && found == RecordedAll(before, seen)
    {
      UsableNext(page, i, dropped);
      var row := page[i].invoice;
      if row.hash in dropped { continue; }
      RecordedNext(before, seen, row);
      found, seen := Recorded(found, row), seen + [row];
    }
    assert page[..|page|] == page;
  }

  lemma NothingRecorded(before: map<string, Invoice>, dropped: set<string>)
    ensures Usable([], dropped) == [] && RecordedAll(before, []) == before
  {
  }

  lemma UsableNext(page: seq<Row>, i: nat, dropped: set<string>)
    requires i < |page|
    ensures var row := page[i].invoice;
            Usable(page[..i + 1], dropped) == if row.hash in dropped then Usable(page[..i], dropped) else Usable(page[..i], dropped) + [row]
  {
    assert page[..i + 1][..i] == page[..i];
  }

  lemma RecordedNext(before: map<string, Invoice>, seen: seq<Invoice>, row: Invoice)
    ensures RecordedAll(before, seen + [row]) == Recorded(RecordedAll(before, seen), row)
  {
    assert (seen + [row])[..|seen|] == seen;
  }

  /** The loop's variables before a page is asked for. */
  datatype Loop = Loop(pages: nat, found: map<string, Invoice>, offset: nat, previous: Option<string>)

  ghost predicate InWalk(w: Scan, expected: Option<set<string>>, l: Loop) {
    && l.pages <= |w.readings| && l.found == Collected(w, l.pages)
    && l.offset == OffsetAt(w.o, RequestOf(w), w.readings, l.pages)
    && l.previous == (if l.pages == 0 then None else Some(PageKey(Usable(PageOf(w, l.pages - 1), w.dropped))))
    && Ends(w, expected, 0) == Ends(w, expected, l.pages)
  }

  lemma WalkStart(w: Scan, expected: Option<set<string>>)
    ensures InWalk(w, expected, Loop(0, map[], 0, None))
  {
  }

  lemma WalkCap(w: Scan, expected: Option<set<string>>, l: Loop)
    requires InWalk(w, expected, l) && l.pages == |w.readings|
    ensures Walked(w, expected) == WalletWalk(l.found, true, l.pages)
  {
  }

  /** What one page makes of the loop: the end of the walk, or the next turn. */
  datatype Turn = Done(walk: WalletWalk) | More(next: Loop)

  function TurnOf(w: Scan, expected: Option<set<string>>, l: Loop): Turn
    requires l.pages < |w.readings|
  {
    var page := Answered(w, l.pages, l.offset);
    var seen := Usable(page, w.dropped);
    var found := RecordedAll(l.found, seen);
    if AllSeen(expected, found) || |page| == 0 then Done(WalletWalk(found, false, l.pages + 1))
    else if Some(PageKey(seen)) == l.previous then Done(WalletWalk(found, true, l.pages + 1))
    else More(Loop(l.pages + 1, found, l.offset + |page|, Some(PageKey(seen))))
  }

  lemma WalkStep(w: Scan, expected: Option<set<string>>, k: nat)
    requires k < |w.readings|
    ensures var r := RequestOf(w);
            && PageOf(w, k) == ListTransactions(w.readings[k].invoices, w.o, r.(offset := Some(OffsetAt(w.o, r, w.readings, k))), w.readings[k].clock)
            && OffsetAt(w.o, r, w.readings, k + 1) == OffsetAt(w.o, r, w.readings, k) + |PageOf(w, k)|
    ensures Collected(w, k + 1) == RecordedAll(Collected(w, k), Usable(PageOf(w, k), w.dropped))
    ensures Ends(w, expected, k)
         == if AllSeen(expected, Collected(w, k + 1)) || PageOf(w, k) == [] then (k + 1, false)
            else if k > 0 && PageKey(Usable(PageOf(w, k), w.dropped)) == PageKey(Usable(PageOf(w, k - 1), w.dropped)) then (k + 1, true)
            else Ends(w, expected, k + 1)
  {
    hide ListTransactions, RecordedAll, Usable;
  }

  lemma WalkNext(w: Scan, expected: Option<set<string>>, l: Loop)
    requires InWalk(w, expected, l) && l.pages < |w.readings|
    ensures match TurnOf(w, expected, l)
            case Done(walk) => Walked(w, expected) == walk
            case More(next) => InWalk(w, expected, next) && next.pages == l.pages + 1
  {
    hide Ends, Collected, PageOf, Usable, PageKey, AllSeen, RequestOf, RecordedAll, ListTransactions;
    WalkStep(w, expected, l.pages);
  }

  method TakePage(w: Scan, expected: Option<set<string>>, l: Loop) returns (t: Turn)
    requires l.pages < |w.readings|
    ensures t == TurnOf(w, expected, l)
  {
    hide Usable, PageKey, AllSeen, Answered, RecordedAll;
    var page := Answered(w, l.pages, l.offset);
    var found, seen := RecordPage(page, w.dropped, l.found);
    if AllSeen(expected, found) || |page| == 0 { return Done(WalletWalk(found, false, l.pages + 1)); }
    var key := PageKey(seen);
    if Some(key) == l.previous { return Done(WalletWalk(found, true, l.pages + 1)); }
    return More(Loop(l.pages + 1, found, l.offset + |page|, Some(key)));
  }

  /** `None` for a page cap below one. */
  method WalkAsync(w: Scan, expected: Option<set<string>>) returns (r: Option<WalletWalk>)
    ensures r == if w.readings == [] then None else Some(Walked(w, expected))
  {
    if w.readings == [] { return None; }
    hide *;
    var l := Loop(0, map[], 0, None);
    WalkStart(w, expected);
    while l.pages < |w.readings|
      invariant l.pages <= |w.readings| && InWalk(w, expected, l)
      decreases |w.readings| - l.pages
    {
      WalkNext(w, expected, l);
      var turn := TakePage(w, expected, l);
      if turn.Done? { return Some(turn.walk); }
      l := turn.next;
    }
    WalkCap(w, expected, l);
    return Some(WalletWalk(l.found, true, l.pages));
  }

  // ----- what a walk shows --------------------------------------------------------------------

  predicate On(page: seq<Row>, row: Invoice) { exists i :: 0 <= i < |page| && page[i].invoice == row }

  predicate Shown(w: Scan, k: nat, row: Invoice)
    requires k <= |w.readings|
  {
    exists i :: 0 <= i < k && On(PageOf(w, i), row)
  }

  lemma OnPush(page: seq<Row>, last: Row, row: Invoice)
    ensures On(page + [last], row) <==> On(page, row) || last.invoice == row
  {
    assert (page + [last])[|page|] == last;
    if i :| 0 <= i < |page| && page[i].invoice == row { assert (page + [last])[i].invoice == row; }
  }

  lemma {:induction false} UsableRows(page: seq<Row>, dropped: set<string>, row: Invoice)
    ensures row in Usable(page, dropped) <==> row.hash !in dropped && On(page, row)
  {
    if page != [] {
      var front, last := page[..|page| - 1], page[|page| - 1];
      UsableRows(front, dropped, row);
      OnPush(front, last, row);
      assert page == front + [last];
    }
  }

  lemma {:induction false} RecordedKeys(found: map<string, Invoice>, rows: seq<Invoice>, hash: string)
    requires hash in found ==> found[hash].hash == hash
    ensures var after := RecordedAll(found, rows);
            && (hash in after <==> hash in found || exists i :: 0 <= i < |rows| && rows[i].hash == hash)
            && (hash in after ==> after[hash].hash == hash && ((hash in found && after[hash] == found[hash]) || after[hash] in rows))
  {
    if rows != [] {
      var front, last := rows[..|rows| - 1], rows[|rows| - 1];
      RecordedKeys(found, front, hash);
      assert rows == front + [last];
    }
  }

  /** A hash is found exactly when a usable row of it was shown, and what is found for it is such a
      row. */
  lemma {:induction false} CollectedRows(w: Scan, k: nat, hash: string)
    requires k <= |w.readings|
    ensures hash in Collected(w, k) <==> hash !in w.dropped && exists row: Invoice :: row.hash == hash && Shown(w, k, row)
    ensures hash in Collected(w, k) ==> Collected(w, k)[hash].hash == hash && Shown(w, k, Collected(w, k)[hash])
  {
    hide RecordedAll, Usable, PageOf, Shown, On;
    if k > 0 {
      CollectedRows(w, k - 1, hash);
      var rows := Usable(PageOf(w, k - 1), w.dropped);
      RecordedKeys(Collected(w, k - 1), rows, hash);
      forall row: Invoice ensures Shown(w, k, row) <==> Shown(w, k - 1, row) || On(PageOf(w, k - 1), row) {
        ShownNext(w, k - 1, row);
      }
      forall row: Invoice ensures row in rows <==> row.hash !in w.dropped && On(PageOf(w, k - 1), row) {
        UsableRows(PageOf(w, k - 1), w.dropped, row);
      }
    } else {
      forall row: Invoice ensures !Shown(w, 0, row) { NoneShown(w, row); }
    }
  }

  lemma NoneShown(w: Scan, row: Invoice)
    ensures !Shown(w, 0, row)
  {
  }

  lemma ShownNext(w: Scan, k: nat, row: Invoice)
    requires k < |w.readings|
    ensures Shown(w, k + 1, row) <==> Shown(w, k, row) || On(PageOf(w, k), row)
  {
    hide PageOf, On;
  }

  /** A walk that is not truncated has seen all it expected or has come to an empty page. */
  lemma {:induction false} EndsWhy(w: Scan, expected: Option<set<string>>, k: nat)
    requires k <= |w.readings|
    ensures var (pages, truncated) := Ends(w, expected, k);
            !truncated ==> AllSeen(expected, Collected(w, pages)) || (pages > 0 && PageOf(w, pages - 1) == [])
    decreases |w.readings| - k
  {
    hide Collected, PageOf, PageKey, Usable;
    if k < |w.readings| && Ends(w, expected, k) == Ends(w, expected, k + 1) { EndsWhy(w, expected, k + 1); }
  }

  // ----- what a walk does, page by page ---------------------------------------------------------

  /** The client keeps every row it can use, in the order served. */
  lemma {:induction false} UsableJoined(a: seq<Row>, b: seq<Row>, dropped: set<string>)
    ensures Usable(a + b, dropped) == Usable(a, dropped) + Usable(b, dropped)
    decreases |b|
  {
    if b == [] {
      assert a + b == a;
    } else {
      var front, last := b[..|b| - 1], b[|b| - 1];
      UsableJoined(a, front, dropped);
      assert (a + b)[..|a + b| - 1] == a + front && (a + b)[|a + b| - 1] == last;
      Regroup(Usable(a, dropped), Usable(front, dropped), if last.invoice.hash in dropped then [] else [last.invoice], []);
    }
  }

  lemma {:induction false} UsableAll(page: seq<Row>)
    ensures |Usable(page, {})| == |page| && forall i :: 0 <= i < |page| ==> Usable(page, {})[i] == page[i].invoice
  {
    if page != [] { UsableAll(page[..|page| - 1]); }
  }

  /** The row kept for its hash: the first settled one, or the last of all when none is settled. */
  predicate Chosen(rows: seq<Invoice>, i: int) {
    0 <= i < |rows| &&
    if rows[i].state.Settled? then forall j :: 0 <= j < i && rows[j].hash == rows[i].hash ==> !rows[j].state.Settled?
    else forall j :: 0 <= j < |rows| && rows[j].hash == rows[i].hash ==> j <= i && !rows[j].state.Settled?
  }

  ghost predicate Kept(rows: seq<Invoice>, found: map<string, Invoice>) {
    forall hash :: if hash in found then exists i :: 0 <= i < |rows| && Chosen(rows, i) && rows[i].hash == hash && found[hash] == rows[i]
                   else forall i :: 0 <= i < |rows| ==> rows[i].hash != hash
  }

  lemma ChosenPush(front: seq<Invoice>, last: Invoice, i: int)
    requires Chosen(front, i) && (front[i].state.Settled? || last.hash != front[i].hash)
    ensures Chosen(front + [last], i)
  {
    var all := front + [last];
    assert all[|front|] == last && all[i] == front[i];
    assert forall k :: 0 <= k < |front| ==> all[k] == front[k];
  }

  lemma ChosenLast(front: seq<Invoice>, last: Invoice)
    requires forall j :: 0 <= j < |front| && front[j].hash == last.hash ==> !front[j].state.Settled?
    ensures Chosen(front + [last], |front|)
  {
    var all := front + [last];
    assert all[|front|] == last;
    assert forall k :: 0 <= k < |front| ==> all[k] == front[k];
  }

  lemma KeptOpen(front: seq<Invoice>, found: map<string, Invoice>, hash: string)
    requires Kept(front, found) && (hash in found ==> !found[hash].state.Settled?)
    ensures forall j :: 0 <= j < |front| && front[j].hash == hash ==> !front[j].state.Settled?
  {
  }

  lemma {:induction false} RecordedKept(rows: seq<Invoice>)
    ensures Kept(rows, RecordedAll(map[], rows))
  {
    if rows != [] {
      var front, last := rows[..|rows| - 1], rows[|rows| - 1];
      RecordedKept(front);
      KeptPush(front, last, RecordedAll(map[], front));
      assert rows == front + [last];
    }
  }

  lemma KeptPush(front: seq<Invoice>, last: Invoice, found: map<string, Invoice>)
    requires Kept(front, found)
    ensures Kept(front + [last], Recorded(found, last))
  {
    hide Chosen;
    var after, all := Recorded(found, last), front + [last];
    assert all[|front|] == last;
    forall hash ensures if hash in after then exists i :: 0 <= i < |all| && Chosen(all, i) && all[i].hash == hash && after[hash] == all[i]
                        else forall i :: 0 <= i < |all| ==> all[i].hash != hash
    {
      if hash == last.hash && !(hash in found && found[hash].state.Settled?) {
        KeptOpen(front, found, hash);
        ChosenLast(front, last);
        assert Chosen(all, |front|);
      } else if hash in found {
        var i :| 0 <= i < |front| && Chosen(front, i) && front[i].hash == hash && found[hash] == front[i];
        ChosenPush(front, last, i);
        assert all[i] == front[i];
      }
    }
  }

  /** Every usable row of the first `k` pages, in order. */
  function ShownRows(w: Scan, k: nat): seq<Invoice>
    requires k <= |w.readings|
  {
    if k == 0 then [] else ShownRows(w, k - 1) + Usable(PageOf(w, k - 1), w.dropped)
  }

  lemma {:induction false} RecordedJoined(found: map<string, Invoice>, a: seq<Invoice>, b: seq<Invoice>)
    ensures RecordedAll(found, a + b) == RecordedAll(RecordedAll(found, a), b)
    decreases |b|
  {
    if b == [] {
      assert a + b == a;
    } else {
      RecordedJoined(found, a, b[..|b| - 1]);
      assert (a + b)[..|a + b| - 1] == a + b[..|b| - 1];
    }
  }

  /** Over any pages, a walk keeps for each hash it was shown the first settled row, or the last row
      when none is settled. */
  lemma {:induction false} CollectedKept(w: Scan, k: nat)
    requires k <= |w.readings|
    ensures Kept(ShownRows(w, k), Collected(w, k))
  {
    hide Kept;
    CollectedIs(w, k);
    RecordedKept(ShownRows(w, k));
  }

  lemma {:induction false} CollectedIs(w: Scan, k: nat)
    requires k <= |w.readings|
    ensures Collected(w, k) == RecordedAll(map[], ShownRows(w, k))
  {
    hide PageOf, Usable;
    if k > 0 {
      CollectedIs(w, k - 1);
      RecordedJoined(map[], ShownRows(w, k - 1), Usable(PageOf(w, k - 1), w.dropped));
    }
  }

  /** A page asks for what the window and the view say, and for no more than the protocol's limit. */
  lemma PageRows(w: Scan, k: nat, x: Row)
    requires k < |w.readings| && x in PageOf(w, k)
    ensures x.index < |w.readings[k].invoices| && ShownAt(w.readings[k].invoices[x.index], w.readings[k].clock(x.index), x.invoice)
    ensures w.from <= x.invoice.createdAt <= w.until && (w.unpaid || x.invoice.state.Settled?)
    ensures |PageOf(w, k)| <= 20
  {
    hide PageAt, ListIncoming;
    PageShows(w, k, x);
    PageSize(w, k);
  }

  lemma PageSize(w: Scan, k: nat)
    requires k < |w.readings|
    ensures |PageOf(w, k)| <= 20
  {
    hide ListIncoming, OffsetAt, ToInt32;
    var r := RequestOf(w).(offset := Some(OffsetAt(w.o, RequestOf(w), w.readings, k)));
    LimitTwenty(w.o, r);
  }

  lemma LimitTwenty(o: Options, r: Request)
    requires r.limit == Some(20)
    ensures EffectiveLimit(o, r) == if o.pageLimitCap < 20 then o.pageLimitCap else 20
  {
  }

  /** Hashes that a list joined by commas keeps apart. */
  predicate Plain(hash: string) { hash != "" && ',' !in hash }

  lemma {:induction false} KeyTells(a: seq<Invoice>, b: seq<Invoice>)
    requires forall r <- a + b :: Plain(r.hash)
    ensures PageKey(a) == PageKey(b) <==> Hashes(a) == Hashes(b)
  {
    KeyHashes(a);
    KeyHashes(b);
    assert forall r <- a :: r in a + b;
    assert forall r <- b :: r in a + b;
    if a != [] { assert a[0] in a + b; KeySplits(a); }
    if b != [] { assert b[0] in a + b; KeySplits(b); }
  }

  lemma KeyHashes(a: seq<Invoice>)
    ensures |Hashes(a)| == |a| && (a == [] <==> Hashes(a) == [])
  {
  }

  lemma KeySplits(a: seq<Invoice>)
    requires a != [] && forall r <- a :: Plain(r.hash)
    ensures PageKey(a) != "" && Split(PageKey(a), ",") == Hashes(a)
  {
    var hashes := Hashes(a);
    assert hashes[0] != "" && forall h <- hashes :: ',' !in h;
    SplitOfJoin(hashes, ',');
    JoinFilled(hashes);
  }

  lemma JoinFilled(parts: seq<string>)
    requires parts != [] && parts[0] != ""
    ensures Join(parts, ",") != ""
  {
  }

  /** Page `k` settles the question: every expected hash has been seen, or the wallet has no more
      rows. */
  predicate Proves(w: Scan, expected: Option<set<string>>, k: nat)
    requires k < |w.readings|
  {
    || PageOf(w, k) == []
    || (expected.Some? && forall hash <- expected.value :: hash in Collected(w, k + 1))
  }

  /** Page `k` shows the same hashes as the one before it. */
  predicate Repeats(w: Scan, k: nat)
    requires k < |w.readings|
  {
    k > 0 && Hashes(Usable(PageOf(w, k), w.dropped)) == Hashes(Usable(PageOf(w, k - 1), w.dropped))
  }

  predicate PlainPages(w: Scan) {
    forall k :: 0 <= k < |w.readings| ==> forall r <- Usable(PageOf(w, k), w.dropped) :: Plain(r.hash)
  }

  lemma {:induction false} EndsAt(w: Scan, expected: Option<set<string>>, k: nat)
    requires k <= |w.readings| && PlainPages(w)
    ensures var (pages, truncated) := Ends(w, expected, k);
            && (forall j :: k <= j < pages - 1 ==> !Proves(w, expected, j) && !Repeats(w, j))
            && (k < pages < |w.readings| ==> Proves(w, expected, pages - 1) || Repeats(w, pages - 1))
            && (k < pages ==> (truncated <==> !Proves(w, expected, pages - 1)))
            && (k == pages ==> truncated && k == |w.readings|)
    decreases |w.readings| - k
  {
    hide Collected, PageOf, PageKey, Usable;
    if k < |w.readings| {
      if k > 0 { KeyTells(Usable(PageOf(w, k), w.dropped), Usable(PageOf(w, k - 1), w.dropped)); }
      if Ends(w, expected, k) == Ends(w, expected, k + 1) { EndsAt(w, expected, k + 1); }
    }
  }

  /** A walk reads on until a page settles the question or repeats the one before it, or the page cap
      is reached; it is truncated exactly when its last page settles nothing; and what it has found is
      what the pages it read have shown. */
  lemma WalkExactly(w: Scan, expected: Option<set<string>>)
    requires w.readings != [] && PlainPages(w)
    ensures var r := Walked(w, expected);
            && 0 < r.pages <= |w.readings|
            && (forall j :: 0 <= j < r.pages - 1 ==> !Proves(w, expected, j) && !Repeats(w, j))
            && (r.pages < |w.readings| ==> Proves(w, expected, r.pages - 1) || Repeats(w, r.pages - 1))
            && (r.truncated <==> !Proves(w, expected, r.pages - 1))
            && Kept(ShownRows(w, r.pages), r.found)
  {
    hide Proves, Repeats, PlainPages, Collected, Kept, PageOf;
    EndsAt(w, expected, 0);
    CollectedKept(w, Walked(w, expected).pages);
  }

  // ----- a scan of a quiet wallet ---------------------------------------------------------------

  /** Nothing happens during the walk, every row is usable, the wallet honours offsets and serves at
      least one row a page, and the page cap leaves room for one row a page. */
  ghost predicate Quiet(w: Scan) {
    && w.readings != [] && (forall k :: 0 <= k < |w.readings| ==> w.readings[k] == w.readings[0])
    && Small(w.readings) && DistinctHashes(w.readings[0].invoices) && w.dropped == {}
    && (forall i :: 0 <= i < |w.readings[0].invoices| ==> Plain(w.readings[0].invoices[i].hash))
    && !w.o.dropOffset && w.o.pageLimitCap >= 1
    && |FullAt(RequestOf(w), w.readings, 0)| < |w.readings|
  }

  lemma QuietEvolves(w: Scan)
    requires Quiet(w)
    ensures Evolving(w.readings)
  {
  }

  lemma QuietRows(w: Scan)
    requires Quiet(w)
    ensures var full := FullAt(RequestOf(w), w.readings, 0);
            && (forall row <- full :: Plain(row.invoice.hash))
            && (forall a, b :: 0 <= a < b < |full| ==> full[a].invoice.hash != full[b].invoice.hash)
  {
    hide ListIncoming, RequestOf;
    var f, start := FilterOf(RequestOf(w)), w.readings[0];
    ListingRows(start.invoices, f, start.clock, |start.invoices|);
    Whole(start, f);
    var full := FullAt(RequestOf(w), w.readings, 0);
    forall a, b | 0 <= a < b < |full| ensures full[a].invoice.hash != full[b].invoice.hash {
      assert full[a] in full && full[b] in full;
    }
  }

  /** Page `k` is the listing's next stretch. */
  lemma QuietPage(w: Scan, k: nat)
    requires Quiet(w) && k < |w.readings|
    ensures var full, offset := FullAt(RequestOf(w), w.readings, 0), OffsetAt(w.o, RequestOf(w), w.readings, k);
            && offset + |PageOf(w, k)| <= |full| && (PageOf(w, k) == [] ==> offset == |full|)
            && forall i :: 0 <= i < |PageOf(w, k)| ==> PageOf(w, k)[i] == full[offset + i]
  {
    hide PageAt, ListIncoming, Quiet, Page;
    var r := RequestOf(w);
    QuietEvolves(w);
    QuietBasics(w, k);
    PagesConcatenate(w.o, r, w.readings, k + 1);
    OffsetSmall(w.o, r, w.readings, k);
    PageIs(w.o, r, w.readings, k);
    Stretch(FullAt(r, w.readings, k), OffsetAt(w.o, r, w.readings, k), EffectiveLimit(w.o, r));
  }

  lemma QuietBasics(w: Scan, k: nat)
    requires Quiet(w) && k < |w.readings|
    ensures !w.o.dropOffset && EffectiveLimit(w.o, RequestOf(w)) >= 1
    ensures forall i :: 0 <= i < |w.readings| ==> w.readings[i] == w.readings[0]
    ensures FullAt(RequestOf(w), w.readings, k) == FullAt(RequestOf(w), w.readings, 0)
  {
    hide ListIncoming;
  }

  lemma QuietPlain(w: Scan)
    requires Quiet(w)
    ensures PlainPages(w)
  {
    hide PageOf, FullAt, Plain;
    QuietRows(w);
    assert w.dropped == {};
    forall k | 0 <= k < |w.readings| ensures forall r <- Usable(PageOf(w, k), w.dropped) :: Plain(r.hash) {
      QuietPage(w, k);
      UsableAll(PageOf(w, k));
    }
  }

  /** Over a quiet wallet no two pages in a row show the same hashes, unless both are empty. */
  lemma QuietMoves(w: Scan, k: nat)
    requires Quiet(w) && 0 < k < |w.readings| && PageOf(w, k) != [] && PageOf(w, k - 1) != []
    ensures !Repeats(w, k)
  {
    hide PageOf, FullAt, Quiet, Usable, Hashes, OffsetAt, RequestOf, Plain;
    QuietRows(w);
    QuietDropped(w);
    QuietPage(w, k);
    QuietPage(w, k - 1);
    OffsetNext(w, k - 1);
    FirstHash(PageOf(w, k));
    FirstHash(PageOf(w, k - 1));
  }

  lemma FirstHash(page: seq<Row>)
    requires page != []
    ensures var hashes := Hashes(Usable(page, {})); hashes != [] && hashes[0] == page[0].invoice.hash
  {
    UsableAll(page);
  }

  lemma QuietDropped(w: Scan)
    requires Quiet(w)
    ensures w.dropped == {}
  {
  }

  lemma OffsetNext(w: Scan, k: nat)
    requires k < |w.readings|
    ensures OffsetAt(w.o, RequestOf(w), w.readings, k + 1) == OffsetAt(w.o, RequestOf(w), w.readings, k) + |PageOf(w, k)|
  {
  }

  lemma {:induction false} OffsetAdvances(w: Scan, k: nat)
    requires k <= |w.readings| && forall j :: 0 <= j < k ==> PageOf(w, j) != []
    ensures k <= OffsetAt(w.o, RequestOf(w), w.readings, k)
  {
    hide PageOf;
    if k > 0 {
      OffsetAdvances(w, k - 1);
      OffsetNext(w, k - 1);
    }
  }

  /** Exactly the hashes of the listing are found, each with its row. */
  predicate Complete(w: Scan, found: map<string, Invoice>)
    requires w.readings != []
  {
    var full := FullAt(RequestOf(w), w.readings, 0);
    && (forall row <- full :: row.invoice.hash in found && found[row.invoice.hash] == row.invoice)
    && (forall hash <- found :: exists row <- full :: row.invoice.hash == hash)
  }

  /** A scan of a quiet wallet is complete: it is never cut short, and with nothing particular
      expected it finds exactly the hashes of the listing, each with its row. */
  lemma QuietScan(w: Scan, expected: Option<set<string>>)
    requires Quiet(w)
    ensures !Walked(w, expected).truncated
    ensures expected.None? ==> Complete(w, Walked(w, expected).found)
  {
    hide PageOf, Ends, Collected, FullAt, Quiet, Repeats, Proves, PlainPages, Kept, Complete;
    QuietPlain(w);
    QuietRoom(w);
    WalkExactly(w, expected);
    var last := Walked(w, expected).pages - 1;
    if Walked(w, expected).truncated { QuietNotCut(w, expected, last); }
    if expected.None? { QuietFound(w, last); }
  }

  lemma QuietRoom(w: Scan)
    requires Quiet(w)
    ensures w.readings != [] && |FullAt(RequestOf(w), w.readings, 0)| < |w.readings|
  {
  }

  lemma QuietNotCut(w: Scan, expected: Option<set<string>>, last: nat)
    requires Quiet(w) && last < |w.readings| && (last + 1 < |w.readings| ==> Proves(w, expected, last) || Repeats(w, last))
    requires forall j :: 0 <= j < last ==> !Proves(w, expected, j)
    ensures Proves(w, expected, last)
  {
    hide PageOf, FullAt, Quiet, Repeats, Proves;
    if !Proves(w, expected, last) {
      forall j | 0 <= j < last + 1 ensures PageOf(w, j) != [] { Unproven(w, expected, j); }
      OffsetAdvances(w, last + 1);
      OffsetNext(w, last);
      QuietPage(w, last);
      QuietRoom(w);
      if last > 0 { QuietMoves(w, last); } else { NoRepeat(w); }
    }
  }

  lemma Unproven(w: Scan, expected: Option<set<string>>, k: nat)
    requires k < |w.readings| && !Proves(w, expected, k)
    ensures PageOf(w, k) != []
  {
  }

  lemma NoRepeat(w: Scan)
    requires w.readings != []
    ensures !Repeats(w, 0)
  {
  }

  lemma QuietFound(w: Scan, last: nat)
    requires Quiet(w) && last < |w.readings| && Proves(w, None, last)
    ensures Complete(w, Collected(w, last + 1))
  {
    hide PageOf, FullAt, Quiet, Collected;
    QuietDropped(w);
    QuietEvolves(w);
    QuietRows(w);
    QuietBasics(w, last);
    QuietCap(w);
    EmptyPageAdds(w, last);
    var found, full := Collected(w, last + 1), FullAt(RequestOf(w), w.readings, 0);
    forall hash | hash in found ensures exists i :: 0 <= i < |full| && full[i].invoice == found[hash] && found[hash].hash == hash {
      CollectedRows(w, last + 1, hash);
      QuietShown(w, last + 1, found[hash]);
    }
    forall row | row in full ensures row.invoice.hash in found && found[row.invoice.hash] == row.invoice {
      ProvenWalk(w, last, row);
    }
    forall hash | hash in found ensures exists row <- full :: row.invoice.hash == hash {
      var i :| 0 <= i < |full| && full[i].invoice == found[hash] && found[hash].hash == hash;
      assert full[i] in full;
    }
  }

  lemma QuietCap(w: Scan)
    requires Quiet(w)
    ensures w.o.pageLimitCap >= 1
  {
  }

  lemma QuietShown(w: Scan, k: nat, row: Invoice)
    requires Quiet(w) && k <= |w.readings| && Shown(w, k, row)
    ensures var full := FullAt(RequestOf(w), w.readings, 0); exists i :: 0 <= i < |full| && full[i].invoice == row
  {
    hide PageOf, FullAt, Quiet;
    var j :| 0 <= j < k && On(PageOf(w, j), row);
    QuietPage(w, j);
  }

  // ----- reconciling ----------------------------------------------------------------------------

  datatype Attempt = Attempt(hash: string, createdAt: int)

  datatype Finding = NotFound | Reported(state: InvoiceState)

  datatype Check = Check(hash: string, finding: Finding, paidAt: Option<int>, observedAt: int)

  /** The attempted hashes in order, each once. */
  function Keys(attempts: seq<Attempt>): seq<string> {
    if attempts == [] then []
    else
      var front, last := Keys(attempts[..|attempts| - 1]), attempts[|attempts| - 1].hash;
      if last in front then front else front + [last]
  }

  function Created(attempts: seq<Attempt>): map<string, int> {
    if attempts == [] then map[]
    else Created(attempts[..|attempts| - 1])[attempts[|attempts| - 1].hash := attempts[|attempts| - 1].createdAt]
  }

  function Oldest(keys: seq<string>, created: map<string, int>): int
    requires keys != [] && forall key <- keys :: key in created
  {
    var first := created[keys[0]];
    if |keys| == 1 then first
    else
      var rest := Oldest(keys[1..], created);
      if first < rest then first else rest
  }

  function CheckOf(hash: string, row: Invoice, observedAt: int): Check {
    Check(hash, Reported(row.state),
          if row.state.Settled? then Some(if row.settledAt.Some? then row.settledAt.value else observedAt) else None,
          observedAt)
  }

  /** A hash that no row was found for is reported only when its absence is proven. */
  function ChecksOf(keys: seq<string>, found: map<string, Invoice>, truncated: bool, observedAt: int): seq<Check> {
    if keys == [] then []
    else
      var hash := keys[|keys| - 1];
      var last := if hash in found then [CheckOf(hash, found[hash], observedAt)]
                  else if truncated then [] else [Check(hash, NotFound, None, observedAt)];
      ChecksOf(keys[..|keys| - 1], found, truncated, observedAt) + last
  }

  /** The settled view first, then the inclusive one for what is missing; the first walk's rows
      win. */
  function Found(w: Scan, v: Scan, keys: set<string>): (map<string, Invoice>, bool) {
    var settled := Walked(w, Some(keys));
    var missing := keys - settled.found.Keys;
    if missing == {} then (settled.found, false)
    else
      var inclusive := Walked(v, Some(missing));
      (inclusive.found + settled.found, settled.truncated || inclusive.truncated)
  }

  function KeySet(attempts: seq<Attempt>): set<string> { set key | key in Keys(attempts) }

  function From(attempts: seq<Attempt>, overlap: int): int
    requires attempts != []
  {
    KeysCreated(attempts);
    var oldest := Oldest(Keys(attempts), Created(attempts)) - overlap;
    if oldest < 0 then 0 else oldest
  }

  lemma {:induction false} KeysCreated(attempts: seq<Attempt>)
    ensures forall key :: key in Keys(attempts) <==> key in Created(attempts)
    ensures attempts != [] ==> Keys(attempts) != []
  {
    if attempts != [] { KeysCreated(attempts[..|attempts| - 1]); }
  }

  /** Attempt `i` is the last one recorded for its hash. */
  predicate LastOf(attempts: seq<Attempt>, i: int) {
    0 <= i < |attempts| && forall j :: i < j < |attempts| ==> attempts[j].hash != attempts[i].hash
  }

  lemma LastPush(attempts: seq<Attempt>, last: Attempt, i: int)
    ensures LastOf(attempts + [last], i) <==> i == |attempts| || (LastOf(attempts, i) && last.hash != attempts[i].hash)
  {
    var all := attempts + [last];
    assert all[|attempts|] == last;
    if LastOf(all, i) && i < |attempts| {
      assert all[i] == attempts[i];
      forall j | i < j < |attempts| ensures attempts[j].hash != attempts[i].hash { assert all[j] == attempts[j]; }
    }
  }

  /** What is kept for a hash is the time of its last attempt. */
  lemma {:induction false} CreatedLast(attempts: seq<Attempt>)
    ensures forall i :: LastOf(attempts, i) ==> attempts[i].hash in Created(attempts) && Created(attempts)[attempts[i].hash] == attempts[i].createdAt
    ensures forall hash :: hash in Created(attempts) ==> exists i :: LastOf(attempts, i) && attempts[i].hash == hash
  {
    if attempts != [] {
      hide LastOf;
      var front, last := attempts[..|attempts| - 1], attempts[|attempts| - 1];
      CreatedLast(front);
      assert attempts == front + [last];
      forall i ensures LastOf(attempts, i) <==> i == |front| || (LastOf(front, i) && last.hash != front[i].hash) {
        LastPush(front, last, i);
      }
      forall i | LastOf(attempts, i)
        ensures 0 <= i < |attempts| && attempts[i].hash in Created(attempts) && Created(attempts)[attempts[i].hash] == attempts[i].createdAt
      {
        LastIn(attempts, i);
        if i < |front| { LastIn(front, i); }
      }
      forall hash | hash in Created(attempts) ensures exists i :: LastOf(attempts, i) && attempts[i].hash == hash {
        if hash == last.hash {
          assert LastOf(attempts, |front|);
        } else {
          var i :| LastOf(front, i) && front[i].hash == hash;
          LastIn(front, i);
          assert LastOf(attempts, i);
        }
      }
    } else {
      assert forall i :: !LastOf(attempts, i);
    }
  }

  lemma LastIn(attempts: seq<Attempt>, i: int)
    requires LastOf(attempts, i)
    ensures 0 <= i < |attempts|
  {
  }

  lemma {:induction false} OldestIs(keys: seq<string>, created: map<string, int>)
    requires keys != [] && forall key <- keys :: key in created
    ensures forall key <- keys :: Oldest(keys, created) <= created[key]
    ensures exists key <- keys :: Oldest(keys, created) == created[key]
    decreases |keys|
  {
    assert keys[0] in keys;
    if |keys| > 1 {
      OldestIs(keys[1..], created);
      var key :| key in keys[1..] && Oldest(keys[1..], created) == created[key];
      assert key in keys && keys == [keys[0]] + keys[1..];
    }
  }

  function Padded(time: int, overlap: int): (start: int)
    ensures start >= 0 && start >= time - overlap && (start == 0 || start == time - overlap)
  {
    if time < overlap then 0 else time - overlap
  }

  /** The scan starts where the earliest attempt needs it to, each hash counting with its last
      recorded time: no later than any of them less the overlap, never before zero, and no earlier than
      that. */
  lemma {:induction false} WindowStart(attempts: seq<Attempt>, overlap: int)
    requires attempts != []
    ensures forall i :: LastOf(attempts, i) ==> From(attempts, overlap) <= Padded(attempts[i].createdAt, overlap)
    ensures exists i :: LastOf(attempts, i) && From(attempts, overlap) == Padded(attempts[i].createdAt, overlap)
  {
    hide LastOf;
    var keys, created := Keys(attempts), Created(attempts);
    KeysCreated(attempts);
    CreatedLast(attempts);
    OldestIs(keys, created);
    forall i | LastOf(attempts, i)
      ensures 0 <= i < |attempts| && From(attempts, overlap) <= Padded(attempts[i].createdAt, overlap)
    {
      LastIn(attempts, i);
      assert attempts[i].hash in keys;
    }
    var key :| key in keys && Oldest(keys, created) == created[key];
    var i :| LastOf(attempts, i) && attempts[i].hash == key;
    assert From(attempts, overlap) == Padded(attempts[i].createdAt, overlap);
  }

  /** Each attempted hash is asked for once, in the order of its first attempt. */
  lemma {:induction false} KeysExactly(attempts: seq<Attempt>)
    ensures var keys := Keys(attempts);
            && (forall hash :: hash in keys <==> Attempted(attempts, hash))
            && (forall a, b :: 0 <= a < b < |keys| ==> keys[a] != keys[b])
            && (forall a, b :: 0 <= a < b < |keys| ==> FirstOf(attempts, keys[a]) < FirstOf(attempts, keys[b]))
  {
    if attempts != [] {
      hide FirstOf;
      var front, last := attempts[..|attempts| - 1], attempts[|attempts| - 1];
      KeysExactly(front);
      assert attempts == front + [last];
      forall hash ensures Attempted(attempts, hash) <==> Attempted(front, hash) || hash == last.hash { AttemptedPush(front, last, hash); }
      forall hash ensures FirstOf(attempts, hash) == (if Attempted(front, hash) then FirstOf(front, hash) else if hash == last.hash then |front| else |attempts|) {
        FirstOfPush(front, last, hash);
      }
      var keys := Keys(attempts);
      forall a, b | 0 <= a < b < |keys| ensures FirstOf(attempts, keys[a]) < FirstOf(attempts, keys[b]) {
        assert keys[a] in Keys(front);
        FirstOfIs(front, keys[a]);
        if b < |Keys(front)| { assert keys[b] in Keys(front); }
      }
    }
  }

  predicate Attempted(attempts: seq<Attempt>, hash: string) { exists i :: 0 <= i < |attempts| && attempts[i].hash == hash }

  /** The place of the first attempt of a hash; past the end when there is none. */
  function FirstOf(attempts: seq<Attempt>, hash: string): (i: nat)
    ensures i <= |attempts| && (i < |attempts| ==> attempts[i].hash == hash)
    ensures forall k :: 0 <= k < i ==> attempts[k].hash != hash
  {
    if attempts == [] || attempts[0].hash == hash then 0 else 1 + FirstOf(attempts[1..], hash)
  }

  lemma FirstOfIs(attempts: seq<Attempt>, hash: string)
    ensures FirstOf(attempts, hash) < |attempts| <==> Attempted(attempts, hash)
  {
  }

  lemma AttemptedPush(front: seq<Attempt>, last: Attempt, hash: string)
    ensures Attempted(front + [last], hash) <==> Attempted(front, hash) || hash == last.hash
  {
    var all := front + [last];
    assert all[|front|] == last;
    if i :| 0 <= i < |front| && front[i].hash == hash { assert all[i].hash == hash; }
  }

  lemma FirstOfPush(front: seq<Attempt>, last: Attempt, hash: string)
    ensures FirstOf(front + [last], hash) == (if Attempted(front, hash) then FirstOf(front, hash) else if hash == last.hash then |front| else |front| + 1)
  {
    var all := front + [last];
    assert all[|front|] == last;
    assert forall k :: 0 <= k < |front| ==> all[k] == front[k];
    FirstOfIs(front, hash);
  }

  /** The two walks of one reconciliation, over the same window. */
  datatype Plan = Plan(o: Options, from: int, until: int, first: seq<Reading>, second: seq<Reading>, dropped: set<string>)

  function SettledScan(p: Plan): Scan { Scan(p.o, p.from, p.until, false, p.first, p.dropped) }

  function InclusiveScan(p: Plan): Scan { Scan(p.o, p.from, p.until, true, p.second, p.dropped) }

  function Reconciled(p: Plan, attempts: seq<Attempt>, observedAt: int): seq<Check> {
    var (found, truncated) := Found(SettledScan(p), InclusiveScan(p), KeySet(attempts));
    ChecksOf(Keys(attempts), found, truncated, observedAt)
  }

  datatype Outcome = BadInput | Checks(checks: seq<Check>)

  predicate BadAttempts(attempts: seq<Attempt>) { exists i :: 0 <= i < |attempts| && attempts[i].createdAt < 0 }

  method ReconcileAsync(o: Options, attempts: seq<Attempt>, first: seq<Reading>, second: seq<Reading>, dropped: set<string>,
                        overlap: int, until: int, observedAt: int) returns (r: Outcome)
    requires |first| == |second|
    ensures attempts == [] ==> r == Checks([])
    ensures var bad := overlap < 0 || (exists i :: 0 <= i < |attempts| && attempts[i].createdAt < 0) || until < 0 || first == [];
            && (r == BadInput <==> attempts != [] && bad)
            && (attempts != [] && !bad ==>
                  r == Checks(Reconciled(Plan(o, From(attempts, overlap), until, first, second, dropped), attempts, observedAt)))
  {
    if attempts == [] { return Checks([]); }
    if overlap < 0 || BadAttempts(attempts) || until < 0 { return BadInput; }
    hide Keys, From, Walked, ChecksOf;
    var p := Plan(o, From(attempts, overlap), until, first, second, dropped);
    var keys := KeySet(attempts);
    var settled := WalkAsync(SettledScan(p), Some(keys));
    if settled.None? { return BadInput; }
    var found, truncated := settled.value.found, false;
    var missing := keys - found.Keys;
    if missing != {} {
      var inclusive := WalkAsync(InclusiveScan(p), Some(missing));
      truncated := settled.value.truncated || inclusive.value.truncated;
      found := inclusive.value.found + found;
    }
    var checks := CheckAll(Keys(attempts), found, truncated, observedAt);
    return Checks(checks);
  }

  method CheckAll(keys: seq<string>, found: map<string, Invoice>, truncated: bool, observedAt: int) returns (checks: seq<Check>)
    ensures checks == ChecksOf(keys, found, truncated, observedAt)
  {
    checks := [];
    for i := 0 to |keys|
      invariant checks == ChecksOf(keys[..i], found, truncated, observedAt)
    {
      assert keys[..i + 1][..i] == keys[..i];
      var hash := keys[i];
      if hash !in found {
        if truncated { continue; }
        checks := checks + [Check(hash, NotFound, None, observedAt)];
        continue;
      }
      checks := checks + [CheckOf(hash, found[hash], observedAt)];
    }
    assert keys[..|keys|] == keys;
  }

  /** What is reported for one hash: the settled row's own time, or the moment of the scan when the
      wallet kept none; the state as it stands for any other row; and nothing, or a proven absence, for
      a hash no row was found for. */
  predicate Says(checks: seq<Check>, hash: string, found: map<string, Invoice>, truncated: bool, observedAt: int) {
    if hash !in found then checks == if truncated then [] else [Check(hash, NotFound, None, observedAt)]
    else
      && |checks| == 1 && checks[0].hash == hash && checks[0].observedAt == observedAt
      && checks[0].finding == Reported(found[hash].state)
      && (found[hash].state.Settled? && found[hash].settledAt.Some? ==> checks[0].paidAt == found[hash].settledAt)
      && (found[hash].state.Settled? && found[hash].settledAt.None? ==> checks[0].paidAt == Some(observedAt))
      && (!found[hash].state.Settled? ==> checks[0].paidAt == None)
  }

  /** The checks are those of each hash in turn. */
  lemma {:induction false} ChecksInTurn(a: seq<string>, hash: string, b: seq<string>, found: map<string, Invoice>, truncated: bool, observedAt: int)
    ensures ChecksOf(a + [hash] + b, found, truncated, observedAt)
         == ChecksOf(a, found, truncated, observedAt) + ChecksOf([hash], found, truncated, observedAt) + ChecksOf(b, found, truncated, observedAt)
    ensures Says(ChecksOf([hash], found, truncated, observedAt), hash, found, truncated, observedAt)
    ensures ChecksOf([], found, truncated, observedAt) == []
  {
    hide Says;
    ChecksJoined(a + [hash], b, found, truncated, observedAt);
    ChecksJoined(a, [hash], found, truncated, observedAt);
    OneCheck(hash, found, truncated, observedAt);
    NoChecks(found, truncated, observedAt);
  }

  lemma OneCheck(hash: string, found: map<string, Invoice>, truncated: bool, observedAt: int)
    ensures Says(ChecksOf([hash], found, truncated, observedAt), hash, found, truncated, observedAt)
  {
    NoChecks(found, truncated, observedAt);
    assert [hash][..0] == [];
  }

  lemma NoChecks(found: map<string, Invoice>, truncated: bool, observedAt: int)
    ensures ChecksOf([], found, truncated, observedAt) == []
  {
  }

  lemma {:induction false} ChecksJoined(a: seq<string>, b: seq<string>, found: map<string, Invoice>, truncated: bool, observedAt: int)
    ensures ChecksOf(a + b, found, truncated, observedAt)
         == ChecksOf(a, found, truncated, observedAt) + ChecksOf(b, found, truncated, observedAt)
    decreases |b|
  {
    hide CheckOf;
    if b == [] {
      assert a + b == a;
      NoChecks(found, truncated, observedAt);
    } else {
      var front := b[..|b| - 1];
      ChecksJoined(a, front, found, truncated, observedAt);
      assert (a + b)[..|a + b| - 1] == a + front && (a + b)[|a + b| - 1] == b[|b| - 1];
    }
  }

  /** The second walk is made exactly when the settled view left a hash out, and only for those; a row
      of the first walk wins; and the scan counts as cut short when a second walk was needed and either
      walk was. */
  lemma FoundExactly(w: Scan, v: Scan, keys: set<string>)
    ensures var first, (found, truncated) := Walked(w, Some(keys)), Found(w, v, keys);
            var missing := set key | key in keys && key !in first.found;
            var second := Walked(v, Some(missing));
            && (missing == {} ==> found == first.found && !truncated)
            && (missing != {} ==>
                  && (truncated <==> first.truncated || second.truncated)
                  && (forall hash :: hash in found <==> hash in first.found || hash in second.found)
                  && (forall hash <- first.found :: found[hash] == first.found[hash])
                  && (forall hash <- second.found :: hash !in first.found ==> found[hash] == second.found[hash]))
  {
    hide Walked;
    var first := Walked(w, Some(keys));
    assert (set key | key in keys && key !in first.found) == keys - first.found.Keys;
  }

  /** What the two walks ask the wallet for: the settled view and then the inclusive one, of one window. */
  lemma ScansAsk(p: Plan)
    ensures RequestOf(SettledScan(p)) == Request(Some(20), None, Some(p.from), Some(p.until), None, false)
    ensures RequestOf(InclusiveScan(p)) == Request(Some(20), None, Some(p.from), Some(p.until), Some(true), false)
    ensures SettledScan(p).readings == p.first && InclusiveScan(p).readings == p.second
  {
  }

  // ----- what a reconciliation may claim ------------------------------------------------------

  /** The pages of both walks are read at moments of one run of the wallet, in order; the wallet
      honours offsets and serves at least one row a page. */
  predicate During(p: Plan, s: Store, ops: seq<Op>, moments: seq<nat>) {
    && WalletStore.Inv(s) && FreshRun(s, ops)
    && ReadDuring(s, ops, moments, p.first + p.second) && Small(p.first + p.second)
    && p.first != [] && p.second != [] && !p.o.dropOffset && p.o.pageLimitCap >= 1
  }

  /** The whole inclusive view when the second walk began. */
  function InclusiveView(p: Plan): seq<Row>
    requires p.second != []
  {
    FullAt(RequestOf(InclusiveScan(p)), p.second, 0)
  }

  lemma {:induction false} CheckWhy(keys: seq<string>, found: map<string, Invoice>, truncated: bool, observedAt: int, c: Check)
    requires c in ChecksOf(keys, found, truncated, observedAt)
    ensures c.hash in keys && c.observedAt == observedAt
    ensures if c.hash in found then c == CheckOf(c.hash, found[c.hash], observedAt) else !truncated && c.finding == NotFound
  {
    if c in ChecksOf(keys[..|keys| - 1], found, truncated, observedAt) {
      CheckWhy(keys[..|keys| - 1], found, truncated, observedAt, c);
    }
  }

  lemma {:induction false} CheckMade(keys: seq<string>, found: map<string, Invoice>, truncated: bool, observedAt: int, hash: string)
    requires hash in keys && (hash in found || !truncated)
    ensures exists c <- ChecksOf(keys, found, truncated, observedAt) :: c.hash == hash
  {
    var n := |keys| - 1;
    var front := ChecksOf(keys[..n], found, truncated, observedAt);
    var all := ChecksOf(keys, found, truncated, observedAt);
    if keys[n] == hash {
      assert all[|front|] in all;
    } else {
      assert keys == keys[..n] + [keys[n]];
      CheckMade(keys[..n], found, truncated, observedAt, hash);
      var c :| c in front && c.hash == hash;
      assert c in all;
    }
  }

  lemma {:induction false} GrowsFromStart(readings: seq<Reading>, i: nat)
    requires Evolving(readings) && i < |readings|
    ensures Grows(readings[0].invoices, readings[i].invoices)
  {
    if i > 0 { GrowsFromStart(readings, i - 1); }
  }

  lemma PageShows(w: Scan, i: nat, x: Row)
    requires i < |w.readings| && x in PageOf(w, i)
    ensures Shows(w.readings[i].invoices, FilterOf(RequestOf(w)), w.readings[i].clock, x)
  {
    hide OffsetAt, ToInt32, Shows;
    var r, reading := RequestOf(w), w.readings[i];
    LimitIgnoresOffset(w.o, r, Some(OffsetAt(w.o, r, w.readings, i)));
    assert x in ListIncoming(reading.invoices, FilterOf(r), reading.clock);
    ListingRows(reading.invoices, FilterOf(r), reading.clock, |reading.invoices|);
  }

  /** A row keeps its hash from one page to a later one. */
  lemma SameHash(w: Scan, i: nat, x: Row, row: Row)
    requires Evolving(w.readings) && i < |w.readings| && x in PageOf(w, i)
    requires row in FullAt(RequestOf(w), w.readings, 0) && SameKey(x, row)
    ensures x.invoice.hash == row.invoice.hash
  {
    hide PageOf, ListIncoming;
    var start := w.readings[0];
    PageShows(w, i, x);
    ListingRows(start.invoices, FilterOf(RequestOf(w)), start.clock, |start.invoices|);
    Whole(start, FilterOf(RequestOf(w)));
    GrowsFromStart(w.readings, i);
    assert Later(start.invoices[row.index], w.readings[i].invoices[row.index]);
  }

  lemma Whole(reading: Reading, f: Filter)
    ensures ListIncoming(reading.invoices, f, reading.clock) == Listing(reading.invoices, f, reading.clock, |reading.invoices|)
  {
  }

  /** A walk whose end is proven by an empty page has shown every usable row listed at its start. */
  lemma ProvenWalk(w: Scan, k: nat, row: Row)
    requires Evolving(w.readings) && !w.o.dropOffset && w.o.pageLimitCap >= 1
    requires k < |w.readings| && PageOf(w, k) == [] && row in FullAt(RequestOf(w), w.readings, 0)
    requires row.invoice.hash !in w.dropped
    ensures row.invoice.hash in Collected(w, k)
  {
    hide PageAt, FullAt, Collected, Evolving;
    EmptyPageProves(w.o, RequestOf(w), w.readings, k, row);
    var i, x :| 0 <= i < k && x in PageAt(w.o, RequestOf(w), w.readings, i) && SameKey(x, row);
    SameHash(w, i, x, row);
    CollectedRows(w, k, x.invoice.hash);
    InPage(w, i, x);
    assert Shown(w, k, x.invoice);
  }

  lemma InPage(w: Scan, i: nat, x: Row)
    requires i < |w.readings| && x in PageOf(w, i)
    ensures On(PageOf(w, i), x.invoice)
  {
  }

  lemma EmptyPageAdds(w: Scan, k: nat)
    requires k < |w.readings| && PageOf(w, k) == []
    ensures Collected(w, k + 1) == Collected(w, k)
  {
  }

  /** A hash that an untruncated walk was asked for and did not find was not in its view when it
      began. */
  lemma AbsentFromView(w: Scan, expected: set<string>, hash: string, row: Row)
    requires Evolving(w.readings) && w.readings != [] && !w.o.dropOffset && w.o.pageLimitCap >= 1
    requires hash in expected && hash !in w.dropped
    requires var r := Walked(w, Some(expected)); !r.truncated && hash !in r.found
    requires row in FullAt(RequestOf(w), w.readings, 0)
    ensures row.invoice.hash != hash
  {
    hide PageOf, Collected, Ends, FullAt, Evolving;
    var (pages, truncated) := Ends(w, Some(expected), 0);
    EndsWhy(w, Some(expected), 0);
    assert pages > 0 && PageOf(w, pages - 1) == [];
    EmptyPageAdds(w, pages - 1);
    if row.invoice.hash == hash { ProvenWalk(w, pages - 1, row); }
  }

  lemma DuringEvolves(p: Plan, s: Store, ops: seq<Op>, moments: seq<nat>)
    requires During(p, s, ops, moments)
    ensures Evolving(p.first + p.second) && Evolving(p.second)
  {
    hide Grows, FreshRun, ReadDuring;
    var all := p.first + p.second;
    RunEvolves(s, ops, moments, all);
    forall k | 0 <= k < |p.second| ensures p.second[k] == all[|p.first| + k] { }
    forall k | 0 < k < |p.second| ensures Grows(p.second[k - 1].invoices, p.second[k].invoices) {
      assert Grows(all[|p.first| + k - 1].invoices, all[|p.first| + k].invoices);
    }
  }

  lemma KeysIn(attempts: seq<Attempt>, c: Check, found: map<string, Invoice>, truncated: bool, observedAt: int)
    requires c in ChecksOf(Keys(attempts), found, truncated, observedAt)
    ensures c.hash in KeySet(attempts)
    ensures if c.hash in found then c == CheckOf(c.hash, found[c.hash], observedAt) else !truncated && c.finding == NotFound
  {
    CheckWhy(Keys(attempts), found, truncated, observedAt, c);
  }

  /** `not_found` is a proof: over any run of the wallet, a hash reported so was in no row of the
      inclusive view when the second walk began. */
  lemma NotFoundProven(p: Plan, s: Store, ops: seq<Op>, moments: seq<nat>, attempts: seq<Attempt>, observedAt: int, c: Check)
    requires During(p, s, ops, moments) && c in Reconciled(p, attempts, observedAt)
    requires c.finding == NotFound && c.hash !in p.dropped
    ensures forall row <- InclusiveView(p) :: row.invoice.hash != c.hash
  {
    hide During, Walked, ChecksOf, KeySet, FullAt, Keys, Evolving;
    assert p.second != [] && !p.o.dropOffset && p.o.pageLimitCap >= 1 by { DuringBasics(p, s, ops, moments); }
    DuringEvolves(p, s, ops, moments);
    var keys := KeySet(attempts);
    var (found, truncated) := Found(SettledScan(p), InclusiveScan(p), keys);
    KeysIn(attempts, c, found, truncated, observedAt);
    var missing := keys - Walked(SettledScan(p), Some(keys)).found.Keys;
    assert c.hash in missing;
    forall row | row in InclusiveView(p) ensures row.invoice.hash != c.hash {
      AbsentFromView(InclusiveScan(p), missing, c.hash, row);
    }
  }

  lemma DuringBasics(p: Plan, s: Store, ops: seq<Op>, moments: seq<nat>)
    requires During(p, s, ops, moments)
    ensures p.first != [] && p.second != [] && !p.o.dropOffset && p.o.pageLimitCap >= 1
  {
  }

  /** So the wallet held no invoice of that hash created in the window. */
  lemma NotFoundAbsent(p: Plan, s: Store, ops: seq<Op>, moments: seq<nat>, attempts: seq<Attempt>, observedAt: int, c: Check, i: nat)
    requires During(p, s, ops, moments) && c in Reconciled(p, attempts, observedAt)
    requires c.finding == NotFound && c.hash !in p.dropped
    requires i < |p.second[0].invoices| && p.from <= p.second[0].invoices[i].createdAt <= p.until
    ensures p.second[0].invoices[i].hash != c.hash
  {
    hide During, Reconciled, ListIncoming;
    DuringBasics(p, s, ops, moments);
    NotFoundProven(p, s, ops, moments, attempts, observedAt, c);
    var start, f := p.second[0], FilterOf(RequestOf(InclusiveScan(p)));
    var row := Row(Lazily(start.invoices[i], start.clock(i)), i);
    ListingRows(start.invoices, f, start.clock, |start.invoices|);
    Whole(start, f);
    assert Shows(start.invoices, f, start.clock, row);
    assert row in InclusiveView(p);
  }

  // ----- a settled invoice ---------------------------------------------------------------------

  lemma MomentInv(s: Store, ops: seq<Op>, n: nat)
    requires WalletStore.Inv(s) && FreshRun(s, ops) && n <= |ops|
    ensures WalletStore.Inv(Run(s, ops[..n]))
  {
    hide WalletStore.Inv;
    PrefixFresh(s, ops, n);
    RunInv(s, ops[..n]);
  }

  /** Once settled, every page of either walk shows the invoice as it was. */
  lemma ShownAsSettled(all: seq<Reading>, w: Scan, k: nat, at: nat, i: nat, x: Row)
    requires Evolving(all) && at < |all| && k < |w.readings| && w.readings[k] == all[at] && DistinctHashes(all[at].invoices)
    requires i < |all[0].invoices| && all[0].invoices[i].state.Settled?
    requires x in PageOf(w, k) && x.invoice.hash == all[0].invoices[i].hash
    ensures x.invoice == all[0].invoices[i]
  {
    hide PageOf, Evolving;
    GrowsFromStart(all, at);
    PageShows(w, k, x);
    assert Later(all[0].invoices[i], all[at].invoices[i]);
    var now := all[at].invoices;
    assert now[i] == all[0].invoices[i];
    assert now[x.index].hash == x.invoice.hash;
    assert x.index == i;
  }

  lemma FoundShown(p: Plan, keys: set<string>, hash: string)
    requires hash in Found(SettledScan(p), InclusiveScan(p), keys).0
    ensures var row := Found(SettledScan(p), InclusiveScan(p), keys).0[hash];
            row.hash == hash && (Shown(SettledScan(p), |p.first|, row) || Shown(InclusiveScan(p), |p.second|, row))
  {
    hide Shown, Collected, Ends, PageOf;
    var first := Walked(SettledScan(p), Some(keys));
    CollectedRows(SettledScan(p), first.pages, hash);
    if hash in first.found { ShownMore(SettledScan(p), first.pages, |p.first|, first.found[hash]); }
    var missing := keys - first.found.Keys;
    if missing != {} {
      var second := Walked(InclusiveScan(p), Some(missing));
      CollectedRows(InclusiveScan(p), second.pages, hash);
      if hash in second.found { ShownMore(InclusiveScan(p), second.pages, |p.second|, second.found[hash]); }
    }
  }

  lemma ShownMore(w: Scan, k: nat, n: nat, row: Invoice)
    requires k <= n <= |w.readings| && Shown(w, k, row)
    ensures Shown(w, n, row)
  {
  }

  lemma ShownSettled(p: Plan, s: Store, ops: seq<Op>, moments: seq<nat>, w: Scan, i: nat, row: Invoice)
    requires During(p, s, ops, moments) && (w == SettledScan(p) || w == InclusiveScan(p)) && Shown(w, |w.readings|, row)
    requires i < |p.first[0].invoices| && p.first[0].invoices[i].state.Settled? && row.hash == p.first[0].invoices[i].hash
    ensures row == p.first[0].invoices[i]
  {
    hide PageOf, WalletStore.Inv, FreshRun, Run, Evolving, Small;
    var all := p.first + p.second;
    DuringEvolves(p, s, ops, moments);
    var k :| 0 <= k < |w.readings| && On(PageOf(w, k), row);
    var j :| 0 <= j < |PageOf(w, k)| && PageOf(w, k)[j].invoice == row;
    var at := if w == SettledScan(p) then k else |p.first| + k;
    assert w.readings[k] == all[at] && all[0] == p.first[0];
    MomentInv(s, ops, moments[at]);
    InvDistinct(Run(s, ops[..moments[at]]));
    ShownAsSettled(all, w, k, at, i, PageOf(w, k)[j]);
  }

  lemma InvDistinct(s: Store)
    requires WalletStore.Inv(s)
    ensures DistinctHashes(s.invoices) && Stamped(s.invoices)
  {
  }

  lemma StillThere(p: Plan, s: Store, ops: seq<Op>, moments: seq<nat>, i: nat)
    requires During(p, s, ops, moments) && i < |p.first[0].invoices| && p.first[0].invoices[i].state.Settled?
    ensures i < |p.second[0].invoices| && p.second[0].invoices[i] == p.first[0].invoices[i]
    ensures p.first[0].invoices[i].settledAt.Some?
  {
    hide WalletStore.Inv, FreshRun, Run, Evolving, Small;
    var all := p.first + p.second;
    DuringEvolves(p, s, ops, moments);
    GrowsFromStart(all, |p.first|);
    assert all[|p.first|] == p.second[0] && all[0] == p.first[0];
    assert Later(all[0].invoices[i], all[|p.first|].invoices[i]);
    MomentInv(s, ops, moments[0]);
    InvDistinct(Run(s, ops[..moments[0]]));
  }

  /** An invoice settled in the window before the first walk is reported settled, with its own
      time, or not at all: never pending, expired or not found, whatever happens during the walks,
      whichever way they end and however they are merged. It is left out only when a walk was
      truncated. */
  lemma SettledReported(p: Plan, s: Store, ops: seq<Op>, moments: seq<nat>, attempts: seq<Attempt>, observedAt: int, i: nat)
    requires During(p, s, ops, moments) && i < |p.first[0].invoices|
    requires var paid := p.first[0].invoices[i];
             paid.state.Settled? && p.from <= paid.createdAt <= p.until && paid.hash !in p.dropped && paid.hash in KeySet(attempts)
    ensures var paid := p.first[0].invoices[i];
            && (forall c <- Reconciled(p, attempts, observedAt) :: c.hash == paid.hash ==>
                  c == Check(paid.hash, Reported(InvoiceState.Settled), paid.settledAt, observedAt))
            && (!Found(SettledScan(p), InclusiveScan(p), KeySet(attempts)).1 ==>
                  exists c <- Reconciled(p, attempts, observedAt) :: c.hash == paid.hash)
  {
    var paid := p.first[0].invoices[i];
    forall c | c in Reconciled(p, attempts, observedAt) && c.hash == paid.hash
      ensures c == Check(paid.hash, Reported(InvoiceState.Settled), paid.settledAt, observedAt)
    {
      SettledCheck(p, s, ops, moments, attempts, observedAt, i, c);
    }
    var (found, truncated) := Found(SettledScan(p), InclusiveScan(p), KeySet(attempts));
    if !truncated { CheckMade(Keys(attempts), found, truncated, observedAt, paid.hash); }
  }

  lemma SettledCheck(p: Plan, s: Store, ops: seq<Op>, moments: seq<nat>, attempts: seq<Attempt>, observedAt: int, i: nat, c: Check)
    requires During(p, s, ops, moments) && i < |p.first[0].invoices| && c in Reconciled(p, attempts, observedAt)
    requires var paid := p.first[0].invoices[i];
             paid.state.Settled? && p.from <= paid.createdAt <= p.until && paid.hash !in p.dropped && c.hash == paid.hash
    ensures c == Check(c.hash, Reported(InvoiceState.Settled), p.first[0].invoices[i].settledAt, observedAt)
  {
    hide During, ChecksOf, KeySet, Keys, Found, Shown;
    DuringBasics(p, s, ops, moments);
    StillThere(p, s, ops, moments, i);
    var (found, truncated) := Found(SettledScan(p), InclusiveScan(p), KeySet(attempts));
    KeysIn(attempts, c, found, truncated, observedAt);
    if c.hash in found {
      FoundShown(p, KeySet(attempts), c.hash);
      var row := found[c.hash];
      if Shown(SettledScan(p), |p.first|, row) {
        ShownSettled(p, s, ops, moments, SettledScan(p), i, row);
      } else {
        ShownSettled(p, s, ops, moments, InclusiveScan(p), i, row);
      }
    } else {
      NotFoundAbsent(p, s, ops, moments, attempts, observedAt, c, i);
    }
  }

  // ----- attempts -----------------------------------------------------------------------------

  /** The plan that `ReconcileAsync` scans by. */
  function PlanFor(o: Options, attempts: seq<Attempt>, first: seq<Reading>, second: seq<Reading>, dropped: set<string>,
                   overlap: int, until: int): Plan
    requires attempts != []
  {
    Plan(o, From(attempts, overlap), until, first, second, dropped)
  }

  /** An invoice of an attempted hash is in the window when it was created no earlier than the hash's
      last recorded time less the overlap, and no later than the end. */
  predicate Due(attempts: seq<Attempt>, overlap: int, until: int, a: int, invoice: Invoice) {
    && LastOf(attempts, a) && invoice.hash == attempts[a].hash
    && Padded(attempts[a].createdAt, overlap) <= invoice.createdAt <= until
  }

  /** While the wallet holds an attempt's invoice it is never reported `not_found`: no open attempt is
      given up, whichever of them is the oldest. */
  lemma AttemptKept(o: Options, attempts: seq<Attempt>, first: seq<Reading>, second: seq<Reading>, dropped: set<string>,
                    overlap: int, until: int, s: Store, ops: seq<Op>, moments: seq<nat>, observedAt: int, a: int, i: nat, c: Check)
    requires attempts != [] && During(PlanFor(o, attempts, first, second, dropped, overlap, until), s, ops, moments)
    requires i < |second[0].invoices| && Due(attempts, overlap, until, a, second[0].invoices[i]) && attempts[a].hash !in dropped
    requires c in Reconciled(PlanFor(o, attempts, first, second, dropped, overlap, until), attempts, observedAt)
    requires c.hash == attempts[a].hash
    ensures c.finding != NotFound
  {
    hide During, Reconciled, From, LastOf;
    WindowStart(attempts, overlap);
    if c.finding == NotFound {
      NotFoundAbsent(PlanFor(o, attempts, first, second, dropped, overlap, until), s, ops, moments, attempts, observedAt, c, i);
    }
  }

  /** And one that was settled before the first walk is reported so, with its own time, unless a walk
      was cut short and said nothing. */
  lemma AttemptSettled(o: Options, attempts: seq<Attempt>, first: seq<Reading>, second: seq<Reading>, dropped: set<string>,
                       overlap: int, until: int, s: Store, ops: seq<Op>, moments: seq<nat>, observedAt: int, a: int, i: nat)
    requires attempts != [] && During(PlanFor(o, attempts, first, second, dropped, overlap, until), s, ops, moments)
    requires i < |first[0].invoices| && first[0].invoices[i].state.Settled?
    requires Due(attempts, overlap, until, a, first[0].invoices[i]) && attempts[a].hash !in dropped
    ensures var p := PlanFor(o, attempts, first, second, dropped, overlap, until);
            var reported := Check(attempts[a].hash, Reported(InvoiceState.Settled), first[0].invoices[i].settledAt, observedAt);
            && (forall c <- Reconciled(p, attempts, observedAt) :: c.hash == attempts[a].hash ==> c == reported)
            && (!Found(SettledScan(p), InclusiveScan(p), KeySet(attempts)).1 ==> reported in Reconciled(p, attempts, observedAt))
  {
    hide During, Reconciled, From, LastOf, Found, FirstOf;
    WindowStart(attempts, overlap);
    KeysExactly(attempts);
    LastIn(attempts, a);
    assert Attempted(attempts, attempts[a].hash);
    SettledReported(PlanFor(o, attempts, first, second, dropped, overlap, until), s, ops, moments, attempts, observedAt, i);
  }

  /** A wallet that ignores the offset proves nothing: over an unchanged store with rows to serve,
      the walk ends truncated unless it has seen all it was asked for. */
  lemma IgnoredOffset(w: Scan, expected: Option<set<string>>)
    requires w.o.dropOffset && w.readings != [] && PageOf(w, 0) != []
    requires forall k :: 0 <= k < |w.readings| ==> w.readings[k] == w.readings[0]
    ensures Walked(w, expected).truncated || AllSeen(expected, Walked(w, expected).found)
  {
    hide PageAt, Collected, PageKey, Usable;
    if |w.readings| > 1 { DroppedOffsetRepeats(w.o, RequestOf(w), w.readings, 1); }
    assert Ends(w, expected, 0) == if AllSeen(expected, Collected(w, 1)) then (1, false) else Ends(w, expected, 1);
  }
}
