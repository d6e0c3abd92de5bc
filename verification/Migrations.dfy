/** The shop's migration runner (`store.ts`) and the catalog upsert its data migrations run
    (`migrations.ts`). A database state, a step's effect on it, what a step reads of its
    surroundings (the clock, fresh ids) and the faults a run meets are parameters. */
module Migrations {
  import opened Text

  /** `run` yields `None` when the step itself throws. */
  datatype Migration<!S, !E> = Migration(id: string, run: (S, E) -> Option<S>)

  function Ids<S, E>(list: seq<Migration<S, E>>): (ids: seq<string>)
    ensures |ids| == |list| && forall i :: 0 <= i < |list| ==> ids[i] == list[i].id
  {
    seq(|list|, i requires 0 <= i < |list| => list[i].id)
  }

  predicate Distinct(ids: seq<string>) {
    forall i, j :: 0 <= i < j < |ids| ==> ids[i] != ids[j]
  }

  /** The database after steps `k` up to `j`, each on what the one before it left. */
  function Ran<S, E>(list: seq<Migration<S, E>>, s: S, e: E, k: nat, j: nat): Option<S>
    requires k <= j <= |list|
    decreases j - k
  {
    if k == j then Some(s)
    else match list[k].run(s, e) case None => None case Some(next) => Ran(list, next, e, k + 1, j)
  }

  /** Where one run that has `k` steps behind it ends: the database, and how many steps it then
      holds. It stops at the first step that throws or that a fault hits. */
  function Upgraded<S, E>(list: seq<Migration<S, E>>, s: S, e: E, k: nat, fault: nat -> bool): (r: (S, nat))
    requires k <= |list|
    ensures k <= r.1 <= |list|
    decreases |list| - k
  {
    if k == |list| || fault(k) then (s, k)
    else match list[k].run(s, e) case None => (s, k) case Some(next) => Upgraded(list, next, e, k + 1, fault)
  }

  /** The run executes exactly the steps it had not behind it, up to the first that fails. */
  lemma {:induction false} UpgradedExactly<S, E>(list: seq<Migration<S, E>>, s: S, e: E, k: nat, fault: nat -> bool)
    requires k <= |list|
    ensures var (s', j) := Upgraded(list, s, e, k, fault);
            && Ran(list, s, e, k, j) == Some(s')
            && (forall i :: k <= i < j ==> !fault(i))
            && (j < |list| ==> fault(j) || list[j].run(s', e).None?)
    decreases |list| - k
  {
    if k < |list| && !fault(k) && list[k].run(s, e).Some? {
      UpgradedExactly(list, list[k].run(s, e).value, e, k + 1, fault);
    }
  }

  class Runner<!S, !E> {
    const list: seq<Migration<S, E>>
    var schema: S
    var versions: seq<string>

    /** Applied ids are the first `k` of the list. Nothing is asked of the database itself, which
        the shop writes to between runs. */
    ghost predicate At(k: nat)
      reads this
    {
      k <= |list| && Distinct(Ids(list)) && versions == Ids(list)[..k]
    }

    constructor (empty: S, list: seq<Migration<S, E>>)
      requires Distinct(Ids(list))
      ensures At(0) && schema == empty && this.list == list
    {
      this.list, schema, versions := list, empty, [];
    }

    /** One `migrate` call; `None` when it threw. `fault` marks the steps an outside failure
        hits. */
    method Migrate(ghost k: nat, e: E, fault: nat -> bool) returns (applied: Option<nat>)
      requires At(k)
      modifies this`schema, this`versions
      ensures var (s, j) := Upgraded(list, old(schema), e, k, fault);
              At(j) && schema == s && applied == if j == |list| then Some(j - k) else None
    {
      hide Distinct, Upgraded, Ids;
      var done := versions;
      var count := 0;
      for i := 0 to |list|
        invariant done == Ids(list)[..k] && count == (if i < k then 0 else i - k)
        invariant At(if i < k then k else i)
        invariant Upgraded(list, old(schema), e, k, fault) == Upgraded(list, schema, e, if i < k then k else i, fault)
      {
        var m := list[i];
        IdAt(list, k, i);
        if m.id in done { continue; }
        IdAt(list, i, i);
        StepAt(list, schema, e, i, fault);
        var next := m.run(schema, e);
        if fault(i) || next.None? || m.id in versions { return None; }
        schema, versions := next.value, versions + [m.id];
        count := count + 1;
      }
      AtEnd(list, schema, e, fault);
      applied := Some(count);
    }
  }

  lemma StepAt<S, E>(list: seq<Migration<S, E>>, s: S, e: E, i: nat, fault: nat -> bool)
    requires i < |list|
    ensures Upgraded(list, s, e, i, fault)
         == if fault(i) || list[i].run(s, e).None? then (s, i) else Upgraded(list, list[i].run(s, e).value, e, i + 1, fault)
    ensures Ids(list)[..i + 1] == Ids(list)[..i] + [list[i].id]
  {
  }

  lemma AtEnd<S, E>(list: seq<Migration<S, E>>, s: S, e: E, fault: nat -> bool)
    ensures Upgraded(list, s, e, |list|, fault) == (s, |list|)
  {
  }

  lemma IdAt<S, E>(list: seq<Migration<S, E>>, k: nat, i: nat)
    requires Distinct(Ids(list)) && k <= |list| && i < |list|
    ensures list[i].id in Ids(list)[..k] <==> i < k
  {
    var ids := Ids(list);
    if i < k { assert ids[..k][i] == list[i].id; }
    if list[i].id in ids[..k] {
      var j :| 0 <= j < k && ids[..k][j] == list[i].id;
      assert ids[j] == ids[i];
    }
  }

  // ----- boot after boot ---------------------------------------------------------------------

  /** One boot: what was written to the database since the last one, and what its run meets. */
  datatype Boot<!S, !E> = Boot(writes: S -> S, env: E, fault: nat -> bool)

  function After<S, E>(list: seq<Migration<S, E>>, empty: S, boots: seq<Boot<S, E>>): (r: (S, nat))
    ensures r.1 <= |list|
  {
    if boots == [] then (empty, 0)
    else
      var (s, k) := After(list, empty, boots[..|boots| - 1]);
      var b := boots[|boots| - 1];
      Upgraded(list, b.writes(s), b.env, k, b.fault)
  }

  /** Whatever is written between boots, a boot runs only steps never applied before, in order,
      on the database as it stands; and once the list is done it runs none. */
  lemma BootResumes<S, E>(list: seq<Migration<S, E>>, empty: S, boots: seq<Boot<S, E>>, b: Boot<S, E>)
    ensures var (s, k) := After(list, empty, boots);
            var (s', k') := After(list, empty, boots + [b]);
            && k <= k' && Ran(list, b.writes(s), b.env, k, k') == Some(s')
            && (k == |list| ==> k' == k && s' == b.writes(s))
  {
    assert (boots + [b])[..|boots|] == boots;
    var (s, k) := After(list, empty, boots);
    UpgradedExactly(list, b.writes(s), b.env, k, b.fault);
  }

  function NoFault(): nat -> bool { i => false }

  /** Nothing is written since the last boot, and the steps read the same surroundings. */
  ghost predicate Quiet<S(!new), E(!new)>(b: Boot<S, E>, e: E) {
    b.env == e && forall s :: b.writes(s) == s
  }

  lemma {:induction false} RanJoin<S, E>(list: seq<Migration<S, E>>, s: S, e: E, k: nat, m: nat, j: nat)
    requires k <= m <= j <= |list| && Ran(list, s, e, k, m).Some?
    ensures Ran(list, s, e, k, j) == Ran(list, Ran(list, s, e, k, m).value, e, m, j)
    decreases m - k
  {
    if k < m { RanJoin(list, list[k].run(s, e).value, e, k + 1, m, j); }
  }

  lemma {:induction false} QuietRan<S(!new), E(!new)>(list: seq<Migration<S, E>>, empty: S, e: E, boots: seq<Boot<S, E>>)
    requires forall b <- boots :: Quiet(b, e)
    ensures var (s, k) := After(list, empty, boots); Ran(list, empty, e, 0, k) == Some(s)
  {
    if boots != [] {
      var front, b := boots[..|boots| - 1], boots[|boots| - 1];
      assert boots == front + [b];
      QuietRan(list, empty, e, front);
      var (s, k) := After(list, empty, front);
      assert Quiet(b, e);
      BootResumes(list, empty, front, b);
      RanJoin(list, empty, e, 0, k, After(list, empty, boots).1);
    }
  }

  /** An undisturbed run passes through every state some run reached. */
  lemma {:induction false} CalmPasses<S, E>(list: seq<Migration<S, E>>, s: S, e: E, i: nat, k: nat)
    requires i <= k <= |list| && Ran(list, s, e, i, k).Some?
    ensures Upgraded(list, s, e, i, NoFault()) == Upgraded(list, Ran(list, s, e, i, k).value, e, k, NoFault())
    decreases k - i
  {
    if i < k { CalmPasses(list, list[i].run(s, e).value, e, i + 1, k); }
  }

  /** However many boots were cut short with nothing written between them, one that meets no fault
      leaves the database a single undisturbed run would have left. */
  lemma InterruptedRunsConverge<S(!new), E(!new)>(list: seq<Migration<S, E>>, empty: S, e: E, boots: seq<Boot<S, E>>)
    requires forall b <- boots :: Quiet(b, e)
    ensures var calm := Boot(s => s, e, NoFault());
            After(list, empty, boots + [calm]) == After(list, empty, [calm])
  {
    var calm := Boot(s => s, e, NoFault());
    assert (boots + [calm])[..|boots|] == boots && [calm][..0] == [];
    QuietRan(list, empty, e, boots);
    CalmPasses(list, empty, e, 0, After(list, empty, boots).1);
    assert After(list, empty, [calm]) == Upgraded(list, calm.writes(empty), e, 0, calm.fault);
  }

  // ----- the catalog upsert ---------------------------------------------------------------------

  datatype Entry = Entry(sku: string, name: string, price: nat, position: int, image: Option<string>)

  datatype Product = Product(id: string, name: string, price: nat, position: int, image: string, active: bool,
                             created: int, updated: int)

  type Table = map<string, Product>

  function ImageOf(e: Entry): string {
    if e.image.Some? then e.image.value else "openreceive-" + e.sku + "-button.webp"
  }

  /** Insert, or on a known sku keep the id and creation time and overwrite the rest. */
  function Upsert(rows: Table, e: Entry, id: string, now: int): Table {
    var row := if e.sku in rows then rows[e.sku] else Product(id, "", 0, 0, "", true, now, now);
    rows[e.sku := Product(row.id, e.name, e.price, e.position, ImageOf(e), true, row.created, now)]
  }

  function Seeded(rows: Table, entries: seq<Entry>, ids: seq<string>, now: int): Table
    requires |ids| == |entries|
  {
    if entries == [] then rows
    else
      var n := |entries| - 1;
      Upsert(Seeded(rows, entries[..n], ids[..n], now), entries[n], ids[n], now)
  }

  class ProductTable {
    var rows: Table

    method SeedCatalog(entries: seq<Entry>, ids: seq<string>, now: int)
      requires |ids| == |entries|
      modifies this
      ensures rows == Seeded(old(rows), entries, ids, now)
    {
      for i := 0 to |entries|
        invariant rows == Seeded(old(rows), entries[..i], ids[..i], now)
      {
        assert entries[..i + 1][..i] == entries[..i] && ids[..i + 1][..i] == ids[..i];
        rows := Upsert(rows, entries[i], ids[i], now);
      }
      assert entries[..|entries|] == entries && ids[..|ids|] == ids;
    }
  }

  /** The catalog's entry for a sku; the last one when there are several. */
  function EntryOf(entries: seq<Entry>, sku: string): Option<Entry> {
    if entries == [] then None
    else if entries[|entries| - 1].sku == sku then Some(entries[|entries| - 1])
    else EntryOf(entries[..|entries| - 1], sku)
  }

  /** The fresh id that went with the first entry of a sku. */
  function FirstIdOf(entries: seq<Entry>, ids: seq<string>, sku: string): Option<string>
    requires |ids| == |entries|
  {
    if entries == [] then None
    else
      var n := |entries| - 1;
      var earlier := FirstIdOf(entries[..n], ids[..n], sku);
      if earlier.Some? then earlier else if entries[n].sku == sku then Some(ids[n]) else None
  }

  lemma {:induction false} FirstIdIff(entries: seq<Entry>, ids: seq<string>, sku: string)
    requires |ids| == |entries|
    ensures FirstIdOf(entries, ids, sku).Some? <==> EntryOf(entries, sku).Some?
  {
    if entries != [] {
      var n := |entries| - 1;
      FirstIdIff(entries[..n], ids[..n], sku);
    }
  }

  /** A product shows the entry's own image, or the one its sku is named by. */
  lemma ImageShown(e: Entry)
    ensures ImageOf(e) == match e.image case Some(name) => name case None => "openreceive-" + e.sku + "-button.webp"
  {
  }

  /** After seeding, every catalog sku shows the catalog's name, price, position and image and is
      active, a known one keeps its id and creation time, and no other row moves. */
  lemma {:induction false} SeedingShowsCatalog(rows: Table, entries: seq<Entry>, ids: seq<string>, now: int, sku: string)
    requires |ids| == |entries|
    ensures var seeded := Seeded(rows, entries, ids, now);
            match EntryOf(entries, sku)
            case None => (sku in seeded <==> sku in rows) && (sku in rows ==> seeded[sku] == rows[sku])
            case Some(e) =>
              && sku in seeded
              && seeded[sku] == Product(seeded[sku].id, e.name, e.price, e.position, ImageOf(e), true, seeded[sku].created, now)
              && (sku in rows ==> seeded[sku].id == rows[sku].id && seeded[sku].created == rows[sku].created)
              && (sku !in rows ==> seeded[sku].created == now && FirstIdOf(entries, ids, sku) == Some(seeded[sku].id))
  {
    hide ImageOf;
    if entries != [] {
      var n := |entries| - 1;
      SeedingShowsCatalog(rows, entries[..n], ids[..n], now, sku);
      FirstIdIff(entries[..n], ids[..n], sku);
    }
  }

  function Touched(p: Product, now: int): Product { p.(updated := now) }

  /** Seeding again from the same catalog adds no row and changes nothing but the time stamp. */
  lemma SeedingAgain(rows: Table, entries: seq<Entry>, ids: seq<string>, now: int, ids2: seq<string>, now2: int)
    requires |ids| == |entries| == |ids2|
    ensures var once := Seeded(rows, entries, ids, now);
            Seeded(once, entries, ids2, now2)
            == map sku | sku in once :: if EntryOf(entries, sku).Some? then Touched(once[sku], now2) else once[sku]
  {
    hide Seeded, EntryOf, ImageOf;
    var once := Seeded(rows, entries, ids, now);
    var twice := Seeded(once, entries, ids2, now2);
    forall sku
      ensures sku in twice <==> sku in once
      ensures sku in once ==> twice[sku] == if EntryOf(entries, sku).Some? then Touched(once[sku], now2) else once[sku]
    {
      SeedingShowsCatalog(rows, entries, ids, now, sku);
      SeedingShowsCatalog(once, entries, ids2, now2, sku);
    }
  }
}
