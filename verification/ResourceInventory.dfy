/**
 The resource inventory sweep: every collector over every region, one upsert per resource, and a prune
 of only those types that were read in full. Rows are keyed as the table's primary key has it: account,
 type and resource id.
 */
module ResourceInventory {
  import opened Prelude

  datatype Key = Key(account: string, resourceType: string, resourceId: string)

  datatype Row = Row(region: string, name: string, state: string, metadata: string, collectedAt: int)

  type Table = map<Key, Row>

  datatype Item = Item(region: string, resourceType: string, resourceId: string, name: string, state: string,
                       metadata: string)

  /** What `collectAllRegions` reports, or that it threw. */
  datatype SweepResult = Swept(items: seq<Item>, succeededRegions: seq<string>, failedRegions: seq<string>) | Threw

  datatype Collector = Collector(resourceType: string, isRegional: bool, sweep: SweepResult)

  function KeyOf(account: string, item: Item): Key {
    Key(account, item.resourceType, item.resourceId)
  }

  function RowOf(item: Item, at: int): Row {
    Row(item.region, item.name, item.state, item.metadata, at)
  }

  /** Every region the collector was asked for answered, and none failed. */
  predicate ReadInFull(c: Collector, regions: nat) {
    && c.sweep.Swept?
    && |c.sweep.succeededRegions| == (if c.isRegional then regions else 1)
    && |c.sweep.failedRegions| == 0
  }

  function ItemsOf(sweep: SweepResult): seq<Item> {
    if sweep.Swept? then sweep.items else []
  }

  /** Everything any collector returned, incomplete sweeps included. */
  function AllItems(collectors: seq<Collector>): seq<Item> {
    if |collectors| == 0 then []
    else AllItems(collectors[..|collectors| - 1]) + ItemsOf(collectors[|collectors| - 1].sweep)
  }

  function FullTypes(collectors: seq<Collector>, regions: nat): set<string> {
    set i | 0 <= i < |collectors| && ReadInFull(collectors[i], regions) :: collectors[i].resourceType
  }

  /** A type is read in full when one of its collectors got an answer from every region it was asked for, the
      one global endpoint counting as a region, and a failure from none. */
  lemma ReadInFullMeans(collectors: seq<Collector>, regions: nat, t: string)
    ensures t in FullTypes(collectors, regions) <==>
              exists i :: 0 <= i < |collectors| && AnsweredEverywhere(collectors[i], regions, t)
  {
    if t in FullTypes(collectors, regions) {
      var i :| 0 <= i < |collectors| && ReadInFull(collectors[i], regions) && collectors[i].resourceType == t;
      assert AnsweredEverywhere(collectors[i], regions, t);
    }
    if i :| 0 <= i < |collectors| && AnsweredEverywhere(collectors[i], regions, t) {
      assert ReadInFull(collectors[i], regions);
    }
  }

  predicate AnsweredEverywhere(c: Collector, regions: nat, t: string) {
    && c.resourceType == t
    && match c.sweep
       case Threw => false
       case Swept(_, succeeded, failed) => failed == [] && |succeeded| == if c.isRegional then regions else 1
  }

  lemma {:induction false} AllItemsAppends(a: seq<Collector>, b: seq<Collector>)
    ensures AllItems(a + b) == AllItems(a) + AllItems(b)
  {
    if |b| == 0 {
      assert a + b == a;
    } else {
      assert (a + b)[..|a + b| - 1] == a + b[..|b| - 1];
      AllItemsAppends(a, b[..|b| - 1]);
    }
  }

  lemma AllItemsOfOne(c: Collector)
    ensures AllItems([c]) == match c.sweep case Swept(items, _, _) => items case Threw => []
  {
    assert [c][..0] == [];
  }

  /** Every item that came back is kept, in the collectors' order, whether or not its type was read in full. */
  lemma EveryItemIsKept(before: seq<Collector>, c: Collector, after: seq<Collector>)
    ensures var items := match c.sweep case Swept(items, _, _) => items case Threw => [];
            AllItems(before + [c] + after) == AllItems(before) + items + AllItems(after)
  {
    AllItemsAppends(before + [c], after);
    AllItemsAppends(before, [c]);
    AllItemsOfOne(c);
  }

  function Upserted(table: Table, account: string, items: seq<Item>, at: int): Table {
    if |items| == 0 then table
    else
      var last := items[|items| - 1];
      Upserted(table, account, items[..|items| - 1], at)[KeyOf(account, last) := RowOf(last, at)]
  }

  function Pruned(table: Table, account: string, types: set<string>, olderThan: int): Table {
    map k | && k in table
            && !(k.account == account && k.resourceType in types && table[k].collectedAt < olderThan) :: table[k]
  }

  /** The resources returned this run, as keys. */
  function Returned(account: string, items: seq<Item>): set<Key> {
    set i | 0 <= i < |items| :: KeyOf(account, items[i])
  }

  /** The last returned item with a key decides its row. */
  predicate Decides(account: string, items: seq<Item>, i: nat, k: Key) {
    i < |items| && KeyOf(account, items[i]) == k && forall j :: i < j < |items| ==> KeyOf(account, items[j]) != k
  }

  lemma ReturnedSnoc(account: string, items: seq<Item>, k: Key)
    requires |items| > 0
    ensures k in Returned(account, items)
            <==> k in Returned(account, items[..|items| - 1]) || k == KeyOf(account, items[|items| - 1])
  {
    var n := |items| - 1;
    var fewer := items[..n];
    if k in Returned(account, items) && k != KeyOf(account, items[n]) {
      var j :| 0 <= j < |items| && KeyOf(account, items[j]) == k;
      assert KeyOf(account, fewer[j]) == k;
    }
    if k in Returned(account, fewer) {
      var j :| 0 <= j < n && KeyOf(account, fewer[j]) == k;
      assert KeyOf(account, items[j]) == k;
    }
    assert KeyOf(account, items[n]) in Returned(account, items);
  }

  lemma {:induction false} UpsertedRows(table: Table, account: string, items: seq<Item>, at: int, k: Key)
    ensures k in Upserted(table, account, items, at) <==> k in table || k in Returned(account, items)
    ensures k !in Returned(account, items) && k in table ==> Upserted(table, account, items, at)[k] == table[k]
    ensures k in Returned(account, items) ==> Upserted(table, account, items, at)[k].collectedAt == at
  {
    if |items| > 0 {
      UpsertedRows(table, account, items[..|items| - 1], at, k);
      ReturnedSnoc(account, items, k);
    }
  }

  lemma {:induction false} LastItemDecides(table: Table, account: string, items: seq<Item>, at: int, i: nat)
    requires i < |items| && Decides(account, items, i, KeyOf(account, items[i]))
    ensures var k := KeyOf(account, items[i]);
            k in Upserted(table, account, items, at) && Upserted(table, account, items, at)[k] == RowOf(items[i], at)
  {
    var n := |items| - 1;
    if i < n {
      assert items[..n][i] == items[i];
      LastItemDecides(table, account, items[..n], at, i);
    }
  }

  class ResourceInventoryDAO {
    var table: Table

    constructor (table: Table)
      ensures this.table == table
    {
      this.table := table;
    }

    method UpsertResource(account: string, item: Item, at: int)
      modifies this
      ensures table
              == old(table)[Key(account, item.resourceType, item.resourceId)
                            := Row(item.region, item.name, item.state, item.metadata, at)]
    {
      var row := Row(item.region, item.name, item.state, item.metadata, at);
      table := table[Key(account, item.resourceType, item.resourceId) := row];
    }

    method DeleteStaleResources(account: string, resourceType: string, olderThan: int)
      modifies this
      ensures table == Pruned(old(table), account, {resourceType}, olderThan)
      ensures forall k :: k in table <==>
                && k in old(table)
                && !(k.account == account && k.resourceType == resourceType && old(table)[k].collectedAt < olderThan)
      ensures forall k :: k in table ==> table[k] == old(table)[k]
    {
      table := map k |
        && k in table
        && !(k.account == account && k.resourceType == resourceType && table[k].collectedAt < olderThan) :: table[k];
    }
  }

  /** The first loop: gather what came back, and note the types that were read in full. */
  method GatherSweeps(collectors: seq<Collector>, regions: nat)
    returns (allItems: seq<Item>, collectedTypes: set<string>)
    ensures allItems == AllItems(collectors) && collectedTypes == FullTypes(collectors, regions)
  {
    allItems, collectedTypes := [], {};
    for i := 0 to |collectors|
      invariant allItems == AllItems(collectors[..i])
      invariant collectedTypes == FullTypes(collectors[..i], regions)
    {
      var c := collectors[i];
      assert collectors[..i + 1][..i] == collectors[..i];
      FullTypesSnoc(collectors, regions, i);
      var expectedRegionCount := if c.isRegional then regions else 1;
      match c.sweep {
        case Swept(items, succeeded, failed) =>
          allItems := allItems + items;
          if |succeeded| == expectedRegionCount && |failed| == 0 {
            collectedTypes := collectedTypes + {c.resourceType};
          }
        case Threw =>
      }
    }
    assert collectors[..|collectors|] == collectors;
  }

  /** The first `writes` statements go through; the next one throws. */
  method UpsertAll(dao: ResourceInventoryDAO, account: string, items: seq<Item>, at: int, writes: nat)
    returns (done: bool)
    modifies dao
    ensures done <==> |items| <= writes
    ensures dao.table == Upserted(old(dao.table), account, items[..if done then |items| else writes], at)
  {
    for i := 0 to |items|
      invariant i <= writes
      invariant dao.table == Upserted(old(dao.table), account, items[..i], at)
    {
      if i == writes { return false; }
      dao.UpsertResource(account, items[i], at);
      assert items[..i + 1][..i] == items[..i];
    }
    return true;
  }

  method PruneTypes(dao: ResourceInventoryDAO, account: string, types: set<string>, at: int, writes: nat)
    returns (done: bool, ghost pruned: set<string>)
    modifies dao
    ensures done <==> |types| <= writes
    ensures pruned <= types && (if done then pruned == types else |pruned| == writes)
    ensures dao.table == Pruned(old(dao.table), account, pruned, at)
  {
    var todo := types;
    var left := writes;
    pruned := {};
    PruneNothing(dao.table, account, at);
    while todo != {}
      invariant pruned + todo == types && pruned * todo == {}
      invariant |pruned| + left == writes
      invariant dao.table == Pruned(old(dao.table), account, pruned, at)
      decreases todo
    {
      if left == 0 {
        assert |types| == |pruned| + |todo|;
        return false, pruned;
      }
      var t :| t in todo;
      PruneOneMore(old(dao.table), account, pruned, t, at);
      dao.DeleteStaleResources(account, t, at);
      pruned, todo, left := pruned + {t}, todo - {t}, left - 1;
    }
    return true, pruned;
  }

  /** `collectForAccount` over a database whose first `writes` statements go through. */
  method CollectForAccount(dao: ResourceInventoryDAO, account: string, collectors: seq<Collector>, regions: nat,
                           at: int, writes: nat)
    returns (count: Option<nat>, ghost pruned: set<string>)
    modifies dao
    ensures dao.table == BrokenOff(old(dao.table), account, AllItems(collectors), at, writes, pruned)
    ensures BreaksAt(AllItems(collectors), FullTypes(collectors, regions), writes, pruned)
    ensures if |AllItems(collectors)| + |FullTypes(collectors, regions)| <= writes
            then
              && count == Some(|AllItems(collectors)|)
              && dao.table == Sweep(old(dao.table), account, collectors, regions, at)
            else count == None
  {
    var allItems, collectedTypes := GatherSweeps(collectors, regions);
    PruneNothing(Upserted(dao.table, account, allItems[..if |allItems| <= writes then |allItems| else writes], at),
                 account, at);
    var upserted := UpsertAll(dao, account, allItems, at, writes);
    pruned := {};
    if !upserted { return None, pruned; }
    assert allItems[..|allItems|] == allItems;
    var done;
    done, pruned := PruneTypes(dao, account, collectedTypes, at, writes - |allItems|);
    return if done then Some(|allItems|) else None, pruned;
  }

  /** The table after `writes` statements of a sweep, of which the prunes took the types in `pruned`. */
  function BrokenOff(table: Table, account: string, items: seq<Item>, at: int, writes: nat,
                     pruned: set<string>): Table {
    Pruned(Upserted(table, account, items[..if |items| <= writes then |items| else writes], at), account, pruned, at)
  }

  /** Prunes come after all upserts, and only for types that were read in full. */
  predicate BreaksAt(items: seq<Item>, types: set<string>, writes: nat, pruned: set<string>) {
    && pruned <= types
    && (writes < |items| ==> pruned == {})
    && (|items| <= writes < |items| + |types| ==> |pruned| == writes - |items|)
    && (|items| + |types| <= writes ==> pruned == types)
  }

  lemma PruneOneMore(table: Table, account: string, types: set<string>, t: string, at: int)
    ensures Pruned(Pruned(table, account, types, at), account, {t}, at) == Pruned(table, account, types + {t}, at)
  {}

  lemma PruneNothing(table: Table, account: string, at: int)
    ensures Pruned(table, account, {}, at) == table
  {}

  lemma FullTypesSnoc(collectors: seq<Collector>, regions: nat, i: nat)
    requires i < |collectors|
    ensures FullTypes(collectors[..i + 1], regions)
         == FullTypes(collectors[..i], regions)
            + (if ReadInFull(collectors[i], regions) then {collectors[i].resourceType} else {})
  {
    var longer, shorter := collectors[..i + 1], collectors[..i];
    forall t | t in FullTypes(shorter, regions) ensures t in FullTypes(longer, regions) {
      var j :| 0 <= j < |shorter| && ReadInFull(shorter[j], regions) && shorter[j].resourceType == t;
      assert longer[j] == shorter[j];
    }
    forall t | t in FullTypes(longer, regions)
      ensures || t in FullTypes(shorter, regions)
              || (ReadInFull(collectors[i], regions) && t == collectors[i].resourceType)
    {
      var j :| 0 <= j < |longer| && ReadInFull(longer[j], regions) && longer[j].resourceType == t;
      if j < i { assert shorter[j] == longer[j]; }
    }
    if ReadInFull(collectors[i], regions) {
      assert longer[i] == collectors[i];
    }
  }

  function Sweep(table: Table, account: string, collectors: seq<Collector>, regions: nat, at: int): Table {
    Pruned(Upserted(table, account, AllItems(collectors), at), account, FullTypes(collectors, regions), at)
  }

  /** A row the sweep may take: the account's own, of a type read in full, and older than the run. */
  predicate Stale(account: string, fullTypes: set<string>, older: bool, k: Key) {
    k.account == account && k.resourceType in fullTypes && older
  }

  /** Prune only what was fully read. A key is there afterwards exactly when it was returned, or was there
      before and is another account's, or of a type not read in full, or stamped no earlier than this run. */
  lemma SweepKeeps(table: Table, account: string, collectors: seq<Collector>, regions: nat, at: int, k: Key)
    ensures k in Sweep(table, account, collectors, regions, at) <==>
              || k in Returned(account, AllItems(collectors))
              || (k in table && !Stale(account, FullTypes(collectors, regions), table[k].collectedAt < at, k))
    ensures k !in Returned(account, AllItems(collectors)) && k in Sweep(table, account, collectors, regions, at) ==>
              Sweep(table, account, collectors, regions, at)[k] == table[k]
    ensures forall i: nat :: Decides(account, AllItems(collectors), i, k) ==>
              && k in Sweep(table, account, collectors, regions, at)
              && Sweep(table, account, collectors, regions, at)[k] == RowOf(AllItems(collectors)[i], at)
  {
    UpsertedRows(table, account, AllItems(collectors), at, k);
    forall i: nat | Decides(account, AllItems(collectors), i, k)
      ensures k in Sweep(table, account, collectors, regions, at)
      ensures Sweep(table, account, collectors, regions, at)[k] == RowOf(AllItems(collectors)[i], at)
    {
      LastItemDecides(table, account, AllItems(collectors), at, i);
    }
  }

  function KeysOf(table: Table, account: string, resourceType: string): set<Key> {
    set k | k in table && k.account == account && k.resourceType == resourceType
  }

  function ReturnedOf(account: string, items: seq<Item>, resourceType: string): set<Key> {
    set k | k in Returned(account, items) && k.resourceType == resourceType
  }

  /** A type read in full has exactly the rows returned this run, precisely when no unreturned row of it
      carries this run's stamp or a later one; a sweep stamped after all stored rows always qualifies. */
  lemma FullTypeHoldsExactlyWhatWasReturned(table: Table, account: string, collectors: seq<Collector>, regions: nat,
                                            at: int, t: string)
    requires t in FullTypes(collectors, regions)
    ensures KeysOf(Sweep(table, account, collectors, regions, at), account, t)
            == ReturnedOf(account, AllItems(collectors), t)
        <==> forall k :: k in KeysOf(table, account, t) && k !in Returned(account, AllItems(collectors)) ==>
            table[k].collectedAt < at
  {
    var after := Sweep(table, account, collectors, regions, at);
    var items := AllItems(collectors);
    forall k
      ensures k in after <==>
                || k in Returned(account, items)
                || (k in table && !Stale(account, FullTypes(collectors, regions), table[k].collectedAt < at, k))
    {
      SweepKeeps(table, account, collectors, regions, at, k);
    }
    if forall k :: k in KeysOf(table, account, t) && k !in Returned(account, items) ==> table[k].collectedAt < at {
      forall k ensures k in KeysOf(after, account, t) <==> k in ReturnedOf(account, items, t) {
        if k in Returned(account, items) { assert k.account == account; }
        if k in table && k.account == account && k.resourceType == t { assert k in KeysOf(table, account, t); }
      }
    } else {
      var k :| k in KeysOf(table, account, t) && k !in Returned(account, items) && table[k].collectedAt >= at;
      assert k in KeysOf(after, account, t) && k !in ReturnedOf(account, items, t);
    }
  }

  /** A type that failed anywhere loses no stored key, and other accounts' rows are untouched. */
  lemma PartialTypesLoseNothing(table: Table, account: string, collectors: seq<Collector>, regions: nat, at: int,
                                k: Key)
    requires k in table && (k.account != account || k.resourceType !in FullTypes(collectors, regions))
    ensures k in Sweep(table, account, collectors, regions, at)
    ensures k.account != account ==> Sweep(table, account, collectors, regions, at)[k] == table[k]
  {
    SweepKeeps(table, account, collectors, regions, at, k);
    if k in Returned(account, AllItems(collectors)) { assert k.account == account; }
  }

  /** So a failed or missing region costs a type nothing: while none of its collectors was answered everywhere,
      every stored row of it stays, and those that did not come back stay as they were. */
  lemma FailedRegionsLoseNothing(table: Table, account: string, collectors: seq<Collector>, regions: nat, at: int,
                                 k: Key)
    requires k in table
    requires forall i :: 0 <= i < |collectors| ==> !AnsweredEverywhere(collectors[i], regions, k.resourceType)
    ensures k in Sweep(table, account, collectors, regions, at)
    ensures k !in Returned(account, AllItems(collectors)) ==>
              Sweep(table, account, collectors, regions, at)[k] == table[k]
  {
    ReadInFullMeans(collectors, regions, k.resourceType);
    PartialTypesLoseNothing(table, account, collectors, regions, at, k);
    SweepKeeps(table, account, collectors, regions, at, k);
  }

  /** Sweeping again with the same answers changes stamps only. */
  lemma SecondSweepKeepsKeys(table: Table, account: string, collectors: seq<Collector>, regions: nat, at: int,
                             later: int)
    requires at < later && forall k :: k in table ==> table[k].collectedAt < at
    ensures var once := Sweep(table, account, collectors, regions, at);
            Sweep(once, account, collectors, regions, later).Keys == once.Keys
  {
    var once := Sweep(table, account, collectors, regions, at);
    forall k ensures k in Sweep(once, account, collectors, regions, later) <==> k in once {
      SweepKeeps(table, account, collectors, regions, at, k);
      SweepKeeps(once, account, collectors, regions, later, k);
    }
  }

  lemma BrokenOffKeeps(table: Table, account: string, collectors: seq<Collector>, regions: nat, at: int,
                       writes: nat, pruned: set<string>, k: Key)
    requires BreaksAt(AllItems(collectors), FullTypes(collectors, regions), writes, pruned)
    ensures var after := BrokenOff(table, account, AllItems(collectors), at, writes, pruned);
            && (k in after ==> k in table || k in Returned(account, AllItems(collectors)))
            && (k in table && k in Returned(account, AllItems(collectors)) ==> k in after)
            && (k in table && k.account != account ==> k in after)
            && (k in table && k.resourceType !in FullTypes(collectors, regions) ==> k in after)
            && (k in after && k !in Returned(account, AllItems(collectors)) ==> after[k] == table[k])
  {
    var items := AllItems(collectors);
    var n := if |items| <= writes then |items| else writes;
    UpsertedRows(table, account, items[..n], at, k);
    if k in Returned(account, items[..n]) {
      var j :| 0 <= j < n && KeyOf(account, items[..n][j]) == k;
      assert KeyOf(account, items[j]) == k;
    }
    assert n == |items| ==> items[..n] == items;
    if k in Returned(account, items) { assert k.account == account; }
  }

  /** A sweep that the database breaks off loses no key that the whole sweep keeps, and sweeping again with
      the same answers leaves the same keys as if nothing had been broken off. */
  lemma BrokenSweepRecovers(table: Table, account: string, collectors: seq<Collector>, regions: nat, at: int,
                            later: int,
                            writes: nat, pruned: set<string>)
    requires BreaksAt(AllItems(collectors), FullTypes(collectors, regions), writes, pruned)
    requires at < later && forall k :: k in table ==> table[k].collectedAt < at
    ensures var broken := BrokenOff(table, account, AllItems(collectors), at, writes, pruned);
            && (forall k :: k in table && k in Sweep(table, account, collectors, regions, at) ==> k in broken)
            && Sweep(broken, account, collectors, regions, later).Keys
                == Sweep(table, account, collectors, regions, at).Keys
  {
    var broken := BrokenOff(table, account, AllItems(collectors), at, writes, pruned);
    forall k ensures k in table && k in Sweep(table, account, collectors, regions, at) ==> k in broken {
      BrokenOffKeeps(table, account, collectors, regions, at, writes, pruned, k);
      SweepKeeps(table, account, collectors, regions, at, k);
    }
    forall k
      ensures k in Sweep(broken, account, collectors, regions, later)
              <==> k in Sweep(table, account, collectors, regions, at)
    {
      BrokenOffKeeps(table, account, collectors, regions, at, writes, pruned, k);
      SweepKeeps(table, account, collectors, regions, at, k);
      SweepKeeps(broken, account, collectors, regions, later, k);
    }
  }
}
