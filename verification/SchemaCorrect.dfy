/**
 Applying the diff of two schemas to the first gives the second, exactly when no rename
 runs into a name still in use.
 */
module SchemaCorrect {
  import opened Base
  import opened KeyedMaps
  import opened SchemaDiff
  import opened SchemaApply
  import opened ColumnDiff

  type TableEntries = map<int, (Identifier, Columns)>

  type IndexEntries = map<string, (Identifier, IndexDef)>

  // ---- Schemas ---------------------------------------------------------------

  /** The table an index belongs to. */
  function HomeOf(index: Index): Identifier {
    Identifier(index.id.schema, index.tableName)
  }

  predicate HasColumn(t: Table, name: string) {
    exists p | p in t.columns :: t.columns[p].name == name
  }

  /** Names are unique, and every index lies on an existing table and existing columns. */
  ghost predicate WellFormed(s: Schema) {
    && (forall o | o in s.tables :: DistinctColumns(s.tables[o]))
    && (forall o, o' | o in s.tables && o' in s.tables && s.tables[o].id == s.tables[o'].id :: o == o')
    && (forall k | k in s.indexes :: IndexKey(s.indexes[k].id) == k && IndexIsPlaced(s, s.indexes[k]))
  }

  ghost predicate IndexIsPlaced(s: Schema, index: Index) {
    exists o | o in s.tables ::
      s.tables[o].id == HomeOf(index) && forall c | 0 <= c < |index.columns| :: HasColumn(s.tables[o], index.columns[c].0)
  }

  ghost function TableEntry(t: Table): (Identifier, Columns)
    requires DistinctColumns(t)
  {
    (t.id, ColumnsOf(t))
  }

  ghost function TablesOf(s: Schema): (m: TableEntries)
    requires WellFormed(s)
    ensures Injective(m)
  {
    map o | o in s.tables :: TableEntry(s.tables[o])
  }

  function IndexEntry(index: Index): (Identifier, IndexDef) {
    (index.id, IndexDef(HomeOf(index), index.unique, index.columns))
  }

  ghost function IndexesOf(s: Schema): (m: IndexEntries)
    requires WellFormed(s)
    ensures Injective(m)
  {
    map k | k in s.indexes :: IndexEntry(s.indexes[k])
  }

  /** What a replica of the schema looks like. */
  ghost function CatalogOf(s: Schema): Catalog
    requires WellFormed(s)
  {
    Catalog(ByName(TablesOf(s)), ByName(IndexesOf(s)))
  }

  // ---- When the diff applies -------------------------------------------------

  predicate Kept(prev: Schema, next: Schema, o: int) {
    o in prev.tables && o in next.tables
  }

  /** No kept table takes the name that a kept table after it had before, and likewise for the columns of each. */
  ghost predicate NoClash(prev: Schema, next: Schema) {
    && (forall o, o' | Kept(prev, next, o) && Kept(prev, next, o') && o < o' :: next.tables[o].id != prev.tables[o'].id)
    && (forall o | Kept(prev, next, o) :: NoColumnClash(prev.tables[o], next.tables[o]))
  }

  /** An index the diff leaves alone stays on table `o` and on the same columns of it. */
  ghost predicate StaysOn(prev: Schema, next: Schema, key: string, o: int)
    requires KeptIndex(prev, next, key)
  {
    && Kept(prev, next, o)
    && prev.tables[o].id == HomeOf(prev.indexes[key]) && next.tables[o].id == HomeOf(next.indexes[key])
    && (forall c | 0 <= c < |prev.indexes[key].columns| :: KeepsColumn(prev.tables[o], next.tables[o], prev.indexes[key].columns[c].0))
  }

  ghost predicate KeepsColumn(prev: Table, next: Table, name: string) {
    exists p | p in prev.columns && p in next.columns :: prev.columns[p].name == name == next.columns[p].name
  }

  /** No index the diff leaves alone moved to another table or other columns, and equal dotted names mean the same index. */
  ghost predicate IndexesStay(prev: Schema, next: Schema) {
    forall k | KeptIndex(prev, next, k) :: prev.indexes[k].id == next.indexes[k].id && exists o :: StaysOn(prev, next, k, o)
  }

  // ---- Where column changes come from ----------------------------------------

  ghost predicate DropsColumn(prev: Table, next: Table, p: int, name: string) {
    p in prev.columns && p !in next.columns && prev.columns[p].name == name
  }

  /** Dropped and updated columns are columns of the previous table. */
  ghost predicate Originates(prev: Table, next: Table, change: Change) {
    && IsColumnChange(change) && change.table == next.id
    && (change.DropColumn? ==> exists p :: DropsColumn(prev, next, p, change.name))
    && (change.UpdateColumn? ==> exists p | p in prev.columns && p in next.columns :: prev.columns[p] == change.from && next.columns[p] == change.to)
  }

  ghost predicate AllOriginate(prev: Table, next: Table, changes: seq<Change>) {
    forall c | 0 <= c < |changes| :: Originates(prev, next, changes[c])
  }

  lemma AllOriginateConcat(prev: Table, next: Table, a: seq<Change>, b: seq<Change>)
    requires AllOriginate(prev, next, a) && AllOriginate(prev, next, b)
    ensures AllOriginate(prev, next, a + b)
  {
  }

  lemma {:induction false} DropsOriginate(keys: seq<int>, prev: Table, next: Table)
    requires forall i | 0 <= i < |keys| :: keys[i] in prev.columns
    ensures AllOriginate(prev, next, ColumnDrops(keys, prev, next))
  {
    if keys != [] {
      DropsOriginate(keys[1..], prev, next);
      var change := DropColumn(next.id, prev.columns[keys[0]].name);
      var first := if keys[0] in next.columns then [] else [change];
      if keys[0] !in next.columns {
        assert DropsColumn(prev, next, keys[0], change.name);
      }
      AllOriginateConcat(prev, next, first, ColumnDrops(keys[1..], prev, next));
    }
  }

  lemma {:induction false} UpdatesOriginate(keys: seq<int>, prev: Table, next: Table)
    requires forall i | 0 <= i < |keys| :: keys[i] in next.columns
    ensures AllOriginate(prev, next, ColumnUpdates(keys, prev, next))
  {
    if keys != [] {
      UpdatesOriginate(keys[1..], prev, next);
      var p := keys[0];
      var first := if p in prev.columns && ColumnChanged(prev.columns[p], next.columns[p])
                   then [UpdateColumn(next.id, prev.columns[p], next.columns[p])] else [];
      AllOriginateConcat(prev, next, first, ColumnUpdates(keys[1..], prev, next));
    }
  }

  lemma {:induction false} AddsOriginate(keys: seq<int>, prev: Table, next: Table)
    requires forall i | 0 <= i < |keys| :: keys[i] in next.columns
    ensures AllOriginate(prev, next, ColumnAdds(keys, prev, next))
  {
    if keys != [] {
      AddsOriginate(keys[1..], prev, next);
      var first := if keys[0] in prev.columns then [] else [AddColumn(next.id, next.columns[keys[0]])];
      AllOriginateConcat(prev, next, first, ColumnAdds(keys[1..], prev, next));
    }
  }

  lemma ChangesOriginate(prev: Table, next: Table)
    ensures AllOriginate(prev, next, ColumnChanges(prev, next))
  {
    DropsOriginate(Positions(prev.columns), prev, next);
    UpdatesOriginate(Positions(next.columns), prev, next);
    AddsOriginate(Positions(next.columns), prev, next);
    var drops := ColumnDrops(Positions(prev.columns), prev, next);
    var updates := ColumnUpdates(Positions(next.columns), prev, next);
    var adds := ColumnAdds(Positions(next.columns), prev, next);
    AllOriginateConcat(prev, next, updates, adds);
    AllOriginateConcat(prev, next, drops, updates + adds);
  }

  lemma KeptColumnIsNotRenamed(prev: Table, next: Table, change: Change, name: string)
    requires DistinctColumns(prev) && Originates(prev, next, change) && KeepsColumn(prev, next, name)
    ensures !Renames(change, name)
  {
    var p :| p in prev.columns && p in next.columns && prev.columns[p].name == name == next.columns[p].name;
    if change.DropColumn? && change.name == name {
      var q :| DropsColumn(prev, next, q, change.name);
      DistinctPositions(prev, p, q);
    }
    if change.UpdateColumn? && change.from.name == name {
      var q :| q in prev.columns && q in next.columns && prev.columns[q] == change.from && next.columns[q] == change.to;
      DistinctPositions(prev, p, q);
    }
  }

  // ---- Indexes that ride along -----------------------------------------------

  /** Indexes the diff leaves alone, each with the table it stays on. */
  type Homes = map<string, int>

  ghost predicate HomesFit(prev: Schema, next: Schema, homes: Homes) {
    forall k | k in homes :: KeptIndex(prev, next, k) && StaysOn(prev, next, k, homes[k])
  }

  /** All indexes the diff leaves alone. */
  ghost predicate HomesOfAll(prev: Schema, next: Schema, homes: Homes) {
    HomesFit(prev, next, homes) && forall k :: k in homes <==> KeptIndex(prev, next, k)
  }

  lemma FindHomes(prev: Schema, next: Schema) returns (homes: Homes)
    requires IndexesStay(prev, next)
    ensures HomesOfAll(prev, next, homes)
  {
    homes := map k | k in prev.indexes && KeptIndex(prev, next, k) :: var o :| StaysOn(prev, next, k, o); o;
  }

  /** Those indexes, on the tables as they are named at the moment. */
  ghost function Placed(prev: Schema, homes: Homes, m: TableEntries): IndexEntries
    requires forall k | k in homes :: k in prev.indexes && homes[k] in m
  {
    map k | k in homes :: (prev.indexes[k].id, IndexDef(m[homes[k]].0, prev.indexes[k].unique, prev.indexes[k].columns))
  }

  lemma PlacedIsInjective(prev: Schema, homes: Homes, m: TableEntries)
    requires WellFormed(prev) && forall k | k in homes :: k in prev.indexes && homes[k] in m
    ensures Injective(Placed(prev, homes, m))
  {
    var j := Placed(prev, homes, m);
    forall k, k' | k in j && k' in j && j[k].0 == j[k'].0 ensures k == k' {
      assert IndexKey(prev.indexes[k].id) == k && IndexKey(prev.indexes[k'].id) == k';
    }
  }

  /** The catalog part way through the diff. */
  ghost function Midway(prev: Schema, homes: Homes, m: TableEntries): Catalog
    requires WellFormed(prev) && Injective(m) && forall k | k in homes :: k in prev.indexes && homes[k] in m
  {
    PlacedIsInjective(prev, homes, m);
    Catalog(ByName(m), ByName(Placed(prev, homes, m)))
  }

  ghost predicate HomesIn(prev: Schema, homes: Homes, m: TableEntries) {
    forall k | k in homes :: k in prev.indexes && homes[k] in m
  }

  /** Every index of the catalog midway is one of those placed. */
  lemma PlacedIndex(prev: Schema, homes: Homes, m: TableEntries, i: Identifier) returns (k: string)
    requires WellFormed(prev) && Injective(m) && HomesIn(prev, homes, m) && i in Midway(prev, homes, m).indexes
    ensures k in homes && Midway(prev, homes, m).indexes[i] == Placed(prev, homes, m)[k].1
  {
    var j := Placed(prev, homes, m);
    PlacedIsInjective(prev, homes, m);
    NamesIn(j, i);
    k := EntryOf(j, i);
    NameLookup(j, k);
  }

  // ---- Dropping tables -------------------------------------------------------

  lemma NoIndexOnIt(prev: Schema, homes: Homes, m: TableEntries, o: int)
    requires WellFormed(prev) && Injective(m) && HomesIn(prev, homes, m) && o in m && o !in homes.Values
    ensures Without(Midway(prev, homes, m).indexes, m[o].0) == Midway(prev, homes, m).indexes
  {
    var indexes := Midway(prev, homes, m).indexes;
    forall i | i in indexes ensures indexes[i].table != m[o].0 {
      var k := PlacedIndex(prev, homes, m, i);
      assert homes[k] in homes.Values;
    }
  }

  lemma PlacedWithout(prev: Schema, homes: Homes, m: TableEntries, o: int)
    requires HomesIn(prev, homes, m) && o in m && o !in homes.Values
    ensures HomesIn(prev, homes, m - {o}) && Placed(prev, homes, m - {o}) == Placed(prev, homes, m)
  {
    forall k | k in homes ensures homes[k] in m - {o} {
      assert homes[k] in homes.Values;
    }
  }

  lemma DropTableApplies(prev: Schema, homes: Homes, m: TableEntries, o: int)
    requires WellFormed(prev) && Injective(m) && HomesIn(prev, homes, m) && o in m && o !in homes.Values
    ensures Injective(m - {o}) && HomesIn(prev, homes, m - {o})
    ensures Apply(Midway(prev, homes, m), DropTable(m[o].0)) == Some(Midway(prev, homes, m - {o}))
  {
    RemoveByName(m, o);
    NameLookup(m, o);
    PlacedWithout(prev, homes, m, o);
    NoIndexOnIt(prev, homes, m, o);
  }

  /** Part way through the table drops. */
  ghost predicate DroppingTables(keys: seq<int>, prev: Schema, next: Schema, m: TableEntries) {
    && AscendingKeys(keys) && Injective(m) && WellFormed(prev)
    && (forall i | 0 <= i < |keys| :: keys[i] in prev.tables)
    && (forall o :: o in m <==> o in prev.tables && (o in keys || o in next.tables))
    && (forall o | o in m :: m[o] == TableEntry(prev.tables[o]))
  }

  lemma HomesSurviveDrops(keys: seq<int>, prev: Schema, next: Schema, homes: Homes, m: TableEntries)
    requires DroppingTables(keys, prev, next, m) && HomesFit(prev, next, homes)
    ensures HomesIn(prev, homes, m)
    ensures forall o | o in homes.Values :: o in next.tables
  {
  }

  lemma DropTableKeepsDropping(keys: seq<int>, prev: Schema, next: Schema, m: TableEntries)
    requires DroppingTables(keys, prev, next, m) && keys != [] && keys[0] !in next.tables && Injective(m - {keys[0]})
    ensures DroppingTables(keys[1..], prev, next, m - {keys[0]})
  {
    SplitKeys(keys);
  }

  lemma ApplyFirstChange(cat: Catalog, change: Change, rest: seq<Change>)
    ensures ApplyAll(cat, [change] + rest) == (var next := Apply(cat, change); if next.Some? then ApplyAll(next.value, rest) else None)
  {
    assert ([change] + rest)[1..] == rest;
  }

  lemma {:induction false} TableDropsApply(keys: seq<int>, prev: Schema, next: Schema, homes: Homes, m: TableEntries) returns (m': TableEntries)
    requires DroppingTables(keys, prev, next, m) && HomesFit(prev, next, homes)
    ensures DroppingTables([], prev, next, m') && HomesIn(prev, homes, m) && HomesIn(prev, homes, m')
    ensures ApplyAll(Midway(prev, homes, m), TableDrops(keys, prev, next)) == Some(Midway(prev, homes, m'))
  {
    HomesSurviveDrops(keys, prev, next, homes, m);
    m' := m;
    if keys != [] {
      var o, rest := keys[0], TableDrops(keys[1..], prev, next);
      if o in next.tables {
        SplitKeys(keys);
        m' := TableDropsApply(keys[1..], prev, next, homes, m);
        assert TableDrops(keys, prev, next) == rest;
      } else {
        assert o in keys && m[o].0 == prev.tables[o].id;
        DropTableApplies(prev, homes, m, o);
        DropTableKeepsDropping(keys, prev, next, m);
        m' := TableDropsApply(keys[1..], prev, next, homes, m - {o});
        ApplyFirstChange(Midway(prev, homes, m), DropTable(prev.tables[o].id), rest);
      }
    }
  }

  // ---- Altering tables -------------------------------------------------------

  lemma RetargetOne(prev: Schema, homes: Homes, m: TableEntries, o: int, name: Identifier, k: string)
    requires Injective(m) && HomesIn(prev, homes, m) && o in m && k in homes
    ensures var j, j' := Placed(prev, homes, m), Placed(prev, homes, m[o := (name, m[o].1)]);
            && j[k].0 == j'[k].0
            && j'[k].1 == if j[k].1.table == m[o].0 then j[k].1.(table := name) else j[k].1
  {
  }

  /** An index placed on a renamed table follows it, and no other does. */
  lemma RetargetPlaced(prev: Schema, homes: Homes, m: TableEntries, o: int, name: Identifier)
    requires WellFormed(prev) && Injective(m) && HomesIn(prev, homes, m) && o in m && Injective(m[o := (name, m[o].1)])
    ensures Retarget(Midway(prev, homes, m).indexes, m[o].0, name) == Midway(prev, homes, m[o := (name, m[o].1)]).indexes
  {
    var j, j' := Placed(prev, homes, m), Placed(prev, homes, m[o := (name, m[o].1)]);
    PlacedIsInjective(prev, homes, m);
    PlacedIsInjective(prev, homes, m[o := (name, m[o].1)]);
    var target := Retarget(ByName(j), m[o].0, name);
    forall k | k in j' ensures j'[k].0 in target && target[j'[k].0] == j'[k].1 {
      RetargetOne(prev, homes, m, o, name, k);
      NameLookup(j, k);
    }
    forall i | i in target ensures NameIn(j', i) {
      NamesIn(j, i);
      var k := EntryOf(j, i);
      RetargetOne(prev, homes, m, o, name, k);
    }
    IsByName(j', target);
  }

  lemma RenameByName(m: TableEntries, indexes: Indexes, o: int, name: Identifier)
    requires Injective(m) && o in m && name != m[o].0
    ensures var m' := m[o := (name, m[o].1)];
            var result := Apply(Catalog(ByName(m), indexes), RenameTable(m[o].0, name));
            if NameIn(m, name) then result == None
            else Injective(m') && result == Some(Catalog(ByName(m'), Retarget(indexes, m[o].0, name)))
  {
    NameLookup(m, o);
    NamesIn(m, name);
    if !NameIn(m, name) {
      UpdateByName(m, o, name, m[o].1);
    }
  }

  lemma RenameTableApplies(prev: Schema, homes: Homes, m: TableEntries, o: int, name: Identifier)
    requires WellFormed(prev) && Injective(m) && HomesIn(prev, homes, m) && o in m && name != m[o].0
    ensures var m' := m[o := (name, m[o].1)];
            var result := Apply(Midway(prev, homes, m), RenameTable(m[o].0, name));
            if NameIn(m, name) then result == None else Injective(m') && result == Some(Midway(prev, homes, m'))
  {
    RenameByName(m, Midway(prev, homes, m).indexes, o, name);
    if !NameIn(m, name) {
      RetargetPlaced(prev, homes, m, o, name);
    }
  }

  /** No index on the table stands in the way of its column changes. */
  lemma IndexesDoNotMind(prev: Schema, next: Schema, homes: Homes, m: TableEntries, o: int)
    requires WellFormed(prev) && WellFormed(next) && Injective(m) && HomesIn(prev, homes, m) && HomesFit(prev, next, homes)
    requires Kept(prev, next, o) && o in m && m[o].0 == next.tables[o].id
    ensures IndexesUntouched(Midway(prev, homes, m).indexes, next.tables[o].id, ColumnChanges(prev.tables[o], next.tables[o]))
  {
    var indexes, changes := Midway(prev, homes, m).indexes, ColumnChanges(prev.tables[o], next.tables[o]);
    ChangesOriginate(prev.tables[o], next.tables[o]);
    forall i, c, k | i in indexes && indexes[i].table == next.tables[o].id && 0 <= c < |changes| && 0 <= k < |indexes[i].columns|
      ensures !Renames(changes[c], indexes[i].columns[k].0)
    {
      var key := PlacedIndex(prev, homes, m, i);
      assert homes[key] == o;
      assert StaysOn(prev, next, key, o);
      KeptColumnIsNotRenamed(prev.tables[o], next.tables[o], changes[c], indexes[i].columns[k].0);
    }
  }

  lemma ColumnChangesOnCatalog(prev: Schema, next: Schema, homes: Homes, m: TableEntries, o: int)
    requires WellFormed(prev) && WellFormed(next) && Injective(m) && HomesIn(prev, homes, m) && HomesFit(prev, next, homes)
    requires Kept(prev, next, o) && o in m && m[o] == (next.tables[o].id, ColumnsOf(prev.tables[o]))
    ensures var p, n, cat := prev.tables[o], next.tables[o], Midway(prev, homes, m);
            ApplyAll(cat, ColumnChanges(p, n)) == if NoColumnClash(p, n) then Some(Catalog(ByName(m)[n.id := ColumnsOf(n)], cat.indexes)) else None
  {
    var p, n := prev.tables[o], next.tables[o];
    NameLookup(m, o);
    IndexesDoNotMind(prev, next, homes, m, o);
    ChangesOriginate(p, n);
    ApplyOnTable(Midway(prev, homes, m), ColumnChanges(p, n), n.id);
    ColumnDiffIsExact(p, n);
  }

  lemma PlacedByNames(prev: Schema, homes: Homes, m: TableEntries, m': TableEntries)
    requires HomesIn(prev, homes, m) && HomesIn(prev, homes, m')
    requires forall k | k in homes :: m[homes[k]].0 == m'[homes[k]].0
    ensures Placed(prev, homes, m) == Placed(prev, homes, m')
  {
  }

  lemma SamePlaces(prev: Schema, homes: Homes, m: TableEntries, o: int, columns: Columns)
    requires HomesIn(prev, homes, m) && o in m
    ensures HomesIn(prev, homes, m[o := (m[o].0, columns)])
    ensures Placed(prev, homes, m[o := (m[o].0, columns)]) == Placed(prev, homes, m)
  {
    PlacedByNames(prev, homes, m, m[o := (m[o].0, columns)]);
  }

  lemma MidwayWithColumns(prev: Schema, homes: Homes, m: TableEntries, o: int, columns: Columns)
    requires WellFormed(prev) && Injective(m) && HomesIn(prev, homes, m) && o in m
    ensures var m' := m[o := (m[o].0, columns)];
            && Injective(m')
            && Midway(prev, homes, m') == Catalog(ByName(m)[m[o].0 := columns], Midway(prev, homes, m).indexes)
  {
    ReplaceByName(m, o, columns);
    SamePlaces(prev, homes, m, o, columns);
  }

  lemma ColumnChangesApply(prev: Schema, next: Schema, homes: Homes, m: TableEntries, o: int)
    requires WellFormed(prev) && WellFormed(next) && Injective(m) && HomesIn(prev, homes, m) && HomesFit(prev, next, homes)
    requires Kept(prev, next, o) && o in m && m[o] == (next.tables[o].id, ColumnsOf(prev.tables[o]))
    ensures var p, n := prev.tables[o], next.tables[o];
            var m' := m[o := TableEntry(n)];
            && Injective(m')
            && ApplyAll(Midway(prev, homes, m), ColumnChanges(p, n)) == if NoColumnClash(p, n) then Some(Midway(prev, homes, m')) else None
  {
    ColumnChangesOnCatalog(prev, next, homes, m, o);
    MidwayWithColumns(prev, homes, m, o, ColumnsOf(next.tables[o]));
  }

  /** One kept table: rename, then columns. */
  lemma TableChangesApply(prev: Schema, next: Schema, homes: Homes, m: TableEntries, o: int)
    requires WellFormed(prev) && WellFormed(next) && Injective(m) && HomesIn(prev, homes, m) && HomesFit(prev, next, homes)
    requires Kept(prev, next, o) && o in m && m[o] == TableEntry(prev.tables[o])
    ensures var p, n := prev.tables[o], next.tables[o];
            var m' := m[o := TableEntry(n)];
            var result := ApplyAll(Midway(prev, homes, m), Renaming(p, n) + ColumnChanges(p, n));
            if (n.id != p.id && NameIn(m, n.id)) || !NoColumnClash(p, n) then result == None
            else Injective(m') && result == Some(Midway(prev, homes, m'))
  {
    var p, n := prev.tables[o], next.tables[o];
    if p.id == n.id {
      NoRenaming(p, n);
      ColumnChangesApply(prev, next, homes, m, o);
    } else {
      RenamedTableChangesApply(prev, next, homes, m, o);
    }
  }

  lemma NoRenaming(p: Table, n: Table)
    requires p.id == n.id
    ensures Renaming(p, n) + ColumnChanges(p, n) == ColumnChanges(p, n)
  {
  }

  lemma RenamedTableChangesApply(prev: Schema, next: Schema, homes: Homes, m: TableEntries, o: int)
    requires WellFormed(prev) && WellFormed(next) && Injective(m) && HomesIn(prev, homes, m) && HomesFit(prev, next, homes)
    requires Kept(prev, next, o) && o in m && m[o] == TableEntry(prev.tables[o]) && prev.tables[o].id != next.tables[o].id
    ensures var p, n := prev.tables[o], next.tables[o];
            var m' := m[o := TableEntry(n)];
            var result := ApplyAll(Midway(prev, homes, m), [RenameTable(p.id, n.id)] + ColumnChanges(p, n));
            if NameIn(m, n.id) || !NoColumnClash(p, n) then result == None
            else Injective(m') && result == Some(Midway(prev, homes, m'))
  {
    var p, n := prev.tables[o], next.tables[o];
    ApplyFirstChange(Midway(prev, homes, m), RenameTable(p.id, n.id), ColumnChanges(p, n));
    RenameTableApplies(prev, homes, m, o, n.id);
    if !NameIn(m, n.id) {
      var renamed := m[o := (n.id, m[o].1)];
      ColumnChangesApply(prev, next, homes, renamed, o);
      Overwrite(m, o, (n.id, m[o].1), TableEntry(n));
    }
  }

  /** The changes of all kept tables, ignoring whether they need a backfill. */
  function AllTableChanges(keys: seq<int>, prev: Schema, next: Schema): seq<Change>
    requires forall i | 0 <= i < |keys| :: keys[i] in next.tables
  {
    if keys == [] then []
    else
      (if keys[0] in prev.tables
       then Renaming(prev.tables[keys[0]], next.tables[keys[0]]) + ColumnChanges(prev.tables[keys[0]], next.tables[keys[0]]) else [])
      + AllTableChanges(keys[1..], prev, next)
  }

  lemma {:induction false} AltersAreChanges(keys: seq<int>, prev: Schema, next: Schema, tag: string, replicable: Replicable)
    requires forall i | 0 <= i < |keys| :: keys[i] in next.tables
    ensures var alters := TableAlters(keys, prev, next, tag, replicable);
            alters.Ok? ==> alters.value == AllTableChanges(keys, prev, next)
  {
    if keys != [] {
      AltersAreChanges(keys[1..], prev, next, tag, replicable);
      assert [] + AllTableChanges(keys[1..], prev, next) == AllTableChanges(keys[1..], prev, next);
    }
  }

  /** Part way through the alterations: the tables still to come are as before, the others as after. */
  ghost predicate Altering(keys: seq<int>, prev: Schema, next: Schema, m: TableEntries) {
    && AscendingKeys(keys) && Injective(m) && WellFormed(prev) && WellFormed(next)
    && (forall i | 0 <= i < |keys| :: keys[i] in next.tables)
    && (forall o :: o in m <==> Kept(prev, next, o))
    && (forall o | o in m :: m[o] == if o in keys then TableEntry(prev.tables[o]) else TableEntry(next.tables[o]))
  }

  /** A table still to come holds the name the first one is to get. */
  ghost predicate FirstClashes(keys: seq<int>, prev: Schema, next: Schema)
    requires keys != [] && keys[0] in next.tables
  {
    exists j :: 0 < j < |keys| && keys[j] in prev.tables && prev.tables[keys[j]].id == next.tables[keys[0]].id
  }

  /** No clash among the tables still to come, nor among the columns of any of them. */
  ghost predicate NoClashFrom(keys: seq<int>, prev: Schema, next: Schema)
    requires forall i | 0 <= i < |keys| :: keys[i] in next.tables
  {
    keys == [] ||
      (&& (keys[0] in prev.tables ==> !FirstClashes(keys, prev, next) && NoColumnClash(prev.tables[keys[0]], next.tables[keys[0]]))
       && NoClashFrom(keys[1..], prev, next))
  }

  lemma DistinctIds(s: Schema, o: int, o': int)
    requires WellFormed(s) && o in s.tables && o' in s.tables
    ensures s.tables[o].id == s.tables[o'].id <==> o == o'
  {
  }

  lemma TableNameTaken(keys: seq<int>, prev: Schema, next: Schema, m: TableEntries)
    requires Altering(keys, prev, next, m) && keys != [] && keys[0] in prev.tables
    ensures var p, n := prev.tables[keys[0]], next.tables[keys[0]];
            (n.id != p.id && NameIn(m, n.id)) <==> FirstClashes(keys, prev, next)
  {
    var p, n := prev.tables[keys[0]], next.tables[keys[0]];
    assert keys[0] in keys;
    if n.id != p.id && NameIn(m, n.id) {
      var o := EntryOf(m, n.id);
      DistinctIds(next, o, keys[0]);
      assert o in keys;
      var j :| 0 <= j < |keys| && keys[j] == o;
      assert j != 0;
    }
    if FirstClashes(keys, prev, next) {
      var j :| 0 < j < |keys| && keys[j] in prev.tables && prev.tables[keys[j]].id == n.id;
      assert keys[j] in keys && m[keys[j]].0 == n.id;
      DistinctIds(prev, keys[j], keys[0]);
    }
  }

  lemma AlterKeepsAltering(keys: seq<int>, prev: Schema, next: Schema, m: TableEntries, m': TableEntries)
    requires Altering(keys, prev, next, m) && keys != [] && keys[0] in prev.tables
    requires DistinctColumns(next.tables[keys[0]]) && m' == m[keys[0] := TableEntry(next.tables[keys[0]])] && Injective(m')
    ensures Altering(keys[1..], prev, next, m')
  {
    assert forall q :: q in keys <==> q == keys[0] || q in keys[1..];
    assert keys[0] !in keys[1..];
  }

  lemma SkipKeepsAltering(keys: seq<int>, prev: Schema, next: Schema, m: TableEntries)
    requires Altering(keys, prev, next, m) && keys != [] && keys[0] !in prev.tables
    ensures Altering(keys[1..], prev, next, m)
  {
    SplitKeys(keys);
  }

  lemma HomesAreKept(prev: Schema, next: Schema, homes: Homes, m: TableEntries)
    requires HomesFit(prev, next, homes) && forall o :: Kept(prev, next, o) ==> o in m
    ensures HomesIn(prev, homes, m)
  {
  }

  /** The first kept table of the list changes exactly when it does not clash. */
  lemma FirstAlterApplies(keys: seq<int>, prev: Schema, next: Schema, homes: Homes, m: TableEntries, o: int)
    requires Altering(keys, prev, next, m) && HomesFit(prev, next, homes) && HomesIn(prev, homes, m)
    requires keys != [] && keys[0] == o && Kept(prev, next, o)
    ensures var p, n := prev.tables[o], next.tables[o];
            var m' := m[o := TableEntry(n)];
            var result := ApplyAll(Midway(prev, homes, m), Renaming(p, n) + ColumnChanges(p, n));
            if FirstClashes(keys, prev, next) || !NoColumnClash(p, n) then result == None
            else Altering(keys[1..], prev, next, m') && HomesIn(prev, homes, m') && result == Some(Midway(prev, homes, m'))
  {
    assert o in keys;
    TableNameTaken(keys, prev, next, m);
    TableChangesApply(prev, next, homes, m, o);
    if !FirstClashes(keys, prev, next) && NoColumnClash(prev.tables[o], next.tables[o]) {
      AlterKeepsAltering(keys, prev, next, m, m[o := TableEntry(next.tables[o])]);
    }
  }

  lemma FirstAlter(keys: seq<int>, prev: Schema, next: Schema, cat: Catalog, o: int)
    requires keys != [] && keys[0] == o && Kept(prev, next, o) && forall i | 0 <= i < |keys| :: keys[i] in next.tables
    ensures var first := ApplyAll(cat, Renaming(prev.tables[o], next.tables[o]) + ColumnChanges(prev.tables[o], next.tables[o]));
            ApplyAll(cat, AllTableChanges(keys, prev, next))
            == if first.Some? then ApplyAll(first.value, AllTableChanges(keys[1..], prev, next)) else None
  {
    ApplyConcat(cat, Renaming(prev.tables[o], next.tables[o]) + ColumnChanges(prev.tables[o], next.tables[o]), AllTableChanges(keys[1..], prev, next));
  }

  lemma NoAlter(keys: seq<int>, prev: Schema, next: Schema)
    requires keys != [] && (forall i | 0 <= i < |keys| :: keys[i] in next.tables) && keys[0] !in prev.tables
    ensures AllTableChanges(keys, prev, next) == AllTableChanges(keys[1..], prev, next)
  {
  }

  /** The alterations succeed exactly without a clash, and then every kept table is as after. */
  lemma {:induction false} AltersApply(keys: seq<int>, prev: Schema, next: Schema, homes: Homes, m: TableEntries) returns (m': TableEntries)
    requires Altering(keys, prev, next, m) && HomesFit(prev, next, homes)
    ensures HomesIn(prev, homes, m)
    ensures NoClashFrom(keys, prev, next) ==>
      Altering([], prev, next, m') && HomesIn(prev, homes, m')
      && ApplyAll(Midway(prev, homes, m), AllTableChanges(keys, prev, next)) == Some(Midway(prev, homes, m'))
    ensures !NoClashFrom(keys, prev, next) ==> ApplyAll(Midway(prev, homes, m), AllTableChanges(keys, prev, next)) == None
  {
    HomesAreKept(prev, next, homes, m);
    m' := m;
    if keys != [] {
      var o := keys[0];
      if o !in prev.tables {
        SkipKeepsAltering(keys, prev, next, m);
        m' := AltersApply(keys[1..], prev, next, homes, m);
        NoAlter(keys, prev, next);
      } else {
        FirstAlterApplies(keys, prev, next, homes, m, o);
        FirstAlter(keys, prev, next, Midway(prev, homes, m), o);
        if !FirstClashes(keys, prev, next) && NoColumnClash(prev.tables[o], next.tables[o]) {
          m' := AltersApply(keys[1..], prev, next, homes, m[o := TableEntry(next.tables[o])]);
        }
      }
    }
  }

  // ---- Creating tables -------------------------------------------------------

  lemma {:induction false} OnlyAdds(keys: seq<int>, empty: Table, t: Table)
    requires empty.columns == map[] && forall i | 0 <= i < |keys| :: keys[i] in t.columns
    ensures ColumnUpdates(keys, empty, t) == [] && ColumnAdds(keys, empty, t) == AddEach(t.id, ColumnList(t.columns, keys))
  {
    if keys != [] {
      OnlyAdds(keys[1..], empty, t);
      assert ColumnList(t.columns, keys) == [t.columns[keys[0]]] + ColumnList(t.columns, keys[1..]);
    }
  }

  lemma NoPositions(columns: map<int, Column>)
    requires columns == map[]
    ensures Positions(columns) == []
  {
    var keys := Positions(columns);
    assert forall i | 0 <= i < |keys| :: keys[i] in keys;
  }

  lemma NoColumns(t: Table)
    requires t.columns == map[]
    ensures DistinctColumns(t) && ColumnsOf(t) == map[]
  {
  }

  lemma ChangesFromNothing(empty: Table, t: Table, keys: seq<int>)
    requires empty.columns == map[] && keys == Positions(t.columns)
    ensures ColumnChanges(empty, t) == AddEach(t.id, ColumnList(t.columns, keys))
  {
    OnlyAdds(keys, empty, t);
    NoPositions(empty.columns);
  }

  /** Creating a table is diffing it against one without columns. */
  lemma NewTableColumns(t: Table, keys: seq<int>)
    requires DistinctColumns(t) && keys == Positions(t.columns)
    ensures NewColumns(t.id, ColumnList(t.columns, keys)) == Some(ColumnsOf(t))
  {
    var empty := Table(t.id, map[]);
    ChangesFromNothing(empty, t, keys);
    NoColumns(empty);
    ColumnDiffIsExact(empty, t);
  }

  /** Part way through the creations: only the new tables still to come are missing. */
  ghost predicate Creating(keys: seq<int>, prev: Schema, next: Schema, m: TableEntries) {
    && AscendingKeys(keys) && Injective(m) && WellFormed(prev) && WellFormed(next)
    && (forall i | 0 <= i < |keys| :: keys[i] in next.tables)
    && (forall o :: o in m <==> o in next.tables && (o in keys ==> o in prev.tables))
    && (forall o | o in m :: m[o] == TableEntry(next.tables[o]))
  }

  lemma NewTableNameIsFree(keys: seq<int>, prev: Schema, next: Schema, m: TableEntries)
    requires Creating(keys, prev, next, m) && keys != [] && keys[0] !in prev.tables
    ensures keys[0] !in m && !NameIn(m, next.tables[keys[0]].id)
  {
    assert keys[0] in keys;
    if NameIn(m, next.tables[keys[0]].id) {
      var o := EntryOf(m, next.tables[keys[0]].id);
      DistinctIds(next, o, keys[0]);
    }
  }

  lemma CreateKeepsCreating(keys: seq<int>, prev: Schema, next: Schema, m: TableEntries, m': TableEntries)
    requires Creating(keys, prev, next, m) && keys != [] && keys[0] !in prev.tables
    requires DistinctColumns(next.tables[keys[0]]) && m' == m[keys[0] := TableEntry(next.tables[keys[0]])] && Injective(m')
    ensures Creating(keys[1..], prev, next, m')
  {
    SplitKeys(keys);
  }

  lemma SkipKeepsCreating(keys: seq<int>, prev: Schema, next: Schema, m: TableEntries)
    requires Creating(keys, prev, next, m) && keys != [] && keys[0] in prev.tables
    ensures Creating(keys[1..], prev, next, m)
  {
    SplitKeys(keys);
  }

  lemma PlacedWithMore(prev: Schema, homes: Homes, m: TableEntries, o: int, entry: (Identifier, Columns))
    requires HomesIn(prev, homes, m) && o !in m
    ensures HomesIn(prev, homes, m[o := entry]) && Placed(prev, homes, m[o := entry]) == Placed(prev, homes, m)
  {
    PlacedByNames(prev, homes, m, m[o := entry]);
  }

  lemma ApplyCreate(cat: Catalog, table: Identifier, columns: seq<Column>, result: Columns)
    requires NewColumns(table, columns) == Some(result) && table !in cat.tables
    ensures Apply(cat, CreateTable(table, columns)) == Some(Catalog(cat.tables[table := result], cat.indexes))
  {
  }

  lemma CreateByName(m: TableEntries, indexes: Indexes, o: int, table: Identifier, columns: seq<Column>, result: Columns)
    requires Injective(m) && o !in m && !NameIn(m, table) && NewColumns(table, columns) == Some(result)
    ensures Injective(m[o := (table, result)])
    ensures Apply(Catalog(ByName(m), indexes), CreateTable(table, columns)) == Some(Catalog(ByName(m[o := (table, result)]), indexes))
  {
    NamesIn(m, table);
    AddByName(m, o, table, result);
    ApplyCreate(Catalog(ByName(m), indexes), table, columns, result);
  }

  lemma CreateTableApplies(prev: Schema, homes: Homes, m: TableEntries, o: int, t: Table, columns: seq<Column>)
    requires WellFormed(prev) && Injective(m) && HomesIn(prev, homes, m) && o !in m && DistinctColumns(t) && !NameIn(m, t.id)
    requires NewColumns(t.id, columns) == Some(ColumnsOf(t))
    ensures Injective(m[o := TableEntry(t)]) && HomesIn(prev, homes, m[o := TableEntry(t)])
    ensures Apply(Midway(prev, homes, m), CreateTable(t.id, columns)) == Some(Midway(prev, homes, m[o := TableEntry(t)]))
  {
    CreateByName(m, Midway(prev, homes, m).indexes, o, t.id, columns, ColumnsOf(t));
    PlacedWithMore(prev, homes, m, o, TableEntry(t));
  }

  lemma FirstCreate(keys: seq<int>, prev: Schema, next: Schema) returns (columns: seq<Column>)
    requires keys != [] && forall i | 0 <= i < |keys| :: keys[i] in next.tables
    requires keys[0] !in prev.tables && DistinctColumns(next.tables[keys[0]])
    ensures var t := next.tables[keys[0]]; NewColumns(t.id, columns) == Some(ColumnsOf(t))
    ensures TableCreates(keys, prev, next) == [CreateTable(next.tables[keys[0]].id, columns)] + TableCreates(keys[1..], prev, next)
  {
    var t := next.tables[keys[0]];
    columns := NewTableList(t);
    OneCreate(keys, prev, next, columns);
  }

  lemma NewTableList(t: Table) returns (columns: seq<Column>)
    requires DistinctColumns(t)
    ensures columns == ColumnList(t.columns, Positions(t.columns)) && NewColumns(t.id, columns) == Some(ColumnsOf(t))
  {
    var keys := Positions(t.columns);
    columns := ColumnList(t.columns, keys);
    NewTableColumns(t, keys);
  }

  lemma OneCreate(keys: seq<int>, prev: Schema, next: Schema, columns: seq<Column>)
    requires keys != [] && (forall i | 0 <= i < |keys| :: keys[i] in next.tables) && keys[0] !in prev.tables
    requires var t := next.tables[keys[0]]; columns == ColumnList(t.columns, Positions(t.columns))
    ensures TableCreates(keys, prev, next) == [CreateTable(next.tables[keys[0]].id, columns)] + TableCreates(keys[1..], prev, next)
  {
  }

  lemma NoCreate(keys: seq<int>, prev: Schema, next: Schema)
    requires keys != [] && (forall i | 0 <= i < |keys| :: keys[i] in next.tables) && keys[0] in prev.tables
    ensures TableCreates(keys, prev, next) == TableCreates(keys[1..], prev, next)
  {
  }

  lemma {:induction false} CreatesApply(keys: seq<int>, prev: Schema, next: Schema, homes: Homes, m: TableEntries) returns (m': TableEntries)
    requires Creating(keys, prev, next, m) && HomesIn(prev, homes, m)
    ensures Creating([], prev, next, m') && HomesIn(prev, homes, m')
    ensures ApplyAll(Midway(prev, homes, m), TableCreates(keys, prev, next)) == Some(Midway(prev, homes, m'))
  {
    m' := m;
    if keys != [] {
      var o, rest := keys[0], TableCreates(keys[1..], prev, next);
      if o in prev.tables {
        SkipKeepsCreating(keys, prev, next, m);
        m' := CreatesApply(keys[1..], prev, next, homes, m);
        NoCreate(keys, prev, next);
      } else {
        var t := next.tables[o];
        NewTableNameIsFree(keys, prev, next, m);
        var columns := FirstCreate(keys, prev, next);
        CreateTableApplies(prev, homes, m, o, t, columns);
        CreateKeepsCreating(keys, prev, next, m, m[o := TableEntry(t)]);
        m' := CreatesApply(keys[1..], prev, next, homes, m[o := TableEntry(t)]);
        ApplyFirstChange(Midway(prev, homes, m), CreateTable(t.id, columns), rest);
      }
    }
  }

  // ---- Dropping and creating indexes -----------------------------------------

  ghost predicate NoRepeats(keys: seq<string>) {
    forall i, j | 0 <= i < j < |keys| :: keys[i] != keys[j]
  }

  lemma {:induction false} MissingHasNoRepeats(keys: seq<string>, others: map<string, Index>)
    requires NoRepeats(keys)
    ensures NoRepeats(Missing(keys, others))
  {
    if keys != [] {
      MissingHasNoRepeats(keys[1..], others);
      assert keys[0] !in keys[1..];
    }
  }

  lemma {:induction false} RestructuredHasNoRepeats(keys: seq<string>, prev: Schema, next: Schema)
    requires NoRepeats(keys) && forall i | 0 <= i < |keys| :: keys[i] in prev.indexes
    ensures NoRepeats(Restructured(keys, prev, next))
  {
    if keys != [] {
      RestructuredHasNoRepeats(keys[1..], prev, next);
      assert keys[0] !in keys[1..];
    }
  }

  lemma ConcatHasNoRepeats(a: seq<string>, b: seq<string>)
    requires NoRepeats(a) && NoRepeats(b) && forall k :: !(k in a && k in b)
    ensures NoRepeats(a + b)
  {
    forall i, j | 0 <= i < j < |a + b| ensures (a + b)[i] != (a + b)[j] {
      if i < |a| <= j {
        assert (a + b)[i] in a && (a + b)[j] in b;
      }
    }
  }

  lemma KeysHaveNoRepeats(indexes: map<string, Index>)
    ensures NoRepeats(IndexKeys(indexes))
  {
    StringsAreOrdered();
    var keys := IndexKeys(indexes);
    forall i, j | 0 <= i < j < |keys| ensures keys[i] != keys[j] {
      assert LessString(keys[i], keys[j]);
    }
  }

  lemma IndexListsHaveNoRepeats(prev: Schema, next: Schema)
    ensures NoRepeats(IndexesToDrop(prev, next)) && NoRepeats(IndexesToCreate(prev, next))
    ensures forall k :: k in IndexesToDrop(prev, next) <==> k in prev.indexes && !KeptIndex(prev, next, k)
    ensures forall k :: k in IndexesToCreate(prev, next) <==> k in next.indexes && !KeptIndex(prev, next, k)
  {
    KeysHaveNoRepeats(prev.indexes);
    KeysHaveNoRepeats(next.indexes);
    var restructured := Restructured(IndexKeys(prev.indexes), prev, next);
    RestructuredHasNoRepeats(IndexKeys(prev.indexes), prev, next);
    MissingHasNoRepeats(IndexKeys(prev.indexes), next.indexes);
    MissingHasNoRepeats(IndexKeys(next.indexes), prev.indexes);
    ConcatHasNoRepeats(Missing(IndexKeys(prev.indexes), next.indexes), restructured);
    ConcatHasNoRepeats(Missing(IndexKeys(next.indexes), prev.indexes), restructured);
  }

  lemma SplitNames(keys: seq<string>)
    requires keys != [] && NoRepeats(keys)
    ensures NoRepeats(keys[1..]) && keys[0] !in keys[1..]
    ensures forall k :: k in keys <==> k == keys[0] || k in keys[1..]
  {
  }

  /** Part way through the index drops: those still to come and those kept are there. */
  ghost predicate DroppingIndexes(keys: seq<string>, prev: Schema, next: Schema, j: IndexEntries) {
    && NoRepeats(keys) && Injective(j)
    && (forall i | 0 <= i < |keys| :: keys[i] in prev.indexes)
    && (forall k :: k in j <==> k in keys || KeptIndex(prev, next, k))
    && (forall k | k in j :: j[k] == IndexEntry(prev.indexes[k]))
    && (forall k | k in keys :: !KeptIndex(prev, next, k))
  }

  lemma DropKeepsDroppingIndexes(keys: seq<string>, prev: Schema, next: Schema, j: IndexEntries)
    requires DroppingIndexes(keys, prev, next, j) && keys != [] && Injective(j - {keys[0]})
    ensures DroppingIndexes(keys[1..], prev, next, j - {keys[0]})
  {
    SplitNames(keys);
  }

  lemma DropIndexApplies(tables: map<Identifier, Columns>, j: IndexEntries, k: string)
    requires Injective(j) && k in j
    ensures Injective(j - {k}) && Apply(Catalog(tables, ByName(j)), DropIndex(j[k].0)) == Some(Catalog(tables, ByName(j - {k})))
  {
    RemoveByName(j, k);
    NameLookup(j, k);
  }

  lemma FirstIndexDrop(keys: seq<string>, prev: Schema)
    requires keys != [] && forall i | 0 <= i < |keys| :: keys[i] in prev.indexes
    ensures IndexDrops(keys, prev) == [DropIndex(prev.indexes[keys[0]].id)] + IndexDrops(keys[1..], prev)
  {
  }

  lemma {:induction false} IndexDropsApply(keys: seq<string>, prev: Schema, next: Schema, tables: map<Identifier, Columns>, j: IndexEntries)
    returns (j': IndexEntries)
    requires DroppingIndexes(keys, prev, next, j)
    ensures DroppingIndexes([], prev, next, j')
    ensures ApplyAll(Catalog(tables, ByName(j)), IndexDrops(keys, prev)) == Some(Catalog(tables, ByName(j')))
  {
    j' := j;
    if keys != [] {
      var k := keys[0];
      assert k in keys;
      DropIndexApplies(tables, j, k);
      DropKeepsDroppingIndexes(keys, prev, next, j);
      j' := IndexDropsApply(keys[1..], prev, next, tables, j - {k});
      FirstIndexDrop(keys, prev);
      ApplyFirstChange(Catalog(tables, ByName(j)), DropIndex(prev.indexes[k].id), IndexDrops(keys[1..], prev));
    }
  }

  lemma ColumnIsThere(t: Table, name: string)
    requires DistinctColumns(t) && HasColumn(t, name)
    ensures name in ColumnsOf(t)
  {
    var p :| p in t.columns && t.columns[p].name == name;
    NameLookup(EntriesOf(t), p);
  }

  /** A replica of the next schema's tables accepts each of its indexes. */
  lemma IndexFits(next: Schema, index: Index)
    requires WellFormed(next) && IndexIsPlaced(next, index)
    ensures HomeOf(index) in ByName(TablesOf(next))
    ensures forall c | 0 <= c < |index.columns| :: index.columns[c].0 in ByName(TablesOf(next))[HomeOf(index)]
  {
    var o :| o in next.tables && next.tables[o].id == HomeOf(index)
             && forall c | 0 <= c < |index.columns| :: HasColumn(next.tables[o], index.columns[c].0);
    NameLookup(TablesOf(next), o);
    forall c | 0 <= c < |index.columns| ensures index.columns[c].0 in ColumnsOf(next.tables[o]) {
      ColumnIsThere(next.tables[o], index.columns[c].0);
    }
  }

  /** Part way through the index creations: only those still to come are missing. */
  ghost predicate CreatingIndexes(keys: seq<string>, next: Schema, j: IndexEntries) {
    && NoRepeats(keys) && Injective(j)
    && (forall i | 0 <= i < |keys| :: keys[i] in next.indexes)
    && (forall k :: k in j <==> k in next.indexes && k !in keys)
    && (forall k | k in j :: j[k] == IndexEntry(next.indexes[k]))
  }

  lemma CreateKeepsCreatingIndexes(keys: seq<string>, next: Schema, j: IndexEntries, j': IndexEntries)
    requires CreatingIndexes(keys, next, j) && keys != [] && j' == j[keys[0] := IndexEntry(next.indexes[keys[0]])] && Injective(j')
    ensures CreatingIndexes(keys[1..], next, j')
  {
    SplitNames(keys);
  }

  lemma SameKeys(s: Schema, k: string, k': string)
    requires WellFormed(s) && k in s.indexes && k' in s.indexes
    ensures s.indexes[k].id == s.indexes[k'].id <==> k == k'
  {
  }

  lemma IndexNameIsFree(keys: seq<string>, next: Schema, j: IndexEntries)
    requires WellFormed(next) && CreatingIndexes(keys, next, j) && keys != []
    ensures keys[0] !in j && !NameIn(j, next.indexes[keys[0]].id)
  {
    var first := keys[0];
    assert first in keys;
    if NameIn(j, next.indexes[first].id) {
      var k := EntryOf(j, next.indexes[first].id);
      SameKeys(next, k, first);
    }
  }

  lemma CreateIndexByName(tables: map<Identifier, Columns>, j: IndexEntries, k: string, index: Index)
    requires Injective(j) && k !in j && !NameIn(j, index.id) && HomeOf(index) in tables
    requires forall c | 0 <= c < |index.columns| :: index.columns[c].0 in tables[HomeOf(index)]
    ensures Injective(j[k := IndexEntry(index)])
    ensures Apply(Catalog(tables, ByName(j)), CreateIndex(ToSpec(index))) == Some(Catalog(tables, ByName(j[k := IndexEntry(index)])))
  {
    NamesIn(j, index.id);
    AddByName(j, k, index.id, IndexEntry(index).1);
  }

  lemma FirstIndexCreate(keys: seq<string>, next: Schema)
    requires keys != [] && forall i | 0 <= i < |keys| :: keys[i] in next.indexes
    ensures IndexCreates(keys, next) == [CreateIndex(ToSpec(next.indexes[keys[0]]))] + IndexCreates(keys[1..], next)
  {
  }

  lemma {:induction false} IndexCreatesApply(keys: seq<string>, next: Schema, j: IndexEntries) returns (j': IndexEntries)
    requires WellFormed(next) && CreatingIndexes(keys, next, j)
    ensures CreatingIndexes([], next, j')
    ensures ApplyAll(Catalog(ByName(TablesOf(next)), ByName(j)), IndexCreates(keys, next)) == Some(Catalog(ByName(TablesOf(next)), ByName(j')))
  {
    j' := j;
    if keys != [] {
      var k, tables := keys[0], ByName(TablesOf(next));
      var more := j[k := IndexEntry(next.indexes[k])];
      IndexNameIsFree(keys, next, j);
      IndexFits(next, next.indexes[k]);
      CreateIndexByName(tables, j, k, next.indexes[k]);
      CreateKeepsCreatingIndexes(keys, next, j, more);
      j' := IndexCreatesApply(keys[1..], next, more);
      FirstIndexCreate(keys, next);
      ApplyFirstChange(Catalog(tables, ByName(j)), CreateIndex(ToSpec(next.indexes[k])), IndexCreates(keys[1..], next));
    }
  }

  // ---- The whole diff --------------------------------------------------------

  lemma IndexDropsStart(prev: Schema, next: Schema)
    requires WellFormed(prev)
    ensures DroppingIndexes(IndexesToDrop(prev, next), prev, next, IndexesOf(prev))
  {
    IndexListsHaveNoRepeats(prev, next);
  }

  lemma PlacedAt(prev: Schema, next: Schema, homes: Homes, k: string)
    requires WellFormed(prev) && HomesFit(prev, next, homes) && k in homes
    ensures && homes[k] in TablesOf(prev)
            && (prev.indexes[k].id, IndexDef(TablesOf(prev)[homes[k]].0, prev.indexes[k].unique, prev.indexes[k].columns))
               == IndexEntry(prev.indexes[k])
  {
    assert StaysOn(prev, next, k, homes[k]);
  }

  lemma KeptIndexesArePlaced(prev: Schema, next: Schema, homes: Homes, j: IndexEntries)
    requires WellFormed(prev) && HomesOfAll(prev, next, homes) && DroppingIndexes([], prev, next, j)
    ensures HomesIn(prev, homes, TablesOf(prev)) && j == Placed(prev, homes, TablesOf(prev))
  {
    forall k | k in homes ensures homes[k] in TablesOf(prev) {
      PlacedAt(prev, next, homes, k);
    }
    assert forall k :: k in j <==> k in homes;
    forall k | k in homes ensures j[k] == Placed(prev, homes, TablesOf(prev))[k] {
      PlacedAt(prev, next, homes, k);
    }
  }

  lemma TableDropsStart(prev: Schema, next: Schema)
    requires WellFormed(prev)
    ensures DroppingTables(Oids(prev.tables), prev, next, TablesOf(prev))
  {
  }

  lemma AltersFollowDrops(prev: Schema, next: Schema, m: TableEntries)
    requires WellFormed(prev) && WellFormed(next) && DroppingTables([], prev, next, m)
    ensures Altering(Oids(next.tables), prev, next, m)
  {
  }

  lemma CreatesFollowAlters(prev: Schema, next: Schema, m: TableEntries)
    requires Altering([], prev, next, m)
    ensures Creating(Oids(next.tables), prev, next, m)
  {
  }

  lemma CreatesEnd(prev: Schema, next: Schema, m: TableEntries)
    requires Creating([], prev, next, m)
    ensures m == TablesOf(next)
  {
    assert m.Keys == TablesOf(next).Keys by {
      assert forall o :: o in m <==> o in next.tables;
    }
    forall o | o in m ensures m[o] == TablesOf(next)[o] {
    }
  }

  lemma PlacedAfter(prev: Schema, next: Schema, homes: Homes, k: string)
    requires WellFormed(prev) && WellFormed(next) && IndexesStay(prev, next) && HomesFit(prev, next, homes) && k in homes
    ensures && homes[k] in TablesOf(next)
            && (prev.indexes[k].id, IndexDef(TablesOf(next)[homes[k]].0, prev.indexes[k].unique, prev.indexes[k].columns))
               == IndexEntry(next.indexes[k])
  {
    assert StaysOn(prev, next, k, homes[k]);
  }

  lemma IndexCreatesStart(prev: Schema, next: Schema, homes: Homes)
    requires WellFormed(prev) && WellFormed(next) && IndexesStay(prev, next) && HomesOfAll(prev, next, homes)
    requires HomesIn(prev, homes, TablesOf(next))
    ensures CreatingIndexes(IndexesToCreate(prev, next), next, Placed(prev, homes, TablesOf(next)))
  {
    var j := Placed(prev, homes, TablesOf(next));
    forall k | k in j ensures j[k] == IndexEntry(next.indexes[k]) {
      PlacedAfter(prev, next, homes, k);
    }
    PlacedIsInjective(prev, homes, TablesOf(next));
    IndexListsHaveNoRepeats(prev, next);
    CreatesRemain(prev, next, IndexesToCreate(prev, next), j);
  }

  lemma CreatesRemain(prev: Schema, next: Schema, keys: seq<string>, j: IndexEntries)
    requires NoRepeats(keys) && Injective(j)
    requires forall i | 0 <= i < |keys| :: keys[i] in next.indexes
    requires forall k :: k in keys <==> k in next.indexes && !KeptIndex(prev, next, k)
    requires forall k :: k in j <==> KeptIndex(prev, next, k)
    requires forall k | k in j :: k in next.indexes && j[k] == IndexEntry(next.indexes[k])
    ensures CreatingIndexes(keys, next, j)
  {
  }

  lemma IndexCreatesEnd(next: Schema, j: IndexEntries)
    requires WellFormed(next) && CreatingIndexes([], next, j)
    ensures j == IndexesOf(next)
  {
    assert forall k :: k in j <==> k in IndexesOf(next);
  }

  /** No kept table of the list takes the name that another had before, and no columns of one clash. */
  ghost predicate NoClashAmongTables(keys: seq<int>, prev: Schema, next: Schema)
    requires forall i | 0 <= i < |keys| :: keys[i] in next.tables
  {
    && (forall i, j | 0 <= i < j < |keys| && keys[i] in prev.tables && keys[j] in prev.tables ::
          next.tables[keys[i]].id != prev.tables[keys[j]].id)
    && (forall i | 0 <= i < |keys| && keys[i] in prev.tables :: NoColumnClash(prev.tables[keys[i]], next.tables[keys[i]]))
  }

  lemma {:induction false} NoClashFromMeans(keys: seq<int>, prev: Schema, next: Schema)
    requires forall i | 0 <= i < |keys| :: keys[i] in next.tables
    ensures NoClashFrom(keys, prev, next) <==> NoClashAmongTables(keys, prev, next)
  {
    if keys != [] {
      var rest := keys[1..];
      NoClashFromMeans(rest, prev, next);
      assert forall i | 0 <= i < |rest| :: rest[i] == keys[i + 1];
      assert forall i | 0 < i < |keys| :: keys[i] == rest[i - 1];
    }
  }

  lemma OidIndex(keys: seq<int>, prev: Schema, next: Schema, o: int) returns (i: int)
    requires keys == Oids(next.tables) && Kept(prev, next, o)
    ensures 0 <= i < |keys| && keys[i] == o
  {
    assert o in keys;
    i :| 0 <= i < |keys| && keys[i] == o;
  }

  lemma OidsAscend(tables: map<int, Table>)
    ensures AscendingKeys(Oids(tables))
  {
  }

  lemma ClashFreeTables(keys: seq<int>, prev: Schema, next: Schema, o: int, o': int)
    requires keys == Oids(next.tables) && NoClashAmongTables(keys, prev, next) && Kept(prev, next, o) && Kept(prev, next, o') && o < o'
    ensures next.tables[o].id != prev.tables[o'].id
  {
    var i := OidIndex(keys, prev, next, o);
    var j := OidIndex(keys, prev, next, o');
    OidsAscend(next.tables);
  }

  lemma NoClashIn(keys: seq<int>, prev: Schema, next: Schema)
    requires keys == Oids(next.tables) && NoClash(prev, next)
    ensures NoClashAmongTables(keys, prev, next)
  {
    OidsAscend(next.tables);
    forall i, j | 0 <= i < j < |keys| && keys[i] in prev.tables && keys[j] in prev.tables
      ensures next.tables[keys[i]].id != prev.tables[keys[j]].id
    {
      assert Kept(prev, next, keys[i]) && Kept(prev, next, keys[j]);
    }
    forall i | 0 <= i < |keys| && keys[i] in prev.tables ensures NoColumnClash(prev.tables[keys[i]], next.tables[keys[i]]) {
      assert Kept(prev, next, keys[i]);
    }
  }

  lemma NoClashAmongAll(prev: Schema, next: Schema, keys: seq<int>)
    requires keys == Oids(next.tables)
    ensures NoClashFrom(keys, prev, next) <==> NoClash(prev, next)
  {
    NoClashFromMeans(keys, prev, next);
    if NoClash(prev, next) {
      NoClashIn(keys, prev, next);
    } else if NoClashAmongTables(keys, prev, next) {
      forall o, o' | Kept(prev, next, o) && Kept(prev, next, o') && o < o' ensures next.tables[o].id != prev.tables[o'].id {
        ClashFreeTables(keys, prev, next, o, o');
      }
      forall o | Kept(prev, next, o) ensures NoColumnClash(prev.tables[o], next.tables[o]) {
        var i := OidIndex(keys, prev, next, o);
      }
    }
  }

  /** Dropping the indexes and tables that are gone always succeeds. */
  lemma DropPhases(prev: Schema, next: Schema, homes: Homes) returns (m: TableEntries)
    requires WellFormed(prev) && HomesOfAll(prev, next, homes)
    ensures DroppingTables([], prev, next, m) && HomesIn(prev, homes, m)
    ensures ApplyAll(CatalogOf(prev), IndexDrops(IndexesToDrop(prev, next), prev) + TableDrops(Oids(prev.tables), prev, next)) == Some(Midway(prev, homes, m))
  {
    IndexDropsStart(prev, next);
    var j := IndexDropsApply(IndexesToDrop(prev, next), prev, next, ByName(TablesOf(prev)), IndexesOf(prev));
    KeptIndexesArePlaced(prev, next, homes, j);
    TableDropsStart(prev, next);
    m := TableDropsApply(Oids(prev.tables), prev, next, homes, TablesOf(prev));
    ApplyConcat(CatalogOf(prev), IndexDrops(IndexesToDrop(prev, next), prev), TableDrops(Oids(prev.tables), prev, next));
  }

  /** Creating the new tables and indexes always succeeds. */
  lemma CreatePhases(prev: Schema, next: Schema, homes: Homes, m: TableEntries)
    requires WellFormed(prev) && WellFormed(next) && IndexesStay(prev, next) && HomesOfAll(prev, next, homes)
    requires Altering([], prev, next, m) && HomesIn(prev, homes, m)
    ensures ApplyAll(Midway(prev, homes, m), TableCreates(Oids(next.tables), prev, next) + IndexCreates(IndexesToCreate(prev, next), next)) == Some(CatalogOf(next))
  {
    CreatesFollowAlters(prev, next, m);
    var m' := CreatesApply(Oids(next.tables), prev, next, homes, m);
    CreatesEnd(prev, next, m');
    IndexCreatesStart(prev, next, homes);
    var j := IndexCreatesApply(IndexesToCreate(prev, next), next, Placed(prev, homes, TablesOf(next)));
    IndexCreatesEnd(next, j);
    ApplyConcat(Midway(prev, homes, m), TableCreates(Oids(next.tables), prev, next), IndexCreates(IndexesToCreate(prev, next), next));
  }

  /** The changes in their five phases. */
  lemma DiffPhases(prev: Schema, next: Schema, tag: string, replicable: Replicable)
    requires Diff(prev, next, tag, replicable).Changes?
    ensures Diff(prev, next, tag, replicable).changes
         == (IndexDrops(IndexesToDrop(prev, next), prev) + TableDrops(Oids(prev.tables), prev, next))
          + (AllTableChanges(Oids(next.tables), prev, next)
          + (TableCreates(Oids(next.tables), prev, next) + IndexCreates(IndexesToCreate(prev, next), next)))
  {
    var drops, tables, creates := IndexDrops(IndexesToDrop(prev, next), prev), TableDrops(Oids(prev.tables), prev, next), TableCreates(Oids(next.tables), prev, next);
    AltersAreChanges(Oids(next.tables), prev, next, tag, replicable);
    Associate(drops, tables, AllTableChanges(Oids(next.tables), prev, next) + (creates + IndexCreates(IndexesToCreate(prev, next), next)));
  }

  /** Applying the diff to a replica of the first schema gives a replica of the second exactly when no two names clash. */
  lemma DiffIsExact(prev: Schema, next: Schema, tag: string, replicable: Replicable)
    requires WellFormed(prev) && WellFormed(next) && IndexesStay(prev, next) && Diff(prev, next, tag, replicable).Changes?
    ensures ApplyAll(CatalogOf(prev), Diff(prev, next, tag, replicable).changes) == if NoClash(prev, next) then Some(CatalogOf(next)) else None
  {
    var homes := FindHomes(prev, next);
    var drops := IndexDrops(IndexesToDrop(prev, next), prev) + TableDrops(Oids(prev.tables), prev, next);
    var alters := AllTableChanges(Oids(next.tables), prev, next);
    var creates := TableCreates(Oids(next.tables), prev, next) + IndexCreates(IndexesToCreate(prev, next), next);
    DiffPhases(prev, next, tag, replicable);
    var dropped := DropPhases(prev, next, homes);
    AltersFollowDrops(prev, next, dropped);
    var altered := AltersApply(Oids(next.tables), prev, next, homes, dropped);
    NoClashAmongAll(prev, next, Oids(next.tables));
    ApplyConcat(CatalogOf(prev), drops, alters + creates);
    ApplyConcat(Midway(prev, homes, dropped), alters, creates);
    if NoClash(prev, next) {
      CreatePhases(prev, next, homes, altered);
    }
  }
}
