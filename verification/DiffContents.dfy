/**
 What the changes of a diff are: exactly one description of every change it lists, with
 all that the change carries.
 */
module DiffContents {
  import opened Base
  import opened KeyedMaps
  import opened SchemaDiff
  import opened SchemaCorrect
  import opened SchemaDiffLoops

  /** The columns of a new table, all of them, by ascending attribute number. */
  ghost predicate ListsAll(columns: map<int, Column>, list: seq<Column>) {
    exists keys :: InKeyOrder(columns, list, keys)
  }

  ghost predicate InKeyOrder(columns: map<int, Column>, list: seq<Column>, keys: seq<int>) {
    && |list| == |keys| && (forall k :: k in keys <==> k in columns)
    && (forall i, j | 0 <= i < j < |keys| :: keys[i] < keys[j])
    && (forall i | 0 <= i < |keys| :: keys[i] in columns && list[i] == columns[keys[i]])
  }

  ghost predicate ColumnChangeOf(prev: Table, next: Table, change: Change) {
    match change
    case DropColumn(table, name) =>
      table == next.id && exists p | p in prev.columns && p !in next.columns :: name == prev.columns[p].name
    case UpdateColumn(table, from, to) =>
      table == next.id && exists p | p in prev.columns && p in next.columns && ColumnChanged(prev.columns[p], next.columns[p]) ::
        from == prev.columns[p] && to == next.columns[p]
    case AddColumn(table, column) =>
      table == next.id && exists p | p in next.columns && p !in prev.columns :: column == next.columns[p]
    case _ => false
  }

  ghost predicate TableChangeOf(prev: Table, next: Table, change: Change) {
    if change.RenameTable? then change == RenameTable(prev.id, next.id) && prev.id != next.id else ColumnChangeOf(prev, next, change)
  }

  /** The change belongs in the diff of two schemas. */
  ghost predicate Belongs(prev: Schema, next: Schema, change: Change) {
    match change
    case DropIndex(index) => exists k | k in prev.indexes && !KeptIndex(prev, next, k) :: index == prev.indexes[k].id
    case DropTable(table) => exists o | o in prev.tables && o !in next.tables :: table == prev.tables[o].id
    case CreateTable(table, columns) =>
      exists o | o in next.tables && o !in prev.tables :: table == next.tables[o].id && ListsAll(next.tables[o].columns, columns)
    case CreateIndex(spec) =>
      exists k | k in next.indexes && !KeptIndex(prev, next, k) ::
        var index := next.indexes[k]; spec == IndexSpec(index.id, index.tableName, index.unique, index.columns)
    case _ => exists o | Kept(prev, next, o) :: TableChangeOf(prev.tables[o], next.tables[o], change)
  }

  // ---- Columns ---------------------------------------------------------------

  lemma {:induction false} DropsListed(keys: seq<int>, prev: Table, next: Table, change: Change)
    requires forall i | 0 <= i < |keys| :: keys[i] in prev.columns
    ensures change in ColumnDrops(keys, prev, next)
       <==> exists p | p in keys && p !in next.columns :: p in prev.columns && change == DropColumn(next.id, prev.columns[p].name)
  {
    if keys != [] {
      DropsListed(keys[1..], prev, next, change);
      assert forall p :: p in keys <==> p == keys[0] || p in keys[1..];
    }
  }

  lemma {:induction false} UpdatesListed(keys: seq<int>, prev: Table, next: Table, change: Change)
    requires forall i | 0 <= i < |keys| :: keys[i] in next.columns
    ensures change in ColumnUpdates(keys, prev, next)
       <==> exists p | p in keys && p in prev.columns ::
              p in next.columns && ColumnChanged(prev.columns[p], next.columns[p]) && change == UpdateColumn(next.id, prev.columns[p], next.columns[p])
  {
    if keys != [] {
      UpdatesListed(keys[1..], prev, next, change);
      assert forall p :: p in keys <==> p == keys[0] || p in keys[1..];
    }
  }

  lemma {:induction false} AddsListed(keys: seq<int>, prev: Table, next: Table, change: Change)
    requires forall i | 0 <= i < |keys| :: keys[i] in next.columns
    ensures change in ColumnAdds(keys, prev, next)
       <==> exists p | p in keys && p !in prev.columns :: p in next.columns && change == AddColumn(next.id, next.columns[p])
  {
    if keys != [] {
      AddsListed(keys[1..], prev, next, change);
      assert forall p :: p in keys <==> p == keys[0] || p in keys[1..];
    }
  }

  lemma AllPositions(columns: map<int, Column>)
    ensures forall p :: p in Positions(columns) <==> p in columns
  {
    IntsAreOrdered();
  }

  lemma AllOids(tables: map<int, Table>)
    ensures forall o :: o in Oids(tables) <==> o in tables
  {
    IntsAreOrdered();
  }

  lemma ColumnChangesListed(prev: Table, next: Table, change: Change)
    ensures change in ColumnChanges(prev, next) <==> ColumnChangeOf(prev, next, change)
  {
    AllPositions(prev.columns);
    AllPositions(next.columns);
    DropsListed(Positions(prev.columns), prev, next, change);
    UpdatesListed(Positions(next.columns), prev, next, change);
    AddsListed(Positions(next.columns), prev, next, change);
  }

  lemma TableChangesListed(prev: Table, next: Table, change: Change)
    ensures change in Renaming(prev, next) + ColumnChanges(prev, next) <==> TableChangeOf(prev, next, change)
  {
    ColumnChangesListed(prev, next, change);
  }

  // ---- Tables ----------------------------------------------------------------

  lemma {:induction false} AltersListed(keys: seq<int>, prev: Schema, next: Schema, tag: string, replicable: Replicable, change: Change)
    requires forall i | 0 <= i < |keys| :: keys[i] in next.tables
    requires TableAlters(keys, prev, next, tag, replicable).Ok?
    ensures change in TableAlters(keys, prev, next, tag, replicable).value
       <==> exists o | o in keys && o in prev.tables :: o in next.tables && TableChangeOf(prev.tables[o], next.tables[o], change)
  {
    if keys != [] {
      AltersListed(keys[1..], prev, next, tag, replicable, change);
      if keys[0] in prev.tables {
        TableChangesListed(prev.tables[keys[0]], next.tables[keys[0]], change);
      }
      assert forall o :: o in keys <==> o == keys[0] || o in keys[1..];
    }
  }

  lemma {:induction false} TableDropsListed(keys: seq<int>, prev: Schema, next: Schema, change: Change)
    requires forall i | 0 <= i < |keys| :: keys[i] in prev.tables
    ensures change in TableDrops(keys, prev, next)
       <==> exists o | o in keys && o !in next.tables :: o in prev.tables && change == DropTable(prev.tables[o].id)
  {
    if keys != [] {
      TableDropsListed(keys[1..], prev, next, change);
      assert forall o :: o in keys <==> o == keys[0] || o in keys[1..];
    }
  }

  lemma InOrderExactly(columns: map<int, Column>, list: seq<Column>, keys: seq<int>)
    requires (forall i | 0 <= i < |keys| :: keys[i] in columns) && (forall k :: k in keys <==> k in columns)
    requires forall i, j | 0 <= i < j < |keys| :: keys[i] < keys[j]
    ensures list == ColumnList(columns, keys) <==> InKeyOrder(columns, list, keys)
  {
    if InKeyOrder(columns, list, keys) {
      assert forall i | 0 <= i < |keys| :: ColumnList(columns, keys)[i] == list[i];
    }
  }

  lemma PositionsAscend(columns: map<int, Column>)
    ensures forall i, j | 0 <= i < j < |Positions(columns)| :: Positions(columns)[i] < Positions(columns)[j]
  {
    IntsAreOrdered();
    var keys := Ascending(columns.Keys, LessInt);
    assert forall i, j | 0 <= i < j < |keys| :: LessInt(keys[i], keys[j]);
  }

  lemma OnlyInOrder(columns: map<int, Column>, list: seq<Column>, keys: seq<int>)
    requires (forall k :: k in keys <==> k in columns) && forall i, j | 0 <= i < j < |keys| :: keys[i] < keys[j]
    ensures ListsAll(columns, list) <==> InKeyOrder(columns, list, keys)
  {
    if ListsAll(columns, list) {
      var keys' :| InKeyOrder(columns, list, keys');
      SameAscending(keys, keys');
    }
  }

  lemma ListedColumns(columns: map<int, Column>, list: seq<Column>)
    ensures list == ColumnList(columns, Positions(columns)) <==> ListsAll(columns, list)
  {
    AllPositions(columns);
    PositionsAscend(columns);
    InOrderExactly(columns, list, Positions(columns));
    OnlyInOrder(columns, list, Positions(columns));
  }

  lemma {:induction false} SameAscending(a: seq<int>, b: seq<int>)
    requires forall k :: k in a <==> k in b
    requires (forall i, j | 0 <= i < j < |a| :: a[i] < a[j]) && forall i, j | 0 <= i < j < |b| :: b[i] < b[j]
    ensures a == b
  {
    assert a == [] || a[0] in a;
    assert b == [] || b[0] in b;
    if a != [] {
      var i :| 0 <= i < |a| && a[i] == b[0];
      var j :| 0 <= j < |b| && b[j] == a[0];
      assert a[0] == b[0];
      forall k ensures k in a[1..] <==> k in b[1..] {
        SmallerTail(a, k);
        SmallerTail(b, k);
      }
      SameAscending(a[1..], b[1..]);
    }
  }

  lemma SmallerTail(a: seq<int>, k: int)
    requires a != [] && forall i, j | 0 <= i < j < |a| :: a[i] < a[j]
    ensures k in a[1..] <==> k in a && k != a[0]
  {
  }

  lemma {:induction false} TableCreatesListed(keys: seq<int>, prev: Schema, next: Schema, change: Change)
    requires forall i | 0 <= i < |keys| :: keys[i] in next.tables
    ensures change in TableCreates(keys, prev, next)
       <==> change.CreateTable? && exists o | o in keys && o !in prev.tables ::
              o in next.tables && change.table == next.tables[o].id && ListsAll(next.tables[o].columns, change.columns)
  {
    if keys != [] {
      TableCreatesListed(keys[1..], prev, next, change);
      if change.CreateTable? {
        ListedColumns(next.tables[keys[0]].columns, change.columns);
      }
      assert forall o :: o in keys <==> o == keys[0] || o in keys[1..];
    }
  }

  // ---- Indexes ---------------------------------------------------------------

  lemma AllIndexKeys(indexes: map<string, Index>)
    ensures forall k :: k in IndexKeys(indexes) <==> k in indexes
  {
    StringsAreOrdered();
  }

  lemma IndexesDropped(prev: Schema, next: Schema)
    ensures forall k :: k in IndexesToDrop(prev, next) <==> k in prev.indexes && !KeptIndex(prev, next, k)
  {
    AllIndexKeys(prev.indexes);
  }

  lemma IndexesCreated(prev: Schema, next: Schema)
    ensures forall k :: k in IndexesToCreate(prev, next) <==> k in next.indexes && !KeptIndex(prev, next, k)
  {
    AllIndexKeys(prev.indexes);
    AllIndexKeys(next.indexes);
  }

  lemma IndexDropsListed(keys: seq<string>, prev: Schema, change: Change)
    requires forall i | 0 <= i < |keys| :: keys[i] in prev.indexes
    ensures change in IndexDrops(keys, prev) <==> exists k | k in keys :: k in prev.indexes && change == DropIndex(prev.indexes[k].id)
  {
    if k :| k in keys && k in prev.indexes && change == DropIndex(prev.indexes[k].id) {
      var i :| 0 <= i < |keys| && keys[i] == k;
      assert IndexDrops(keys, prev)[i] == change;
    }
    if change in IndexDrops(keys, prev) {
      var i :| 0 <= i < |keys| && IndexDrops(keys, prev)[i] == change;
      assert keys[i] in keys;
    }
  }

  lemma IndexCreatesListed(keys: seq<string>, next: Schema, change: Change)
    requires forall i | 0 <= i < |keys| :: keys[i] in next.indexes
    ensures change in IndexCreates(keys, next) <==> exists k | k in keys :: k in next.indexes && change == CreateIndex(ToSpec(next.indexes[k]))
  {
    if k :| k in keys && k in next.indexes && change == CreateIndex(ToSpec(next.indexes[k])) {
      var i :| 0 <= i < |keys| && keys[i] == k;
      assert IndexCreates(keys, next)[i] == change;
    }
    if change in IndexCreates(keys, next) {
      var i :| 0 <= i < |keys| && IndexCreates(keys, next)[i] == change;
      assert keys[i] in keys;
    }
  }

  // ---- The whole diff --------------------------------------------------------

  lemma InOneOfFive<T>(a: seq<T>, b: seq<T>, c: seq<T>, d: seq<T>, e: seq<T>, x: T)
    ensures x in a + (b + (c + (d + e))) <==> x in a || x in b || x in c || x in d || x in e
  {
  }

  predicate Alters(change: Change) {
    change.RenameTable? || change.DropColumn? || change.UpdateColumn? || change.AddColumn?
  }

  lemma IndexDropsBelong(keys: seq<string>, prev: Schema, next: Schema, change: Change)
    requires forall i | 0 <= i < |keys| :: keys[i] in prev.indexes
    requires forall k :: k in keys <==> k in prev.indexes && !KeptIndex(prev, next, k)
    ensures change in IndexDrops(keys, prev) <==> change.DropIndex? && Belongs(prev, next, change)
  {
    IndexDropsListed(keys, prev, change);
  }

  lemma IndexCreatesBelong(keys: seq<string>, prev: Schema, next: Schema, change: Change)
    requires forall i | 0 <= i < |keys| :: keys[i] in next.indexes
    requires forall k :: k in keys <==> k in next.indexes && !KeptIndex(prev, next, k)
    ensures change in IndexCreates(keys, next) <==> change.CreateIndex? && Belongs(prev, next, change)
  {
    IndexCreatesListed(keys, next, change);
  }

  lemma DropsBelong(keys: seq<int>, prev: Schema, next: Schema, change: Change)
    requires forall i | 0 <= i < |keys| :: keys[i] in prev.tables
    requires forall o :: o in keys <==> o in prev.tables
    ensures change in TableDrops(keys, prev, next) <==> change.DropTable? && Belongs(prev, next, change)
  {
    TableDropsListed(keys, prev, next, change);
  }

  lemma CreatesBelong(keys: seq<int>, prev: Schema, next: Schema, change: Change)
    requires forall i | 0 <= i < |keys| :: keys[i] in next.tables
    requires forall o :: o in keys <==> o in next.tables
    ensures change in TableCreates(keys, prev, next) <==> change.CreateTable? && Belongs(prev, next, change)
  {
    TableCreatesListed(keys, prev, next, change);
  }

  lemma AltersBelong(keys: seq<int>, prev: Schema, next: Schema, tag: string, replicable: Replicable, change: Change)
    requires forall i | 0 <= i < |keys| :: keys[i] in next.tables
    requires (forall o :: o in keys <==> o in next.tables) && TableAlters(keys, prev, next, tag, replicable).Ok?
    ensures change in TableAlters(keys, prev, next, tag, replicable).value <==> Alters(change) && Belongs(prev, next, change)
  {
    AltersListed(keys, prev, next, tag, replicable, change);
  }

  lemma ListedInParts(prev: Schema, next: Schema, tag: string, replicable: Replicable, change: Change)
    requires Diff(prev, next, tag, replicable).Changes?
    ensures TableAlters(Oids(next.tables), prev, next, tag, replicable).Ok?
    ensures change in Diff(prev, next, tag, replicable).changes
       <==> || change in IndexDrops(IndexesToDrop(prev, next), prev) || change in TableDrops(Oids(prev.tables), prev, next)
            || change in TableAlters(Oids(next.tables), prev, next, tag, replicable).value
            || change in TableCreates(Oids(next.tables), prev, next) || change in IndexCreates(IndexesToCreate(prev, next), next)
  {
    var alters := TableAlters(Oids(next.tables), prev, next, tag, replicable);
    if alters.Ok? {
      InOneOfFive(IndexDrops(IndexesToDrop(prev, next), prev), TableDrops(Oids(prev.tables), prev, next), alters.value,
                  TableCreates(Oids(next.tables), prev, next), IndexCreates(IndexesToCreate(prev, next), next), change);
    }
  }

  /** A diff lists exactly the changes that belong in it, each with all that it carries: names, types, defaults and columns. */
  lemma DiffListsExactly(prev: Schema, next: Schema, tag: string, replicable: Replicable, change: Change)
    requires Diff(prev, next, tag, replicable).Changes?
    ensures change in Diff(prev, next, tag, replicable).changes <==> Belongs(prev, next, change)
  {
    ListedInParts(prev, next, tag, replicable, change);
    AllOids(prev.tables);
    AllOids(next.tables);
    IndexesDropped(prev, next);
    IndexesCreated(prev, next);
    IndexDropsBelong(IndexesToDrop(prev, next), prev, next, change);
    DropsBelong(Oids(prev.tables), prev, next, change);
    AltersBelong(Oids(next.tables), prev, next, tag, replicable, change);
    CreatesBelong(Oids(next.tables), prev, next, change);
    IndexCreatesBelong(IndexesToCreate(prev, next), prev, next, change);
  }

  // ---- Why a resync is asked for ---------------------------------------------

  /** The column at `p` is the first new one that existing rows would have to be copied for. */
  ghost predicate FirstBackfill(prev: Table, next: Table, tag: string, replicable: Replicable, p: int) {
    BackfillsColumn(prev, next, p, tag, replicable) && forall q | q < p :: !BackfillsColumn(prev, next, q, tag, replicable)
  }

  lemma {:induction false} BackfillNamed(keys: seq<int>, prev: Table, next: Table, tag: string, replicable: Replicable)
    requires forall i | 0 <= i < |keys| :: keys[i] in next.columns
    ensures var found := ColumnToBackfill(keys, prev, next, tag, replicable);
            found.Some? ==> exists i :: 0 <= i < |keys| && BackfillsColumn(prev, next, keys[i], tag, replicable)
                                     && found.value == next.columns[keys[i]].name
                                     && forall j | 0 <= j < i :: !BackfillsColumn(prev, next, keys[j], tag, replicable)
  {
    if keys != [] && ColumnToBackfill(keys, prev, next, tag, replicable).Some? {
      if BackfillsColumn(prev, next, keys[0], tag, replicable) {
        assert ColumnToBackfill(keys, prev, next, tag, replicable) == Some(next.columns[keys[0]].name);
      } else {
        BackfillNamed(keys[1..], prev, next, tag, replicable);
        var found := ColumnToBackfill(keys, prev, next, tag, replicable);
        var i :| 0 <= i < |keys[1..]| && BackfillsColumn(prev, next, keys[1..][i], tag, replicable)
              && found.value == next.columns[keys[1..][i]].name
              && forall j | 0 <= j < i :: !BackfillsColumn(prev, next, keys[1..][j], tag, replicable);
        assert keys[i + 1] == keys[1..][i];
        assert forall j | 0 < j < i + 1 :: keys[j] == keys[1..][j - 1];
      }
    }
  }

  lemma TableNamesBackfill(prev: Table, next: Table, tag: string, replicable: Replicable)
    requires TableChanges(prev, next, tag, replicable).Err?
    ensures exists p :: FirstBackfill(prev, next, tag, replicable, p)
                     && TableChanges(prev, next, tag, replicable).error == ColumnBackfill(next.id.name, next.columns[p].name)
  {
    var keys := Positions(next.columns);
    AllPositions(next.columns);
    IntsAreOrdered();
    assert forall i, j | 0 <= i < j < |keys| :: LessInt(keys[i], keys[j]);
    BackfillNamed(keys, prev, next, tag, replicable);
    var found := ColumnToBackfill(keys, prev, next, tag, replicable);
    var i :| 0 <= i < |keys| && BackfillsColumn(prev, next, keys[i], tag, replicable) && found.value == next.columns[keys[i]].name
          && forall j | 0 <= j < i :: !BackfillsColumn(prev, next, keys[j], tag, replicable);
    forall q | q < keys[i] ensures !BackfillsColumn(prev, next, q, tag, replicable) {
      if q in next.columns {
        assert q in keys;
        var j :| 0 <= j < |keys| && keys[j] == q;
        assert j < i || j == i || LessInt(keys[i], keys[j]);
      }
    }
    assert FirstBackfill(prev, next, tag, replicable, keys[i]);
  }

  /** The reason names the first column that needs a backfill of the first kept table that has one. */
  ghost predicate ColumnReason(prev: Schema, next: Schema, tag: string, replicable: Replicable, reason: Reason, o: int, p: int) {
    && Kept(prev, next, o) && FirstBackfill(prev.tables[o], next.tables[o], tag, replicable, p)
    && reason == ColumnBackfill(next.tables[o].id.name, next.tables[o].columns[p].name)
    && forall o' | o' < o :: !BackfillsTable(prev, next, o', tag, replicable)
  }

  lemma {:induction false} AltersNameBackfill(keys: seq<int>, prev: Schema, next: Schema, tag: string, replicable: Replicable) returns (i: nat, p: int)
    requires (forall i | 0 <= i < |keys| :: keys[i] in next.tables) && TableAlters(keys, prev, next, tag, replicable).Err?
    ensures i < |keys| && Kept(prev, next, keys[i]) && FirstBackfill(prev.tables[keys[i]], next.tables[keys[i]], tag, replicable, p)
    ensures TableAlters(keys, prev, next, tag, replicable).error == ColumnBackfill(next.tables[keys[i]].id.name, next.tables[keys[i]].columns[p].name)
    ensures forall j | 0 <= j < i :: !BackfillsTable(prev, next, keys[j], tag, replicable)
  {
    var o := keys[0];
    if o in prev.tables {
      TableChangesResync(prev, next, o, tag, replicable);
    }
    if o in prev.tables && TableChanges(prev.tables[o], next.tables[o], tag, replicable).Err? {
      TableNamesBackfill(prev.tables[o], next.tables[o], tag, replicable);
      i := 0;
      p :| FirstBackfill(prev.tables[o], next.tables[o], tag, replicable, p)
           && TableChanges(prev.tables[o], next.tables[o], tag, replicable).error == ColumnBackfill(next.tables[o].id.name, next.tables[o].columns[p].name);
    } else {
      i, p := AltersNameBackfill(keys[1..], prev, next, tag, replicable);
      assert forall j | 0 < j < i + 1 :: keys[j] == keys[1..][j - 1];
      i := i + 1;
    }
  }

  lemma {:induction false} NewTableNamed(keys: seq<int>, prev: Schema, next: Schema) returns (i: nat)
    requires (forall i | 0 <= i < |keys| :: keys[i] in next.tables) && NewTable(keys, prev, next).Some?
    ensures i < |keys| && keys[i] !in prev.tables && NewTable(keys, prev, next) == Some(next.tables[keys[i]].id)
    ensures forall j | 0 <= j < i :: keys[j] in prev.tables
  {
    if keys[0] !in prev.tables {
      i := 0;
    } else {
      i := NewTableNamed(keys[1..], prev, next);
      assert forall j | 0 < j < i + 1 :: keys[j] == keys[1..][j - 1];
      i := i + 1;
    }
  }

  lemma EarlierOid(tables: map<int, Table>, i: nat, o: int) returns (j: nat)
    requires i < |Oids(tables)| && o in tables && o < Oids(tables)[i]
    ensures j < i && Oids(tables)[j] == o
  {
    var keys := Oids(tables);
    AllOids(tables);
    IntsAreOrdered();
    assert o in keys;
    j :| 0 <= j < |keys| && keys[j] == o;
    assert j < i || j == i || LessInt(keys[i], keys[j]);
  }

  /** The reason names the first new table. */
  ghost predicate TableReason(prev: Schema, next: Schema, reason: Reason, o: int) {
    o in next.tables && o !in prev.tables && reason == TableBackfill(next.tables[o].id) && forall o' | o' < o && o' in next.tables :: o' in prev.tables
  }

  /** A resync names what it is for: the first column that needs a backfill, in the order of tables and columns, or else the first new table. */
  lemma ResyncNamesItsReason(prev: Schema, next: Schema, tag: string, replicable: Replicable)
    requires Diff(prev, next, tag, replicable).Resync?
    ensures var reason := Diff(prev, next, tag, replicable).reason;
            || (exists o, p :: ColumnReason(prev, next, tag, replicable, reason, o, p))
            || ((forall o :: !BackfillsTable(prev, next, o, tag, replicable)) && exists o :: TableReason(prev, next, reason, o))
  {
    var keys := Oids(next.tables);
    var reason := Diff(prev, next, tag, replicable).reason;
    if TableAlters(keys, prev, next, tag, replicable).Err? {
      var i, p := AltersNameBackfill(keys, prev, next, tag, replicable);
      forall o' | o' < keys[i] ensures !BackfillsTable(prev, next, o', tag, replicable) {
        if o' in next.tables {
          var j := EarlierOid(next.tables, i, o');
        }
      }
      assert ColumnReason(prev, next, tag, replicable, reason, keys[i], p);
    } else {
      var i := NewTableNamed(keys, prev, next);
      forall o' | o' < keys[i] && o' in next.tables ensures o' in prev.tables {
        var j := EarlierOid(next.tables, i, o');
      }
      assert TableReason(prev, next, reason, keys[i]);
      AllOids(next.tables);
      AltersResync(keys, prev, next, tag, replicable);
      forall o ensures !BackfillsTable(prev, next, o, tag, replicable) {
        if o in next.tables {
          assert o in keys;
          var j :| 0 <= j < |keys| && keys[j] == o;
        }
      }
    }
  }
}
