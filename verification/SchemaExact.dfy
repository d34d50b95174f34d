/**
 The conditions under which a diff applies exactly are necessary: one index is followed
 through the changes, and the tables are followed without any index in their way.
 */
module SchemaExact {
  import opened Base
  import opened KeyedMaps
  import opened SchemaDiff
  import opened SchemaApply
  import opened ColumnDiff
  import opened SchemaCorrect
  import QueryAst
  import SchemaDiffLoops

  type IndexColumns = seq<(string, QueryAst.Direction)>

  predicate OnIndex(change: Change) {
    change.DropIndex? || change.CreateIndex?
  }

  ghost predicate LeavesIndexes(changes: seq<Change>) {
    forall c | 0 <= c < |changes| :: !OnIndex(changes[c])
  }

  lemma LeavesConcat(a: seq<Change>, b: seq<Change>)
    requires LeavesIndexes(a) && LeavesIndexes(b)
    ensures LeavesIndexes(a + b)
  {
  }

  // ---- Tables alone ----------------------------------------------------------

  /** What applies with indexes applies without, to the same tables. */
  lemma ApplyWithoutIndexes(cat: Catalog, change: Change)
    requires !OnIndex(change) && Apply(cat, change).Some?
    ensures Apply(Catalog(cat.tables, map[]), change) == Some(Catalog(Apply(cat, change).value.tables, map[]))
  {
  }

  lemma {:induction false} ApplyAllWithoutIndexes(cat: Catalog, changes: seq<Change>)
    requires LeavesIndexes(changes) && ApplyAll(cat, changes).Some?
    ensures ApplyAll(Catalog(cat.tables, map[]), changes) == Some(Catalog(ApplyAll(cat, changes).value.tables, map[]))
    decreases |changes|
  {
    if changes != [] {
      ApplyWithoutIndexes(cat, changes[0]);
      ApplyAllWithoutIndexes(Apply(cat, changes[0]).value, changes[1..]);
    }
  }

  // ---- One index -------------------------------------------------------------

  /** What becomes of an index under a change; none if it goes away or stands in the way. */
  function Follow(def: IndexDef, change: Change): Option<IndexDef> {
    match change
    case DropTable(table) => if def.table == table then None else Some(def)
    case RenameTable(old_, new_) => Some(if def.table == old_ then def.(table := new_) else def)
    case DropColumn(table, name) => if UsesColumn(def, table, name) then None else Some(def)
    case UpdateColumn(table, from, to) =>
      Some(if def.table == table && from.name != to.name then def.(columns := RenameColumns(def.columns, from.name, to.name)) else def)
    case _ => Some(def)
  }

  function FollowAll(def: IndexDef, changes: seq<Change>): Option<IndexDef>
    decreases |changes|
  {
    if changes == [] then Some(def)
    else
      var next :- Follow(def, changes[0]);
      FollowAll(next, changes[1..])
  }

  lemma FollowApply(cat: Catalog, change: Change, i: Identifier)
    requires !OnIndex(change) && Apply(cat, change).Some? && i in cat.indexes
    ensures var indexes := Apply(cat, change).value.indexes;
            Follow(cat.indexes[i], change) == if i in indexes then Some(indexes[i]) else None
  {
  }

  lemma NoNewIndexes(cat: Catalog, change: Change, i: Identifier)
    requires !OnIndex(change) && Apply(cat, change).Some? && i !in cat.indexes
    ensures i !in Apply(cat, change).value.indexes
  {
  }

  lemma {:induction false} NoneStaysNone(cat: Catalog, changes: seq<Change>, i: Identifier)
    requires LeavesIndexes(changes) && ApplyAll(cat, changes).Some? && i !in cat.indexes
    ensures i !in ApplyAll(cat, changes).value.indexes
    decreases |changes|
  {
    if changes != [] {
      NoNewIndexes(cat, changes[0], i);
      NoneStaysNone(Apply(cat, changes[0]).value, changes[1..], i);
    }
  }

  lemma {:induction false} FollowApplyAll(cat: Catalog, changes: seq<Change>, i: Identifier)
    requires LeavesIndexes(changes) && ApplyAll(cat, changes).Some? && i in cat.indexes
    ensures var indexes := ApplyAll(cat, changes).value.indexes;
            FollowAll(cat.indexes[i], changes) == if i in indexes then Some(indexes[i]) else None
    decreases |changes|
  {
    if changes != [] {
      FollowApply(cat, changes[0], i);
      var next := Apply(cat, changes[0]).value;
      if i in next.indexes {
        FollowApplyAll(next, changes[1..], i);
      } else {
        NoneStaysNone(next, changes[1..], i);
      }
    }
  }

  lemma {:induction false} FollowConcat(def: IndexDef, a: seq<Change>, b: seq<Change>)
    ensures FollowAll(def, a + b) == (var mid := FollowAll(def, a); if mid.Some? then FollowAll(mid.value, b) else None)
    decreases |a|
  {
    if a == [] {
      assert a + b == b;
    } else {
      assert (a + b)[0] == a[0] && (a + b)[1..] == a[1..] + b;
      var next := Follow(def, a[0]);
      if next.Some? {
        FollowConcat(next.value, a[1..], b);
      }
    }
  }

  lemma FollowFirst(def: IndexDef, change: Change, rest: seq<Change>)
    ensures FollowAll(def, [change] + rest) == (var next := Follow(def, change); if next.Some? then FollowAll(next.value, rest) else None)
  {
    assert ([change] + rest)[1..] == rest;
  }

  // ---- Through the table drops -----------------------------------------------

  lemma {:induction false} FollowTableDrops(keys: seq<int>, prev: Schema, next: Schema, def: IndexDef, o: int)
    requires WellFormed(prev) && (forall i | 0 <= i < |keys| :: keys[i] in prev.tables) && o in prev.tables && def.table == prev.tables[o].id
    ensures FollowAll(def, TableDrops(keys, prev, next)) == if o in keys && o !in next.tables then None else Some(def)
  {
    if keys != [] {
      var first, rest := keys[0], TableDrops(keys[1..], prev, next);
      FollowTableDrops(keys[1..], prev, next, def, o);
      assert o in keys <==> o == first || o in keys[1..];
      if first in next.tables {
        assert TableDrops(keys, prev, next) == rest;
      } else {
        FollowFirst(def, DropTable(prev.tables[first].id), rest);
        DistinctIds(prev, o, first);
      }
    }
  }

  // ---- Through the columns of its table --------------------------------------

  /** An index over the columns at given positions of its table, while the listed positions still have their old names. */
  ghost predicate Spans(columns: IndexColumns, positions: seq<int>, keys: seq<int>, prev: Table, next: Table) {
    && |columns| == |positions|
    && forall c | 0 <= c < |positions| ::
         && positions[c] in prev.columns && positions[c] in next.columns
         && columns[c].0 == if positions[c] in keys then prev.columns[positions[c]].name else next.columns[positions[c]].name
  }

  /** If the index survives the drops it is unchanged, and no column of that name is dropped. */
  lemma {:induction false} FollowColumnDrops(keys: seq<int>, prev: Table, next: Table, def: IndexDef)
    requires (forall i | 0 <= i < |keys| :: keys[i] in prev.columns) && def.table == next.id
    requires FollowAll(def, ColumnDrops(keys, prev, next)).Some?
    ensures FollowAll(def, ColumnDrops(keys, prev, next)) == Some(def)
    ensures forall i, c | 0 <= i < |keys| && 0 <= c < |def.columns| && prev.columns[keys[i]].name == def.columns[c].0 :: keys[i] in next.columns
  {
    if keys != [] {
      var first, rest := keys[0], ColumnDrops(keys[1..], prev, next);
      if first in next.columns {
        assert ColumnDrops(keys, prev, next) == rest;
      } else {
        FollowFirst(def, DropColumn(next.id, prev.columns[first].name), rest);
      }
      FollowColumnDrops(keys[1..], prev, next, def);
      assert forall i | 0 < i < |keys| :: keys[i] == keys[1..][i - 1];
    }
  }

  /** The positions already renamed lie before those still to come. */
  ghost predicate Behind(positions: seq<int>, keys: seq<int>) {
    forall c, i | 0 <= c < |positions| && positions[c] !in keys && 0 <= i < |keys| :: positions[c] < keys[i]
  }

  lemma OnePosition(columns: IndexColumns, positions: seq<int>, keys: seq<int>, prev: Table, next: Table, q: int, c: int)
    requires DistinctColumns(prev) && NoColumnClash(prev, next) && AscendingKeys(keys) && Spans(columns, positions, keys, prev, next) && Behind(positions, keys)
    requires keys != [] && keys[0] == q && q in prev.columns && q in next.columns && 0 <= c < |positions|
    ensures columns[c].0 == prev.columns[q].name <==> positions[c] == q
    ensures positions[c] in keys <==> positions[c] == q || positions[c] in keys[1..]
    ensures q !in keys[1..]
  {
    var x := positions[c];
    SplitKeys(keys);
    assert q in keys;
    if x in keys && prev.columns[x].name == prev.columns[q].name {
      DistinctPositions(prev, x, q);
    }
  }

  lemma RenameStep(columns: IndexColumns, positions: seq<int>, keys: seq<int>, prev: Table, next: Table, q: int)
    requires DistinctColumns(prev) && NoColumnClash(prev, next) && AscendingKeys(keys) && Spans(columns, positions, keys, prev, next) && Behind(positions, keys)
    requires keys != [] && keys[0] == q && q in prev.columns && q in next.columns
    ensures Spans(RenameColumns(columns, prev.columns[q].name, next.columns[q].name), positions, keys[1..], prev, next)
    ensures prev.columns[q].name == next.columns[q].name ==> Spans(columns, positions, keys[1..], prev, next)
  {
    forall c | 0 <= c < |positions|
      ensures columns[c].0 == prev.columns[q].name <==> positions[c] == q
      ensures positions[c] in keys <==> positions[c] == q || positions[c] in keys[1..]
      ensures q !in keys[1..]
    {
      OnePosition(columns, positions, keys, prev, next, q, c);
    }
  }

  lemma SkipStep(columns: IndexColumns, positions: seq<int>, keys: seq<int>, prev: Table, next: Table, q: int)
    requires AscendingKeys(keys) && Spans(columns, positions, keys, prev, next) && keys != [] && keys[0] == q && q !in prev.columns
    ensures Spans(columns, positions, keys[1..], prev, next)
  {
    SplitKeys(keys);
    forall c | 0 <= c < |positions| ensures positions[c] in keys <==> positions[c] in keys[1..] {
      var x := positions[c];
      assert x != q;
    }
  }

  lemma StaysBehind(positions: seq<int>, keys: seq<int>)
    requires keys != [] && AscendingKeys(keys) && Behind(positions, keys)
    ensures Behind(positions, keys[1..])
  {
    SplitKeys(keys);
    forall c, i | 0 <= c < |positions| && positions[c] !in keys[1..] && 0 <= i < |keys[1..]| ensures positions[c] < keys[1..][i] {
      var x := positions[c];
      assert keys[1..][i] == keys[i + 1];
      if x in keys {
        assert x == keys[0];
      }
    }
  }

  /** Through the updates the index comes to the new names of its columns. */
  lemma {:induction false} FollowColumnUpdates(keys: seq<int>, prev: Table, next: Table, def: IndexDef, positions: seq<int>) returns (columns: IndexColumns)
    requires DistinctColumns(prev) && NoColumnClash(prev, next) && AscendingKeys(keys) && forall i | 0 <= i < |keys| :: keys[i] in next.columns
    requires def.table == next.id && Spans(def.columns, positions, keys, prev, next) && Behind(positions, keys)
    ensures Spans(columns, positions, [], prev, next) && FollowAll(def, ColumnUpdates(keys, prev, next)) == Some(def.(columns := columns))
  {
    columns := def.columns;
    if keys != [] {
      var q, rest := keys[0], ColumnUpdates(keys[1..], prev, next);
      StaysBehind(positions, keys);
      if q !in prev.columns {
        SkipStep(def.columns, positions, keys, prev, next, q);
        columns := FollowColumnUpdates(keys[1..], prev, next, def, positions);
        assert ColumnUpdates(keys, prev, next) == rest;
      } else {
        RenameStep(def.columns, positions, keys, prev, next, q);
        if !ColumnChanged(prev.columns[q], next.columns[q]) {
          columns := FollowColumnUpdates(keys[1..], prev, next, def, positions);
          assert ColumnUpdates(keys, prev, next) == rest;
        } else {
          var change := UpdateColumn(next.id, prev.columns[q], next.columns[q]);
          FollowFirst(def, change, rest);
          columns := FollowColumnUpdates(keys[1..], prev, next, Follow(def, change).value, positions);
        }
      }
    }
  }

  lemma {:induction false} FollowColumnAdds(keys: seq<int>, prev: Table, next: Table, def: IndexDef)
    requires forall i | 0 <= i < |keys| :: keys[i] in next.columns
    ensures FollowAll(def, ColumnAdds(keys, prev, next)) == Some(def)
  {
    if keys != [] {
      FollowColumnAdds(keys[1..], prev, next, def);
      var rest := ColumnAdds(keys[1..], prev, next);
      if keys[0] in prev.columns {
        assert ColumnAdds(keys, prev, next) == rest;
      } else {
        FollowFirst(def, AddColumn(next.id, next.columns[keys[0]]), rest);
      }
    }
  }

  /** An index over the columns at given positions of the previous table. */
  ghost predicate Located(columns: IndexColumns, positions: seq<int>, t: Table) {
    |columns| == |positions| && forall c | 0 <= c < |positions| :: positions[c] in t.columns && columns[c].0 == t.columns[positions[c]].name
  }

  lemma LocatedKept(prev: Table, next: Table, keys: seq<int>, def: IndexDef, positions: seq<int>)
    requires keys == Positions(prev.columns) && Located(def.columns, positions, prev)
    requires forall i, c | 0 <= i < |keys| && 0 <= c < |def.columns| && prev.columns[keys[i]].name == def.columns[c].0 :: keys[i] in next.columns
    ensures forall c | 0 <= c < |positions| :: positions[c] in next.columns
  {
    forall c | 0 <= c < |positions| ensures positions[c] in next.columns {
      var x := positions[c];
      assert x in keys;
      var i :| 0 <= i < |keys| && keys[i] == x;
    }
  }

  lemma SpansAtFirst(prev: Table, next: Table, keys: seq<int>, columns: IndexColumns, positions: seq<int>)
    requires keys == Positions(next.columns) && Located(columns, positions, prev) && forall c | 0 <= c < |positions| :: positions[c] in next.columns
    ensures Spans(columns, positions, keys, prev, next) && Behind(positions, keys) && AscendingKeys(keys)
  {
    forall c | 0 <= c < |positions| ensures positions[c] in keys {
      var x := positions[c];
      assert x in keys;
    }
  }

  /** If the index survives its table's column changes, its columns survive and it has their new names. */
  lemma FollowColumnChanges(prev: Table, next: Table, def: IndexDef, positions: seq<int>) returns (columns: IndexColumns)
    requires DistinctColumns(prev) && NoColumnClash(prev, next) && def.table == next.id && Located(def.columns, positions, prev)
    requires FollowAll(def, ColumnChanges(prev, next)).Some?
    ensures FollowAll(def, ColumnChanges(prev, next)) == Some(def.(columns := columns)) && Spans(columns, positions, [], prev, next)
  {
    var prevKeys, nextKeys := Positions(prev.columns), Positions(next.columns);
    var drops, updates, adds := ColumnDrops(prevKeys, prev, next), ColumnUpdates(nextKeys, prev, next), ColumnAdds(nextKeys, prev, next);
    FollowConcat(def, drops, updates + adds);
    FollowColumnDrops(prevKeys, prev, next, def);
    LocatedKept(prev, next, prevKeys, def, positions);
    SpansAtFirst(prev, next, nextKeys, def.columns, positions);
    columns := FollowColumnUpdates(nextKeys, prev, next, def, positions);
    FollowConcat(def, updates, adds);
    FollowColumnAdds(nextKeys, prev, next, def.(columns := columns));
  }

  // ---- Through the tables ----------------------------------------------------

  lemma {:induction false} FollowIrrelevant(def: IndexDef, changes: seq<Change>)
    requires forall c | 0 <= c < |changes| :: Follow(def, changes[c]) == Some(def)
    ensures FollowAll(def, changes) == Some(def)
    decreases |changes|
  {
    if changes != [] {
      FollowIrrelevant(def, changes[1..]);
    }
  }

  lemma ColumnsPass(def: IndexDef, p: Table, n: Table, changes: seq<Change>)
    requires def.table != n.id && AllOriginate(p, n, changes)
    ensures FollowAll(def, changes) == Some(def)
  {
    forall c | 0 <= c < |changes| ensures Follow(def, changes[c]) == Some(def) {
      assert Originates(p, n, changes[c]);
    }
    FollowIrrelevant(def, changes);
  }

  /** The changes of a table whose old and new names are not the index's table pass it by. */
  lemma OtherTablePasses(def: IndexDef, p: Table, n: Table)
    requires def.table != p.id && def.table != n.id
    ensures FollowAll(def, Renaming(p, n) + ColumnChanges(p, n)) == Some(def)
  {
    ChangesOriginate(p, n);
    ColumnsPass(def, p, n, ColumnChanges(p, n));
    FollowIrrelevant(def, Renaming(p, n));
    FollowConcat(def, Renaming(p, n), ColumnChanges(p, n));
  }

  /** Its own table's changes carry the index along. */
  lemma OwnTableCarries(def: IndexDef, p: Table, n: Table, positions: seq<int>) returns (columns: IndexColumns)
    requires DistinctColumns(p) && NoColumnClash(p, n) && def.table == p.id && Located(def.columns, positions, p)
    requires FollowAll(def, Renaming(p, n) + ColumnChanges(p, n)).Some?
    ensures FollowAll(def, Renaming(p, n) + ColumnChanges(p, n)) == Some(IndexDef(n.id, def.unique, columns))
    ensures Spans(columns, positions, [], p, n)
  {
    FollowConcat(def, Renaming(p, n), ColumnChanges(p, n));
    if p.id != n.id {
      FollowFirst(def, RenameTable(p.id, n.id), []);
      assert [RenameTable(p.id, n.id)] + [] == [RenameTable(p.id, n.id)];
    }
    columns := FollowColumnChanges(p, n, def.(table := n.id), positions);
  }

  lemma FollowFirstTable(keys: seq<int>, prev: Schema, next: Schema, def: IndexDef, q: int)
    requires keys != [] && keys[0] == q && forall i | 0 <= i < |keys| :: keys[i] in next.tables
    ensures q !in prev.tables ==> FollowAll(def, AllTableChanges(keys, prev, next)) == FollowAll(def, AllTableChanges(keys[1..], prev, next))
    ensures q in prev.tables ==>
      var mid := FollowAll(def, Renaming(prev.tables[q], next.tables[q]) + ColumnChanges(prev.tables[q], next.tables[q]));
      FollowAll(def, AllTableChanges(keys, prev, next)) == if mid.Some? then FollowAll(mid.value, AllTableChanges(keys[1..], prev, next)) else None
  {
    if q in prev.tables {
      FollowConcat(def, Renaming(prev.tables[q], next.tables[q]) + ColumnChanges(prev.tables[q], next.tables[q]), AllTableChanges(keys[1..], prev, next));
    } else {
      NoAlter(keys, prev, next);
    }
  }

  lemma NotItsName(prev: Schema, next: Schema, o: int, q: int)
    requires WellFormed(prev) && WellFormed(next) && NoClash(prev, next) && Kept(prev, next, o) && Kept(prev, next, q) && o != q
    ensures prev.tables[o].id != prev.tables[q].id && next.tables[o].id != next.tables[q].id
    ensures q < o ==> next.tables[q].id != prev.tables[o].id
    ensures o < q ==> next.tables[o].id != prev.tables[q].id
  {
    DistinctIds(prev, o, q);
    DistinctIds(next, o, q);
  }

  /** Once its table is done, the index stays as it is. */
  lemma {:induction false} AltersAfter(keys: seq<int>, prev: Schema, next: Schema, o: int, def: IndexDef)
    requires WellFormed(prev) && WellFormed(next) && NoClash(prev, next) && Kept(prev, next, o) && def.table == next.tables[o].id
    requires forall i | 0 <= i < |keys| :: keys[i] in next.tables && o < keys[i]
    ensures FollowAll(def, AllTableChanges(keys, prev, next)) == Some(def)
  {
    if keys != [] {
      var q := keys[0];
      AltersAfter(keys[1..], prev, next, o, def);
      FollowFirstTable(keys, prev, next, def, q);
      if q in prev.tables {
        NotItsName(prev, next, o, q);
        OtherTablePasses(def, prev.tables[q], next.tables[q]);
      }
    }
  }

  /** Through the alterations the index goes with its table and its columns. */
  lemma {:induction false} AltersCarry(keys: seq<int>, prev: Schema, next: Schema, o: int, def: IndexDef, positions: seq<int>) returns (columns: IndexColumns)
    requires WellFormed(prev) && WellFormed(next) && NoClash(prev, next) && Kept(prev, next, o) && AscendingKeys(keys) && o in keys
    requires forall i | 0 <= i < |keys| :: keys[i] in next.tables
    requires def.table == prev.tables[o].id && Located(def.columns, positions, prev.tables[o])
    requires FollowAll(def, AllTableChanges(keys, prev, next)).Some?
    ensures FollowAll(def, AllTableChanges(keys, prev, next)) == Some(IndexDef(next.tables[o].id, def.unique, columns))
    ensures Spans(columns, positions, [], prev.tables[o], next.tables[o])
  {
    var q := keys[0];
    FollowFirstTable(keys, prev, next, def, q);
    if q == o {
      columns := OwnTableCarries(def, prev.tables[o], next.tables[o], positions);
      AltersAfter(keys[1..], prev, next, o, IndexDef(next.tables[o].id, def.unique, columns));
    } else {
      SplitKeys(keys);
      assert q < o;
      if q in prev.tables {
        NotItsName(prev, next, o, q);
        OtherTablePasses(def, prev.tables[q], next.tables[q]);
      }
      columns := AltersCarry(keys[1..], prev, next, o, def, positions);
    }
  }

  lemma {:induction false} CreatesPass(keys: seq<int>, prev: Schema, next: Schema, def: IndexDef)
    requires forall i | 0 <= i < |keys| :: keys[i] in next.tables
    ensures FollowAll(def, TableCreates(keys, prev, next)) == Some(def)
  {
    if keys != [] {
      CreatesPass(keys[1..], prev, next, def);
      if keys[0] in prev.tables {
        NoCreate(keys, prev, next);
      } else {
        var t := next.tables[keys[0]];
        FollowFirst(def, CreateTable(t.id, ColumnList(t.columns, Positions(t.columns))), TableCreates(keys[1..], prev, next));
      }
    }
  }

  // ---- Through the whole diff ------------------------------------------------

  lemma {:induction false} TableDropsLeaveIndexes(keys: seq<int>, prev: Schema, next: Schema)
    requires forall i | 0 <= i < |keys| :: keys[i] in prev.tables
    ensures LeavesIndexes(TableDrops(keys, prev, next))
  {
    if keys != [] {
      TableDropsLeaveIndexes(keys[1..], prev, next);
    }
  }

  lemma ColumnChangesLeaveIndexes(p: Table, n: Table, changes: seq<Change>)
    requires AllOriginate(p, n, changes)
    ensures LeavesIndexes(changes)
  {
    forall c | 0 <= c < |changes| ensures !OnIndex(changes[c]) {
      assert Originates(p, n, changes[c]);
    }
  }

  lemma OwnChangesLeaveIndexes(p: Table, n: Table)
    ensures LeavesIndexes(Renaming(p, n) + ColumnChanges(p, n))
  {
    ChangesOriginate(p, n);
    ColumnChangesLeaveIndexes(p, n, ColumnChanges(p, n));
    LeavesConcat(Renaming(p, n), ColumnChanges(p, n));
  }

  lemma {:induction false} AltersLeaveIndexes(keys: seq<int>, prev: Schema, next: Schema)
    requires forall i | 0 <= i < |keys| :: keys[i] in next.tables
    ensures LeavesIndexes(AllTableChanges(keys, prev, next))
  {
    if keys != [] {
      var q, rest := keys[0], AllTableChanges(keys[1..], prev, next);
      AltersLeaveIndexes(keys[1..], prev, next);
      if q in prev.tables {
        OwnChangesLeaveIndexes(prev.tables[q], next.tables[q]);
        LeavesConcat(Renaming(prev.tables[q], next.tables[q]) + ColumnChanges(prev.tables[q], next.tables[q]), rest);
      } else {
        NoAlter(keys, prev, next);
      }
    }
  }

  lemma {:induction false} TableCreatesLeaveIndexes(keys: seq<int>, prev: Schema, next: Schema)
    requires forall i | 0 <= i < |keys| :: keys[i] in next.tables
    ensures LeavesIndexes(TableCreates(keys, prev, next))
  {
    if keys != [] {
      TableCreatesLeaveIndexes(keys[1..], prev, next);
    }
  }

  /** Everything between the index drops and the index creations. */
  function Middle(prev: Schema, next: Schema): seq<Change> {
    KeptTables(prev, next) + TableCreates(Oids(next.tables), prev, next)
  }

  /** What happens to the tables there are. */
  function KeptTables(prev: Schema, next: Schema): seq<Change> {
    TableDrops(Oids(prev.tables), prev, next) + AllTableChanges(Oids(next.tables), prev, next)
  }

  lemma KeptTablesLeaveIndexes(prev: Schema, next: Schema)
    ensures LeavesIndexes(KeptTables(prev, next))
  {
    TableDropsLeaveIndexes(Oids(prev.tables), prev, next);
    AltersLeaveIndexes(Oids(next.tables), prev, next);
    LeavesConcat(TableDrops(Oids(prev.tables), prev, next), AllTableChanges(Oids(next.tables), prev, next));
  }

  lemma MiddleLeavesIndexes(prev: Schema, next: Schema)
    ensures LeavesIndexes(Middle(prev, next))
  {
    KeptTablesLeaveIndexes(prev, next);
    TableCreatesLeaveIndexes(Oids(next.tables), prev, next);
    LeavesConcat(KeptTables(prev, next), TableCreates(Oids(next.tables), prev, next));
  }

  lemma DiffAroundMiddle(prev: Schema, next: Schema, tag: string, replicable: Replicable)
    requires Diff(prev, next, tag, replicable).Changes?
    ensures Diff(prev, next, tag, replicable).changes
         == IndexDrops(IndexesToDrop(prev, next), prev) + (Middle(prev, next) + IndexCreates(IndexesToCreate(prev, next), next))
  {
    DiffPhases(prev, next, tag, replicable);
    FiveParts(IndexDrops(IndexesToDrop(prev, next), prev), TableDrops(Oids(prev.tables), prev, next), AllTableChanges(Oids(next.tables), prev, next),
              TableCreates(Oids(next.tables), prev, next), IndexCreates(IndexesToCreate(prev, next), next));
  }

  lemma FiveParts<T>(a: seq<T>, b: seq<T>, c: seq<T>, d: seq<T>, e: seq<T>)
    ensures (a + b) + (c + (d + e)) == a + (((b + c) + d) + e)
  {
  }

  /** If the index survives, its table and columns do, and it has their new names. */
  lemma MiddleCarries(prev: Schema, next: Schema, o: int, def: IndexDef, positions: seq<int>) returns (columns: IndexColumns)
    requires WellFormed(prev) && WellFormed(next) && NoClash(prev, next) && o in prev.tables
    requires def.table == prev.tables[o].id && Located(def.columns, positions, prev.tables[o])
    requires FollowAll(def, Middle(prev, next)).Some?
    ensures o in next.tables && FollowAll(def, Middle(prev, next)) == Some(IndexDef(next.tables[o].id, def.unique, columns))
    ensures Spans(columns, positions, [], prev.tables[o], next.tables[o])
  {
    var drops, alters := TableDrops(Oids(prev.tables), prev, next), AllTableChanges(Oids(next.tables), prev, next);
    FollowConcat(def, KeptTables(prev, next), TableCreates(Oids(next.tables), prev, next));
    FollowConcat(def, drops, alters);
    FollowTableDrops(Oids(prev.tables), prev, next, def, o);
    assert o in Oids(prev.tables);
    OidsAscend(next.tables);
    assert o in Oids(next.tables);
    columns := AltersCarry(Oids(next.tables), prev, next, o, def, positions);
    CreatesPass(Oids(next.tables), prev, next, IndexDef(next.tables[o].id, def.unique, columns));
  }

  // ---- The conditions are necessary ------------------------------------------

  lemma NoIndexesMidway(prev: Schema, m: TableEntries)
    requires WellFormed(prev) && Injective(m)
    ensures HomesIn(prev, map[], m) && Midway(prev, map[], m) == Catalog(ByName(m), map[])
  {
    NothingByName(Placed(prev, map[], m));
  }

  lemma NothingByName(j: IndexEntries)
    requires forall k :: k !in j
    ensures Injective(j) && ByName(j) == map[]
  {
  }

  /** The table changes succeed on bare tables only without a clash. */
  lemma BareTablesNeedNoClash(prev: Schema, next: Schema)
    requires WellFormed(prev) && WellFormed(next)
    requires ApplyAll(Catalog(ByName(TablesOf(prev)), map[]), KeptTables(prev, next)).Some?
    ensures NoClash(prev, next)
  {
    var homes: Homes := map[];
    var drops, alters := TableDrops(Oids(prev.tables), prev, next), AllTableChanges(Oids(next.tables), prev, next);
    NoIndexesMidway(prev, TablesOf(prev));
    TableDropsStart(prev, next);
    var m := TableDropsApply(Oids(prev.tables), prev, next, homes, TablesOf(prev));
    AltersFollowDrops(prev, next, m);
    ApplyConcat(Midway(prev, homes, TablesOf(prev)), drops, alters);
    var m' := AltersApply(Oids(next.tables), prev, next, homes, m);
    NoClashAmongAll(prev, next, Oids(next.tables));
  }

  /** What the index drops leave, whatever becomes of the rest. */
  lemma AfterIndexDrops(prev: Schema, next: Schema) returns (j: IndexEntries)
    requires WellFormed(prev)
    ensures DroppingIndexes([], prev, next, j)
    ensures ApplyAll(CatalogOf(prev), IndexDrops(IndexesToDrop(prev, next), prev)) == Some(Catalog(ByName(TablesOf(prev)), ByName(j)))
  {
    IndexDropsStart(prev, next);
    j := IndexDropsApply(IndexesToDrop(prev, next), prev, next, ByName(TablesOf(prev)), IndexesOf(prev));
  }

  /** If the middle of the diff applies, no two names clash. */
  lemma MiddleNeedsNoClash(prev: Schema, next: Schema, indexes: Indexes)
    requires WellFormed(prev) && WellFormed(next) && ApplyAll(Catalog(ByName(TablesOf(prev)), indexes), Middle(prev, next)).Some?
    ensures NoClash(prev, next)
  {
    var cat := Catalog(ByName(TablesOf(prev)), indexes);
    ApplyConcat(cat, KeptTables(prev, next), TableCreates(Oids(next.tables), prev, next));
    KeptTablesLeaveIndexes(prev, next);
    ApplyAllWithoutIndexes(cat, KeptTables(prev, next));
    BareTablesNeedNoClash(prev, next);
  }

  lemma {:induction false} CreatesKeepOthers(keys: seq<string>, next: Schema, cat: Catalog, i: Identifier)
    requires (forall k | 0 <= k < |keys| :: keys[k] in next.indexes) && ApplyAll(cat, IndexCreates(keys, next)).Some?
    requires forall k | 0 <= k < |keys| :: next.indexes[keys[k]].id != i
    ensures var indexes := ApplyAll(cat, IndexCreates(keys, next)).value.indexes;
            (i in indexes <==> i in cat.indexes) && (i in indexes ==> indexes[i] == cat.indexes[i])
  {
    if keys != [] {
      FirstIndexCreate(keys, next);
      ApplyFirstChange(cat, CreateIndex(ToSpec(next.indexes[keys[0]])), IndexCreates(keys[1..], next));
      CreatesKeepOthers(keys[1..], next, Apply(cat, CreateIndex(ToSpec(next.indexes[keys[0]]))).value, i);
    }
  }

  /** An id under the key of a kept index is not created. */
  lemma KeptKeyIsNotCreated(prev: Schema, next: Schema, k: string, i: Identifier)
    requires WellFormed(next) && KeptIndex(prev, next, k) && IndexKey(i) == k
    ensures forall c | 0 <= c < |IndexesToCreate(prev, next)| :: next.indexes[IndexesToCreate(prev, next)[c]].id != i
  {
    var keys := IndexesToCreate(prev, next);
    IndexListsHaveNoRepeats(prev, next);
    forall c | 0 <= c < |keys| ensures next.indexes[keys[c]].id != i {
      assert keys[c] in keys;
      assert IndexKey(next.indexes[keys[c]].id) == keys[c];
    }
  }

  lemma ItsPositions(prev: Schema, index: Index) returns (o: int, positions: seq<int>)
    requires IndexIsPlaced(prev, index)
    ensures o in prev.tables && prev.tables[o].id == HomeOf(index) && Located(index.columns, positions, prev.tables[o])
  {
    o :| o in prev.tables && prev.tables[o].id == HomeOf(index)
         && forall c | 0 <= c < |index.columns| :: HasColumn(prev.tables[o], index.columns[c].0);
    positions := seq(|index.columns|, c requires 0 <= c < |index.columns| => PositionOf(prev.tables[o], index.columns[c].0));
  }

  ghost function PositionOf(t: Table, name: string): (p: int)
    requires HasColumn(t, name)
    ensures p in t.columns && t.columns[p].name == name
  {
    var p :| p in t.columns && t.columns[p].name == name;
    p
  }

  /** The last step of following a kept index: it ends where the next schema has it. */
  lemma EndsWhereItIs(prev: Schema, next: Schema, k: string, o: int, positions: seq<int>, columns: IndexColumns)
    requires KeptIndex(prev, next, k) && Kept(prev, next, o) && prev.tables[o].id == HomeOf(prev.indexes[k])
    requires Located(prev.indexes[k].columns, positions, prev.tables[o]) && Spans(columns, positions, [], prev.tables[o], next.tables[o])
    requires IndexDef(next.tables[o].id, prev.indexes[k].unique, columns) == IndexEntry(next.indexes[k]).1
    ensures StaysOn(prev, next, k, o)
  {
    var p, n, names := prev.tables[o], next.tables[o], prev.indexes[k].columns;
    forall c | 0 <= c < |names| ensures KeepsColumn(p, n, names[c].0) {
      var x := positions[c];
      assert x in p.columns && x in n.columns && p.columns[x].name == names[c].0 == n.columns[x].name;
    }
  }

  /** Every index of the next schema under a kept key has the id it had before. */
  lemma KeptIdStays(prev: Schema, next: Schema, k: string, j: IndexEntries, middle: Catalog)
    requires WellFormed(prev) && WellFormed(next) && KeptIndex(prev, next, k) && DroppingIndexes([], prev, next, j)
    requires ApplyAll(Catalog(ByName(TablesOf(prev)), ByName(j)), Middle(prev, next)) == Some(middle)
    requires next.indexes[k].id in middle.indexes
    ensures next.indexes[k].id == prev.indexes[k].id && k in j && prev.indexes[k].id in ByName(j)
    ensures ByName(j)[prev.indexes[k].id] == IndexEntry(prev.indexes[k]).1
  {
    var i := next.indexes[k].id;
    MiddleLeavesIndexes(prev, next);
    if i !in ByName(j) {
      NoneStaysNone(Catalog(ByName(TablesOf(prev)), ByName(j)), Middle(prev, next), i);
      assert false;
    }
    NamesIn(j, i);
    var k' := EntryOf(j, i);
    KeyOfKept(prev, next, j, k');
    assert IndexKey(next.indexes[k].id) == k;
    NameLookup(j, k);
  }

  lemma KeyOfKept(prev: Schema, next: Schema, j: IndexEntries, k: string)
    requires WellFormed(prev) && DroppingIndexes([], prev, next, j) && k in j
    ensures k in prev.indexes && j[k] == IndexEntry(prev.indexes[k]) && IndexKey(j[k].0) == k
  {
  }

  /** If the diff leads to the next catalog, the index stays on its table and columns. */
  lemma KeptIndexStays(prev: Schema, next: Schema, k: string, j: IndexEntries, middle: Catalog) returns (o: int)
    requires WellFormed(prev) && WellFormed(next) && NoClash(prev, next) && KeptIndex(prev, next, k) && DroppingIndexes([], prev, next, j)
    requires ApplyAll(Catalog(ByName(TablesOf(prev)), ByName(j)), Middle(prev, next)) == Some(middle)
    requires ApplyAll(middle, IndexCreates(IndexesToCreate(prev, next), next)) == Some(CatalogOf(next))
    ensures prev.indexes[k].id == next.indexes[k].id && StaysOn(prev, next, k, o)
  {
    var i, created := next.indexes[k].id, IndexesToCreate(prev, next);
    KeptKeyIsNotCreated(prev, next, k, i);
    CreatesKeepOthers(created, next, middle, i);
    NameLookup(IndexesOf(next), k);
    KeptIdStays(prev, next, k, j, middle);
    MiddleLeavesIndexes(prev, next);
    FollowApplyAll(Catalog(ByName(TablesOf(prev)), ByName(j)), Middle(prev, next), i);
    assert IndexIsPlaced(prev, prev.indexes[k]);
    var positions;
    o, positions := ItsPositions(prev, prev.indexes[k]);
    var columns := MiddleCarries(prev, next, o, IndexEntry(prev.indexes[k]).1, positions);
    EndsWhereItIs(prev, next, k, o, positions, columns);
  }

  /** The diff leads from one catalog to the next exactly when no names clash and no index it leaves alone has moved. */
  lemma DiffIsExactlyRight(prev: Schema, next: Schema, tag: string, replicable: Replicable)
    requires WellFormed(prev) && WellFormed(next) && Diff(prev, next, tag, replicable).Changes?
    ensures ApplyAll(CatalogOf(prev), Diff(prev, next, tag, replicable).changes) == Some(CatalogOf(next))
       <==> NoClash(prev, next) && IndexesStay(prev, next)
  {
    var changes, creates := Diff(prev, next, tag, replicable).changes, IndexCreates(IndexesToCreate(prev, next), next);
    if ApplyAll(CatalogOf(prev), changes) == Some(CatalogOf(next)) {
      DiffAroundMiddle(prev, next, tag, replicable);
      var j := AfterIndexDrops(prev, next);
      var start := Catalog(ByName(TablesOf(prev)), ByName(j));
      ApplyConcat(CatalogOf(prev), IndexDrops(IndexesToDrop(prev, next), prev), Middle(prev, next) + creates);
      ApplyConcat(start, Middle(prev, next), creates);
      MiddleNeedsNoClash(prev, next, ByName(j));
      forall k | KeptIndex(prev, next, k) ensures prev.indexes[k].id == next.indexes[k].id && exists o :: StaysOn(prev, next, k, o) {
        var o := KeptIndexStays(prev, next, k, j, ApplyAll(start, Middle(prev, next)).value);
      }
    } else if NoClash(prev, next) && IndexesStay(prev, next) {
      DiffIsExact(prev, next, tag, replicable);
    }
  }

  // ---- Names that change places ----------------------------------------------

  /** Two columns of a table that swap their names: whatever else changes, the diff does not lead to the next schema. */
  lemma SwappedColumnsClash(prev: Schema, next: Schema, tag: string, replicable: Replicable, o: int, p: int, q: int)
    requires WellFormed(prev) && WellFormed(next) && Diff(prev, next, tag, replicable).Changes?
    requires Kept(prev, next, o) && p != q
    requires var t, t' := prev.tables[o], next.tables[o];
             && p in t.columns && p in t'.columns && q in t.columns && q in t'.columns
             && t'.columns[p].name == t.columns[q].name && t'.columns[q].name == t.columns[p].name
    ensures ApplyAll(CatalogOf(prev), Diff(prev, next, tag, replicable).changes) != Some(CatalogOf(next))
  {
    DiffIsExactlyRight(prev, next, tag, replicable);
    assert !NoColumnClash(prev.tables[o], next.tables[o]);
  }

  /** A schema of one table with two columns and no index. */
  function TwoColumns(first: Column, second: Column): Schema {
    Schema(map[1 := Table(Identifier("public", "t"), map[1 := first, 2 := second])], map[])
  }

  lemma TwoColumnsWellFormed(first: Column, second: Column)
    requires first.name != second.name
    ensures WellFormed(TwoColumns(first, second))
  {
  }

  /** Renaming `a` to `b` and `b` to `a` in one statement gives changes that cannot be applied. */
  lemma SwapCannotBeApplied(spec: ColumnSpec, tag: string, replicable: Replicable)
    ensures var prev, next := TwoColumns(Column("a", spec), Column("b", spec)), TwoColumns(Column("b", spec), Column("a", spec));
            && WellFormed(prev) && WellFormed(next) && Diff(prev, next, tag, replicable).Changes?
            && ApplyAll(CatalogOf(prev), Diff(prev, next, tag, replicable).changes) == None
  {
    var a, b := Column("a", spec), Column("b", spec);
    var prev, next := TwoColumns(a, b), TwoColumns(b, a);
    assert a.name[0] != b.name[0];
    TwoColumnsWellFormed(a, b);
    TwoColumnsWellFormed(b, a);
    SchemaDiffLoops.DiffResyncsExactly(prev, next, tag, replicable);
    assert prev.tables[1].columns[2].name == next.tables[1].columns[1].name;
    assert !NoColumnClash(prev.tables[1], next.tables[1]);
    DiffIsExact(prev, next, tag, replicable);
  }
}
