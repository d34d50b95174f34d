/**
 What schema changes do to a replica, which knows tables, columns and indexes only by
 name: the effects of `crates/zero-cache-sqlite/src/ddl_apply.rs` on a catalog.
 */
module SchemaApply {
  import opened Base
  import opened SchemaDiff
  import QueryAst

  datatype ColumnType = ColumnType(dataType: string, notNull: Option<bool>)

  datatype IndexDef = IndexDef(table: Identifier, unique: bool, columns: seq<(string, QueryAst.Direction)>)

  type Columns = map<string, ColumnType>

  type Indexes = map<Identifier, IndexDef>

  datatype Catalog = Catalog(tables: map<Identifier, Columns>, indexes: Indexes)

  function TypeOf(c: Column): ColumnType {
    ColumnType(c.spec.dataType, c.spec.notNull)
  }

  // ---- Effects ---------------------------------------------------------------

  predicate IsColumnChange(change: Change) {
    change.DropColumn? || change.UpdateColumn? || change.AddColumn?
  }

  /** A column change on one table; none if its target is missing or its new name is taken. */
  function ApplyColumn(columns: Columns, change: Change): Option<Columns> {
    match change
    case DropColumn(_, name) => if name in columns then Some(columns - {name}) else None
    case UpdateColumn(_, from, to) =>
      if from.name in columns && (to.name == from.name || to.name !in columns)
      then Some((columns - {from.name})[to.name := TypeOf(to)]) else None
    case AddColumn(_, column) => if column.name !in columns then Some(columns[column.name := TypeOf(column)]) else None
    case _ => None
  }

  predicate UsesColumn(index: IndexDef, table: Identifier, name: string) {
    index.table == table && exists k | 0 <= k < |index.columns| :: index.columns[k].0 == name
  }

  /** A column that an index uses cannot be dropped. */
  predicate ColumnInUse(indexes: Indexes, table: Identifier, name: string) {
    exists i | i in indexes :: UsesColumn(indexes[i], table, name)
  }

  /** The indexes of a dropped table go with it. */
  function Without(indexes: Indexes, table: Identifier): Indexes {
    map i | i in indexes && indexes[i].table != table :: indexes[i]
  }

  /** The indexes of a renamed table follow it. */
  function Retarget(indexes: Indexes, old_: Identifier, new_: Identifier): Indexes {
    map i | i in indexes :: if indexes[i].table == old_ then indexes[i].(table := new_) else indexes[i]
  }

  function RenameColumns(columns: seq<(string, QueryAst.Direction)>, old_: string, new_: string): seq<(string, QueryAst.Direction)> {
    seq(|columns|, k requires 0 <= k < |columns| => if columns[k].0 == old_ then (new_, columns[k].1) else columns[k])
  }

  /** The indexes over a renamed column follow it. */
  function RenameInIndexes(indexes: Indexes, table: Identifier, old_: string, new_: string): Indexes {
    map i | i in indexes ::
      if indexes[i].table == table then indexes[i].(columns := RenameColumns(indexes[i].columns, old_, new_)) else indexes[i]
  }

  function IndexTable(spec: IndexSpec): Identifier {
    Identifier(spec.id.schema, spec.tableName)
  }

  function ApplyColumns(columns: Columns, changes: seq<Change>): Option<Columns>
    decreases |changes|
  {
    if changes == [] then Some(columns)
    else
      var next :- ApplyColumn(columns, changes[0]);
      ApplyColumns(next, changes[1..])
  }

  function AddEach(table: Identifier, columns: seq<Column>): seq<Change> {
    seq(|columns|, i requires 0 <= i < |columns| => AddColumn(table, columns[i]))
  }

  /** The columns of a new table, added one after the other; none if a name repeats. */
  function NewColumns(table: Identifier, columns: seq<Column>): Option<Columns> {
    ApplyColumns(map[], AddEach(table, columns))
  }

  /** One change on the catalog; none where the replica would fail. */
  function Apply(cat: Catalog, change: Change): Option<Catalog> {
    match change
    case DropIndex(index) =>
      if index in cat.indexes then Some(cat.(indexes := cat.indexes - {index})) else None
    case DropTable(table) =>
      if table in cat.tables then Some(Catalog(cat.tables - {table}, Without(cat.indexes, table))) else None
    case RenameTable(old_, new_) =>
      if old_ in cat.tables && new_ !in cat.tables
      then Some(Catalog((cat.tables - {old_})[new_ := cat.tables[old_]], Retarget(cat.indexes, old_, new_))) else None
    case CreateTable(table, columns) =>
      var cols :- NewColumns(table, columns);
      if table in cat.tables then None else Some(cat.(tables := cat.tables[table := cols]))
    case CreateIndex(spec) =>
      var table := IndexTable(spec);
      if spec.id !in cat.indexes && table in cat.tables
         && forall k | 0 <= k < |spec.columns| :: spec.columns[k].0 in cat.tables[table]
      then Some(cat.(indexes := cat.indexes[spec.id := IndexDef(table, spec.unique, spec.columns)])) else None
    case _ =>
      if change.table !in cat.tables then None
      else
        var cols :- ApplyColumn(cat.tables[change.table], change);
        if change.DropColumn? && ColumnInUse(cat.indexes, change.table, change.name) then None
        else
          Some(Catalog(
            cat.tables[change.table := cols],
            if change.UpdateColumn? && change.from.name != change.to.name
            then RenameInIndexes(cat.indexes, change.table, change.from.name, change.to.name) else cat.indexes))
  }

  function ApplyAll(cat: Catalog, changes: seq<Change>): Option<Catalog>
    decreases |changes|
  {
    if changes == [] then Some(cat)
    else
      var next :- Apply(cat, changes[0]);
      ApplyAll(next, changes[1..])
  }

  lemma {:induction false} ApplyConcat(cat: Catalog, a: seq<Change>, b: seq<Change>)
    ensures ApplyAll(cat, a + b) == (var mid := ApplyAll(cat, a); if mid.Some? then ApplyAll(mid.value, b) else None)
    decreases |a|
  {
    if a == [] {
      assert a + b == b;
    } else {
      assert (a + b)[0] == a[0] && (a + b)[1..] == a[1..] + b;
      var next := Apply(cat, a[0]);
      if next.Some? {
        ApplyConcat(next.value, a[1..], b);
      }
    }
  }

  lemma {:induction false} ApplyColumnsConcat(columns: Columns, a: seq<Change>, b: seq<Change>)
    ensures ApplyColumns(columns, a + b) == (var mid := ApplyColumns(columns, a); if mid.Some? then ApplyColumns(mid.value, b) else None)
    decreases |a|
  {
    if a == [] {
      assert a + b == b;
    } else {
      assert (a + b)[0] == a[0] && (a + b)[1..] == a[1..] + b;
      var next := ApplyColumn(columns, a[0]);
      if next.Some? {
        ApplyColumnsConcat(next.value, a[1..], b);
      }
    }
  }

  // ---- Column changes on one table -------------------------------------------

  predicate Renames(change: Change, name: string) {
    (change.DropColumn? && change.name == name)
    || (change.UpdateColumn? && change.from.name == name && change.from.name != change.to.name)
  }

  /** No index on the table uses a column the changes drop or rename. */
  ghost predicate IndexesUntouched(indexes: Indexes, table: Identifier, changes: seq<Change>) {
    forall i, c, k | i in indexes && indexes[i].table == table && 0 <= c < |changes| && 0 <= k < |indexes[i].columns| ::
      !Renames(changes[c], indexes[i].columns[k].0)
  }

  ghost predicate OnTable(changes: seq<Change>, table: Identifier) {
    forall c | 0 <= c < |changes| :: IsColumnChange(changes[c]) && changes[c].table == table
  }

  lemma RenameUnused(indexes: Indexes, table: Identifier, old_: string, new_: string)
    requires forall i, k | i in indexes && indexes[i].table == table && 0 <= k < |indexes[i].columns| :: indexes[i].columns[k].0 != old_
    ensures RenameInIndexes(indexes, table, old_, new_) == indexes
  {
    forall i | i in indexes && indexes[i].table == table ensures RenameColumns(indexes[i].columns, old_, new_) == indexes[i].columns {
    }
  }

  lemma ApplyUnindexed(cat: Catalog, change: Change)
    requires IsColumnChange(change) && change.table in cat.tables
    requires IndexesUntouched(cat.indexes, change.table, [change])
    ensures var cols := ApplyColumn(cat.tables[change.table], change);
            Apply(cat, change) == if cols.Some? then Some(cat.(tables := cat.tables[change.table := cols.value])) else None
  {
    assert [change][0] == change;
    if change.UpdateColumn? && change.from.name != change.to.name {
      RenameUnused(cat.indexes, change.table, change.from.name, change.to.name);
    }
  }

  /** Column changes that no index stands in the way of act on their table alone. */
  lemma {:induction false} ApplyOnTable(cat: Catalog, changes: seq<Change>, table: Identifier)
    requires table in cat.tables && OnTable(changes, table) && IndexesUntouched(cat.indexes, table, changes)
    ensures var cols := ApplyColumns(cat.tables[table], changes);
            ApplyAll(cat, changes) == if cols.Some? then Some(cat.(tables := cat.tables[table := cols.value])) else None
    decreases |changes|
  {
    if changes == [] {
      assert cat.tables[table := cat.tables[table]] == cat.tables;
    } else {
      assert [changes[0]][0] == changes[0];
      ApplyUnindexed(cat, changes[0]);
      var next := Apply(cat, changes[0]);
      if next.Some? {
        ApplyOnTable(next.value, changes[1..], table);
        var cols := ApplyColumns(next.value.tables[table], changes[1..]);
        if cols.Some? {
          assert next.value.tables[table := cols.value] == cat.tables[table := cols.value];
        }
      }
    }
  }
}
