/**
 Diffing two snapshots of the published schema into schema changes:
 `make_schema_changes` and `table_changes` of
 `crates/zero-cache-change-source/src/pg_to_change.rs`.

 A snapshot is held in the ordered maps the diff builds first: tables by object id,
 columns by attribute number, indexes by dotted name. Of a column's specification the
 fields that are compared or carried along are kept.
 */
module SchemaDiff {
  import opened Base
  import opened KeyedMaps
  import Comparing
  import QueryAst

  datatype Identifier = Identifier(schema: string, name: string)

  datatype ColumnSpec = ColumnSpec(dataType: string, notNull: Option<bool>, dflt: Option<string>)

  datatype Column = Column(name: string, spec: ColumnSpec)

  datatype Table = Table(id: Identifier, columns: map<int, Column>)

  datatype Index = Index(
    id: Identifier,
    tableName: string,
    unique: bool,
    columns: seq<(string, QueryAst.Direction)>,
    isReplicaIdentity: Option<bool>,
    isPrimaryKey: Option<bool>,
    isImmediate: Option<bool>)

  datatype Schema = Schema(tables: map<int, Table>, indexes: map<string, Index>)

  /** What `create-index` carries: an index without its replication flags. */
  datatype IndexSpec = IndexSpec(id: Identifier, tableName: string, unique: bool, columns: seq<(string, QueryAst.Direction)>)

  datatype Change =
    | DropIndex(index: Identifier)
    | DropTable(table: Identifier)
    | RenameTable(old_: Identifier, new_: Identifier)
    | DropColumn(table: Identifier, name: string)
    | UpdateColumn(table: Identifier, from: Column, to: Column)
    | AddColumn(table: Identifier, column: Column)
    | CreateTable(table: Identifier, columns: seq<Column>)
    | CreateIndex(spec: IndexSpec)

  datatype Reason =
    | TableBackfill(table: Identifier)
    | ColumnBackfill(tableName: string, column: string)
    | NotUtf8
    | NotJson
    | NoSchema
    | BadPreviousSchema
    | BadSchema

  datatype DdlOutcome = Changes(changes: seq<Change>) | Resync(reason: Reason)

  /** Whether the replica can represent a column's default; decided by the type mapping, which is a parameter. */
  type Replicable = (string, string, ColumnSpec) -> bool

  function IndexKey(id: Identifier): string {
    id.schema + "." + id.name
  }

  predicate LessInt(a: int, b: int) {
    a < b
  }

  predicate LessString(a: string, b: string) {
    Comparing.CmpString(a, b) == Comparing.Less
  }

  lemma IntsAreOrdered()
    ensures StrictOrder(LessInt)
  {
  }

  lemma StringsAreOrdered()
    ensures StrictOrder(LessString)
  {
    forall a: string, b: string
      ensures a == b || LessString(a, b) || LessString(b, a)
      ensures LessString(a, b) ==> a != b && !LessString(b, a)
    {
      Comparing.CmpStringReverses(a, b);
    }
    forall a: string, b: string, c: string | LessString(a, b) && LessString(b, c) ensures LessString(a, c) {
      Comparing.StringsChain(a, b, c);
    }
  }

  function Oids(tables: map<int, Table>): (oids: seq<int>)
    ensures forall i | 0 <= i < |oids| :: oids[i] in tables
  {
    IntsAreOrdered();
    Ascending(tables.Keys, LessInt)
  }

  function Positions(columns: map<int, Column>): (positions: seq<int>)
    ensures forall i | 0 <= i < |positions| :: positions[i] in columns
  {
    IntsAreOrdered();
    Ascending(columns.Keys, LessInt)
  }

  function IndexKeys(indexes: map<string, Index>): (keys: seq<string>)
    ensures forall i | 0 <= i < |keys| :: keys[i] in indexes
  {
    StringsAreOrdered();
    Ascending(indexes.Keys, LessString)
  }

  // ---- One table -------------------------------------------------------------

  function Renaming(prev: Table, next: Table): seq<Change> {
    if prev.id != next.id then [RenameTable(prev.id, next.id)] else []
  }

  function ColumnDrops(keys: seq<int>, prev: Table, next: Table): seq<Change>
    requires forall i | 0 <= i < |keys| :: keys[i] in prev.columns
  {
    if keys == [] then []
    else
      (if keys[0] in next.columns then [] else [DropColumn(next.id, prev.columns[keys[0]].name)])
      + ColumnDrops(keys[1..], prev, next)
  }

  predicate ColumnChanged(from: Column, to: Column) {
    from.name != to.name || from.spec.dataType != to.spec.dataType || from.spec.notNull != to.spec.notNull
  }

  function ColumnUpdates(keys: seq<int>, prev: Table, next: Table): seq<Change>
    requires forall i | 0 <= i < |keys| :: keys[i] in next.columns
  {
    if keys == [] then []
    else
      (if keys[0] in prev.columns && ColumnChanged(prev.columns[keys[0]], next.columns[keys[0]])
       then [UpdateColumn(next.id, prev.columns[keys[0]], next.columns[keys[0]])] else [])
      + ColumnUpdates(keys[1..], prev, next)
  }

  function ColumnAdds(keys: seq<int>, prev: Table, next: Table): seq<Change>
    requires forall i | 0 <= i < |keys| :: keys[i] in next.columns
  {
    if keys == [] then []
    else
      (if keys[0] in prev.columns then [] else [AddColumn(next.id, next.columns[keys[0]])])
      + ColumnAdds(keys[1..], prev, next)
  }

  /** The first new column that existing rows would have to be copied for. */
  function ColumnToBackfill(keys: seq<int>, prev: Table, next: Table, tag: string, replicable: Replicable): Option<string>
    requires forall i | 0 <= i < |keys| :: keys[i] in next.columns
  {
    if keys == [] then None
    else
      var column := next.columns[keys[0]];
      if keys[0] !in prev.columns && (tag != "ALTER TABLE" || !replicable(next.id.name, column.name, column.spec))
      then Some(column.name)
      else ColumnToBackfill(keys[1..], prev, next, tag, replicable)
  }

  function ColumnChanges(prev: Table, next: Table): seq<Change> {
    ColumnDrops(Positions(prev.columns), prev, next)
    + (ColumnUpdates(Positions(next.columns), prev, next) + ColumnAdds(Positions(next.columns), prev, next))
  }

  function TableChanges(prev: Table, next: Table, tag: string, replicable: Replicable): Result<seq<Change>, Reason> {
    match ColumnToBackfill(Positions(next.columns), prev, next, tag, replicable)
    case Some(column) => Err(ColumnBackfill(next.id.name, column))
    case None => Ok(Renaming(prev, next) + ColumnChanges(prev, next))
  }

  // ---- The whole schema ------------------------------------------------------

  /** Whether an index kept across the diff changed in more than its table's name. */
  predicate StructurallyChanged(prev: Index, next: Index) {
    || prev.unique != next.unique
    || prev.isPrimaryKey != next.isPrimaryKey
    || prev.isReplicaIdentity != next.isReplicaIdentity
    || prev.isImmediate != next.isImmediate
    || prev.columns != next.columns
  }

  predicate KeptIndex(prev: Schema, next: Schema, key: string) {
    key in prev.indexes && key in next.indexes && !StructurallyChanged(prev.indexes[key], next.indexes[key])
  }

  /** The keys of one schema that the other does not have. */
  function Missing(keys: seq<string>, others: map<string, Index>): (missing: seq<string>)
    ensures forall k :: k in missing <==> k in keys && k !in others
  {
    if keys == [] then [] else (if keys[0] in others then [] else [keys[0]]) + Missing(keys[1..], others)
  }

  function Restructured(keys: seq<string>, prev: Schema, next: Schema): (restructured: seq<string>)
    requires forall i | 0 <= i < |keys| :: keys[i] in prev.indexes
    ensures forall k :: k in restructured <==> k in keys && k in next.indexes && !KeptIndex(prev, next, k)
  {
    if keys == [] then []
    else
      (if keys[0] in next.indexes && !KeptIndex(prev, next, keys[0]) then [keys[0]] else [])
      + Restructured(keys[1..], prev, next)
  }

  function IndexesToDrop(prev: Schema, next: Schema): (keys: seq<string>)
    ensures forall i | 0 <= i < |keys| :: keys[i] in prev.indexes
  {
    Missing(IndexKeys(prev.indexes), next.indexes) + Restructured(IndexKeys(prev.indexes), prev, next)
  }

  function IndexesToCreate(prev: Schema, next: Schema): (keys: seq<string>)
    ensures forall i | 0 <= i < |keys| :: keys[i] in next.indexes
  {
    Missing(IndexKeys(next.indexes), prev.indexes) + Restructured(IndexKeys(prev.indexes), prev, next)
  }

  function IndexDrops(keys: seq<string>, prev: Schema): seq<Change>
    requires forall i | 0 <= i < |keys| :: keys[i] in prev.indexes
  {
    seq(|keys|, i requires 0 <= i < |keys| => DropIndex(prev.indexes[keys[i]].id))
  }

  function ToSpec(index: Index): IndexSpec {
    IndexSpec(index.id, index.tableName, index.unique, index.columns)
  }

  function IndexCreates(keys: seq<string>, next: Schema): seq<Change>
    requires forall i | 0 <= i < |keys| :: keys[i] in next.indexes
  {
    seq(|keys|, i requires 0 <= i < |keys| => CreateIndex(ToSpec(next.indexes[keys[i]])))
  }

  function TableDrops(keys: seq<int>, prev: Schema, next: Schema): seq<Change>
    requires forall i | 0 <= i < |keys| :: keys[i] in prev.tables
  {
    if keys == [] then []
    else (if keys[0] in next.tables then [] else [DropTable(prev.tables[keys[0]].id)]) + TableDrops(keys[1..], prev, next)
  }

  function TableAlters(keys: seq<int>, prev: Schema, next: Schema, tag: string, replicable: Replicable): Result<seq<Change>, Reason>
    requires forall i | 0 <= i < |keys| :: keys[i] in next.tables
  {
    if keys == [] then Ok([])
    else if keys[0] !in prev.tables then TableAlters(keys[1..], prev, next, tag, replicable)
    else
      match TableChanges(prev.tables[keys[0]], next.tables[keys[0]], tag, replicable)
      case Err(reason) => Err(reason)
      case Ok(first) =>
        match TableAlters(keys[1..], prev, next, tag, replicable)
        case Err(reason) => Err(reason)
        case Ok(rest) => Ok(first + rest)
  }

  function ColumnList(columns: map<int, Column>, keys: seq<int>): seq<Column>
    requires forall i | 0 <= i < |keys| :: keys[i] in columns
  {
    seq(|keys|, i requires 0 <= i < |keys| => columns[keys[i]])
  }

  function TableCreates(keys: seq<int>, prev: Schema, next: Schema): seq<Change>
    requires forall i | 0 <= i < |keys| :: keys[i] in next.tables
  {
    if keys == [] then []
    else
      var t := next.tables[keys[0]];
      (if keys[0] in prev.tables then [] else [CreateTable(t.id, ColumnList(t.columns, Positions(t.columns)))])
      + TableCreates(keys[1..], prev, next)
  }

  /** The first new table, which only a CREATE statement can introduce without copying rows. */
  function NewTable(keys: seq<int>, prev: Schema, next: Schema): Option<Identifier>
    requires forall i | 0 <= i < |keys| :: keys[i] in next.tables
  {
    if keys == [] then None
    else if keys[0] !in prev.tables then Some(next.tables[keys[0]].id)
    else NewTable(keys[1..], prev, next)
  }

  predicate IsCreate(tag: string) {
    "CREATE" <= tag
  }

  /** The changes that lead from one schema to the next, or why there are none to give. */
  function Diff(prev: Schema, next: Schema, tag: string, replicable: Replicable): DdlOutcome {
    match TableAlters(Oids(next.tables), prev, next, tag, replicable)
    case Err(reason) => Resync(reason)
    case Ok(alters) =>
      var newTable := NewTable(Oids(next.tables), prev, next);
      if newTable.Some? && !IsCreate(tag) then Resync(TableBackfill(newTable.value))
      else
        Changes(IndexDrops(IndexesToDrop(prev, next), prev)
              + (TableDrops(Oids(prev.tables), prev, next)
              + (alters
              + (TableCreates(Oids(next.tables), prev, next)
              + IndexCreates(IndexesToCreate(prev, next), next)))))
  }
}
