/**
 The schema diff as the loops of `make_schema_changes` and `table_changes` in
 `crates/zero-cache-change-source/src/pg_to_change.rs`, and when it is empty.
 */
module SchemaDiffLoops {
  import opened Base
  import opened SchemaDiff
  import opened SchemaCorrect

  // ---- The loops -------------------------------------------------------------

  lemma Tail<T>(keys: seq<T>, i: nat)
    requires i < |keys|
    ensures keys[i..] != [] && keys[i..][0] == keys[i] && keys[i..][1..] == keys[i + 1..]
  {
  }

  lemma NothingLeft<T>(a: seq<T>)
    ensures a + [] == a
  {
  }

  method DropColumns(keys: seq<int>, prev: Table, next: Table, start: seq<Change>) returns (changes: seq<Change>)
    requires forall i | 0 <= i < |keys| :: keys[i] in prev.columns
    ensures changes == start + ColumnDrops(keys, prev, next)
  {
    changes := start;
    for i := 0 to |keys|
      invariant changes + ColumnDrops(keys[i..], prev, next) == start + ColumnDrops(keys, prev, next)
    {
      Tail(keys, i);
      var more := if keys[i] in next.columns then [] else [DropColumn(next.id, prev.columns[keys[i]].name)];
      Associate(changes, more, ColumnDrops(keys[i + 1..], prev, next));
      changes := changes + more;
    }
    NothingLeft(changes);
  }

  method UpdateColumns(keys: seq<int>, prev: Table, next: Table, start: seq<Change>) returns (changes: seq<Change>)
    requires forall i | 0 <= i < |keys| :: keys[i] in next.columns
    ensures changes == start + ColumnUpdates(keys, prev, next)
  {
    changes := start;
    for i := 0 to |keys|
      invariant changes + ColumnUpdates(keys[i..], prev, next) == start + ColumnUpdates(keys, prev, next)
    {
      Tail(keys, i);
      var more := if keys[i] in prev.columns && ColumnChanged(prev.columns[keys[i]], next.columns[keys[i]])
                  then [UpdateColumn(next.id, prev.columns[keys[i]], next.columns[keys[i]])] else [];
      Associate(changes, more, ColumnUpdates(keys[i + 1..], prev, next));
      changes := changes + more;
    }
    NothingLeft(changes);
  }

  method AddColumns(keys: seq<int>, prev: Table, next: Table, tag: string, replicable: Replicable, start: seq<Change>)
    returns (result: Result<seq<Change>, Reason>)
    requires forall i | 0 <= i < |keys| :: keys[i] in next.columns
    ensures match ColumnToBackfill(keys, prev, next, tag, replicable)
            case Some(column) => result == Err(ColumnBackfill(next.id.name, column))
            case None => result == Ok(start + ColumnAdds(keys, prev, next))
  {
    var changes := start;
    for i := 0 to |keys|
      invariant changes + ColumnAdds(keys[i..], prev, next) == start + ColumnAdds(keys, prev, next)
      invariant ColumnToBackfill(keys[i..], prev, next, tag, replicable) == ColumnToBackfill(keys, prev, next, tag, replicable)
    {
      Tail(keys, i);
      if keys[i] !in prev.columns {
        var column := next.columns[keys[i]];
        if tag != "ALTER TABLE" || !replicable(next.id.name, column.name, column.spec) {
          return Err(ColumnBackfill(next.id.name, column.name));
        }
        Associate(changes, [AddColumn(next.id, column)], ColumnAdds(keys[i + 1..], prev, next));
        changes := changes + [AddColumn(next.id, column)];
      } else {
        assert ColumnAdds(keys[i..], prev, next) == ColumnAdds(keys[i + 1..], prev, next);
      }
    }
    NothingLeft(changes);
    result := Ok(changes);
  }

  method TableDiff(prev: Table, next: Table, tag: string, replicable: Replicable) returns (result: Result<seq<Change>, Reason>)
    ensures result == TableChanges(prev, next, tag, replicable)
  {
    var changes: seq<Change> := [];
    if prev.id != next.id {
      changes := changes + [RenameTable(prev.id, next.id)];
    }
    ghost var renaming := changes;
    assert renaming == Renaming(prev, next);
    var prevKeys, nextKeys := Positions(prev.columns), Positions(next.columns);
    changes := DropColumns(prevKeys, prev, next, changes);
    changes := UpdateColumns(nextKeys, prev, next, changes);
    result := AddColumns(nextKeys, prev, next, tag, replicable, changes);
    InOrder(renaming, ColumnDrops(prevKeys, prev, next), ColumnUpdates(nextKeys, prev, next), ColumnAdds(nextKeys, prev, next));
  }

  lemma InOrder<T>(a: seq<T>, b: seq<T>, c: seq<T>, d: seq<T>)
    ensures ((a + b) + c) + d == a + (b + (c + d))
  {
  }

  method MissingKeys(keys: seq<string>, others: map<string, Index>) returns (missing: seq<string>)
    ensures missing == Missing(keys, others)
  {
    missing := [];
    for i := 0 to |keys|
      invariant missing + Missing(keys[i..], others) == Missing(keys, others)
    {
      Tail(keys, i);
      var more := if keys[i] in others then [] else [keys[i]];
      Associate(missing, more, Missing(keys[i + 1..], others));
      missing := missing + more;
    }
    NothingLeft(missing);
  }

  method RestructuredKeys(keys: seq<string>, prev: Schema, next: Schema) returns (restructured: seq<string>)
    requires forall i | 0 <= i < |keys| :: keys[i] in prev.indexes
    ensures restructured == Restructured(keys, prev, next)
  {
    restructured := [];
    for i := 0 to |keys|
      invariant restructured + Restructured(keys[i..], prev, next) == Restructured(keys, prev, next)
    {
      Tail(keys, i);
      var more := if keys[i] in next.indexes && StructurallyChanged(prev.indexes[keys[i]], next.indexes[keys[i]]) then [keys[i]] else [];
      Associate(restructured, more, Restructured(keys[i + 1..], prev, next));
      restructured := restructured + more;
    }
    NothingLeft(restructured);
  }

  /** What goes and what comes; an index that keeps its name but not its definition is in both lists. */
  method ListIndexes(prev: Schema, next: Schema) returns (toDrop: seq<string>, toCreate: seq<string>)
    ensures toDrop == IndexesToDrop(prev, next) && toCreate == IndexesToCreate(prev, next)
  {
    var prevKeys, nextKeys := IndexKeys(prev.indexes), IndexKeys(next.indexes);
    toDrop := MissingKeys(prevKeys, next.indexes);
    toCreate := MissingKeys(nextKeys, prev.indexes);
    var changed := RestructuredKeys(prevKeys, prev, next);
    toDrop, toCreate := toDrop + changed, toCreate + changed;
  }

  method DropIndexes(keys: seq<string>, prev: Schema) returns (changes: seq<Change>)
    requires forall i | 0 <= i < |keys| :: keys[i] in prev.indexes
    ensures changes == IndexDrops(keys, prev)
  {
    changes := [];
    for i := 0 to |keys|
      invariant changes == IndexDrops(keys[..i], prev)
    {
      changes := changes + [DropIndex(prev.indexes[keys[i]].id)];
    }
    assert keys[..|keys|] == keys;
  }

  method CreateIndexes(keys: seq<string>, next: Schema, start: seq<Change>) returns (changes: seq<Change>)
    requires forall i | 0 <= i < |keys| :: keys[i] in next.indexes
    ensures changes == start + IndexCreates(keys, next)
  {
    changes := start;
    for i := 0 to |keys|
      invariant changes == start + IndexCreates(keys[..i], next)
    {
      changes := changes + [CreateIndex(ToSpec(next.indexes[keys[i]]))];
    }
    assert keys[..|keys|] == keys;
  }

  method DropTables(keys: seq<int>, prev: Schema, next: Schema, start: seq<Change>) returns (changes: seq<Change>)
    requires forall i | 0 <= i < |keys| :: keys[i] in prev.tables
    ensures changes == start + TableDrops(keys, prev, next)
  {
    changes := start;
    for i := 0 to |keys|
      invariant changes + TableDrops(keys[i..], prev, next) == start + TableDrops(keys, prev, next)
    {
      Tail(keys, i);
      var more := if keys[i] in next.tables then [] else [DropTable(prev.tables[keys[i]].id)];
      Associate(changes, more, TableDrops(keys[i + 1..], prev, next));
      changes := changes + more;
    }
    NothingLeft(changes);
  }

  method AlterTables(keys: seq<int>, prev: Schema, next: Schema, tag: string, replicable: Replicable, start: seq<Change>)
    returns (result: Result<seq<Change>, Reason>)
    requires forall i | 0 <= i < |keys| :: keys[i] in next.tables
    ensures match TableAlters(keys, prev, next, tag, replicable)
            case Err(reason) => result == Err(reason)
            case Ok(alters) => result == Ok(start + alters)
  {
    var changes := start;
    ghost var alters := TableAlters(keys, prev, next, tag, replicable);
    for i := 0 to |keys|
      invariant Remaining(TableAlters(keys[i..], prev, next, tag, replicable), changes, start, alters)
    {
      Tail(keys, i);
      if keys[i] in prev.tables {
        var more := TableDiff(prev.tables[keys[i]], next.tables[keys[i]], tag, replicable);
        if more.Err? {
          return Err(more.error);
        }
        ghost var rest := TableAlters(keys[i + 1..], prev, next, tag, replicable);
        if rest.Ok? {
          Associate(changes, more.value, rest.value);
        }
        changes := changes + more.value;
      }
    }
    NothingLeft(changes);
    result := Ok(changes);
  }

  /** What is still to come, after the changes so far, gives the same result as all of it. */
  ghost predicate Remaining(rest: Result<seq<Change>, Reason>, changes: seq<Change>, start: seq<Change>, all: Result<seq<Change>, Reason>) {
    match rest
    case Err(reason) => all == rest
    case Ok(more) => all.Ok? && changes + more == start + all.value
  }

  method CreateTables(keys: seq<int>, prev: Schema, next: Schema, tag: string, start: seq<Change>) returns (result: Result<seq<Change>, Reason>)
    requires forall i | 0 <= i < |keys| :: keys[i] in next.tables
    ensures var newTable := NewTable(keys, prev, next);
            result == if newTable.Some? && !IsCreate(tag) then Err(TableBackfill(newTable.value))
                      else Ok(start + TableCreates(keys, prev, next))
  {
    var changes := start;
    for i := 0 to |keys|
      invariant changes + TableCreates(keys[i..], prev, next) == start + TableCreates(keys, prev, next)
      invariant IsCreate(tag) || NewTable(keys[i..], prev, next) == NewTable(keys, prev, next)
    {
      Tail(keys, i);
      if keys[i] !in prev.tables {
        var t := next.tables[keys[i]];
        if !IsCreate(tag) {
          return Err(TableBackfill(t.id));
        }
        var more := [CreateTable(t.id, ColumnList(t.columns, Positions(t.columns)))];
        Associate(changes, more, TableCreates(keys[i + 1..], prev, next));
        changes := changes + more;
      } else {
        NoCreate(keys[i..], prev, next);
      }
    }
    NothingLeft(changes);
    result := Ok(changes);
  }

  method MakeSchemaChanges(prev: Schema, next: Schema, tag: string, replicable: Replicable) returns (outcome: DdlOutcome)
    ensures outcome == Diff(prev, next, tag, replicable)
  {
    var toDrop, toCreate := ListIndexes(prev, next);
    var indexDrops := DropIndexes(toDrop, prev);
    var prevOids, nextOids := Oids(prev.tables), Oids(next.tables);
    var drops := DropTables(prevOids, prev, next, indexDrops);
    var alters := AlterTables(nextOids, prev, next, tag, replicable, drops);
    if alters.Err? {
      return Resync(alters.error);
    }
    var creates := CreateTables(nextOids, prev, next, tag, alters.value);
    if creates.Err? {
      return Resync(creates.error);
    }
    var changes := CreateIndexes(toCreate, next, creates.value);
    DiffInOrder(indexDrops, TableDrops(prevOids, prev, next), TableAlters(nextOids, prev, next, tag, replicable).value,
                TableCreates(nextOids, prev, next), IndexCreates(toCreate, next));
    outcome := Changes(changes);
  }

  lemma DiffInOrder<T>(a: seq<T>, b: seq<T>, c: seq<T>, d: seq<T>, e: seq<T>)
    ensures (((a + b) + c) + d) + e == a + (b + (c + (d + e)))
  {
  }

  // ---- When there is nothing to change ---------------------------------------

  /** Everything the diff compares agrees. */
  ghost predicate SameTable(prev: Table, next: Table) {
    && prev.id == next.id
    && (forall p :: p in prev.columns <==> p in next.columns)
    && (forall p | p in prev.columns && p in next.columns :: !ColumnChanged(prev.columns[p], next.columns[p]))
  }

  ghost predicate AllIn<T>(keys: seq<int>, m: map<int, T>) {
    forall i | 0 <= i < |keys| :: keys[i] in m
  }

  lemma {:induction false} NoColumnDrops(keys: seq<int>, prev: Table, next: Table)
    requires AllIn(keys, prev.columns)
    ensures ColumnDrops(keys, prev, next) == [] <==> AllIn(keys, next.columns)
  {
    if keys != [] {
      NoColumnDrops(keys[1..], prev, next);
      FirstAndRest(keys, next.columns);
    }
  }

  lemma {:induction false} NoColumnAdds(keys: seq<int>, prev: Table, next: Table)
    requires AllIn(keys, next.columns)
    ensures ColumnAdds(keys, prev, next) == [] <==> AllIn(keys, prev.columns)
  {
    if keys != [] {
      NoColumnAdds(keys[1..], prev, next);
      FirstAndRest(keys, prev.columns);
    }
  }

  lemma {:induction false} NoBackfill(keys: seq<int>, prev: Table, next: Table, tag: string, replicable: Replicable)
    requires AllIn(keys, next.columns) && AllIn(keys, prev.columns)
    ensures ColumnToBackfill(keys, prev, next, tag, replicable) == None
  {
    if keys != [] {
      NoBackfill(keys[1..], prev, next, tag, replicable);
    }
  }

  lemma FirstAndRest<T>(keys: seq<int>, m: map<int, T>)
    requires keys != []
    ensures AllIn(keys, m) <==> keys[0] in m && AllIn(keys[1..], m)
  {
    if keys[0] in m && AllIn(keys[1..], m) {
      assert forall i | 0 < i < |keys| :: keys[i] == keys[1..][i - 1];
    }
  }

  ghost predicate NoneChanged(keys: seq<int>, prev: Table, next: Table) {
    forall i | 0 <= i < |keys| && keys[i] in prev.columns && keys[i] in next.columns :: !ColumnChanged(prev.columns[keys[i]], next.columns[keys[i]])
  }

  lemma {:induction false} NoColumnUpdates(keys: seq<int>, prev: Table, next: Table)
    requires AllIn(keys, next.columns)
    ensures ColumnUpdates(keys, prev, next) == [] <==> NoneChanged(keys, prev, next)
  {
    if keys != [] {
      NoColumnUpdates(keys[1..], prev, next);
      assert forall i | 0 < i < |keys| :: keys[i] == keys[1..][i - 1];
    }
  }

  /** The keys are those of the map. */
  ghost predicate Lists<T>(keys: seq<int>, m: map<int, T>) {
    forall p :: p in keys <==> p in m
  }

  lemma AllListed<S, T>(keys: seq<int>, listed: map<int, S>, m: map<int, T>)
    requires Lists(keys, listed) && AllIn(keys, listed)
    ensures AllIn(keys, m) <==> forall p | p in listed :: p in m
  {
    if AllIn(keys, m) {
      forall p | p in listed ensures p in m {
        assert p in keys;
      }
    } else {
      var i :| 0 <= i < |keys| && keys[i] !in m;
      var p := keys[i];
      assert p in listed && p !in m;
    }
  }

  lemma NoPositionChanged(keys: seq<int>, prev: Table, next: Table)
    requires Lists(keys, next.columns) && AllIn(keys, next.columns)
    ensures NoneChanged(keys, prev, next)
       <==> forall p | p in prev.columns && p in next.columns :: !ColumnChanged(prev.columns[p], next.columns[p])
  {
    if NoneChanged(keys, prev, next) {
      forall p | p in prev.columns && p in next.columns ensures !ColumnChanged(prev.columns[p], next.columns[p]) {
        assert p in keys;
      }
    } else {
      var i :| 0 <= i < |keys| && keys[i] in prev.columns && keys[i] in next.columns && ColumnChanged(prev.columns[keys[i]], next.columns[keys[i]]);
      var p := keys[i];
      assert p in prev.columns && p in next.columns && ColumnChanged(prev.columns[p], next.columns[p]);
    }
  }

  lemma NoChangesOver(prevKeys: seq<int>, nextKeys: seq<int>, prev: Table, next: Table)
    requires Lists(prevKeys, prev.columns) && Lists(nextKeys, next.columns) && AllIn(prevKeys, prev.columns) && AllIn(nextKeys, next.columns)
    ensures Renaming(prev, next) == [] && ColumnDrops(prevKeys, prev, next) == [] && ColumnUpdates(nextKeys, prev, next) == []
            && ColumnAdds(nextKeys, prev, next) == []
       <==> SameTable(prev, next)
  {
    NoColumnDrops(prevKeys, prev, next);
    NoColumnUpdates(nextKeys, prev, next);
    NoColumnAdds(nextKeys, prev, next);
    AllListed(prevKeys, prev.columns, next.columns);
    AllListed(nextKeys, next.columns, prev.columns);
    NoPositionChanged(nextKeys, prev, next);
  }

  lemma NoneOfFour<T>(a: seq<T>, b: seq<T>, c: seq<T>, d: seq<T>)
    ensures a + (b + (c + d)) == [] <==> a == [] && b == [] && c == [] && d == []
  {
  }

  lemma NoTableChanges(prev: Table, next: Table, tag: string, replicable: Replicable)
    ensures TableChanges(prev, next, tag, replicable) == Ok([]) <==> SameTable(prev, next)
  {
    var prevKeys, nextKeys := Positions(prev.columns), Positions(next.columns);
    NoChangesOver(prevKeys, nextKeys, prev, next);
    NoneOfFour(Renaming(prev, next), ColumnDrops(prevKeys, prev, next), ColumnUpdates(nextKeys, prev, next), ColumnAdds(nextKeys, prev, next));
    NoColumnAdds(nextKeys, prev, next);
    if AllIn(nextKeys, prev.columns) {
      NoBackfill(nextKeys, prev, next, tag, replicable);
    }
  }

  lemma {:induction false} NoTableDrops(keys: seq<int>, prev: Schema, next: Schema)
    requires AllIn(keys, prev.tables)
    ensures TableDrops(keys, prev, next) == [] <==> AllIn(keys, next.tables)
  {
    if keys != [] {
      NoTableDrops(keys[1..], prev, next);
      FirstAndRest(keys, next.tables);
    }
  }

  lemma {:induction false} NoTableCreates(keys: seq<int>, prev: Schema, next: Schema)
    requires AllIn(keys, next.tables)
    ensures TableCreates(keys, prev, next) == [] <==> AllIn(keys, prev.tables)
    ensures AllIn(keys, prev.tables) ==> NewTable(keys, prev, next) == None
  {
    if keys != [] {
      NoTableCreates(keys[1..], prev, next);
      FirstAndRest(keys, prev.tables);
    }
  }

  ghost predicate AllSame(keys: seq<int>, prev: Schema, next: Schema) {
    forall i | 0 <= i < |keys| && Kept(prev, next, keys[i]) :: SameTable(prev.tables[keys[i]], next.tables[keys[i]])
  }

  lemma {:induction false} NoTableAlters(keys: seq<int>, prev: Schema, next: Schema, tag: string, replicable: Replicable)
    requires AllIn(keys, next.tables)
    ensures TableAlters(keys, prev, next, tag, replicable) == Ok([]) <==> AllSame(keys, prev, next)
  {
    if keys != [] {
      NoTableAlters(keys[1..], prev, next, tag, replicable);
      SameFirstAndRest(keys, prev, next);
      if keys[0] in prev.tables {
        NoTableChanges(prev.tables[keys[0]], next.tables[keys[0]], tag, replicable);
      }
    }
  }

  lemma SameFirstAndRest(keys: seq<int>, prev: Schema, next: Schema)
    requires keys != []
    ensures AllSame(keys, prev, next)
       <==> (Kept(prev, next, keys[0]) ==> SameTable(prev.tables[keys[0]], next.tables[keys[0]])) && AllSame(keys[1..], prev, next)
  {
    assert forall i | 0 < i < |keys| :: keys[i] == keys[1..][i - 1];
  }

  lemma AllTablesSame(prev: Schema, next: Schema, keys: seq<int>)
    requires Lists(keys, next.tables)
    ensures AllSame(keys, prev, next) <==> forall o | Kept(prev, next, o) :: SameTable(prev.tables[o], next.tables[o])
  {
    if AllSame(keys, prev, next) {
      assert forall o | o in next.tables :: o in keys;
    }
  }

  ghost predicate SameTables(prev: Schema, next: Schema) {
    && (forall o :: o in prev.tables <==> o in next.tables)
    && (forall o | Kept(prev, next, o) :: SameTable(prev.tables[o], next.tables[o]))
  }

  lemma NoTableChangesOver(prevOids: seq<int>, nextOids: seq<int>, prev: Schema, next: Schema, tag: string, replicable: Replicable)
    requires Lists(prevOids, prev.tables) && Lists(nextOids, next.tables) && AllIn(prevOids, prev.tables) && AllIn(nextOids, next.tables)
    ensures TableDrops(prevOids, prev, next) == [] && TableAlters(nextOids, prev, next, tag, replicable) == Ok([])
            && TableCreates(nextOids, prev, next) == []
       <==> SameTables(prev, next)
    ensures TableCreates(nextOids, prev, next) == [] ==> NewTable(nextOids, prev, next) == None
  {
    NoTableDrops(prevOids, prev, next);
    NoTableCreates(nextOids, prev, next);
    NoTableAlters(nextOids, prev, next, tag, replicable);
    AllListed(prevOids, prev.tables, next.tables);
    AllListed(nextOids, next.tables, prev.tables);
    AllTablesSame(prev, next, nextOids);
  }

  ghost predicate SameIndexes(prev: Schema, next: Schema) {
    forall k | k in prev.indexes || k in next.indexes :: KeptIndex(prev, next, k)
  }

  lemma NoIndexChanges(prev: Schema, next: Schema, toDrop: seq<string>, toCreate: seq<string>)
    requires forall k :: k in toDrop <==> k in prev.indexes && !KeptIndex(prev, next, k)
    requires forall k :: k in toCreate <==> k in next.indexes && !KeptIndex(prev, next, k)
    ensures toDrop == [] && toCreate == [] <==> SameIndexes(prev, next)
  {
    if toDrop != [] {
      assert toDrop[0] in toDrop;
    }
    if toCreate != [] {
      assert toCreate[0] in toCreate;
    }
    if toDrop == [] && toCreate == [] {
      assert forall k :: k !in toDrop && k !in toCreate;
    }
  }

  lemma NoIndexLists(prev: Schema, next: Schema)
    ensures IndexesToDrop(prev, next) == [] && IndexesToCreate(prev, next) == [] <==> SameIndexes(prev, next)
  {
    IndexListsHaveNoRepeats(prev, next);
    NoIndexChanges(prev, next, IndexesToDrop(prev, next), IndexesToCreate(prev, next));
  }

  lemma NoTableLists(prev: Schema, next: Schema, tag: string, replicable: Replicable)
    ensures TableDrops(Oids(prev.tables), prev, next) == [] && TableAlters(Oids(next.tables), prev, next, tag, replicable) == Ok([])
            && TableCreates(Oids(next.tables), prev, next) == []
       <==> SameTables(prev, next)
    ensures TableCreates(Oids(next.tables), prev, next) == [] ==> NewTable(Oids(next.tables), prev, next) == None
  {
    NoTableChangesOver(Oids(prev.tables), Oids(next.tables), prev, next, tag, replicable);
  }

  lemma NoneOfAny<T>(a: seq<T>, b: seq<T>, c: seq<T>, d: seq<T>, e: seq<T>)
    ensures a + (b + (c + (d + e))) == [] <==> a == [] && b == [] && c == [] && d == [] && e == []
  {
  }

  lemma EmptyByParts(prev: Schema, next: Schema, tag: string, replicable: Replicable)
    ensures Diff(prev, next, tag, replicable) == Changes([])
       <==> && TableAlters(Oids(next.tables), prev, next, tag, replicable) == Ok([])
            && IndexesToDrop(prev, next) == [] && TableDrops(Oids(prev.tables), prev, next) == []
            && TableCreates(Oids(next.tables), prev, next) == [] && IndexesToCreate(prev, next) == []
            && (NewTable(Oids(next.tables), prev, next).None? || IsCreate(tag))
  {
    var alters := TableAlters(Oids(next.tables), prev, next, tag, replicable);
    if alters.Ok? {
      NoneOfAny(IndexDrops(IndexesToDrop(prev, next), prev), TableDrops(Oids(prev.tables), prev, next), alters.value,
                TableCreates(Oids(next.tables), prev, next), IndexCreates(IndexesToCreate(prev, next), next));
    }
  }

  /** The diff is empty exactly when everything it compares agrees. */
  lemma DiffIsEmptyWhenSame(prev: Schema, next: Schema, tag: string, replicable: Replicable)
    ensures Diff(prev, next, tag, replicable) == Changes([]) <==> SameTables(prev, next) && SameIndexes(prev, next)
  {
    NoTableLists(prev, next, tag, replicable);
    NoIndexLists(prev, next);
    EmptyByParts(prev, next, tag, replicable);
  }

  // ---- When a resync is needed -----------------------------------------------

  /** A new column that existing rows would have to be copied for. */
  predicate BackfillsColumn(prev: Table, next: Table, p: int, tag: string, replicable: Replicable) {
    p in next.columns && p !in prev.columns
    && (tag != "ALTER TABLE" || !replicable(next.id.name, next.columns[p].name, next.columns[p].spec))
  }

  ghost predicate BackfillsTable(prev: Schema, next: Schema, o: int, tag: string, replicable: Replicable) {
    Kept(prev, next, o) && exists p :: BackfillsColumn(prev.tables[o], next.tables[o], p, tag, replicable)
  }

  lemma {:induction false} BackfillFound(keys: seq<int>, prev: Table, next: Table, tag: string, replicable: Replicable)
    requires AllIn(keys, next.columns)
    ensures ColumnToBackfill(keys, prev, next, tag, replicable).Some?
       <==> exists i :: 0 <= i < |keys| && BackfillsColumn(prev, next, keys[i], tag, replicable)
  {
    if keys != [] {
      BackfillFound(keys[1..], prev, next, tag, replicable);
      assert forall i | 0 < i < |keys| :: keys[i] == keys[1..][i - 1];
      if BackfillsColumn(prev, next, keys[0], tag, replicable) {
        assert 0 < |keys|;
      } else if i :| 0 <= i < |keys[1..]| && BackfillsColumn(prev, next, keys[1..][i], tag, replicable) {
        assert BackfillsColumn(prev, next, keys[i + 1], tag, replicable);
      }
    }
  }

  lemma TableResyncs(prev: Table, next: Table, keys: seq<int>, tag: string, replicable: Replicable)
    requires Lists(keys, next.columns) && AllIn(keys, next.columns)
    ensures ColumnToBackfill(keys, prev, next, tag, replicable).Some? <==> exists p :: BackfillsColumn(prev, next, p, tag, replicable)
  {
    BackfillFound(keys, prev, next, tag, replicable);
    if p :| BackfillsColumn(prev, next, p, tag, replicable) {
      assert p in keys;
    }
  }

  lemma TableChangesResync(prev: Schema, next: Schema, o: int, tag: string, replicable: Replicable)
    requires Kept(prev, next, o)
    ensures TableChanges(prev.tables[o], next.tables[o], tag, replicable).Err? <==> BackfillsTable(prev, next, o, tag, replicable)
  {
    TableResyncs(prev.tables[o], next.tables[o], Positions(next.tables[o].columns), tag, replicable);
  }

  lemma {:induction false} AltersResync(keys: seq<int>, prev: Schema, next: Schema, tag: string, replicable: Replicable)
    requires AllIn(keys, next.tables)
    ensures TableAlters(keys, prev, next, tag, replicable).Err?
       <==> exists i :: 0 <= i < |keys| && BackfillsTable(prev, next, keys[i], tag, replicable)
  {
    if keys != [] {
      var o := keys[0];
      AltersResync(keys[1..], prev, next, tag, replicable);
      if o in prev.tables {
        TableChangesResync(prev, next, o, tag, replicable);
      }
      assert forall i | 0 < i < |keys| :: keys[i] == keys[1..][i - 1];
      if BackfillsTable(prev, next, o, tag, replicable) {
        assert BackfillsTable(prev, next, keys[0], tag, replicable);
      } else if i :| 0 <= i < |keys[1..]| && BackfillsTable(prev, next, keys[1..][i], tag, replicable) {
        assert BackfillsTable(prev, next, keys[i + 1], tag, replicable);
      }
    }
  }

  lemma {:induction false} NewTableFound(keys: seq<int>, prev: Schema, next: Schema)
    requires AllIn(keys, next.tables)
    ensures NewTable(keys, prev, next).Some? <==> !AllIn(keys, prev.tables)
  {
    if keys != [] {
      NewTableFound(keys[1..], prev, next);
      FirstAndRest(keys, prev.tables);
    }
  }

  lemma SomeTableResyncs(keys: seq<int>, prev: Schema, next: Schema, tag: string, replicable: Replicable)
    requires Lists(keys, next.tables) && AllIn(keys, next.tables)
    ensures TableAlters(keys, prev, next, tag, replicable).Err? <==> exists o :: BackfillsTable(prev, next, o, tag, replicable)
    ensures NewTable(keys, prev, next).Some? <==> exists o :: o in next.tables && o !in prev.tables
  {
    AltersResync(keys, prev, next, tag, replicable);
    if o :| BackfillsTable(prev, next, o, tag, replicable) {
      assert o in keys;
    }
    NewTableFound(keys, prev, next);
    AllListed(keys, next.tables, prev.tables);
  }

  /** A diff asks for a resync exactly when a new column needs a backfill or a table enters without a CREATE. */
  lemma DiffResyncsExactly(prev: Schema, next: Schema, tag: string, replicable: Replicable)
    ensures Diff(prev, next, tag, replicable).Resync?
       <==> || (exists o :: BackfillsTable(prev, next, o, tag, replicable))
            || (!IsCreate(tag) && exists o :: o in next.tables && o !in prev.tables)
  {
    SomeTableResyncs(Oids(next.tables), prev, next, tag, replicable);
  }

  /** No new table and no new column. */
  ghost predicate NothingNew(prev: Schema, next: Schema) {
    && (forall o | o in next.tables :: o in prev.tables)
    && (forall o, p | Kept(prev, next, o) && p in next.tables[o].columns :: p in prev.tables[o].columns)
  }

  /** Without a known statement, a diff gives changes exactly when nothing is new. */
  lemma UnknownStatementNeverBackfills(prev: Schema, next: Schema, replicable: Replicable)
    ensures Diff(prev, next, "UNKNOWN", replicable).Changes? <==> NothingNew(prev, next)
  {
    DiffResyncsExactly(prev, next, "UNKNOWN", replicable);
    assert !IsCreate("UNKNOWN") by {
      assert "UNKNOWN"[0] == 'U';
    }
    if o, p :| Kept(prev, next, o) && p in next.tables[o].columns && p !in prev.tables[o].columns {
      assert BackfillsColumn(prev.tables[o], next.tables[o], p, "UNKNOWN", replicable);
      assert BackfillsTable(prev, next, o, "UNKNOWN", replicable);
    }
    if o :| BackfillsTable(prev, next, o, "UNKNOWN", replicable) {
      var p :| BackfillsColumn(prev.tables[o], next.tables[o], p, "UNKNOWN", replicable);
      assert p in next.tables[o].columns;
    }
  }
}
