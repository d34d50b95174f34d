/**
 The column changes of one table, applied to its columns by name, give the next table's
 columns exactly when no column takes a name that a later one still has.
 */
module ColumnDiff {
  import opened Base
  import opened KeyedMaps
  import opened SchemaDiff
  import opened SchemaApply

  type Entries = map<int, (string, ColumnType)>

  function Entry(c: Column): (string, ColumnType) {
    (c.name, TypeOf(c))
  }

  function EntriesOf(t: Table): Entries {
    map p | p in t.columns :: Entry(t.columns[p])
  }

  /** Column names are unique within the table. */
  ghost predicate DistinctColumns(t: Table) {
    Injective(EntriesOf(t))
  }

  ghost function ColumnsOf(t: Table): Columns
    requires DistinctColumns(t)
  {
    ByName(EntriesOf(t))
  }

  /** No kept column takes the name that a kept column after it had before. */
  predicate NoColumnClash(prev: Table, next: Table) {
    forall p, q | p in prev.columns && p in next.columns && q in prev.columns && q in next.columns && p < q ::
      next.columns[p].name != prev.columns[q].name
  }

  ghost predicate AscendingKeys(keys: seq<int>) {
    forall i, j | 0 <= i < j < |keys| :: keys[i] < keys[j]
  }

  lemma DistinctPositions(t: Table, p: int, q: int)
    requires DistinctColumns(t) && p in t.columns && q in t.columns && t.columns[p].name == t.columns[q].name
    ensures p == q
  {
    assert EntriesOf(t)[p].0 == EntriesOf(t)[q].0;
  }

  lemma ApplyFirst(columns: Columns, change: Change, rest: seq<Change>)
    ensures ApplyColumns(columns, [change] + rest)
         == (var next := ApplyColumn(columns, change); if next.Some? then ApplyColumns(next.value, rest) else None)
  {
    assert ([change] + rest)[1..] == rest;
  }

  lemma DropApplies(m: Entries, p: int, table: Identifier)
    requires Injective(m) && p in m
    ensures Injective(m - {p}) && ApplyColumn(ByName(m), DropColumn(table, m[p].0)) == Some(ByName(m - {p}))
  {
    RemoveByName(m, p);
    NameLookup(m, p);
  }

  lemma UpdateApplies(m: Entries, p: int, table: Identifier, from: Column, to: Column)
    requires Injective(m) && p in m && m[p] == Entry(from)
    ensures if to.name != from.name && NameIn(m, to.name) then ApplyColumn(ByName(m), UpdateColumn(table, from, to)) == None
            else Injective(m[p := Entry(to)])
                 && ApplyColumn(ByName(m), UpdateColumn(table, from, to)) == Some(ByName(m[p := Entry(to)]))
  {
    NameLookup(m, p);
    NamesIn(m, to.name);
    if to.name == from.name || !NameIn(m, to.name) {
      UpdateByName(m, p, to.name, TypeOf(to));
    }
  }

  lemma AddApplies(m: Entries, p: int, table: Identifier, column: Column)
    requires Injective(m) && p !in m && !NameIn(m, column.name)
    ensures Injective(m[p := Entry(column)]) && ApplyColumn(ByName(m), AddColumn(table, column)) == Some(ByName(m[p := Entry(column)]))
  {
    NamesIn(m, column.name);
    AddByName(m, p, column.name, TypeOf(column));
  }

  // ---- Drops -----------------------------------------------------------------

  /** Part way through the drops: every position is as before, and the dropped ones not still to come are gone. */
  ghost predicate Dropping(keys: seq<int>, prev: Table, next: Table, m: Entries) {
    && AscendingKeys(keys) && Injective(m)
    && (forall i | 0 <= i < |keys| :: keys[i] in prev.columns)
    && (forall p :: p in m <==> p in prev.columns && (p in keys || p in next.columns))
    && (forall p | p in m :: m[p] == Entry(prev.columns[p]))
  }

  lemma SplitKeys(keys: seq<int>)
    requires keys != [] && AscendingKeys(keys)
    ensures AscendingKeys(keys[1..]) && keys[0] !in keys[1..]
    ensures forall q :: q in keys <==> q == keys[0] || q in keys[1..]
  {
  }

  lemma DropKeepsDropping(keys: seq<int>, prev: Table, next: Table, m: Entries)
    requires Dropping(keys, prev, next, m) && keys != [] && keys[0] !in next.columns
    requires Injective(m - {keys[0]})
    ensures Dropping(keys[1..], prev, next, m - {keys[0]})
  {
    assert forall q :: q in keys <==> q == keys[0] || q in keys[1..];
    assert keys[0] !in keys[1..];
  }

  lemma DropStep(keys: seq<int>, prev: Table, next: Table, m: Entries)
    requires Dropping(keys, prev, next, m) && keys != [] && keys[0] !in next.columns
    ensures Dropping(keys[1..], prev, next, m - {keys[0]})
    ensures ApplyColumn(ByName(m), DropColumn(next.id, prev.columns[keys[0]].name)) == Some(ByName(m - {keys[0]}))
  {
    assert keys[0] in keys;
    assert keys[0] in m && m[keys[0]].0 == prev.columns[keys[0]].name;
    DropApplies(m, keys[0], next.id);
    DropKeepsDropping(keys, prev, next, m);
  }

  lemma {:induction false} DropsApply(keys: seq<int>, prev: Table, next: Table, m: Entries) returns (m': Entries)
    requires Dropping(keys, prev, next, m)
    ensures Dropping([], prev, next, m') && ApplyColumns(ByName(m), ColumnDrops(keys, prev, next)) == Some(ByName(m'))
  {
    m' := m;
    if keys != [] {
      var rest := ColumnDrops(keys[1..], prev, next);
      if keys[0] in next.columns {
        SplitKeys(keys);
        m' := DropsApply(keys[1..], prev, next, m);
        assert ColumnDrops(keys, prev, next) == rest;
      } else {
        DropStep(keys, prev, next, m);
        m' := DropsApply(keys[1..], prev, next, m - {keys[0]});
        ApplyFirst(ByName(m), DropColumn(next.id, prev.columns[keys[0]].name), rest);
      }
    }
  }

  // ---- Updates ---------------------------------------------------------------

  /** `NoColumnClash` among the given positions. */
  predicate NoClashAmong(keys: seq<int>, prev: Table, next: Table)
    requires forall i | 0 <= i < |keys| :: keys[i] in next.columns
  {
    forall i, j | 0 <= i < j < |keys| && keys[i] in prev.columns && keys[j] in prev.columns ::
      next.columns[keys[i]].name != prev.columns[keys[j]].name
  }

  /** Part way through the updates: the positions still to come are as before, the others as after. */
  ghost predicate Updating(keys: seq<int>, prev: Table, next: Table, m: Entries) {
    && AscendingKeys(keys) && Injective(m) && DistinctColumns(prev) && DistinctColumns(next)
    && (forall i | 0 <= i < |keys| :: keys[i] in next.columns)
    && (forall p :: p in m <==> p in prev.columns && p in next.columns)
    && (forall p | p in m :: m[p] == if p in keys then Entry(prev.columns[p]) else Entry(next.columns[p]))
  }

  /** The first position's new name is taken exactly when a later position still has it. */
  lemma NameTaken(keys: seq<int>, prev: Table, next: Table, m: Entries)
    requires Updating(keys, prev, next, m) && keys != [] && keys[0] in prev.columns
    requires next.columns[keys[0]].name != prev.columns[keys[0]].name
    ensures NameIn(m, next.columns[keys[0]].name)
        <==> exists j :: 0 < j < |keys| && keys[j] in prev.columns && prev.columns[keys[j]].name == next.columns[keys[0]].name
  {
    var name := next.columns[keys[0]].name;
    if NameIn(m, name) {
      var q := EntryOf(m, name);
      if q !in keys {
        DistinctPositions(next, q, keys[0]);
      } else {
        var j :| 0 <= j < |keys| && keys[j] == q;
        assert j != 0;
      }
    }
    if j :| 0 < j < |keys| && keys[j] in prev.columns && prev.columns[keys[j]].name == name {
      assert m[keys[j]].0 == name;
    }
  }

  lemma NoClashFirst(keys: seq<int>, prev: Table, next: Table)
    requires keys != [] && forall i | 0 <= i < |keys| :: keys[i] in next.columns
    ensures NoClashAmong(keys, prev, next)
        <==> NoClashAmong(keys[1..], prev, next)
             && (keys[0] in prev.columns ==>
                   !exists j :: 0 < j < |keys| && keys[j] in prev.columns && prev.columns[keys[j]].name == next.columns[keys[0]].name)
  {
    if NoClashAmong(keys, prev, next) {
      forall i, j | 0 <= i < j < |keys[1..]| && keys[1..][i] in prev.columns && keys[1..][j] in prev.columns
        ensures next.columns[keys[1..][i]].name != prev.columns[keys[1..][j]].name
      {
        assert keys[1..][i] == keys[i + 1] && keys[1..][j] == keys[j + 1];
      }
    } else {
      var i, j :| 0 <= i < j < |keys| && keys[i] in prev.columns && keys[j] in prev.columns
                  && next.columns[keys[i]].name == prev.columns[keys[j]].name;
      if i > 0 {
        assert keys[1..][i - 1] == keys[i] && keys[1..][j - 1] == keys[j];
      }
    }
  }

  lemma UnchangedNeverClashes(keys: seq<int>, prev: Table, next: Table, m: Entries)
    requires Updating(keys, prev, next, m) && keys != [] && keys[0] in prev.columns
    requires next.columns[keys[0]].name == prev.columns[keys[0]].name
    ensures !exists j :: 0 < j < |keys| && keys[j] in prev.columns && prev.columns[keys[j]].name == next.columns[keys[0]].name
  {
    if j :| 0 < j < |keys| && keys[j] in prev.columns && prev.columns[keys[j]].name == next.columns[keys[0]].name {
      DistinctPositions(prev, keys[j], keys[0]);
    }
  }

  lemma UpdateStep(keys: seq<int>, prev: Table, next: Table, m: Entries)
    requires Updating(keys, prev, next, m) && keys != [] && keys[0] in prev.columns
    ensures var p := keys[0];
            var change := UpdateColumn(next.id, prev.columns[p], next.columns[p]);
            var clash := exists j :: 0 < j < |keys| && keys[j] in prev.columns && prev.columns[keys[j]].name == next.columns[p].name;
            if clash then ApplyColumn(ByName(m), change) == None
            else Updating(keys[1..], prev, next, m[p := Entry(next.columns[p])])
                 && ApplyColumn(ByName(m), change) == Some(ByName(m[p := Entry(next.columns[p])]))
  {
    var p := keys[0];
    var name := next.columns[p].name;
    assert p in keys && m[p] == Entry(prev.columns[p]);
    UpdateApplies(m, p, next.id, prev.columns[p], next.columns[p]);
    if name != prev.columns[p].name {
      NameTaken(keys, prev, next, m);
    } else {
      UnchangedNeverClashes(keys, prev, next, m);
    }
    if name == prev.columns[p].name || !NameIn(m, name) {
      StepKeepsUpdating(keys, prev, next, m);
    }
  }

  lemma StepKeepsUpdating(keys: seq<int>, prev: Table, next: Table, m: Entries)
    requires Updating(keys, prev, next, m) && keys != [] && keys[0] in prev.columns
    requires Injective(m[keys[0] := Entry(next.columns[keys[0]])])
    ensures Updating(keys[1..], prev, next, m[keys[0] := Entry(next.columns[keys[0]])])
  {
    assert forall q :: q in keys <==> q == keys[0] || q in keys[1..];
    assert keys[0] !in keys[1..];
  }

  /** The updates succeed exactly without a clash, and then every kept position is as after. */
  lemma {:induction false} UpdatesApply(keys: seq<int>, prev: Table, next: Table, m: Entries) returns (m': Entries)
    requires Updating(keys, prev, next, m)
    ensures NoClashAmong(keys, prev, next) ==>
      Updating([], prev, next, m') && ApplyColumns(ByName(m), ColumnUpdates(keys, prev, next)) == Some(ByName(m'))
    ensures !NoClashAmong(keys, prev, next) ==> ApplyColumns(ByName(m), ColumnUpdates(keys, prev, next)) == None
  {
    m' := m;
    if keys != [] {
      NoClashFirst(keys, prev, next);
      var p, rest := keys[0], ColumnUpdates(keys[1..], prev, next);
      if p !in prev.columns || !ColumnChanged(prev.columns[p], next.columns[p]) {
        SkipKeepsUpdating(keys, prev, next, m);
        m' := UpdatesApply(keys[1..], prev, next, m);
        assert ColumnUpdates(keys, prev, next) == rest;
      } else {
        UpdateStep(keys, prev, next, m);
        var change := UpdateColumn(next.id, prev.columns[p], next.columns[p]);
        ApplyFirst(ByName(m), change, rest);
        if ApplyColumn(ByName(m), change).Some? {
          m' := UpdatesApply(keys[1..], prev, next, m[p := Entry(next.columns[p])]);
        }
      }
    }
  }

  lemma SkipKeepsUpdating(keys: seq<int>, prev: Table, next: Table, m: Entries)
    requires Updating(keys, prev, next, m) && keys != []
    requires keys[0] in prev.columns ==> !ColumnChanged(prev.columns[keys[0]], next.columns[keys[0]])
    ensures Updating(keys[1..], prev, next, m)
    ensures keys[0] in prev.columns ==>
      !exists j :: 0 < j < |keys| && keys[j] in prev.columns && prev.columns[keys[j]].name == next.columns[keys[0]].name
  {
    assert forall q :: q in keys <==> q == keys[0] || q in keys[1..];
    if keys[0] in prev.columns {
      UnchangedNeverClashes(keys, prev, next, m);
    }
  }

  // ---- Adds ------------------------------------------------------------------

  /** Part way through the adds: what is there is as after, and only the new positions still to come are missing. */
  ghost predicate Adding(keys: seq<int>, prev: Table, next: Table, m: Entries) {
    && AscendingKeys(keys) && Injective(m) && DistinctColumns(next)
    && (forall i | 0 <= i < |keys| :: keys[i] in next.columns)
    && (forall p :: p in m <==> p in next.columns && (p in keys ==> p in prev.columns))
    && (forall p | p in m :: m[p] == Entry(next.columns[p]))
  }

  lemma NewNameIsFree(keys: seq<int>, prev: Table, next: Table, m: Entries)
    requires Adding(keys, prev, next, m) && keys != [] && keys[0] !in prev.columns
    ensures keys[0] !in m && !NameIn(m, next.columns[keys[0]].name)
  {
    assert keys[0] in keys;
    if NameIn(m, next.columns[keys[0]].name) {
      var q := EntryOf(m, next.columns[keys[0]].name);
      DistinctPositions(next, keys[0], q);
    }
  }

  lemma AddKeepsAdding(keys: seq<int>, prev: Table, next: Table, m: Entries)
    requires Adding(keys, prev, next, m) && keys != [] && keys[0] !in prev.columns
    requires Injective(m[keys[0] := Entry(next.columns[keys[0]])])
    ensures Adding(keys[1..], prev, next, m[keys[0] := Entry(next.columns[keys[0]])])
  {
    assert forall q :: q in keys <==> q == keys[0] || q in keys[1..];
    assert keys[0] !in keys[1..];
  }

  lemma AddStep(keys: seq<int>, prev: Table, next: Table, m: Entries)
    requires Adding(keys, prev, next, m) && keys != [] && keys[0] !in prev.columns
    ensures var m' := m[keys[0] := Entry(next.columns[keys[0]])];
            Adding(keys[1..], prev, next, m') && ApplyColumn(ByName(m), AddColumn(next.id, next.columns[keys[0]])) == Some(ByName(m'))
  {
    NewNameIsFree(keys, prev, next, m);
    AddApplies(m, keys[0], next.id, next.columns[keys[0]]);
    AddKeepsAdding(keys, prev, next, m);
  }

  lemma {:induction false} AddsApply(keys: seq<int>, prev: Table, next: Table, m: Entries) returns (m': Entries)
    requires Adding(keys, prev, next, m)
    ensures Adding([], prev, next, m') && ApplyColumns(ByName(m), ColumnAdds(keys, prev, next)) == Some(ByName(m'))
  {
    m' := m;
    if keys != [] {
      var p, rest := keys[0], ColumnAdds(keys[1..], prev, next);
      if p in prev.columns {
        SplitKeys(keys);
        m' := AddsApply(keys[1..], prev, next, m);
        assert ColumnAdds(keys, prev, next) == rest;
      } else {
        AddStep(keys, prev, next, m);
        m' := AddsApply(keys[1..], prev, next, m[p := Entry(next.columns[p])]);
        ApplyFirst(ByName(m), AddColumn(next.id, next.columns[p]), rest);
      }
    }
  }

  // ---- All of them -----------------------------------------------------------

  lemma ClashAmongAll(prev: Table, next: Table)
    ensures NoClashAmong(Positions(next.columns), prev, next) <==> NoColumnClash(prev, next)
  {
    var keys := Positions(next.columns);
    if NoClashAmong(keys, prev, next) {
      forall p, q | p in prev.columns && p in next.columns && q in prev.columns && q in next.columns && p < q
        ensures next.columns[p].name != prev.columns[q].name
      {
        assert p in keys && q in keys;
        var i :| 0 <= i < |keys| && keys[i] == p;
        var j :| 0 <= j < |keys| && keys[j] == q;
        assert i < j;
      }
    }
  }

  lemma DropsStart(prev: Table, next: Table)
    requires DistinctColumns(prev)
    ensures Dropping(Positions(prev.columns), prev, next, EntriesOf(prev))
  {
  }

  lemma UpdatesFollowDrops(prev: Table, next: Table, m: Entries)
    requires DistinctColumns(prev) && DistinctColumns(next) && Dropping([], prev, next, m)
    ensures Updating(Positions(next.columns), prev, next, m)
  {
  }

  lemma AddsFollowUpdates(prev: Table, next: Table, m: Entries)
    requires Updating([], prev, next, m)
    ensures Adding(Positions(next.columns), prev, next, m)
  {
  }

  lemma AddsEnd(prev: Table, next: Table, m: Entries)
    requires Adding([], prev, next, m)
    ensures m == EntriesOf(next)
  {
    assert m.Keys == EntriesOf(next).Keys by {
      assert forall p :: p in m <==> p in next.columns;
    }
    forall p | p in m ensures m[p] == EntriesOf(next)[p] {
    }
  }

  /** Applying a table's column changes gives the next table's columns exactly when no two names clash. */
  lemma ColumnDiffIsExact(prev: Table, next: Table)
    requires DistinctColumns(prev) && DistinctColumns(next)
    ensures ApplyColumns(ColumnsOf(prev), ColumnChanges(prev, next)) == if NoColumnClash(prev, next) then Some(ColumnsOf(next)) else None
  {
    var drops := ColumnDrops(Positions(prev.columns), prev, next);
    var updates := ColumnUpdates(Positions(next.columns), prev, next);
    var adds := ColumnAdds(Positions(next.columns), prev, next);
    DropsStart(prev, next);
    var kept := DropsApply(Positions(prev.columns), prev, next, EntriesOf(prev));
    UpdatesFollowDrops(prev, next, kept);
    var updated := UpdatesApply(Positions(next.columns), prev, next, kept);
    ApplyColumnsConcat(ColumnsOf(prev), drops, updates + adds);
    ApplyColumnsConcat(ByName(kept), updates, adds);
    ClashAmongAll(prev, next);
    if NoColumnClash(prev, next) {
      AddsFollowUpdates(prev, next, updated);
      var all := AddsApply(Positions(next.columns), prev, next, updated);
      AddsEnd(prev, next, all);
    }
  }
}
