/**
 Maps from a stable key to a named value, seen by name. Both the tables of a schema
 (by object id) and the columns of a table (by attribute number) are of this kind, and a
 replica only knows the names.
 */
module KeyedMaps {

  /** No two entries share a name. */
  ghost predicate Injective<J, K, V>(m: map<J, (K, V)>) {
    forall i, j | i in m && j in m && m[i].0 == m[j].0 :: i == j
  }

  /** The values by name. */
  ghost function ByName<J, K, V>(m: map<J, (K, V)>): map<K, V>
    requires Injective(m)
  {
    map j | j in m :: m[j].0 := m[j].1
  }

  ghost predicate NameIn<J, K, V>(m: map<J, (K, V)>, name: K) {
    exists j :: j in m && m[j].0 == name
  }

  lemma NameLookup<J, K, V>(m: map<J, (K, V)>, j: J)
    requires Injective(m) && j in m
    ensures m[j].0 in ByName(m) && ByName(m)[m[j].0] == m[j].1
  {
  }

  lemma EntryOf<J, K, V>(m: map<J, (K, V)>, name: K) returns (j: J)
    requires NameIn(m, name)
    ensures j in m && m[j].0 == name
  {
    j :| j in m && m[j].0 == name;
  }

  lemma NamesIn<J, K, V>(m: map<J, (K, V)>, name: K)
    requires Injective(m)
    ensures name in ByName(m) <==> NameIn(m, name)
  {
  }

  /** A map that agrees with every entry and has no further names is the map by name. */
  lemma IsByName<J, K, V>(m: map<J, (K, V)>, names: map<K, V>)
    requires Injective(m)
    requires forall j | j in m :: m[j].0 in names && names[m[j].0] == m[j].1
    requires forall k | k in names :: NameIn(m, k)
    ensures ByName(m) == names
  {
    forall k | k in ByName(m) ensures k in names && names[k] == ByName(m)[k] {
      NamesIn(m, k);
      var j :| j in m && m[j].0 == k;
      NameLookup(m, j);
    }
    forall k | k in names ensures k in ByName(m) {
      NamesIn(m, k);
    }
  }

  /** Removing an entry removes its name. */
  lemma RemoveByName<J, K, V>(m: map<J, (K, V)>, j: J)
    requires Injective(m) && j in m
    ensures Injective(m - {j}) && ByName(m - {j}) == ByName(m) - {m[j].0}
  {
    var rest, names := m - {j}, ByName(m) - {m[j].0};
    forall i | i in rest ensures rest[i].0 in names && names[rest[i].0] == rest[i].1 {
      NameLookup(m, i);
    }
    forall k | k in names ensures NameIn(rest, k) {
      NamesIn(m, k);
      var i :| i in m && m[i].0 == k;
      assert i in rest;
    }
    IsByName(rest, names);
  }

  lemma StaysInjective<J, K, V>(m: map<J, (K, V)>, j: J, name: K, value: V)
    requires Injective(m) && j !in m && !NameIn(m, name)
    ensures Injective(m[j := (name, value)]) && forall i | i in m :: m[i].0 != name
  {
    var more := m[j := (name, value)];
    forall i, i' | i in more && i' in more && more[i].0 == more[i'].0 ensures i == i' {
      if i != j && i' != j {
        assert m[i].0 == m[i'].0;
      }
    }
  }

  /** Adding an entry under a free name adds that name. */
  lemma AddByName<J, K, V>(m: map<J, (K, V)>, j: J, name: K, value: V)
    requires Injective(m) && j !in m && !NameIn(m, name)
    ensures Injective(m[j := (name, value)]) && ByName(m[j := (name, value)]) == ByName(m)[name := value]
  {
    var more, names := m[j := (name, value)], ByName(m)[name := value];
    StaysInjective(m, j, name, value);
    forall i | i in more ensures more[i].0 in names && names[more[i].0] == more[i].1 {
      if i != j {
        NameLookup(m, i);
      }
    }
    forall k | k in names ensures NameIn(more, k) {
      if k == name {
        assert more[j].0 == k;
      } else {
        NamesIn(m, k);
        var i :| i in m && m[i].0 == k;
        assert more[i].0 == k;
      }
    }
    IsByName(more, names);
  }

  /** Giving an entry a name no other entry has, and a new value, moves it by name. */
  lemma UpdateByName<J, K, V>(m: map<J, (K, V)>, j: J, name: K, value: V)
    requires Injective(m) && j in m && (name == m[j].0 || !NameIn(m, name))
    ensures Injective(m[j := (name, value)]) && ByName(m[j := (name, value)]) == (ByName(m) - {m[j].0})[name := value]
  {
    RemoveByName(m, j);
    var rest := m - {j};
    forall i | i in rest ensures rest[i].0 != name {
      assert m[i].0 == name ==> NameIn(m, name);
    }
    AddByName(rest, j, name, value);
    PutBack(m, j, (name, value));
  }

  lemma PutBack<J, V>(m: map<J, V>, j: J, value: V)
    ensures (m - {j})[j := value] == m[j := value]
  {
  }

  /** Giving an entry a new value under its own name changes just that value. */
  lemma ReplaceByName<J, K, V>(m: map<J, (K, V)>, j: J, value: V)
    requires Injective(m) && j in m
    ensures Injective(m[j := (m[j].0, value)]) && ByName(m[j := (m[j].0, value)]) == ByName(m)[m[j].0 := value]
  {
    UpdateByName(m, j, m[j].0, value);
    PutBack(ByName(m), m[j].0, value);
  }

  lemma Overwrite<J, V>(m: map<J, V>, j: J, first: V, second: V)
    ensures m[j := first][j := second] == m[j := second]
  {
  }

  // ---- Keys in order ---------------------------------------------------------

  /** The order keys are iterated in. */
  ghost predicate StrictOrder<K(!new)>(less: (K, K) -> bool) {
    && (forall a, b :: a == b || less(a, b) || less(b, a))
    && (forall a, b :: less(a, b) ==> a != b && !less(b, a))
    && (forall a, b, c :: less(a, b) && less(b, c) ==> less(a, c))
  }

  predicate IsLeast<K(==)>(s: set<K>, less: (K, K) -> bool, x: K) {
    x in s && forall y | y in s && y != x :: less(x, y)
  }

  lemma Inhabited<K(!new)>(s: set<K>)
    ensures s == {} || exists x :: x in s
  {
    if forall x: K :: x !in s {
      assert s == {};
    }
  }

  lemma {:induction false} LeastExists<K(!new)>(s: set<K>, less: (K, K) -> bool) returns (x: K)
    requires s != {} && StrictOrder(less)
    ensures IsLeast(s, less, x)
  {
    Inhabited(s);
    x :| x in s;
    var rest := s - {x};
    if rest != {} {
      var y := LeastExists(rest, less);
      assert forall z | z in s :: z == x || z in rest;
      if less(y, x) {
        x := y;
      }
    } else {
      assert forall z | z in s :: z == x || z in rest;
    }
  }

  function Least<K(==,!new)>(s: set<K>, less: (K, K) -> bool): (least: K)
    requires s != {} && StrictOrder(less)
    ensures IsLeast(s, less, least)
  {
    assert exists x :: IsLeast(s, less, x) by {
      var x := LeastExists(s, less);
    }
    var x :| IsLeast(s, less, x);
    x
  }

  /** The keys of an ordered map, in the order it is iterated. */
  function Ascending<K(==,!new)>(s: set<K>, less: (K, K) -> bool): (ordered: seq<K>)
    requires StrictOrder(less)
    ensures forall x :: x in ordered <==> x in s
    ensures forall i, j | 0 <= i < j < |ordered| :: less(ordered[i], ordered[j])
  {
    if s == {} then [] else [Least(s, less)] + Ascending(s - {Least(s, less)}, less)
  }
}
