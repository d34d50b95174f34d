/**
 The library sort that normalization calls with `cmp_condition`. It is specified only where
 the comparison is consistent: there it is the stable sort. It decides by asking whether a
 later element is less than an earlier one.
 */
module LibrarySort {
  import opened Base
  import opened QueryAst
  import opened Comparing
  import opened ConditionOrder
  import opened Normalizing

  /** All comparisons among the conditions are defined and no two conditions clash. */
  ghost predicate Consistent(fmt: NumberFormat, cs: seq<Condition>) {
    forall a, b | a in cs && b in cs :: CmpCondition(fmt, a, b).Some? && !Clash(fmt, a, b)
  }

  /** The test of the library. */
  predicate Below(fmt: NumberFormat, later: Condition, earlier: Condition) {
    CmpCondition(fmt, later, earlier) == Some(Less)
  }

  /** A consistent comparison is a total order with ties, as the library asks for. */
  lemma ConsistentIsTotal(fmt: NumberFormat, cs: seq<Condition>, a: Condition, b: Condition, c: Condition)
    requires Consistent(fmt, cs) && a in cs && b in cs && c in cs
    ensures Below(fmt, a, b) <==> !Leq(fmt, b, a)
    ensures Leq(fmt, a, b) || Leq(fmt, b, a)
    ensures Leq(fmt, a, b) && Leq(fmt, b, c) ==> Leq(fmt, a, c)
    ensures Leq(fmt, a, b) && Leq(fmt, b, c) && Leq(fmt, c, a) ==> Leq(fmt, b, a) && Leq(fmt, c, b)
  {
    ComparisonReversesUnlessClash(fmt, a, b);
    ComparisonReversesUnlessClash(fmt, b, c);
    ComparisonReversesUnlessClash(fmt, a, c);
    ConditionsChain(fmt, a, b, c);
  }

  // ---- The sort by the library's test ----------------------------------------

  /** Moves an element left past those it is less than. */
  function ShiftLeft(fmt: NumberFormat, sorted: seq<Condition>, x: Condition): seq<Condition> {
    var n := |sorted| - 1;
    if sorted == [] || !Below(fmt, x, sorted[n]) then sorted + [x] else ShiftLeft(fmt, sorted[..n], x) + [sorted[n]]
  }

  function SortByTest(fmt: NumberFormat, cs: seq<Condition>): seq<Condition> {
    if cs == [] then [] else ShiftLeft(fmt, SortByTest(fmt, cs[..|cs| - 1]), cs[|cs| - 1])
  }

  lemma {:induction false} ShiftLeftPermutes(fmt: NumberFormat, sorted: seq<Condition>, x: Condition)
    ensures multiset(ShiftLeft(fmt, sorted, x)) == multiset(sorted) + multiset{x}
  {
    if sorted != [] {
      var n := |sorted| - 1;
      ShiftLeftPermutes(fmt, sorted[..n], x);
      LastTaken(sorted);
    }
  }

  lemma LastTaken<T>(xs: seq<T>)
    requires xs != []
    ensures multiset(xs) == multiset(xs[..|xs| - 1]) + multiset{xs[|xs| - 1]}
  {
    assert xs == xs[..|xs| - 1] + [xs[|xs| - 1]];
  }

  lemma {:induction false} TestSortPermutes(fmt: NumberFormat, cs: seq<Condition>)
    ensures multiset(SortByTest(fmt, cs)) == multiset(cs)
  {
    if cs != [] {
      var n := |cs| - 1;
      TestSortPermutes(fmt, cs[..n]);
      ShiftLeftPermutes(fmt, SortByTest(fmt, cs[..n]), cs[n]);
      LastTaken(cs);
    }
  }

  // ---- On a consistent order it is the stable sort ---------------------------

  /** Puts an element before the first one it is less than. */
  function InsertAfter(fmt: NumberFormat, sorted: seq<Condition>, x: Condition): seq<Condition> {
    if sorted == [] || Below(fmt, x, sorted[0]) then [x] + sorted else [sorted[0]] + InsertAfter(fmt, sorted[1..], x)
  }

  /** Inserting one element from the front and another from the back can be done in either order. */
  lemma {:induction false} InsertionsCommute(fmt: NumberFormat, cs: seq<Condition>, c: Condition, sorted: seq<Condition>, x: Condition)
    requires Consistent(fmt, cs) && c in cs && x in cs && forall y | y in sorted :: y in cs
    ensures InsertAfter(fmt, Insert(fmt, c, sorted), x) == Insert(fmt, c, InsertAfter(fmt, sorted, x))
  {
    ConsistentIsTotal(fmt, cs, x, c, c);
    if sorted != [] {
      var y, rest := sorted[0], sorted[1..];
      ConsistentIsTotal(fmt, cs, x, c, y);
      ConsistentIsTotal(fmt, cs, x, y, c);
      ConsistentIsTotal(fmt, cs, c, y, x);
      InsertionsCommute(fmt, cs, c, rest, x);
      assert ([c] + sorted)[1..] == sorted && ([x] + sorted)[1..] == sorted;
      assert ([y] + Insert(fmt, c, rest))[1..] == Insert(fmt, c, rest);
      assert ([y] + InsertAfter(fmt, rest, x))[1..] == InsertAfter(fmt, rest, x);
    } else {
      assert [c][1..] == [] && [x][1..] == [];
    }
  }

  /** Where an element stands once it has been moved past none of those before it. */
  lemma {:induction false} ShiftStopsBehind(fmt: NumberFormat, y: Condition, rest: seq<Condition>, x: Condition)
    requires !Below(fmt, x, y)
    ensures ShiftLeft(fmt, [y] + rest, x) == [y] + ShiftLeft(fmt, rest, x)
  {
    var all := [y] + rest;
    if rest != [] {
      var n := |rest| - 1;
      assert all[|all| - 1] == rest[n] && all[..|all| - 1] == [y] + rest[..n];
      ShiftStopsBehind(fmt, y, rest[..n], x);
    } else {
      assert all[..0] == [] && all[0] == y;
    }
  }

  lemma {:induction false} ShiftsPastAll(fmt: NumberFormat, sorted: seq<Condition>, x: Condition)
    requires forall y | y in sorted :: Below(fmt, x, y)
    ensures ShiftLeft(fmt, sorted, x) == [x] + sorted
  {
    if sorted != [] {
      var n := |sorted| - 1;
      ShiftsPastAll(fmt, sorted[..n], x);
      assert sorted[n] in sorted && sorted == sorted[..n] + [sorted[n]];
    }
  }

  lemma {:induction false} ShiftIsInsert(fmt: NumberFormat, cs: seq<Condition>, sorted: seq<Condition>, x: Condition)
    requires Consistent(fmt, cs) && x in cs && (forall y | y in sorted :: y in cs) && Sorted(fmt, sorted)
    ensures ShiftLeft(fmt, sorted, x) == InsertAfter(fmt, sorted, x)
  {
    if sorted != [] {
      var y, rest := sorted[0], sorted[1..];
      assert sorted == [y] + rest;
      if Below(fmt, x, y) {
        forall z | z in sorted ensures Below(fmt, x, z) {
          var i :| 0 <= i < |sorted| && sorted[i] == z;
          ConsistentIsTotal(fmt, cs, x, y, z);
          ConsistentIsTotal(fmt, cs, x, z, y);
          ConsistentIsTotal(fmt, cs, y, z, x);
        }
        ShiftsPastAll(fmt, sorted, x);
      } else {
        ShiftStopsBehind(fmt, y, rest, x);
        ShiftIsInsert(fmt, cs, rest, x);
      }
    }
  }

  lemma {:induction false} InsertKeepsSorted(fmt: NumberFormat, cs: seq<Condition>, c: Condition, sorted: seq<Condition>)
    requires Consistent(fmt, cs) && c in cs && (forall y | y in sorted :: y in cs) && Sorted(fmt, sorted)
    ensures Sorted(fmt, Insert(fmt, c, sorted))
  {
    if sorted != [] {
      if Leq(fmt, c, sorted[0]) {
        forall j | 1 <= j < |sorted| ensures Leq(fmt, c, sorted[j]) {
          ConsistentIsTotal(fmt, cs, c, sorted[0], sorted[j]);
        }
      } else {
        ConsistentIsTotal(fmt, cs, c, sorted[0], c);
        InsertKeepsSorted(fmt, cs, c, sorted[1..]);
        InsertPermutes(fmt, c, sorted[1..]);
        var rest := Insert(fmt, c, sorted[1..]);
        forall j | 0 <= j < |rest| ensures Leq(fmt, sorted[0], rest[j]) {
          assert rest[j] in multiset(rest);
          assert rest[j] == c || rest[j] in sorted[1..];
        }
      }
    }
  }

  lemma {:induction false} StableSortSorts(fmt: NumberFormat, cs: seq<Condition>)
    requires Consistent(fmt, cs)
    ensures Sorted(fmt, SortConditions(fmt, cs)) && forall y | y in SortConditions(fmt, cs) :: y in cs
  {
    SortPermutes(fmt, cs);
    assert forall y | y in SortConditions(fmt, cs) :: y in multiset(SortConditions(fmt, cs));
    if cs != [] {
      StableSortSorts(fmt, cs[1..]);
      InsertKeepsSorted(fmt, cs, cs[0], SortConditions(fmt, cs[1..]));
    }
  }

  lemma {:induction false} StableSortOfLast(fmt: NumberFormat, cs: seq<Condition>, x: Condition)
    requires Consistent(fmt, cs + [x])
    ensures SortConditions(fmt, cs + [x]) == InsertAfter(fmt, SortConditions(fmt, cs), x)
  {
    var all := cs + [x];
    if cs == [] {
      assert all[1..] == [] && all[0] == x;
    } else {
      assert all[0] == cs[0] && all[1..] == cs[1..] + [x];
      StableSortOfLast(fmt, cs[1..], x);
      StableSortSorts(fmt, cs[1..]);
      InsertionsCommute(fmt, all, cs[0], SortConditions(fmt, cs[1..]), x);
    }
  }

  /** On consistent conditions, sorting by the library's test is the stable sort. */
  lemma {:induction false} TestSortIsStableSort(fmt: NumberFormat, cs: seq<Condition>)
    requires Consistent(fmt, cs)
    ensures SortByTest(fmt, cs) == SortConditions(fmt, cs)
  {
    if cs != [] {
      var before, x := cs[..|cs| - 1], cs[|cs| - 1];
      assert cs == before + [x];
      TestSortIsStableSort(fmt, before);
      StableSortSorts(fmt, before);
      StableSortOfLast(fmt, before, x);
      ShiftIsInsert(fmt, cs, SortConditions(fmt, before), x);
    }
  }

  /** Two conditions that clash change places every time they are sorted. */
  lemma ClashingPairIsExchanged(fmt: NumberFormat, a: Condition, b: Condition)
    requires Clash(fmt, a, b)
    ensures SortByTest(fmt, [a, b]) == [b, a] && SortByTest(fmt, [b, a]) == [a, b]
  {
    ComparisonReversesUnlessClash(fmt, a, b);
    SortOfPair(fmt, a, b);
    SortOfPair(fmt, b, a);
  }

  lemma SortOfPair(fmt: NumberFormat, a: Condition, b: Condition)
    ensures SortByTest(fmt, [a, b]) == if Below(fmt, b, a) then [b, a] else [a, b]
  {
    assert [a, b][..1] == [a] && [a][..0] == [];
    assert SortByTest(fmt, [a]) == ShiftLeft(fmt, SortByTest(fmt, []), a) == [a];
    assert ShiftLeft(fmt, [], b) == [b];
  }

  // ---- What normalization may rely on ----------------------------------------

  /** Any sort that rearranges, and is the stable sort where the comparison is consistent. Aliases always are. */
  ghost predicate SortsAsSpecified(fmt: NumberFormat, sorter: Sorter) {
    && Permutes(sorter)
    && (forall cs | Consistent(fmt, cs) :: sorter.conditions(cs) == SortConditions(fmt, cs))
    && (forall hops :: sorter.related(hops) == SortRelated(hops))
  }

  function ByTest(fmt: NumberFormat): Sorter {
    Sorter(cs => SortByTest(fmt, cs), hops => SortRelated(hops))
  }

  lemma TestSortIsAsSpecified(fmt: NumberFormat)
    ensures SortsAsSpecified(fmt, ByTest(fmt)) && SortsAsSpecified(fmt, ByComparison(fmt))
  {
    ComparisonSortPermutes(fmt);
    forall cs ensures multiset(ByTest(fmt).conditions(cs)) == multiset(cs) {
      TestSortPermutes(fmt, cs);
    }
    forall hops ensures multiset(ByTest(fmt).related(hops)) == multiset(hops) {
      SortRelatedPermutes(hops);
    }
    forall cs | Consistent(fmt, cs) ensures ByTest(fmt).conditions(cs) == SortConditions(fmt, cs) {
      TestSortIsStableSort(fmt, cs);
    }
  }
}
