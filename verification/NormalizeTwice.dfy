/**
 Normalizing a query twice. The sort inside is the library's, which is specified only where
 the comparison is consistent, so the outcomes of normalizing are a relation: exactly
 when does every outcome stay as it is when it is normalized again?
 */
module NormalizeTwice {
  import opened Base
  import opened QueryAst
  import opened Comparing
  import opened ConditionOrder
  import opened Normalizing
  import opened NormalizeExact
  import opened LibrarySort
  import opened AuthBinding
  import opened NormalizedOrder

  // ---- What normalizing can give ---------------------------------------------

  /** What the sort can make of a list: the stable order, or any order at all if the comparison is not consistent. */
  ghost predicate Arranged(fmt: NumberFormat, cs: seq<Condition>, sorted: seq<Condition>) {
    multiset(sorted) == multiset(cs) && (Consistent(fmt, cs) ==> sorted == SortConditions(fmt, cs))
  }

  ghost predicate CanBecome(fmt: NumberFormat, c: Condition, n: Condition)
    decreases Size(c), 1, 0
  {
    match c
    case Simple(_, _, _) => n == c
    case Subquery(related, _, _, _, _) => n.Subquery? && n == c.(related := n.related) && HopCanBecome(fmt, related, n.related)
    case And(cs) => n.And? && exists ms :: AllCanBecome(fmt, cs, ms) && Arranged(fmt, ms, n.conditions)
    case Or(cs) => n.Or? && exists ms :: AllCanBecome(fmt, cs, ms) && Arranged(fmt, ms, n.conditions)
  }

  ghost predicate AllCanBecome(fmt: NumberFormat, cs: seq<Condition>, ms: seq<Condition>)
    decreases SizeAll(cs), 2, |cs|
  {
    |ms| == |cs| && (cs != [] ==> CanBecome(fmt, cs[0], ms[0]) && AllCanBecome(fmt, cs[1..], ms[1..]))
  }

  ghost predicate HopCanBecome(fmt: NumberFormat, hop: CorrelatedSubquery, n: CorrelatedSubquery)
    decreases SizeHop(hop), 1, 0
  {
    n == hop.(subquery := n.subquery) && QueryCanBecome(fmt, hop.subquery, n.subquery)
  }

  ghost predicate HopsCanBecome(fmt: NumberFormat, hops: seq<CorrelatedSubquery>, ms: seq<CorrelatedSubquery>)
    decreases SizeHops(hops), 2, |hops|
  {
    |ms| == |hops| && (hops != [] ==> HopCanBecome(fmt, hops[0], ms[0]) && HopsCanBecome(fmt, hops[1..], ms[1..]))
  }

  ghost predicate WhereCanBecome(fmt: NumberFormat, where_: Option<Condition>, n: Option<Condition>)
    decreases if where_.Some? then Size(where_.value) else 0, 2, 0
  {
    if where_.Some? && Flatten(where_.value).Some? then
      FlattenShrinks(where_.value);
      n.Some? && CanBecome(fmt, Flatten(where_.value).value, n.value)
    else n.None?
  }

  ghost predicate RelatedCanBecome(fmt: NumberFormat, related: RelatedHops, n: RelatedHops)
    decreases if related.Related? then SizeHops(related.hops) else 0, 3, 0
  {
    if related.Related? then n.Related? && exists ms :: HopsCanBecome(fmt, related.hops, ms) && n.hops == SortRelated(ms)
    else n.NoRelated?
  }

  /** The query can be normalized to `n`. */
  ghost predicate QueryCanBecome(fmt: NumberFormat, q: Ast, n: Ast)
    decreases SizeQuery(q), 1, 0
  {
    && n == q.(where_ := n.where_, related := n.related)
    && WhereCanBecome(fmt, q.where_, n.where_)
    && RelatedCanBecome(fmt, q.related, n.related)
  }

  // ---- Every sort that meets its specification -------------------------------

  lemma {:induction false} WhereIsReached(fmt: NumberFormat, sorter: Sorter, c: Condition)
    requires SortsAsSpecified(fmt, sorter)
    ensures CanBecome(fmt, c, NormalizeWhere(sorter, c))
    decreases Size(c), 1, 0
  {
    match c
    case Simple(_, _, _) =>
    case Subquery(related, _, _, _, _) => HopIsReached(fmt, sorter, related);
    case _ =>
      AllAreReached(fmt, sorter, c.conditions);
      assert Arranged(fmt, NormalizeAll(sorter, c.conditions), sorter.conditions(NormalizeAll(sorter, c.conditions)));
  }

  lemma {:induction false} AllAreReached(fmt: NumberFormat, sorter: Sorter, cs: seq<Condition>)
    requires SortsAsSpecified(fmt, sorter)
    ensures AllCanBecome(fmt, cs, NormalizeAll(sorter, cs))
    decreases SizeAll(cs), 2, |cs|
  {
    if cs != [] {
      WhereIsReached(fmt, sorter, cs[0]);
      AllAreReached(fmt, sorter, cs[1..]);
      assert NormalizeAll(sorter, cs)[1..] == NormalizeAll(sorter, cs[1..]);
    }
  }

  lemma {:induction false} HopIsReached(fmt: NumberFormat, sorter: Sorter, hop: CorrelatedSubquery)
    requires SortsAsSpecified(fmt, sorter)
    ensures HopCanBecome(fmt, hop, NormalizeHop(sorter, hop))
    decreases SizeHop(hop), 1, 0
  {
    QueryIsReached(fmt, sorter, hop.subquery);
  }

  lemma {:induction false} HopsAreReached(fmt: NumberFormat, sorter: Sorter, hops: seq<CorrelatedSubquery>)
    requires SortsAsSpecified(fmt, sorter)
    ensures HopsCanBecome(fmt, hops, NormalizeHops(sorter, hops))
    decreases SizeHops(hops), 2, |hops|
  {
    if hops != [] {
      HopIsReached(fmt, sorter, hops[0]);
      HopsAreReached(fmt, sorter, hops[1..]);
      assert NormalizeHops(sorter, hops)[1..] == NormalizeHops(sorter, hops[1..]);
    }
  }

  /** What a sort that meets its specification gives is one of the outcomes. */
  lemma {:induction false} QueryIsReached(fmt: NumberFormat, sorter: Sorter, q: Ast)
    requires SortsAsSpecified(fmt, sorter)
    ensures QueryCanBecome(fmt, q, NormalizeQuery(sorter, q))
    decreases SizeQuery(q), 1, 0
  {
    if q.where_.Some? && Flatten(q.where_.value).Some? {
      FlattenShrinks(q.where_.value);
      WhereIsReached(fmt, sorter, Flatten(q.where_.value).value);
    }
    if q.related.Related? {
      HopsAreReached(fmt, sorter, q.related.hops);
    }
  }

  // ---- Orderly normal forms --------------------------------------------------

  /** The children of every junction of a normal form, in its subqueries too, compare consistently. */
  ghost predicate OrderlyCondition(fmt: NumberFormat, c: Condition)
    decreases c, 0
  {
    match c
    case Simple(_, _, _) => true
    case And(cs) => Consistent(fmt, cs) && forall c' | c' in cs :: OrderlyCondition(fmt, c')
    case Or(cs) => Consistent(fmt, cs) && forall c' | c' in cs :: OrderlyCondition(fmt, c')
    case Subquery(related, _, _, _, _) => OrderlyHop(fmt, related)
  }

  ghost predicate OrderlyHop(fmt: NumberFormat, hop: CorrelatedSubquery)
    decreases hop, 0
  {
    OrderlyForm(fmt, hop.subquery)
  }

  ghost predicate OrderlyForm(fmt: NumberFormat, n: Ast)
    decreases n, 0
  {
    && (n.where_.Some? ==> OrderlyCondition(fmt, n.where_.value))
    && (n.related.Related? ==> forall hop | hop in n.related.hops :: OrderlyHop(fmt, hop))
  }

  /** No two conditions that the normalization of the query has to order clash. */
  ghost predicate Orderly(fmt: NumberFormat, q: Ast) {
    OrderlyForm(fmt, NormalizeQuery(ByComparison(fmt), q))
  }

  lemma ConsistentInAnyOrder(fmt: NumberFormat, a: seq<Condition>, b: seq<Condition>)
    requires multiset(a) == multiset(b) && Consistent(fmt, a)
    ensures Consistent(fmt, b)
  {
    SortedMembers(a, b);
  }

  lemma {:induction false} OnlyOutcome(fmt: NumberFormat, c: Condition, n: Condition)
    requires CanBecome(fmt, c, n) && OrderlyCondition(fmt, NormalizeWhere(ByComparison(fmt), c))
    ensures n == NormalizeWhere(ByComparison(fmt), c)
    decreases Size(c), 1, 0
  {
    match c
    case Simple(_, _, _) =>
    case Subquery(related, _, _, _, _) => OnlyOutcomeOfHop(fmt, related, n.related);
    case _ =>
      var xs := SortConditions(fmt, NormalizeAll(ByComparison(fmt), c.conditions));
      assert NormalizeWhere(ByComparison(fmt), c) == Junction(c.And?, xs);
      var ms :| AllCanBecome(fmt, c.conditions, ms) && Arranged(fmt, ms, n.conditions);
      OnlyArrangement(fmt, c.conditions, ms, n.conditions);
  }

  lemma {:induction false} OnlyArrangement(fmt: NumberFormat, cs: seq<Condition>, ms: seq<Condition>, sorted: seq<Condition>)
    requires AllCanBecome(fmt, cs, ms) && Arranged(fmt, ms, sorted)
    requires var xs := SortConditions(fmt, NormalizeAll(ByComparison(fmt), cs));
             Consistent(fmt, xs) && forall x | x in xs :: OrderlyCondition(fmt, x)
    ensures sorted == SortConditions(fmt, NormalizeAll(ByComparison(fmt), cs))
    decreases SizeAll(cs), 3, 0
  {
    var ns := NormalizeAll(ByComparison(fmt), cs);
    SortPermutes(fmt, ns);
    SortedMembers(SortConditions(fmt, ns), ns);
    OnlyOutcomes(fmt, cs, ms);
    ConsistentInAnyOrder(fmt, SortConditions(fmt, ns), ns);
  }

  lemma {:induction false} OnlyOutcomes(fmt: NumberFormat, cs: seq<Condition>, ms: seq<Condition>)
    requires AllCanBecome(fmt, cs, ms) && forall n | n in NormalizeAll(ByComparison(fmt), cs) :: OrderlyCondition(fmt, n)
    ensures ms == NormalizeAll(ByComparison(fmt), cs)
    decreases SizeAll(cs), 2, |cs|
  {
    if cs != [] {
      var ns := NormalizeAll(ByComparison(fmt), cs);
      assert ns[0] in ns && ns[1..] == NormalizeAll(ByComparison(fmt), cs[1..]);
      OnlyOutcome(fmt, cs[0], ms[0]);
      OnlyOutcomes(fmt, cs[1..], ms[1..]);
      assert ms == [ms[0]] + ms[1..];
    }
  }

  lemma {:induction false} OnlyOutcomeOfHop(fmt: NumberFormat, hop: CorrelatedSubquery, n: CorrelatedSubquery)
    requires HopCanBecome(fmt, hop, n) && OrderlyHop(fmt, NormalizeHop(ByComparison(fmt), hop))
    ensures n == NormalizeHop(ByComparison(fmt), hop)
    decreases SizeHop(hop), 1, 0
  {
    OnlyOutcomeOfQuery(fmt, hop.subquery, n.subquery);
  }

  lemma {:induction false} OnlyOutcomesOfHops(fmt: NumberFormat, hops: seq<CorrelatedSubquery>, ms: seq<CorrelatedSubquery>)
    requires HopsCanBecome(fmt, hops, ms) && forall n | n in NormalizeHops(ByComparison(fmt), hops) :: OrderlyHop(fmt, n)
    ensures ms == NormalizeHops(ByComparison(fmt), hops)
    decreases SizeHops(hops), 2, |hops|
  {
    if hops != [] {
      var ns := NormalizeHops(ByComparison(fmt), hops);
      assert ns[0] in ns && ns[1..] == NormalizeHops(ByComparison(fmt), hops[1..]);
      OnlyOutcomeOfHop(fmt, hops[0], ms[0]);
      OnlyOutcomesOfHops(fmt, hops[1..], ms[1..]);
      assert ms == [ms[0]] + ms[1..];
    }
  }

  /** An orderly query has one outcome. */
  lemma {:induction false} OnlyOutcomeOfQuery(fmt: NumberFormat, q: Ast, n: Ast)
    requires QueryCanBecome(fmt, q, n) && Orderly(fmt, q)
    ensures n == NormalizeQuery(ByComparison(fmt), q)
    decreases SizeQuery(q), 1, 0
  {
    if q.where_.Some? && Flatten(q.where_.value).Some? {
      FlattenShrinks(q.where_.value);
      assert NormalizeQuery(ByComparison(fmt), q).where_ == Some(NormalizeWhere(ByComparison(fmt), Flatten(q.where_.value).value));
      OnlyOutcome(fmt, Flatten(q.where_.value).value, n.where_.value);
    }
    if q.related.Related? {
      var ns := NormalizeHops(ByComparison(fmt), q.related.hops);
      var ms :| HopsCanBecome(fmt, q.related.hops, ms) && n.related.hops == SortRelated(ms);
      SortRelatedPermutes(ns);
      SortedMembers(SortRelated(ns), ns);
      OnlyOutcomesOfHops(fmt, q.related.hops, ms);
    }
  }

  // ---- Anything else has another outcome -------------------------------------

  lemma {:induction false} NoClashWithItself(fmt: NumberFormat, c: Condition)
    ensures !Clash(fmt, c, c)
    decreases c, 1
  {
    if c.And? || c.Or? {
      NoClashAmongSame(fmt, c.conditions);
    }
  }

  lemma {:induction false} NoClashAmongSame(fmt: NumberFormat, cs: seq<Condition>)
    ensures !ChildrenClash(fmt, cs, cs)
    decreases cs, 0
  {
    if cs != [] {
      NoClashWithItself(fmt, cs[0]);
      NoClashAmongSame(fmt, cs[1..]);
    }
  }

  lemma Exchange<T>(xs: seq<T>, a: T, b: T) returns (ys: seq<T>)
    requires a in xs && b in xs && a != b
    ensures multiset(ys) == multiset(xs) && ys != xs
  {
    var i :| 0 <= i < |xs| && xs[i] == a;
    var j :| 0 <= j < |xs| && xs[j] == b;
    ys := xs[i := b][j := a];
    assert ys[i] == b;
  }

  lemma ReplacedIsDifferent<T>(xs: seq<T>, i: nat, y: T, sorted: seq<T>)
    requires i < |xs| && y != xs[i] && multiset(sorted) == multiset(xs[i := y])
    ensures sorted != xs
  {
    assert multiset(xs[i := y])[y] == multiset(xs)[y] + 1;
  }

  lemma {:induction false} AllButOne(fmt: NumberFormat, cs: seq<Condition>, i: nat, x: Condition)
    requires AllCanBecome(fmt, cs, cs) && i < |cs| && CanBecome(fmt, cs[i], x)
    ensures AllCanBecome(fmt, cs, cs[i := x])
  {
    if i > 0 {
      AllButOne(fmt, cs[1..], i - 1, x);
      assert cs[i := x][1..] == cs[1..][i - 1 := x];
    } else {
      assert cs[i := x][1..] == cs[1..];
    }
  }

  lemma {:induction false} HopsButOne(fmt: NumberFormat, hops: seq<CorrelatedSubquery>, i: nat, x: CorrelatedSubquery)
    requires HopsCanBecome(fmt, hops, hops) && i < |hops| && HopCanBecome(fmt, hops[i], x)
    ensures HopsCanBecome(fmt, hops, hops[i := x])
  {
    if i > 0 {
      HopsButOne(fmt, hops[1..], i - 1, x);
      assert hops[i := x][1..] == hops[1..][i - 1 := x];
    } else {
      assert hops[i := x][1..] == hops[1..];
    }
  }

  /** The normalized children of a junction are at rest. */
  lemma ChildrenAtRest(fmt: NumberFormat, cs: seq<Condition>) returns (xs: seq<Condition>)
    requires forall c | c in cs :: ShallowBelow(c)
    ensures xs == SortConditions(fmt, NormalizeAll(ByComparison(fmt), cs)) && AllCanBecome(fmt, xs, xs)
    ensures forall x | x in xs :: exists c :: c in cs && x == NormalizeWhere(ByComparison(fmt), c)
  {
    var sorter := ByComparison(fmt);
    var ns := NormalizeAll(sorter, cs);
    xs := SortConditions(fmt, ns);
    StableSortSettles(fmt);
    TestSortIsAsSpecified(fmt);
    SortPermutes(fmt, ns);
    SortedMembers(xs, ns);
    NormalizeAllAt(sorter, cs);
    AllTwice(sorter, cs);
    AllFixed(sorter, xs);
    AllAreReached(fmt, sorter, xs);
    forall x | x in xs ensures exists c :: c in cs && x == NormalizeWhere(sorter, c) {
      var i :| 0 <= i < |ns| && ns[i] == x;
      assert cs[i] in cs;
    }
  }

  lemma ClashIn(fmt: NumberFormat, xs: seq<Condition>) returns (a: Condition, b: Condition)
    requires (forall x | x in xs :: BoundCondition(x)) && !Consistent(fmt, xs)
    ensures a in xs && b in xs && a != b
  {
    a, b :| a in xs && b in xs && !(CmpCondition(fmt, a, b).Some? && !Clash(fmt, a, b));
    BoundComparisonDoesNotPanic(fmt, a, b);
    NoClashWithItself(fmt, a);
  }

  /** A normalized condition that is not orderly can be normalized to something else. */
  lemma {:induction false} AnotherOutcome(fmt: NumberFormat, c: Condition) returns (n': Condition)
    requires BoundCondition(c) && ShallowBelow(c) && !OrderlyCondition(fmt, NormalizeWhere(ByComparison(fmt), c))
    ensures var n := NormalizeWhere(ByComparison(fmt), c); CanBecome(fmt, n, n') && n' != n
    decreases Size(c), 1, 0
  {
    if c.Subquery? {
      var hop := AnotherOutcomeOfHop(fmt, c.related);
      n' := NormalizeWhere(ByComparison(fmt), c).(related := hop);
    } else {
      var xs := ChildrenAtRest(fmt, c.conditions);
      BoundConditionSortsSafely(fmt, c);
      assert NormalizeWhere(ByComparison(fmt), c) == Junction(c.And?, xs);
      if !Consistent(fmt, xs) {
        n' := AnotherArrangement(fmt, c.And?, xs);
      } else {
        var x :| x in xs && !OrderlyCondition(fmt, x);
        var d :| d in c.conditions && x == NormalizeWhere(ByComparison(fmt), d);
        MembersAreSmaller(c.conditions);
        var x' := AnotherOutcome(fmt, d);
        n' := AnotherChild(fmt, c.And?, xs, x, x');
      }
    }
  }

  lemma AnotherArrangement(fmt: NumberFormat, isAnd: bool, xs: seq<Condition>) returns (n': Condition)
    requires AllCanBecome(fmt, xs, xs) && (forall x | x in xs :: BoundCondition(x)) && !Consistent(fmt, xs)
    ensures CanBecome(fmt, Junction(isAnd, xs), n') && n' != Junction(isAnd, xs)
  {
    var a, b := ClashIn(fmt, xs);
    var ys := Exchange(xs, a, b);
    n' := Junction(isAnd, ys);
    assert Arranged(fmt, xs, ys);
  }

  lemma AnotherChild(fmt: NumberFormat, isAnd: bool, xs: seq<Condition>, x: Condition, x': Condition) returns (n': Condition)
    requires AllCanBecome(fmt, xs, xs) && x in xs && CanBecome(fmt, x, x') && x' != x
    ensures CanBecome(fmt, Junction(isAnd, xs), n') && n' != Junction(isAnd, xs)
  {
    var i :| 0 <= i < |xs| && xs[i] == x;
    var ms := xs[i := x'];
    AllButOne(fmt, xs, i, x');
    SortPermutes(fmt, ms);
    var ys := SortConditions(fmt, ms);
    n' := Junction(isAnd, ys);
    assert Arranged(fmt, ms, ys);
    ReplacedIsDifferent(xs, i, x', ys);
  }

  lemma {:induction false} AnotherOutcomeOfHop(fmt: NumberFormat, hop: CorrelatedSubquery) returns (n': CorrelatedSubquery)
    requires BoundHop(hop) && ShallowHop(hop) && !OrderlyHop(fmt, NormalizeHop(ByComparison(fmt), hop))
    ensures var n := NormalizeHop(ByComparison(fmt), hop); HopCanBecome(fmt, n, n') && n' != n
    decreases SizeHop(hop), 1, 0
  {
    var sub := AnotherOutcomeOfQuery(fmt, hop.subquery);
    n' := NormalizeHop(ByComparison(fmt), hop).(subquery := sub);
  }

  /** The normalized related hops of a shallow query are at rest. */
  lemma HopsAtRest(fmt: NumberFormat, hops: seq<CorrelatedSubquery>) returns (xs: seq<CorrelatedSubquery>)
    requires forall hop | hop in hops :: ShallowHop(hop)
    ensures xs == SortRelated(NormalizeHops(ByComparison(fmt), hops)) && HopsCanBecome(fmt, xs, xs)
    ensures forall x | x in xs :: exists hop :: hop in hops && x == NormalizeHop(ByComparison(fmt), hop)
  {
    var sorter := ByComparison(fmt);
    var ns := NormalizeHops(sorter, hops);
    xs := SortRelated(ns);
    StableSortSettles(fmt);
    TestSortIsAsSpecified(fmt);
    SortRelatedPermutes(ns);
    SortedMembers(xs, ns);
    HopsTwice(sorter, hops);
    HopsFixed(sorter, xs);
    HopsAreReached(fmt, sorter, xs);
    NormalizedHopsCome(sorter, hops);
  }

  lemma {:induction false} AnotherRelated(fmt: NumberFormat, hops: seq<CorrelatedSubquery>) returns (ys: seq<CorrelatedSubquery>)
    requires forall hop | hop in hops :: BoundHop(hop) && ShallowHop(hop)
    requires exists x | x in SortRelated(NormalizeHops(ByComparison(fmt), hops)) :: !OrderlyHop(fmt, x)
    ensures var xs := SortRelated(NormalizeHops(ByComparison(fmt), hops)); RelatedCanBecome(fmt, Related(xs), Related(ys)) && ys != xs
    decreases SizeHops(hops), 2, 0
  {
    var xs := HopsAtRest(fmt, hops);
    var x :| x in xs && !OrderlyHop(fmt, x);
    var hop :| hop in hops && x == NormalizeHop(ByComparison(fmt), hop);
    HopsAreSmaller(hops);
    var x' := AnotherOutcomeOfHop(fmt, hop);
    ys := AnotherHop(fmt, xs, x, x');
  }

  lemma AnotherHop(fmt: NumberFormat, xs: seq<CorrelatedSubquery>, x: CorrelatedSubquery, x': CorrelatedSubquery) returns (ys: seq<CorrelatedSubquery>)
    requires HopsCanBecome(fmt, xs, xs) && x in xs && HopCanBecome(fmt, x, x') && x' != x
    ensures RelatedCanBecome(fmt, Related(xs), Related(ys)) && ys != xs
  {
    var i :| 0 <= i < |xs| && xs[i] == x;
    HopsButOne(fmt, xs, i, x');
    ys := SortRelated(xs[i := x']);
    SortRelatedPermutes(xs[i := x']);
    ReplacedIsDifferent(xs, i, x', ys);
  }

  lemma {:induction false} AnotherWhere(fmt: NumberFormat, c: Condition) returns (n': Condition)
    requires BoundCondition(c) && Shallow(c) && ShallowBelow(c) && Flatten(c).Some?
    requires !OrderlyCondition(fmt, NormalizeWhere(ByComparison(fmt), Flatten(c).value))
    ensures var n := NormalizeWhere(ByComparison(fmt), Flatten(c).value); WhereCanBecome(fmt, Some(n), Some(n')) && n' != n
    decreases Size(c), 2, 0
  {
    var flat := Flatten(c).value;
    FlattenShrinks(c);
    FlattenKeepsBound(c);
    FlattenKeepsShallow(c);
    ShallowFlattens(c);
    ComparisonSortPermutes(fmt);
    NormalizedShape(ByComparison(fmt), flat);
    FlatIsFixed(NormalizeWhere(ByComparison(fmt), flat));
    n' := AnotherOutcome(fmt, flat);
  }

  lemma {:induction false} AnotherOutcomeOfQuery(fmt: NumberFormat, q: Ast) returns (n': Ast)
    requires BoundQuery(q) && ShallowQuery(q) && !Orderly(fmt, q)
    ensures var n := NormalizeQuery(ByComparison(fmt), q); QueryCanBecome(fmt, n, n') && n' != n
    decreases SizeQuery(q), 1, 0
  {
    var n := NormalizeQuery(ByComparison(fmt), q);
    AtRest(fmt, q);
    if n.where_.Some? && !OrderlyCondition(fmt, n.where_.value) {
      var w := AnotherWhere(fmt, q.where_.value);
      n' := n.(where_ := Some(w));
    } else {
      var ys := AnotherRelated(fmt, q.related.hops);
      n' := n.(related := Related(ys));
    }
  }

  lemma AtRest(fmt: NumberFormat, q: Ast)
    requires ShallowQuery(q)
    ensures var n := NormalizeQuery(ByComparison(fmt), q); NormalizeQuery(ByComparison(fmt), n) == n && QueryCanBecome(fmt, n, n)
  {
    StableSortSettles(fmt);
    TestSortIsAsSpecified(fmt);
    QueryTwice(ByComparison(fmt), q);
    QueryIsReached(fmt, ByComparison(fmt), NormalizeQuery(ByComparison(fmt), q));
  }

  // ---- Exactly when a normal form is final -----------------------------------

  /** Every outcome of normalizing the query stays as it is when it is normalized again. */
  ghost predicate FormIsFinal(fmt: NumberFormat, q: Ast) {
    forall n, n' | QueryCanBecome(fmt, q, n) && QueryCanBecome(fmt, n, n') :: n' == n
  }

  /** For a bound query that is exactly the case when it is shallow and orderly. */
  lemma FormIsFinalExactly(fmt: NumberFormat, q: Ast)
    requires BoundQuery(q)
    ensures FormIsFinal(fmt, q) <==> ShallowQuery(q) && Orderly(fmt, q)
  {
    var form := NormalizeQuery(ByComparison(fmt), q);
    TestSortIsAsSpecified(fmt);
    QueryIsReached(fmt, ByComparison(fmt), q);
    QueryIsReached(fmt, ByComparison(fmt), form);
    if !ShallowQuery(q) {
      DeepQueryShrinks(ByComparison(fmt), q);
    } else if !Orderly(fmt, q) {
      var other := AnotherOutcomeOfQuery(fmt, q);
    } else {
      AtRest(fmt, q);
      forall n, n' | QueryCanBecome(fmt, q, n) && QueryCanBecome(fmt, n, n') ensures n' == n {
        OnlyOutcomeOfQuery(fmt, q, n);
        OnlyOutcomeOfQuery(fmt, form, n');
      }
    }
  }

  /** With any sort that meets its specification, normalizing an orderly query twice gives what doing it once gives exactly when it is shallow. */
  lemma NormalizeIsIdempotentExactly(fmt: NumberFormat, sorter: Sorter, q: Ast)
    requires SortsAsSpecified(fmt, sorter) && Orderly(fmt, q)
    ensures NormalizeQuery(sorter, NormalizeQuery(sorter, q)) == NormalizeQuery(sorter, q) <==> ShallowQuery(q)
  {
    if ShallowQuery(q) {
      var form := NormalizeQuery(ByComparison(fmt), q);
      AtRest(fmt, q);
      QueryIsReached(fmt, sorter, q);
      OnlyOutcomeOfQuery(fmt, q, NormalizeQuery(sorter, q));
      QueryIsReached(fmt, sorter, form);
      OnlyOutcomeOfQuery(fmt, form, NormalizeQuery(sorter, form));
    } else {
      DeepQueryShrinks(sorter, q);
    }
  }

  // ---- Without subqueries every query is orderly ------------------------------

  ghost function AllLiterals(): iset<LiteralValue> {
    iset l: LiteralValue | l.LString? || l.LNumber? || l.LBool? || l.LNull? || l.LArray?
  }

  /** No `where` of the query or of its related queries holds a subquery or a static reference. */
  ghost predicate WithoutSubqueries(q: Ast)
    decreases q, 0
  {
    && (q.where_.Some? ==> Plain(q.where_.value, AllLiterals()))
    && (q.related.Related? ==> forall hop | hop in q.related.hops :: HopWithoutSubqueries(hop))
  }

  ghost predicate HopWithoutSubqueries(hop: CorrelatedSubquery)
    decreases hop, 0
  {
    WithoutSubqueries(hop.subquery)
  }

  lemma {:induction false} PlainIsBound(c: Condition)
    requires Plain(c, AllLiterals())
    ensures BoundCondition(c)
  {
    if c.And? || c.Or? {
      forall c' | c' in c.conditions ensures BoundCondition(c') {
        PlainIsBound(c');
      }
    }
  }

  lemma {:induction false} PlainIsOrderly(fmt: NumberFormat, c: Condition)
    requires Plain(c, AllLiterals())
    ensures OrderlyCondition(fmt, c)
  {
    if c.And? || c.Or? {
      forall c' | c' in c.conditions ensures OrderlyCondition(fmt, c') && BoundCondition(c') {
        PlainIsOrderly(fmt, c');
        PlainIsBound(c');
      }
      forall a, b | a in c.conditions && b in c.conditions ensures CmpCondition(fmt, a, b).Some? && !Clash(fmt, a, b) {
        BoundComparisonDoesNotPanic(fmt, a, b);
        PlainNeverClash(fmt, AllLiterals(), a, b);
      }
    }
  }

  lemma {:induction false} PlainQueryIsOrderly(fmt: NumberFormat, q: Ast)
    requires WithoutSubqueries(q)
    ensures Orderly(fmt, q)
    decreases q, 0
  {
    var n := NormalizeQuery(ByComparison(fmt), q);
    if q.where_.Some? && Flatten(q.where_.value).Some? {
      var flat := Flatten(q.where_.value).value;
      FlattenKeepsPlain(q.where_.value, AllLiterals());
      NormalizedIsPlain(fmt, flat, AllLiterals());
      PlainIsOrderly(fmt, NormalizeWhere(ByComparison(fmt), flat));
    }
    if q.related.Related? {
      var ns := NormalizeHops(ByComparison(fmt), q.related.hops);
      SortRelatedPermutes(ns);
      SortedMembers(n.related.hops, ns);
      NormalizedHopsCome(ByComparison(fmt), q.related.hops);
      forall x | x in n.related.hops ensures OrderlyHop(fmt, x) {
        var hop :| hop in q.related.hops && x == NormalizeHop(ByComparison(fmt), hop);
        PlainQueryIsOrderly(fmt, hop.subquery);
      }
    }
  }

  // ---- Two ways to fail ------------------------------------------------------

  function Filtered(table: string, c: Condition): Ast {
    TableQuery(table).(where_ := Some(c))
  }

  /** Three levels of one type: with any sort, normalizing again gives another form. */
  lemma DeepQueryIsNotFinal(sorter: Sorter, table: string, op: SimpleOperator, left: ValuePosition, right: ValuePosition)
    requires Permutes(sorter)
    ensures var x := Simple(op, left, right);
            var q := Filtered(table, And([And([And([x, x])]), x]));
            !ShallowQuery(q) && NormalizeQuery(sorter, NormalizeQuery(sorter, q)) != NormalizeQuery(sorter, q)
  {
    var x := Simple(op, left, right);
    var c := And([And([And([x, x])]), x]);
    SecondFlattenIsNeeded(op, left, right);
    assert |And([And([x, x]), x]).conditions| != |And([x, x, x]).conditions|;
    FlattenIsIdempotentExactly(c);
    DeepQueryShrinks(sorter, Filtered(table, c));
  }

  /** A pair of parts that stay as they are but clash: with the library's test, they change places on every pass. */
  lemma ClashingPairNeverSettles(fmt: NumberFormat, table: string, isAnd: bool, a: Condition, b: Condition)
    requires Clash(fmt, a, b) && Flat(a) && Flat(b) && !IsJunction(isAnd, a) && !IsJunction(isAnd, b)
    requires NormalizeWhere(ByTest(fmt), a) == a && NormalizeWhere(ByTest(fmt), b) == b
    ensures var q, q' := Filtered(table, Junction(isAnd, [a, b])), Filtered(table, Junction(isAnd, [b, a]));
            q != q' && NormalizeQuery(ByTest(fmt), q) == q' && NormalizeQuery(ByTest(fmt), q') == q
  {
    ClashingPairIsExchanged(fmt, a, b);
    NoClashWithItself(fmt, a);
    assert [a, b][0] != [b, a][0];
    PairNormalizes(fmt, table, isAnd, a, b);
    PairNormalizes(fmt, table, isAnd, b, a);
  }

  lemma PairNormalizes(fmt: NumberFormat, table: string, isAnd: bool, a: Condition, b: Condition)
    requires Flat(a) && Flat(b) && !IsJunction(isAnd, a) && !IsJunction(isAnd, b)
    requires NormalizeWhere(ByTest(fmt), a) == a && NormalizeWhere(ByTest(fmt), b) == b
    ensures NormalizeQuery(ByTest(fmt), Filtered(table, Junction(isAnd, [a, b]))) == Filtered(table, Junction(isAnd, SortByTest(fmt, [a, b])))
  {
    var c := Junction(isAnd, [a, b]);
    FlatIsFixed(c);
    AllFixed(ByTest(fmt), [a, b]);
    assert NormalizeWhere(ByTest(fmt), c) == Junction(isAnd, ByTest(fmt).conditions(NormalizeAll(ByTest(fmt), [a, b])));
    assert NormalizeQuery(ByTest(fmt), Filtered(table, c)).where_ == Some(NormalizeWhere(ByTest(fmt), c));
  }

  lemma TableSubqueryStays(fmt: NumberFormat, s: Condition, other: string)
    requires s.Subquery? && s.related.subquery == TableQuery(other)
    ensures NormalizeWhere(ByTest(fmt), s) == s && ShallowBelow(s)
  {
    assert NormalizeQuery(ByTest(fmt), TableQuery(other)) == TableQuery(other);
    assert ShallowHop(s.related);
  }

  lemma TwiceTheSameStays(fmt: NumberFormat, x: Condition)
    requires x.Simple?
    ensures var j := Or([x, x]); Flat(j) && NormalizeWhere(ByTest(fmt), j) == j && ShallowBelow(j)
  {
    SortOfPair(fmt, x, x);
    AllFixed(ByTest(fmt), [x, x]);
  }

  lemma FlatPairIsShallow(table: string, a: Condition, b: Condition)
    requires Flat(And([a, b])) && ShallowBelow(a) && ShallowBelow(b)
    ensures ShallowQuery(Filtered(table, And([a, b])))
  {
    var c := And([a, b]);
    FlatIsFixed(c);
    ShallowFlattens(c);
    assert forall c' | c' in c.conditions :: c' == a || c' == b;
  }

  /** An EXISTS beside an Or: the query is shallow, and its two children change places every time it is normalized. */
  lemma ExistsBesideOrNeverSettles(fmt: NumberFormat, table: string, s: Condition, other: string, x: Condition)
    requires s.Subquery? && s.related.subquery == TableQuery(other) && x.Simple?
    ensures var j := Or([x, x]);
            var q, q' := Filtered(table, And([s, j])), Filtered(table, And([j, s]));
            ShallowQuery(q) && q != q' && NormalizeQuery(ByTest(fmt), q) == q' && NormalizeQuery(ByTest(fmt), q') == q
  {
    var j := Or([x, x]);
    TableSubqueryStays(fmt, s, other);
    TwiceTheSameStays(fmt, x);
    ClashingPairNeverSettles(fmt, table, true, s, j);
    FlatPairIsShallow(table, s, j);
  }
}
