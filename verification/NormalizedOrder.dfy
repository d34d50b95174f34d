/**
 What the normal form forgets: the order in which the children of junctions were
 written. Two queries that differ only there hash alike.
 */
module NormalizedOrder {
  import opened Base
  import opened QueryAst
  import opened Comparing
  import opened ConditionOrder
  import opened Normalizing
  import opened AuthBinding
  import ReadAuthorizer

  /** A condition with the order of all children, at every depth, forgotten. */
  datatype Unordered =
    | Atom(condition: Condition)
    | AllOf(members: multiset<Unordered>)
    | AnyOf(members: multiset<Unordered>)

  function Unorder(c: Condition): Unordered
    decreases c, 1
  {
    match c
    case And(cs) => AllOf(UnorderAll(cs))
    case Or(cs) => AnyOf(UnorderAll(cs))
    case _ => Atom(c)
  }

  function UnorderAll(cs: seq<Condition>): multiset<Unordered>
    decreases cs, 0
  {
    if cs == [] then multiset{} else multiset{Unorder(cs[0])} + UnorderAll(cs[1..])
  }

  lemma {:induction false} UnorderOfConcat(a: seq<Condition>, b: seq<Condition>)
    ensures UnorderAll(a + b) == UnorderAll(a) + UnorderAll(b)
  {
    if a == [] {
      assert a + b == b;
    } else {
      assert (a + b)[0] == a[0] && (a + b)[1..] == a[1..] + b;
      UnorderOfConcat(a[1..], b);
    }
  }

  lemma {:induction false} FindUnordered(u: Unordered, cs: seq<Condition>) returns (j: nat)
    requires u in UnorderAll(cs)
    ensures j < |cs| && Unorder(cs[j]) == u
  {
    if Unorder(cs[0]) == u {
      j := 0;
    } else {
      j := FindUnordered(u, cs[1..]);
      j := j + 1;
    }
  }

  lemma UnorderWithout(b: seq<Condition>, j: nat)
    requires j < |b|
    ensures UnorderAll(b) == multiset{Unorder(b[j])} + UnorderAll(b[..j] + b[j + 1..])
  {
    assert b == b[..j] + b[j..] && b[j..][0] == b[j] && b[j..][1..] == b[j + 1..];
    UnorderOfConcat(b[..j], b[j..]);
    UnorderOfConcat(b[..j], b[j + 1..]);
  }

  /** Takes out of `b` a child equal, order aside, to the first of `a`. */
  lemma TakeUnordered(a: seq<Condition>, b: seq<Condition>) returns (j: nat)
    requires a != [] && UnorderAll(a) == UnorderAll(b)
    ensures j < |b| && Unorder(b[j]) == Unorder(a[0])
    ensures UnorderAll(b[..j] + b[j + 1..]) == UnorderAll(a[1..])
  {
    j := FindUnordered(Unorder(a[0]), b);
    UnorderWithout(b, j);
    var u, rest := multiset{Unorder(a[0])}, UnorderAll(b[..j] + b[j + 1..]);
    assert u + rest == u + UnorderAll(a[1..]);
    assert rest == (u + rest) - u;
  }

  // ---- Plain conditions stay plain -------------------------------------------

  lemma {:induction false} FlattenKeepsPlain(c: Condition, literals: iset<LiteralValue>)
    requires Plain(c, literals)
    ensures Flatten(c).Some? ==> Plain(Flatten(c).value, literals)
    decreases c, 2
  {
    if c.And? || c.Or? {
      FlatPartsKeepPlain(Some(c.And?), c.conditions, literals);
    }
  }

  lemma {:induction false} FlatPartsKeepPlain(merge: Option<bool>, cs: seq<Condition>, literals: iset<LiteralValue>)
    requires AllPlain(cs, literals)
    ensures AllPlain(FlatParts(merge, cs), literals)
    decreases cs, 1
  {
    if cs != [] {
      FlatPartKeepsPlain(merge, cs[0], literals);
      FlatPartsKeepPlain(merge, cs[1..], literals);
      assert forall c :: c in FlatParts(merge, cs) <==> c in FlatPart(merge, cs[0]) || c in FlatParts(merge, cs[1..]);
    }
  }

  lemma {:induction false} FlatPartKeepsPlain(merge: Option<bool>, c: Condition, literals: iset<LiteralValue>)
    requires Plain(c, literals)
    ensures AllPlain(FlatPart(merge, c), literals)
    decreases c, 3
  {
    if Merged(merge, c) {
      FlatPartsKeepPlain(None, c.conditions, literals);
    } else {
      FlattenKeepsPlain(c, literals);
    }
  }

  lemma {:induction false} NormalizedIsPlain(fmt: NumberFormat, c: Condition, literals: iset<LiteralValue>)
    requires Plain(c, literals)
    ensures Plain(NormalizeWhere(ByComparison(fmt), c), literals)
    decreases Size(c), 1, 0
  {
    if c.And? || c.Or? {
      NormalizedAllPlain(fmt, c.conditions, literals);
      var ns := NormalizeAll(ByComparison(fmt), c.conditions);
      SortPermutes(fmt, ns);
      assert forall c' :: c' in SortConditions(fmt, ns) ==> c' in multiset(SortConditions(fmt, ns));
    }
  }

  lemma {:induction false} NormalizedAllPlain(fmt: NumberFormat, cs: seq<Condition>, literals: iset<LiteralValue>)
    requires AllPlain(cs, literals)
    ensures AllPlain(NormalizeAll(ByComparison(fmt), cs), literals)
    decreases SizeAll(cs), 2, |cs|
  {
    if cs != [] {
      NormalizedIsPlain(fmt, cs[0], literals);
      NormalizedAllPlain(fmt, cs[1..], literals);
    }
  }

  // ---- Equal up to order means equal normal forms ----------------------------

  /** The normal form of a `where`. */
  function NormalForm(fmt: NumberFormat, c: Condition): Option<Condition> {
    NormalizeOptional(ByComparison(fmt), Flatten(c))
  }

  /** The normalized children a junction is rebuilt from, before they are sorted. */
  function NormalParts(fmt: NumberFormat, merge: Option<bool>, cs: seq<Condition>): seq<Condition> {
    NormalizeAll(ByComparison(fmt), FlatParts(merge, cs))
  }

  lemma {:induction false} NormalizeConcat(sorter: Sorter, a: seq<Condition>, b: seq<Condition>)
    ensures NormalizeAll(sorter, a + b) == NormalizeAll(sorter, a) + NormalizeAll(sorter, b)
  {
    if a == [] {
      assert a + b == b;
    } else {
      assert (a + b)[0] == a[0] && (a + b)[1..] == a[1..] + b;
      calc {
        NormalizeAll(sorter, a + b);
        [NormalizeWhere(sorter, a[0])] + NormalizeAll(sorter, a[1..] + b);
        { NormalizeConcat(sorter, a[1..], b); }
        [NormalizeWhere(sorter, a[0])] + NormalizeAll(sorter, a[1..]) + NormalizeAll(sorter, b);
      }
    }
  }

  lemma NormalPartsOfConcat(fmt: NumberFormat, merge: Option<bool>, a: seq<Condition>, b: seq<Condition>)
    ensures NormalParts(fmt, merge, a + b) == NormalParts(fmt, merge, a) + NormalParts(fmt, merge, b)
  {
    FlatPartsOfConcat(merge, a, b);
    NormalizeConcat(ByComparison(fmt), FlatParts(merge, a), FlatParts(merge, b));
  }

  /** Rebuilds a junction from its normalized children. */
  function Rebuild(fmt: NumberFormat, isAnd: bool, ns: seq<Condition>): Option<Condition> {
    match |ns|
    case 0 => None
    case 1 => Some(ns[0])
    case _ => Some(Junction(isAnd, SortConditions(fmt, ns)))
  }

  lemma FormOfJunction(fmt: NumberFormat, isAnd: bool, cs: seq<Condition>)
    ensures NormalForm(fmt, Junction(isAnd, cs)) == Rebuild(fmt, isAnd, NormalParts(fmt, Some(isAnd), cs))
  {
    var parts := FlatParts(Some(isAnd), cs);
    assert Flatten(Junction(isAnd, cs)) == Collapse(isAnd, parts);
    NormalizeAllAt(ByComparison(fmt), parts);
    if |parts| > 1 {
      assert NormalizeWhere(ByComparison(fmt), Junction(isAnd, parts))
          == Junction(isAnd, ByComparison(fmt).conditions(NormalizeAll(ByComparison(fmt), parts)));
    }
  }

  lemma RebuildForgetsOrder(fmt: NumberFormat, literals: iset<LiteralValue>, isAnd: bool, a: seq<Condition>, b: seq<Condition>)
    requires Distinguishes(fmt, literals) && AllPlain(a, literals) && AllPlain(b, literals)
    requires multiset(a) == multiset(b)
    ensures Rebuild(fmt, isAnd, a) == Rebuild(fmt, isAnd, b)
  {
    assert |a| == |multiset(a)| == |multiset(b)| == |b|;
    if |a| == 1 {
      assert a[0] in multiset(b);
    } else if |a| > 1 {
      SortForgetsOrder(fmt, literals, a, b);
    }
  }

  /** A junction's normal form depends only on which normalized children it has. */
  lemma FormFromParts(fmt: NumberFormat, literals: iset<LiteralValue>, isAnd: bool, a: seq<Condition>, b: seq<Condition>)
    requires Distinguishes(fmt, literals) && AllPlain(a, literals) && AllPlain(b, literals)
    requires multiset(NormalParts(fmt, Some(isAnd), a)) == multiset(NormalParts(fmt, Some(isAnd), b))
    ensures NormalForm(fmt, Junction(isAnd, a)) == NormalForm(fmt, Junction(isAnd, b))
  {
    FormOfJunction(fmt, isAnd, a);
    FormOfJunction(fmt, isAnd, b);
    FlatPartsKeepPlain(Some(isAnd), a, literals);
    FlatPartsKeepPlain(Some(isAnd), b, literals);
    NormalizedAllPlain(fmt, FlatParts(Some(isAnd), a), literals);
    NormalizedAllPlain(fmt, FlatParts(Some(isAnd), b), literals);
    RebuildForgetsOrder(fmt, literals, isAnd, NormalParts(fmt, Some(isAnd), a), NormalParts(fmt, Some(isAnd), b));
  }

  /** The normalized contribution of one child. */
  function NormalPart(fmt: NumberFormat, merge: Option<bool>, c: Condition): seq<Condition> {
    NormalizeAll(ByComparison(fmt), FlatPart(merge, c))
  }

  lemma PartOf(fmt: NumberFormat, merge: Option<bool>, c: Condition)
    ensures NormalPart(fmt, merge, c)
         == if Merged(merge, c) then NormalParts(fmt, None, c.conditions) else OptionSeq(NormalForm(fmt, c))
  {
    if !Merged(merge, c) {
      NormalizeSingle(fmt, Flatten(c));
    }
  }

  lemma {:induction false} SamePart(fmt: NumberFormat, literals: iset<LiteralValue>, merge: Option<bool>, a: Condition, b: Condition)
    requires Distinguishes(fmt, literals) && Plain(a, literals) && Plain(b, literals)
    requires Unorder(a) == Unorder(b)
    ensures multiset(NormalPart(fmt, merge, a)) == multiset(NormalPart(fmt, merge, b))
    decreases a, 3
  {
    PartOf(fmt, merge, a);
    PartOf(fmt, merge, b);
    if Merged(merge, a) {
      SameParts(fmt, literals, None, a.conditions, b.conditions);
    } else {
      OrderIsForgotten(fmt, literals, a, b);
    }
  }

  lemma NormalizeSingle(fmt: NumberFormat, c: Option<Condition>)
    ensures NormalizeAll(ByComparison(fmt), OptionSeq(c)) == OptionSeq(NormalizeOptional(ByComparison(fmt), c))
  {
    if c.Some? {
      assert [c.value][1..] == [];
      assert NormalizeAll(ByComparison(fmt), []) == [];
    }
  }

  lemma {:induction false} SameParts(fmt: NumberFormat, literals: iset<LiteralValue>, merge: Option<bool>, a: seq<Condition>, b: seq<Condition>)
    requires Distinguishes(fmt, literals) && AllPlain(a, literals) && AllPlain(b, literals)
    requires UnorderAll(a) == UnorderAll(b)
    ensures multiset(NormalParts(fmt, merge, a)) == multiset(NormalParts(fmt, merge, b))
    decreases a, 1
  {
    if a == [] {
      assert b == [];
    } else {
      var j := TakeUnordered(a, b);
      var rest := b[..j] + b[j + 1..];
      SamePart(fmt, literals, merge, a[0], b[j]);
      SameParts(fmt, literals, merge, a[1..], rest);
      NormalPartsOfFirst(fmt, merge, a);
      NormalPartsWithout(fmt, merge, b, j);
    }
  }

  lemma NormalPartsOfFirst(fmt: NumberFormat, merge: Option<bool>, a: seq<Condition>)
    requires a != []
    ensures NormalParts(fmt, merge, a) == NormalPart(fmt, merge, a[0]) + NormalParts(fmt, merge, a[1..])
  {
    NormalizeConcat(ByComparison(fmt), FlatPart(merge, a[0]), FlatParts(merge, a[1..]));
  }

  lemma NormalPartsWithout(fmt: NumberFormat, merge: Option<bool>, b: seq<Condition>, j: nat)
    requires j < |b|
    ensures multiset(NormalParts(fmt, merge, b))
         == multiset(NormalPart(fmt, merge, b[j])) + multiset(NormalParts(fmt, merge, b[..j] + b[j + 1..]))
  {
    assert b == b[..j] + b[j..] && b[j..][0] == b[j] && b[j..][1..] == b[j + 1..];
    NormalPartsOfConcat(fmt, merge, b[..j], b[j..]);
    NormalPartsOfFirst(fmt, merge, b[j..]);
    NormalPartsOfConcat(fmt, merge, b[..j], b[j + 1..]);
  }

  /** Conditions equal up to the order of children, at any depth, have the same normal form. */
  lemma {:induction false} OrderIsForgotten(fmt: NumberFormat, literals: iset<LiteralValue>, a: Condition, b: Condition)
    requires Distinguishes(fmt, literals) && Plain(a, literals) && Plain(b, literals)
    requires Unorder(a) == Unorder(b)
    ensures NormalForm(fmt, a) == NormalForm(fmt, b)
    decreases a, 2
  {
    if a.And? || a.Or? {
      SameParts(fmt, literals, Some(a.And?), a.conditions, b.conditions);
      FormFromParts(fmt, literals, a.And?, a.conditions, b.conditions);
    }
  }

  /** So the whole normalized query, and with it the query hash, does not depend on that order. */
  lemma HashIgnoresOrder(fmt: NumberFormat, literals: iset<LiteralValue>, q: Ast, a: Condition, b: Condition)
    requires Distinguishes(fmt, literals) && Plain(a, literals) && Plain(b, literals)
    requires Unorder(a) == Unorder(b)
    ensures NormalizeQuery(ByComparison(fmt), q.(where_ := Some(a))) == NormalizeQuery(ByComparison(fmt), q.(where_ := Some(b)))
  {
    OrderIsForgotten(fmt, literals, a, b);
  }

  /** A pair of different comparisons keeps its written order in the normal form exactly when they compare as equal. */
  lemma PairForgetsOrderUnlessTied(fmt: NumberFormat, a: Condition, b: Condition)
    requires a.Simple? && b.Simple? && a != b
    requires CmpCondition(fmt, a, b).Some?
    ensures NormalForm(fmt, And([a, b])) == NormalForm(fmt, And([b, a])) <==> CmpCondition(fmt, a, b) != Some(Equal)
  {
    ComparisonReversesUnlessClash(fmt, a, b);
    PairForm(fmt, a, b);
    PairForm(fmt, b, a);
  }

  lemma PairForm(fmt: NumberFormat, a: Condition, b: Condition)
    requires a.Simple? && b.Simple?
    ensures NormalForm(fmt, And([a, b])) == Some(And(if Leq(fmt, a, b) then [a, b] else [b, a]))
  {
    FormOfJunction(fmt, true, [a, b]);
    assert [a, b][1..] == [b] && [b][1..] == [];
    NormalPartsOfFirst(fmt, Some(true), [a, b]);
    NormalPartsOfFirst(fmt, Some(true), [b]);
    PartOf(fmt, Some(true), a);
    PartOf(fmt, Some(true), b);
    FormOfSimple(fmt, a);
    FormOfSimple(fmt, b);
    assert NormalParts(fmt, Some(true), []) == [];
    assert NormalParts(fmt, Some(true), [a, b]) == [a] + ([b] + []) == [a, b];
    assert SortConditions(fmt, [b]) == Insert(fmt, b, SortConditions(fmt, [])) == [b];
    assert SortConditions(fmt, [a, b]) == Insert(fmt, a, [b]);
    assert Insert(fmt, a, []) == [a];
    assert Insert(fmt, a, [b]) == if Leq(fmt, a, b) then [a, b] else [b, a];
    calc {
      NormalForm(fmt, And([a, b]));
      NormalForm(fmt, Junction(true, [a, b]));
      Rebuild(fmt, true, NormalParts(fmt, Some(true), [a, b]));
      Rebuild(fmt, true, [a, b]);
      Some(And(SortConditions(fmt, [a, b])));
    }
  }

  lemma FormOfSimple(fmt: NumberFormat, c: Condition)
    requires c.Simple?
    ensures NormalForm(fmt, c) == Some(c)
  {
    assert Flatten(c) == Some(c) && NormalizeWhere(ByComparison(fmt), c) == c;
  }

  // ---- Sorting a bound query never panics ------------------------------------

  lemma {:induction false} BoundComparisonDoesNotPanic(fmt: NumberFormat, a: Condition, b: Condition)
    requires BoundCondition(a) && BoundCondition(b)
    ensures CmpCondition(fmt, a, b).Some?
    decreases a, 1
  {
    if (a.And? || a.Or?) && (b.And? || b.Or?) {
      BoundChildrenDoNotPanic(fmt, a.conditions, b.conditions);
    }
  }

  lemma {:induction false} BoundChildrenDoNotPanic(fmt: NumberFormat, a: seq<Condition>, b: seq<Condition>)
    requires forall c | c in a + b :: BoundCondition(c)
    ensures CmpChildren(fmt, a, b).Some?
    decreases a, 0
  {
    if a != [] && b != [] {
      assert a[0] in a + b && b[0] in a + b;
      BoundComparisonDoesNotPanic(fmt, a[0], b[0]);
      assert forall c :: c in a[1..] + b[1..] ==> c in a + b;
      BoundChildrenDoNotPanic(fmt, a[1..], b[1..]);
    }
  }

  /** Every comparison a sort inside the normalization of the query might make is defined. */
  ghost predicate SortsSafely(fmt: NumberFormat, q: Ast)
    decreases SizeQuery(q), 1, 0
  {
    && (q.where_.Some? ==>
          (FlattenShrinks(q.where_.value);
           Flatten(q.where_.value).Some? ==> SortsConditionSafely(fmt, Flatten(q.where_.value).value)))
    && (q.related.Related? ==> SortsHopsSafely(fmt, q.related.hops))
  }

  ghost predicate SortsHopsSafely(fmt: NumberFormat, hops: seq<CorrelatedSubquery>)
    decreases SizeHops(hops), 2, |hops|
  {
    hops != [] ==> SortsHopSafely(fmt, hops[0]) && SortsHopsSafely(fmt, hops[1..])
  }

  ghost predicate SortsHopSafely(fmt: NumberFormat, hop: CorrelatedSubquery)
    decreases SizeHop(hop), 1, 0
  {
    SortsSafely(fmt, hop.subquery)
  }

  ghost predicate SortsConditionSafely(fmt: NumberFormat, c: Condition)
    decreases Size(c), 1, 0
  {
    match c
    case Simple(_, _, _) => true
    case Subquery(related, _, _, _, _) => SortsHopSafely(fmt, related)
    case _ =>
      var ns := NormalizeAll(ByComparison(fmt), c.conditions);
      && (forall a, b | a in ns && b in ns :: CmpCondition(fmt, a, b).Some?)
      && SortsAllSafely(fmt, c.conditions)
  }

  ghost predicate SortsAllSafely(fmt: NumberFormat, cs: seq<Condition>)
    decreases SizeAll(cs), 2, |cs|
  {
    cs != [] ==> SortsConditionSafely(fmt, cs[0]) && SortsAllSafely(fmt, cs[1..])
  }

  lemma {:induction false} FlattenKeepsBound(c: Condition)
    requires BoundCondition(c)
    ensures Flatten(c).Some? ==> BoundCondition(Flatten(c).value)
    decreases c, 2
  {
    if c.And? || c.Or? {
      FlatPartsKeepBound(Some(c.And?), c.conditions);
    }
  }

  lemma {:induction false} FlatPartsKeepBound(merge: Option<bool>, cs: seq<Condition>)
    requires forall c | c in cs :: BoundCondition(c)
    ensures forall c | c in FlatParts(merge, cs) :: BoundCondition(c)
    decreases cs, 1
  {
    if cs != [] {
      FlatPartKeepsBound(merge, cs[0]);
      FlatPartsKeepBound(merge, cs[1..]);
      assert forall c :: c in FlatParts(merge, cs) <==> c in FlatPart(merge, cs[0]) || c in FlatParts(merge, cs[1..]);
    }
  }

  lemma {:induction false} FlatPartKeepsBound(merge: Option<bool>, c: Condition)
    requires BoundCondition(c)
    ensures forall p | p in FlatPart(merge, c) :: BoundCondition(p)
    decreases c, 3
  {
    if Merged(merge, c) {
      FlatPartsKeepBound(None, c.conditions);
    } else {
      FlattenKeepsBound(c);
    }
  }

  lemma {:induction false} BoundConditionSortsSafely(fmt: NumberFormat, c: Condition)
    requires BoundCondition(c)
    ensures BoundCondition(NormalizeWhere(ByComparison(fmt), c)) && SortsConditionSafely(fmt, c)
    decreases Size(c), 1, 0
  {
    match c
    case Simple(_, _, _) =>
    case Subquery(related, _, _, _, _) =>
      BoundHopSortsSafely(fmt, related);
    case _ =>
      var ns := NormalizeAll(ByComparison(fmt), c.conditions);
      BoundAllSortSafely(fmt, c.conditions);
      forall a, b | a in ns && b in ns ensures CmpCondition(fmt, a, b).Some? {
        BoundComparisonDoesNotPanic(fmt, a, b);
      }
      SortPermutes(fmt, ns);
      assert forall c' :: c' in SortConditions(fmt, ns) ==> c' in multiset(SortConditions(fmt, ns));
  }

  lemma {:induction false} BoundAllSortSafely(fmt: NumberFormat, cs: seq<Condition>)
    requires forall c | c in cs :: BoundCondition(c)
    ensures forall c | c in NormalizeAll(ByComparison(fmt), cs) :: BoundCondition(c)
    ensures SortsAllSafely(fmt, cs)
    decreases SizeAll(cs), 2, |cs|
  {
    if cs != [] {
      BoundConditionSortsSafely(fmt, cs[0]);
      BoundAllSortSafely(fmt, cs[1..]);
    }
  }

  lemma {:induction false} BoundHopSortsSafely(fmt: NumberFormat, hop: CorrelatedSubquery)
    requires BoundHop(hop)
    ensures BoundHop(NormalizeHop(ByComparison(fmt), hop)) && SortsHopSafely(fmt, hop)
    decreases SizeHop(hop), 1, 0
  {
    BoundQuerySortsSafely(fmt, hop.subquery);
  }

  lemma {:induction false} BoundHopsSortSafely(fmt: NumberFormat, hops: seq<CorrelatedSubquery>)
    requires forall hop | hop in hops :: BoundHop(hop)
    ensures forall hop | hop in NormalizeHops(ByComparison(fmt), hops) :: BoundHop(hop)
    ensures SortsHopsSafely(fmt, hops)
    decreases SizeHops(hops), 2, |hops|
  {
    if hops != [] {
      BoundHopSortsSafely(fmt, hops[0]);
      BoundHopsSortSafely(fmt, hops[1..]);
    }
  }

  lemma {:induction false} BoundQuerySortsSafely(fmt: NumberFormat, q: Ast)
    requires BoundQuery(q)
    ensures BoundQuery(NormalizeQuery(ByComparison(fmt), q)) && SortsSafely(fmt, q)
    decreases SizeQuery(q), 1, 0
  {
    if q.where_.Some? {
      FlattenKeepsBound(q.where_.value);
      FlattenShrinks(q.where_.value);
      if Flatten(q.where_.value).Some? {
        BoundConditionSortsSafely(fmt, Flatten(q.where_.value).value);
      }
    }
    if q.related.Related? {
      var ns := NormalizeHops(ByComparison(fmt), q.related.hops);
      BoundHopsSortSafely(fmt, q.related.hops);
      SortRelatedPermutes(ns);
      assert forall hop :: hop in SortRelated(ns) ==> hop in multiset(SortRelated(ns));
    }
  }

  /** Hashing the transformed and bound query never meets an unresolved static reference, whatever the query, the permissions and the claims. */
  lemma TransformedQueryHashesSafely(fmt: NumberFormat, q: Ast, perms: ReadAuthorizer.PermissionsConfig, auth: Json)
    ensures SortsSafely(fmt, BindQuery(ReadAuthorizer.TransformQuery(q, perms), auth))
  {
    BindingBindsQuery(ReadAuthorizer.TransformQuery(q, perms), auth);
    BoundQuerySortsSafely(fmt, BindQuery(ReadAuthorizer.TransformQuery(q, perms), auth));
  }
}
