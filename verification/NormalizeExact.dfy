/**
 One pass of flattening merges a single level of nesting: exactly which conditions it
 leaves alone, for which ones a second pass gives another form, and what that means for
 normalizing a query twice with a sort that leaves what it has sorted.
 */
module NormalizeExact {
  import opened Base
  import opened QueryAst
  import opened Comparing
  import opened ConditionOrder
  import opened Normalizing
  import opened NormalizedMeaning

  // ---- What flattening leaves alone ------------------------------------------

  /** Every junction has at least two children. */
  predicate Solid(c: Condition) {
    (c.And? || c.Or?) ==> |c.conditions| >= 2 && forall c' | c' in c.conditions :: Solid(c')
  }

  /** And none of its own type. */
  predicate Flat(c: Condition) {
    (c.And? || c.Or?) ==> |c.conditions| >= 2 && forall c' | c' in c.conditions :: !IsJunction(c.And?, c') && Flat(c')
  }

  lemma {:induction false} FlattenIsSolid(c: Condition)
    ensures Flatten(c).Some? ==> Solid(Flatten(c).value)
    decreases c, 2
  {
    if c.And? || c.Or? {
      PartsAreSolid(Some(c.And?), c.conditions);
    }
  }

  lemma {:induction false} PartsAreSolid(merge: Option<bool>, cs: seq<Condition>)
    ensures forall p | p in FlatParts(merge, cs) :: Solid(p)
    decreases cs, 1
  {
    if cs != [] {
      PartIsSolid(merge, cs[0]);
      PartsAreSolid(merge, cs[1..]);
    }
  }

  lemma {:induction false} PartIsSolid(merge: Option<bool>, c: Condition)
    ensures forall p | p in FlatPart(merge, c) :: Solid(p)
    decreases c, 3
  {
    if Merged(merge, c) {
      PartsAreSolid(None, c.conditions);
    } else {
      FlattenIsSolid(c);
    }
  }

  lemma {:induction false} FlatIsFixed(c: Condition)
    requires Flat(c)
    ensures Flatten(c) == Some(c)
    decreases c, 2
  {
    if c.And? || c.Or? {
      FlatPartsAreFixed(c.And?, c.conditions);
    }
  }

  lemma {:induction false} FlatPartsAreFixed(isAnd: bool, cs: seq<Condition>)
    requires forall c | c in cs :: !IsJunction(isAnd, c) && Flat(c)
    ensures FlatParts(Some(isAnd), cs) == cs
    decreases cs, 1
  {
    if cs != [] {
      assert cs[0] in cs;
      FlatIsFixed(cs[0]);
      FlatPartsAreFixed(isAnd, cs[1..]);
    }
  }

  /** Flattening shrinks a solid condition that is not flat. */
  lemma {:induction false} SolidShrinks(c: Condition)
    requires Solid(c)
    ensures Flatten(c).Some? && Size(Flatten(c).value) <= Size(c)
    ensures !Flat(c) ==> Size(Flatten(c).value) < Size(c)
    decreases c, 2
  {
    if c.And? || c.Or? {
      SolidPartsShrink(Some(c.And?), c.conditions);
      assert !Flat(c) ==> exists c' | c' in c.conditions :: Merged(Some(c.And?), c') || !Flat(c');
    }
  }

  lemma {:induction false} SolidPartsShrink(merge: Option<bool>, cs: seq<Condition>)
    requires forall c | c in cs :: Solid(c)
    ensures |FlatParts(merge, cs)| >= |cs| && SizeAll(FlatParts(merge, cs)) <= SizeAll(cs)
    ensures (exists c | c in cs :: Merged(merge, c) || !Flat(c)) ==> SizeAll(FlatParts(merge, cs)) < SizeAll(cs)
    decreases cs, 1
  {
    if cs != [] {
      assert cs[0] in cs;
      SolidPartShrinks(merge, cs[0]);
      SolidPartsShrink(merge, cs[1..]);
      SizeOfConcat(FlatPart(merge, cs[0]), FlatParts(merge, cs[1..]));
      assert forall c :: c in cs <==> c == cs[0] || c in cs[1..];
    }
  }

  lemma {:induction false} SolidPartShrinks(merge: Option<bool>, c: Condition)
    requires Solid(c)
    ensures FlatPart(merge, c) != [] && SizeAll(FlatPart(merge, c)) <= Size(c)
    ensures Merged(merge, c) || !Flat(c) ==> SizeAll(FlatPart(merge, c)) < Size(c)
    decreases c, 3
  {
    if Merged(merge, c) {
      SolidPartsShrink(None, c.conditions);
    } else {
      SolidShrinks(c);
      assert SizeAll([Flatten(c).value]) == Size(Flatten(c).value) + SizeAll([]);
    }
  }

  // ---- When one pass of flattening is enough ---------------------------------

  /** The conditions that flattening turns into the parts of a junction. */
  function Inner(merge: Option<bool>, cs: seq<Condition>): (inner: seq<Condition>)
    ensures SizeAll(inner) <= SizeAll(cs)
    decreases cs
  {
    if cs == [] then []
    else
      var first := if Merged(merge, cs[0]) then Inner(None, cs[0].conditions) else if Vacuous(cs[0]) then [] else [cs[0]];
      assert SizeAll([cs[0]]) == Size(cs[0]) + SizeAll([]);
      SizeOfConcat(first, Inner(merge, cs[1..]));
      first + Inner(merge, cs[1..])
  }

  /** The condition whose type is left on top. */
  function Top(c: Condition): Condition
    decreases Size(c)
  {
    if !c.And? && !c.Or? then c
    else
      var inner := Inner(Some(c.And?), c.conditions);
      MembersAreSmaller(inner);
      if |inner| == 1 then Top(inner[0]) else c
  }

  /** Wherever several parts remain, none of them has the junction's own type on top. */
  predicate Shallow(c: Condition)
    decreases Size(c)
  {
    (c.And? || c.Or?) ==>
      var inner := Inner(Some(c.And?), c.conditions);
      MembersAreSmaller(inner);
      forall p | p in inner :: Shallow(p) && (|inner| != 1 ==> !IsJunction(c.And?, Top(p)))
  }

  lemma DroppedExactly(c: Condition)
    ensures Flatten(c).None? <==> Vacuous(c)
  {
    FlattenReadsNeutrally(x => true, c);
  }

  /** Each inner condition becomes one part. */
  lemma {:induction false} InnerParts(merge: Option<bool>, cs: seq<Condition>)
    ensures var parts, inner := FlatParts(merge, cs), Inner(merge, cs);
            |parts| == |inner| && forall i | 0 <= i < |inner| :: Flatten(inner[i]) == Some(parts[i])
    decreases cs
  {
    if cs != [] {
      InnerParts(merge, cs[1..]);
      if Merged(merge, cs[0]) {
        InnerParts(None, cs[0].conditions);
      } else {
        DroppedExactly(cs[0]);
      }
    }
  }

  lemma FlattenByInner(c: Condition) returns (inner: seq<Condition>, parts: seq<Condition>)
    requires c.And? || c.Or?
    ensures inner == Inner(Some(c.And?), c.conditions) && SizeAll(inner) < Size(c) && forall p | p in inner :: Size(p) < Size(c)
    ensures |parts| == |inner| && Flatten(c) == Collapse(c.And?, parts)
    ensures forall i | 0 <= i < |inner| :: Flatten(inner[i]) == Some(parts[i])
  {
    inner, parts := Inner(Some(c.And?), c.conditions), FlatParts(Some(c.And?), c.conditions);
    InnerParts(Some(c.And?), c.conditions);
    MembersAreSmaller(inner);
  }

  lemma {:induction false} TopIsOnTop(c: Condition)
    requires Flatten(c).Some?
    ensures var t, flat := Top(c), Flatten(c).value; t.And? == flat.And? && t.Or? == flat.Or?
    decreases Size(c)
  {
    if c.And? || c.Or? {
      var inner, parts := FlattenByInner(c);
      if |inner| == 1 {
        TopIsOnTop(inner[0]);
      }
    }
  }

  lemma {:induction false} ShallowFlattens(c: Condition)
    requires Flatten(c).Some?
    ensures Flat(Flatten(c).value) <==> Shallow(c)
    decreases Size(c)
  {
    if c.And? || c.Or? {
      var inner, parts := FlattenByInner(c);
      forall i | 0 <= i < |inner|
        ensures Flat(parts[i]) <==> Shallow(inner[i])
        ensures IsJunction(c.And?, parts[i]) <==> IsJunction(c.And?, Top(inner[i]))
      {
        ShallowFlattens(inner[i]);
        TopIsOnTop(inner[i]);
      }
      ShallowByIndex(c, inner, parts);
    }
  }

  lemma ShallowByIndex(c: Condition, inner: seq<Condition>, parts: seq<Condition>)
    requires (c.And? || c.Or?) && inner == Inner(Some(c.And?), c.conditions) && |parts| == |inner| > 0 && Flatten(c) == Collapse(c.And?, parts)
    requires forall i | 0 <= i < |inner| :: Flat(parts[i]) <==> Shallow(inner[i])
    requires forall i | 0 <= i < |inner| :: IsJunction(c.And?, parts[i]) <==> IsJunction(c.And?, Top(inner[i]))
    ensures Flat(Flatten(c).value) <==> Shallow(c)
  {
    var flat := Flatten(c).value;
    forall i | 0 <= i < |inner| ensures parts[i] in parts && inner[i] in inner {
    }
    if |inner| != 1 {
      assert flat == Junction(c.And?, parts);
      if Flat(flat) {
        forall p | p in inner ensures Shallow(p) && !IsJunction(c.And?, Top(p)) {
          var i :| 0 <= i < |inner| && inner[i] == p;
        }
      }
      if Shallow(c) {
        forall p | p in parts ensures Flat(p) && !IsJunction(c.And?, p) {
          var i :| 0 <= i < |parts| && parts[i] == p;
        }
      }
    }
  }

  /** Flattening twice gives what flattening once gives exactly when the condition is shallow. */
  lemma FlattenIsIdempotentExactly(c: Condition)
    requires Flatten(c).Some?
    ensures Flatten(Flatten(c).value) == Flatten(c) <==> Shallow(c)
  {
    var flat := Flatten(c).value;
    FlattenIsSolid(c);
    ShallowFlattens(c);
    if Flat(flat) {
      FlatIsFixed(flat);
    } else {
      SolidShrinks(flat);
    }
  }

  lemma FlatPair(merge: Option<bool>, a: Condition, b: Condition)
    ensures FlatParts(merge, [a, b]) == FlatPart(merge, a) + FlatPart(merge, b) && FlatParts(merge, [a]) == FlatPart(merge, a)
  {
    assert [a, b][1..] == [b] && [b][1..] == [] && [a][1..] == [];
    assert FlatParts(merge, [b]) == FlatPart(merge, b) + [];
  }

  /** Three levels of one type take two passes. */
  lemma SecondFlattenIsNeeded(op: SimpleOperator, left: ValuePosition, right: ValuePosition)
    ensures var x := Simple(op, left, right);
            var c := And([And([And([x, x])]), x]);
            Flatten(c) == Some(And([And([x, x]), x])) && Flatten(And([And([x, x]), x])) == Some(And([x, x, x]))
  {
    var x := Simple(op, left, right);
    var xx := And([x, x]);
    FlatPair(None, x, x);
    FlatPair(Some(true), x, x);
    assert FlatParts(Some(true), [x, x]) == [x, x];
    assert Flatten(xx) == Collapse(true, [x, x]);
    FlatPair(None, xx, x);
    FlatPair(Some(true), xx, x);
    assert FlatParts(Some(true), [xx, x]) == [x, x, x];
    assert Flatten(And([xx, x])) == Collapse(true, [x, x, x]);
    FlatPair(Some(true), And([xx]), x);
    assert FlatParts(Some(true), [And([xx]), x]) == [xx, x];
    assert Flatten(And([And([xx]), x])) == Collapse(true, [xx, x]);
  }

  // ---- Sorting twice ---------------------------------------------------------

  /** Neighbours are in order. */
  ghost predicate InOrder(fmt: NumberFormat, cs: seq<Condition>) {
    forall i | 0 <= i < |cs| - 1 :: Leq(fmt, cs[i], cs[i + 1])
  }

  lemma {:induction false} InOrderIsFixed(fmt: NumberFormat, cs: seq<Condition>)
    requires InOrder(fmt, cs)
    ensures SortConditions(fmt, cs) == cs
  {
    if cs != [] {
      InOrderIsFixed(fmt, cs[1..]);
      if |cs| > 1 {
        assert Leq(fmt, cs[0], cs[0 + 1]);
      }
    }
  }

  lemma NotAboveIsBelow(fmt: NumberFormat, a: Condition, b: Condition)
    requires !Leq(fmt, a, b)
    ensures Leq(fmt, b, a)
  {
    ComparisonReversesUnlessClash(fmt, a, b);
  }

  lemma {:induction false} InsertKeepsOrder(fmt: NumberFormat, c: Condition, cs: seq<Condition>)
    requires InOrder(fmt, cs)
    ensures InOrder(fmt, Insert(fmt, c, cs))
    ensures Insert(fmt, c, cs)[0] == c || (cs != [] && Insert(fmt, c, cs)[0] == cs[0])
  {
    if cs != [] && !Leq(fmt, c, cs[0]) {
      NotAboveIsBelow(fmt, c, cs[0]);
      InsertKeepsOrder(fmt, c, cs[1..]);
      if |cs| > 1 {
        assert Leq(fmt, cs[0], cs[0 + 1]);
      }
    }
  }

  lemma {:induction false} SortPutsInOrder(fmt: NumberFormat, cs: seq<Condition>)
    ensures InOrder(fmt, SortConditions(fmt, cs))
  {
    if cs != [] {
      SortPutsInOrder(fmt, cs[1..]);
      InsertKeepsOrder(fmt, cs[0], SortConditions(fmt, cs[1..]));
    }
  }

  ghost predicate RelatedInOrder(hops: seq<CorrelatedSubquery>) {
    forall i | 0 <= i < |hops| - 1 :: CmpRelated(hops[i], hops[i + 1]) != Greater
  }

  lemma {:induction false} RelatedInOrderIsFixed(hops: seq<CorrelatedSubquery>)
    requires RelatedInOrder(hops)
    ensures SortRelated(hops) == hops
  {
    if hops != [] {
      RelatedInOrderIsFixed(hops[1..]);
      if |hops| > 1 {
        assert CmpRelated(hops[0], hops[0 + 1]) != Greater;
      }
    }
  }

  lemma {:induction false} InsertKeepsRelatedOrder(hop: CorrelatedSubquery, hops: seq<CorrelatedSubquery>)
    requires RelatedInOrder(hops)
    ensures RelatedInOrder(InsertRelated(hop, hops))
    ensures InsertRelated(hop, hops)[0] == hop || (hops != [] && InsertRelated(hop, hops)[0] == hops[0])
  {
    if hops != [] && CmpRelated(hop, hops[0]) == Greater {
      CmpStringReverses(AliasOf(hop), AliasOf(hops[0]));
      InsertKeepsRelatedOrder(hop, hops[1..]);
      if |hops| > 1 {
        assert CmpRelated(hops[0], hops[0 + 1]) != Greater;
      }
    }
  }

  lemma {:induction false} SortPutsRelatedInOrder(hops: seq<CorrelatedSubquery>)
    ensures RelatedInOrder(SortRelated(hops))
  {
    if hops != [] {
      SortPutsRelatedInOrder(hops[1..]);
      InsertKeepsRelatedOrder(hops[0], SortRelated(hops[1..]));
    }
  }

  /** Sorts that rearrange and leave what they have sorted. */
  ghost predicate Settles(sorter: Sorter) {
    && Permutes(sorter)
    && (forall cs :: sorter.conditions(sorter.conditions(cs)) == sorter.conditions(cs))
    && (forall hops :: sorter.related(sorter.related(hops)) == sorter.related(hops))
  }

  /** The stable sorts do, even where comparisons clash and the source's sort is not bound to be stable. */
  lemma StableSortSettles(fmt: NumberFormat)
    ensures Settles(ByComparison(fmt))
  {
    var sorter := ByComparison(fmt);
    ComparisonSortPermutes(fmt);
    forall cs ensures sorter.conditions(sorter.conditions(cs)) == sorter.conditions(cs) {
      SortPutsInOrder(fmt, cs);
      InOrderIsFixed(fmt, SortConditions(fmt, cs));
    }
    forall hops ensures sorter.related(sorter.related(hops)) == sorter.related(hops) {
      SortPutsRelatedInOrder(hops);
      RelatedInOrderIsFixed(SortRelated(hops));
    }
  }

  // ---- Shallow queries -------------------------------------------------------

  /** Every `where` is shallow: the query's own, and those of its subqueries and related queries. */
  predicate ShallowQuery(q: Ast)
    decreases q, 0
  {
    && (q.where_.Some? ==> Shallow(q.where_.value) && ShallowBelow(q.where_.value))
    && (q.related.Related? ==> forall hop | hop in q.related.hops :: ShallowHop(hop))
  }

  predicate ShallowHop(hop: CorrelatedSubquery)
    decreases hop, 0
  {
    ShallowQuery(hop.subquery)
  }

  predicate ShallowBelow(c: Condition)
    decreases c, 0
  {
    match c
    case Simple(_, _, _) => true
    case And(cs) => forall c' | c' in cs :: ShallowBelow(c')
    case Or(cs) => forall c' | c' in cs :: ShallowBelow(c')
    case Subquery(related, _, _, _, _) => ShallowHop(related)
  }

  lemma {:induction false} PartsKeepShallow(merge: Option<bool>, cs: seq<Condition>)
    ensures (forall p | p in FlatParts(merge, cs) :: ShallowBelow(p)) <==> forall c | c in cs :: ShallowBelow(c)
    decreases cs, 1
  {
    if cs != [] {
      PartKeepsShallow(merge, cs[0]);
      PartsKeepShallow(merge, cs[1..]);
      assert forall p :: p in FlatParts(merge, cs) <==> p in FlatPart(merge, cs[0]) || p in FlatParts(merge, cs[1..]);
      assert cs[0] in cs && forall c :: c in cs <==> c == cs[0] || c in cs[1..];
    }
  }

  lemma {:induction false} PartKeepsShallow(merge: Option<bool>, c: Condition)
    ensures (forall p | p in FlatPart(merge, c) :: ShallowBelow(p)) <==> ShallowBelow(c)
    decreases c, 3
  {
    if Merged(merge, c) {
      PartsKeepShallow(None, c.conditions);
    } else {
      FlattenKeepsShallow(c);
    }
  }

  lemma {:induction false} FlattenKeepsShallow(c: Condition)
    ensures (Flatten(c).Some? ==> ShallowBelow(Flatten(c).value)) <==> ShallowBelow(c)
    decreases c, 2
  {
    if c.And? || c.Or? {
      PartsKeepShallow(Some(c.And?), c.conditions);
    }
  }

  // ---- Normalizing keeps the shape -------------------------------------------

  lemma SortedMembers<T>(sorted: seq<T>, xs: seq<T>)
    requires multiset(sorted) == multiset(xs)
    ensures |sorted| == |xs| && forall x :: x in sorted <==> x in xs
  {
    assert |multiset(sorted)| == |multiset(xs)|;
    assert forall x :: x in sorted <==> x in multiset(sorted);
    assert forall x :: x in xs <==> x in multiset(xs);
  }

  lemma {:induction false} NormalizedShape(sorter: Sorter, c: Condition)
    requires Permutes(sorter)
    ensures var n := NormalizeWhere(sorter, c);
            n.And? == c.And? && n.Or? == c.Or? && (Flat(n) <==> Flat(c)) && (Solid(n) <==> Solid(c))
    decreases c
  {
    if c.And? || c.Or? {
      var cs, ns := c.conditions, NormalizeAll(sorter, c.conditions);
      NormalizeAllAt(sorter, cs);
      SortedMembers(sorter.conditions(ns), ns);
      forall i | 0 <= i < |cs|
        ensures ns[i].And? == cs[i].And? && ns[i].Or? == cs[i].Or? && (Flat(ns[i]) <==> Flat(cs[i])) && (Solid(ns[i]) <==> Solid(cs[i]))
        ensures ns[i] in ns && cs[i] in cs
      {
        NormalizedShape(sorter, cs[i]);
      }
      ShapeByIndex(c.And?, cs, ns);
    }
  }

  lemma ShapeByIndex(isAnd: bool, cs: seq<Condition>, ns: seq<Condition>)
    requires |ns| == |cs|
    requires forall i | 0 <= i < |cs| ::
               ns[i].And? == cs[i].And? && ns[i].Or? == cs[i].Or? && (Flat(ns[i]) <==> Flat(cs[i])) && (Solid(ns[i]) <==> Solid(cs[i]))
    ensures (forall n | n in ns :: !IsJunction(isAnd, n) && Flat(n)) <==> forall c | c in cs :: !IsJunction(isAnd, c) && Flat(c)
    ensures (forall n | n in ns :: Solid(n)) <==> forall c | c in cs :: Solid(c)
  {
    var flat: Condition -> bool := c => !IsJunction(isAnd, c) && Flat(c);
    SameForAll(ns, cs, flat, flat);
    assert (forall n | n in ns :: flat(n)) <==> forall c | c in cs :: flat(c);
    SameForAll(ns, cs, c => Solid(c), c => Solid(c));
  }

  // ---- A shallow query is normalized in one pass -----------------------------

  lemma {:induction false} WhereTwice(sorter: Sorter, c: Condition)
    requires Settles(sorter) && ShallowBelow(c)
    ensures var n := NormalizeWhere(sorter, c); NormalizeWhere(sorter, n) == n
    decreases Size(c), 1, 0
  {
    match c
    case Simple(_, _, _) =>
    case Subquery(related, _, _, _, _) => HopTwice(sorter, related);
    case _ =>
      var ns := NormalizeAll(sorter, c.conditions);
      AllTwice(sorter, c.conditions);
      SortedMembers(sorter.conditions(ns), ns);
      AllFixed(sorter, sorter.conditions(ns));
  }

  lemma {:induction false} AllTwice(sorter: Sorter, cs: seq<Condition>)
    requires Settles(sorter) && forall c | c in cs :: ShallowBelow(c)
    ensures forall n | n in NormalizeAll(sorter, cs) :: NormalizeWhere(sorter, n) == n
    decreases SizeAll(cs), 2, |cs|
  {
    if cs != [] {
      assert cs[0] in cs;
      WhereTwice(sorter, cs[0]);
      AllTwice(sorter, cs[1..]);
    }
  }

  lemma {:induction false} AllFixed(sorter: Sorter, ns: seq<Condition>)
    requires forall n | n in ns :: NormalizeWhere(sorter, n) == n
    ensures NormalizeAll(sorter, ns) == ns
  {
    if ns != [] {
      assert ns[0] in ns;
      AllFixed(sorter, ns[1..]);
    }
  }

  lemma {:induction false} HopTwice(sorter: Sorter, hop: CorrelatedSubquery)
    requires Settles(sorter) && ShallowHop(hop)
    ensures var n := NormalizeHop(sorter, hop); NormalizeHop(sorter, n) == n
    decreases SizeHop(hop), 1, 0
  {
    QueryTwice(sorter, hop.subquery);
  }

  lemma {:induction false} HopsTwice(sorter: Sorter, hops: seq<CorrelatedSubquery>)
    requires Settles(sorter) && forall hop | hop in hops :: ShallowHop(hop)
    ensures forall n | n in NormalizeHops(sorter, hops) :: NormalizeHop(sorter, n) == n
    decreases SizeHops(hops), 2, |hops|
  {
    if hops != [] {
      assert hops[0] in hops;
      HopTwice(sorter, hops[0]);
      HopsTwice(sorter, hops[1..]);
    }
  }

  lemma {:induction false} HopsFixed(sorter: Sorter, ns: seq<CorrelatedSubquery>)
    requires forall n | n in ns :: NormalizeHop(sorter, n) == n
    ensures NormalizeHops(sorter, ns) == ns
  {
    if ns != [] {
      assert ns[0] in ns;
      HopsFixed(sorter, ns[1..]);
    }
  }

  lemma {:induction false} QueryTwice(sorter: Sorter, q: Ast)
    requires Settles(sorter) && ShallowQuery(q)
    ensures var n := NormalizeQuery(sorter, q); NormalizeQuery(sorter, n) == n
    decreases SizeQuery(q), 1, 0
  {
    if q.where_.Some? {
      WhereOfQueryTwice(sorter, q.where_.value);
    }
    if q.related.Related? {
      var ns := NormalizeHops(sorter, q.related.hops);
      HopsTwice(sorter, q.related.hops);
      SortedMembers(sorter.related(ns), ns);
      HopsFixed(sorter, sorter.related(ns));
    }
  }

  lemma {:induction false} WhereOfQueryTwice(sorter: Sorter, c: Condition)
    requires Settles(sorter) && Shallow(c) && ShallowBelow(c)
    ensures var n := NormalizeOptional(sorter, Flatten(c)); n.Some? ==> NormalizeOptional(sorter, Flatten(n.value)) == n
    decreases Size(c), 2, 0
  {
    var flat := Flatten(c);
    if flat.Some? {
      FlattenShrinks(c);
      ShallowFlattens(c);
      FlattenKeepsShallow(c);
      WhereTwice(sorter, flat.value);
      NormalizedShape(sorter, flat.value);
      FlatIsFixed(NormalizeWhere(sorter, flat.value));
    }
  }

  // ---- Any other query is not ------------------------------------------------

  lemma {:induction false} SizeInAnyOrder(a: seq<Condition>, b: seq<Condition>)
    requires multiset(a) == multiset(b)
    ensures SizeAll(a) == SizeAll(b)
  {
    if a == [] {
      assert |multiset(b)| == 0;
    } else {
      var j := TakeFirst(a, b);
      SizeInAnyOrder(a[1..], b[..j] + b[j + 1..]);
      SizeOfConcat(b[..j], b[j + 1..]);
      SizeOfConcat(b[..j] + [b[j]], b[j + 1..]);
      SizeOfConcat(b[..j], [b[j]]);
      assert SizeAll([b[j]]) == Size(b[j]) + SizeAll([]);
    }
  }

  lemma {:induction false} SizeOfHopsConcat(a: seq<CorrelatedSubquery>, b: seq<CorrelatedSubquery>)
    ensures SizeHops(a + b) == SizeHops(a) + SizeHops(b)
  {
    if a == [] {
      assert a + b == b;
    } else {
      SizeOfHopsConcat(a[1..], b);
      assert (a + b)[1..] == a[1..] + b;
    }
  }

  lemma {:induction false} SizeOfHopsInAnyOrder(a: seq<CorrelatedSubquery>, b: seq<CorrelatedSubquery>)
    requires multiset(a) == multiset(b)
    ensures SizeHops(a) == SizeHops(b)
  {
    if a == [] {
      assert |multiset(b)| == 0;
    } else {
      var j := TakeFirst(a, b);
      SizeOfHopsInAnyOrder(a[1..], b[..j] + b[j + 1..]);
      SizeOfHopsConcat(b[..j], b[j + 1..]);
      SizeOfHopsConcat(b[..j] + [b[j]], b[j + 1..]);
      SizeOfHopsConcat(b[..j], [b[j]]);
      assert SizeHops([b[j]]) == SizeHop(b[j]) + SizeHops([]);
    }
  }

  /** Normalizing never grows anything. */
  lemma {:induction false} WhereShrinks(sorter: Sorter, c: Condition)
    requires Permutes(sorter)
    ensures Size(NormalizeWhere(sorter, c)) <= Size(c)
    decreases Size(c), 1, 0
  {
    match c
    case Simple(_, _, _) =>
    case Subquery(related, _, _, _, _) => HopShrinks(sorter, related);
    case _ =>
      var ns := NormalizeAll(sorter, c.conditions);
      AllShrink(sorter, c.conditions);
      SizeInAnyOrder(sorter.conditions(ns), ns);
  }

  lemma {:induction false} AllShrink(sorter: Sorter, cs: seq<Condition>)
    requires Permutes(sorter)
    ensures SizeAll(NormalizeAll(sorter, cs)) <= SizeAll(cs)
    ensures (exists c | c in cs :: Size(NormalizeWhere(sorter, c)) < Size(c)) ==> SizeAll(NormalizeAll(sorter, cs)) < SizeAll(cs)
    decreases SizeAll(cs), 2, |cs|
  {
    if cs != [] {
      WhereShrinks(sorter, cs[0]);
      AllShrink(sorter, cs[1..]);
      assert forall c :: c in cs <==> c == cs[0] || c in cs[1..];
    }
  }

  lemma {:induction false} HopShrinks(sorter: Sorter, hop: CorrelatedSubquery)
    requires Permutes(sorter)
    ensures SizeHop(NormalizeHop(sorter, hop)) <= SizeHop(hop)
    decreases SizeHop(hop), 1, 0
  {
    QueryShrinks(sorter, hop.subquery);
  }

  lemma {:induction false} HopsShrink(sorter: Sorter, hops: seq<CorrelatedSubquery>)
    requires Permutes(sorter)
    ensures SizeHops(NormalizeHops(sorter, hops)) <= SizeHops(hops)
    ensures (exists hop | hop in hops :: SizeHop(NormalizeHop(sorter, hop)) < SizeHop(hop)) ==> SizeHops(NormalizeHops(sorter, hops)) < SizeHops(hops)
    decreases SizeHops(hops), 2, |hops|
  {
    if hops != [] {
      HopShrinks(sorter, hops[0]);
      HopsShrink(sorter, hops[1..]);
      assert forall hop :: hop in hops <==> hop == hops[0] || hop in hops[1..];
    }
  }

  function SizeOptional(c: Option<Condition>): nat {
    if c.Some? then Size(c.value) else 0
  }

  lemma {:induction false} WhereOfQueryShrinks(sorter: Sorter, c: Condition)
    requires Permutes(sorter)
    ensures SizeOptional(NormalizeOptional(sorter, Flatten(c))) <= Size(c)
    decreases Size(c), 2, 0
  {
    FlattenShrinks(c);
    if Flatten(c).Some? {
      WhereShrinks(sorter, Flatten(c).value);
    }
  }

  lemma {:induction false} QueryShrinks(sorter: Sorter, q: Ast)
    requires Permutes(sorter)
    ensures SizeQuery(NormalizeQuery(sorter, q)) <= SizeQuery(q)
    decreases SizeQuery(q), 1, 0
  {
    if q.where_.Some? {
      WhereOfQueryShrinks(sorter, q.where_.value);
    }
    if q.related.Related? {
      var ns := NormalizeHops(sorter, q.related.hops);
      HopsShrink(sorter, q.related.hops);
      SizeOfHopsInAnyOrder(sorter.related(ns), ns);
    }
  }

  /** A second pass shrinks what is not shallow. */
  lemma {:induction false} DeepShrinks(sorter: Sorter, c: Condition)
    requires Permutes(sorter) && !ShallowBelow(c)
    ensures var n := NormalizeWhere(sorter, c); Size(NormalizeWhere(sorter, n)) < Size(n)
    decreases Size(c), 1, 0
  {
    if c.Subquery? {
      DeepHopShrinks(sorter, c.related);
    } else {
      var cs, ns := c.conditions, NormalizeAll(sorter, c.conditions);
      var xs := sorter.conditions(ns);
      var d :| d in cs && !ShallowBelow(d);
      MembersAreSmaller(cs);
      DeepShrinks(sorter, d);
      NormalizeAllAt(sorter, cs);
      SortedMembers(xs, ns);
      assert NormalizeWhere(sorter, d) in xs;
      AllShrink(sorter, xs);
      SizeInAnyOrder(sorter.conditions(NormalizeAll(sorter, xs)), NormalizeAll(sorter, xs));
    }
  }

  lemma {:induction false} DeepHopShrinks(sorter: Sorter, hop: CorrelatedSubquery)
    requires Permutes(sorter) && !ShallowHop(hop)
    ensures var n := NormalizeHop(sorter, hop); SizeHop(NormalizeHop(sorter, n)) < SizeHop(n)
    decreases SizeHop(hop), 1, 0
  {
    DeepQueryShrinks(sorter, hop.subquery);
  }

  lemma {:induction false} HopsAreSmaller(hops: seq<CorrelatedSubquery>)
    ensures forall hop | hop in hops :: SizeHop(hop) <= SizeHops(hops)
  {
    if hops != [] {
      HopsAreSmaller(hops[1..]);
      assert hops == [hops[0]] + hops[1..];
    }
  }

  lemma {:induction false} NormalizeHopsAt(sorter: Sorter, hops: seq<CorrelatedSubquery>)
    ensures forall hop | hop in hops :: NormalizeHop(sorter, hop) in NormalizeHops(sorter, hops)
  {
    if hops != [] {
      NormalizeHopsAt(sorter, hops[1..]);
      assert hops == [hops[0]] + hops[1..];
    }
  }

  lemma {:induction false} NormalizedHopsCome(sorter: Sorter, hops: seq<CorrelatedSubquery>)
    ensures forall x | x in NormalizeHops(sorter, hops) :: exists hop :: hop in hops && x == NormalizeHop(sorter, hop)
  {
    if hops != [] {
      NormalizedHopsCome(sorter, hops[1..]);
      forall x | x in NormalizeHops(sorter, hops) ensures exists hop :: hop in hops && x == NormalizeHop(sorter, hop) {
        if x == NormalizeHop(sorter, hops[0]) {
          assert hops[0] in hops;
        } else {
          assert x in NormalizeHops(sorter, hops[1..]);
          var hop :| hop in hops[1..] && x == NormalizeHop(sorter, hop);
          assert hop in hops;
        }
      }
    }
  }

  lemma {:induction false} DeepHopsShrink(sorter: Sorter, hops: seq<CorrelatedSubquery>, hop: CorrelatedSubquery)
    requires Permutes(sorter) && hop in hops && !ShallowHop(hop)
    ensures var ns := sorter.related(NormalizeHops(sorter, hops)); SizeHops(sorter.related(NormalizeHops(sorter, ns))) < SizeHops(ns)
    decreases SizeHops(hops), 2, 0
  {
    var ns := sorter.related(NormalizeHops(sorter, hops));
    HopsAreSmaller(hops);
    DeepHopShrinks(sorter, hop);
    NormalizeHopsAt(sorter, hops);
    SortedMembers(ns, NormalizeHops(sorter, hops));
    assert NormalizeHop(sorter, hop) in ns;
    HopsShrink(sorter, ns);
    SizeOfHopsInAnyOrder(sorter.related(NormalizeHops(sorter, ns)), NormalizeHops(sorter, ns));
  }

  lemma {:induction false} DeepWhereShrinks(sorter: Sorter, c: Condition)
    requires Permutes(sorter) && !(Shallow(c) && ShallowBelow(c))
    ensures var n := NormalizeOptional(sorter, Flatten(c));
            n.Some? && SizeOptional(NormalizeOptional(sorter, Flatten(n.value))) < Size(n.value)
    decreases Size(c), 2, 0
  {
    var flat := Flatten(c);
    FlattenShrinks(c);
    FlattenKeepsShallow(c);
    if flat.None? {
      DroppedExactly(c);
      VacuousIsShallow(c);
      assert false;
    }
    var n := NormalizeWhere(sorter, flat.value);
    ShallowFlattens(c);
    FlattenIsSolid(c);
    NormalizedShape(sorter, flat.value);
    if Flat(n) {
      FlatIsFixed(n);
      DeepShrinks(sorter, flat.value);
    } else {
      SolidShrinks(n);
      WhereShrinks(sorter, Flatten(n).value);
    }
  }

  lemma {:induction false} NothingInside(merge: Option<bool>, cs: seq<Condition>)
    requires forall c | c in cs :: Vacuous(c)
    ensures Inner(merge, cs) == []
    decreases cs
  {
    if cs != [] {
      assert cs[0] in cs;
      NothingInside(merge, cs[1..]);
      if Merged(merge, cs[0]) {
        NothingInside(None, cs[0].conditions);
      }
    }
  }

  lemma VacuousIsShallow(c: Condition)
    requires Vacuous(c)
    ensures Shallow(c)
  {
    NothingInside(Some(c.And?), c.conditions);
  }

  lemma {:induction false} DeepQueryShrinks(sorter: Sorter, q: Ast)
    requires Permutes(sorter) && !ShallowQuery(q)
    ensures var n := NormalizeQuery(sorter, q); SizeQuery(NormalizeQuery(sorter, n)) < SizeQuery(n)
    decreases SizeQuery(q), 1, 0
  {
    var n := NormalizeQuery(sorter, q);
    if q.where_.Some? && !(Shallow(q.where_.value) && ShallowBelow(q.where_.value)) {
      DeepWhereShrinks(sorter, q.where_.value);
    } else if n.where_.Some? {
      WhereOfQueryShrinks(sorter, n.where_.value);
    }
    if q.related.Related? {
      if hop :| hop in q.related.hops && !ShallowHop(hop) {
        DeepHopsShrink(sorter, q.related.hops, hop);
      } else {
        HopsShrink(sorter, n.related.hops);
        SizeOfHopsInAnyOrder(sorter.related(NormalizeHops(sorter, n.related.hops)), NormalizeHops(sorter, n.related.hops));
      }
    }
  }
}
