/**
 The canonical form a query is hashed in: `normalize_ast`, `normalize_where` and
 `flatten` of `crates/zero-cache-protocol/src/ast.rs`.
 */
module Normalizing {
  import opened Base
  import opened QueryAst
  import opened Comparing
  import opened ConditionOrder

  // ---- Sizes -----------------------------------------------------------------

  function Size(c: Condition): nat
    decreases c, 1
  {
    match c
    case Simple(_, _, _) => 1
    case And(cs) => 1 + SizeAll(cs)
    case Or(cs) => 1 + SizeAll(cs)
    case Subquery(related, _, _, _, _) => 1 + SizeHop(related)
  }

  function SizeAll(cs: seq<Condition>): nat
    decreases cs, 0
  {
    if cs == [] then 0 else Size(cs[0]) + SizeAll(cs[1..])
  }

  function SizeHop(hop: CorrelatedSubquery): nat
    decreases hop, 0
  {
    1 + SizeQuery(hop.subquery)
  }

  function SizeHops(hops: seq<CorrelatedSubquery>): nat
    decreases hops, 0
  {
    if hops == [] then 0 else SizeHop(hops[0]) + SizeHops(hops[1..])
  }

  function SizeQuery(q: Ast): nat
    decreases q, 0
  {
    1 + (if q.where_.Some? then Size(q.where_.value) else 0) + (if q.related.Related? then SizeHops(q.related.hops) else 0)
  }

  lemma {:induction false} SizeOfConcat(a: seq<Condition>, b: seq<Condition>)
    ensures SizeAll(a + b) == SizeAll(a) + SizeAll(b)
  {
    if a == [] {
      assert a + b == b;
    } else {
      SizeOfConcat(a[1..], b);
      assert (a + b)[1..] == a[1..] + b;
    }
  }

  lemma {:induction false} MembersAreSmaller(cs: seq<Condition>)
    ensures forall c | c in cs :: Size(c) <= SizeAll(cs)
  {
    if cs != [] {
      MembersAreSmaller(cs[1..]);
      assert cs == [cs[0]] + cs[1..];
    }
  }

  // ---- Flattening ------------------------------------------------------------

  function OptionSeq<T>(o: Option<T>): seq<T> {
    if o.Some? then [o.value] else []
  }

  /** Drops empty junctions, collapses singletons and merges one level of same-type nesting. */
  function Flatten(c: Condition): Option<Condition>
    decreases c, 2
  {
    match c
    case Simple(_, _, _) => Some(c)
    case Subquery(_, _, _, _, _) => Some(c)
    case And(cs) => Collapse(true, FlatParts(Some(true), cs))
    case Or(cs) => Collapse(false, FlatParts(Some(false), cs))
  }

  function Collapse(isAnd: bool, flat: seq<Condition>): Option<Condition> {
    match |flat|
    case 0 => None
    case 1 => Some(flat[0])
    case _ => Some(Junction(isAnd, flat))
  }

  /** The flattened children of a junction; children of type `merge` give way to their own children. */
  function FlatParts(merge: Option<bool>, cs: seq<Condition>): seq<Condition>
    decreases cs, 1
  {
    if cs == [] then [] else FlatPart(merge, cs[0]) + FlatParts(merge, cs[1..])
  }

  /** A child of type `merge`. */
  predicate Merged(merge: Option<bool>, c: Condition) {
    merge.Some? && IsJunction(merge.value, c)
  }

  function FlatPart(merge: Option<bool>, c: Condition): seq<Condition>
    decreases c, 3
  {
    if Merged(merge, c) then FlatParts(None, c.conditions) else OptionSeq(Flatten(c))
  }

  lemma {:induction false} FlattenShrinks(c: Condition)
    ensures Flatten(c).Some? ==> Size(Flatten(c).value) <= Size(c)
    decreases c, 2
  {
    if c.And? || c.Or? {
      FlatPartsShrink(Some(c.And?), c.conditions);
    }
  }

  lemma {:induction false} FlatPartsShrink(merge: Option<bool>, cs: seq<Condition>)
    ensures SizeAll(FlatParts(merge, cs)) <= SizeAll(cs)
    decreases cs, 1
  {
    if cs != [] {
      FlatPartShrinks(merge, cs[0]);
      FlatPartsShrink(merge, cs[1..]);
      SizeOfConcat(FlatPart(merge, cs[0]), FlatParts(merge, cs[1..]));
    }
  }

  lemma {:induction false} FlatPartShrinks(merge: Option<bool>, c: Condition)
    ensures SizeAll(FlatPart(merge, c)) <= Size(c)
    decreases c, 3
  {
    if Merged(merge, c) {
      FlatPartsShrink(None, c.conditions);
    } else {
      FlattenShrinks(c);
    }
  }

  lemma {:induction false} FlatPartsOfConcat(merge: Option<bool>, a: seq<Condition>, b: seq<Condition>)
    ensures FlatParts(merge, a + b) == FlatParts(merge, a) + FlatParts(merge, b)
  {
    if a == [] {
      assert a + b == b;
    } else {
      assert (a + b)[0] == a[0] && (a + b)[1..] == a[1..] + b;
      calc {
        FlatParts(merge, a + b);
        FlatPart(merge, a[0]) + FlatParts(merge, a[1..] + b);
        { FlatPartsOfConcat(merge, a[1..], b); }
        FlatPart(merge, a[0]) + FlatParts(merge, a[1..]) + FlatParts(merge, b);
      }
    }
  }

  lemma FlatPartsFrom(merge: Option<bool>, cs: seq<Condition>, i: nat)
    requires i < |cs|
    ensures FlatParts(merge, cs[i..]) == FlatPart(merge, cs[i]) + FlatParts(merge, cs[i + 1..])
  {
    assert cs[i..][0] == cs[i] && cs[i..][1..] == cs[i + 1..];
  }

  /** Collects the flattened children of a junction one by one. */
  method FlattenInto(c: Condition) returns (flat: Option<Condition>)
    ensures flat == Flatten(c)
    decreases c, 2
  {
    if c.Simple? || c.Subquery? {
      return Some(c);
    }
    var isAnd, conditions := c.And?, c.conditions;
    var parts: seq<Condition> := [];
    var i := 0;
    while i < |conditions|
      invariant 0 <= i <= |conditions|
      invariant parts + FlatParts(Some(isAnd), conditions[i..]) == FlatParts(Some(isAnd), conditions)
    {
      FlatPartsFrom(Some(isAnd), conditions, i);
      Associate(parts, FlatPart(Some(isAnd), conditions[i]), FlatParts(Some(isAnd), conditions[i + 1..]));
      if IsJunction(isAnd, conditions[i]) {
        var merged := FlattenEach(conditions[i].conditions);
        parts := parts + merged;
      } else {
        var part := FlattenInto(conditions[i]);
        parts := parts + OptionSeq(part);
      }
      i := i + 1;
    }
    assert parts == FlatParts(Some(isAnd), conditions) && Flatten(c) == Collapse(isAnd, parts);
    if |parts| == 0 {
      flat := None;
    } else if |parts| == 1 {
      flat := Some(parts[0]);
    } else {
      flat := Some(Junction(isAnd, parts));
    }
  }

  method FlattenEach(inner: seq<Condition>) returns (parts: seq<Condition>)
    ensures parts == FlatParts(None, inner)
    decreases inner, 1
  {
    parts := [];
    var i := 0;
    while i < |inner|
      invariant 0 <= i <= |inner|
      invariant parts + FlatParts(None, inner[i..]) == FlatParts(None, inner)
    {
      assert inner[i..][0] == inner[i] && inner[i..][1..] == inner[i + 1..];
      var part := FlattenInto(inner[i]);
      parts := parts + OptionSeq(part);
      i := i + 1;
    }
  }

  // ---- Normalizing -----------------------------------------------------------

  /** The two library sorts normalization calls. */
  datatype Sorter = Sorter(
    conditions: seq<Condition> -> seq<Condition>,
    related: seq<CorrelatedSubquery> -> seq<CorrelatedSubquery>)

  /** All that meaning depends on: a sort only rearranges. */
  ghost predicate Permutes(sorter: Sorter) {
    && (forall cs :: multiset(sorter.conditions(cs)) == multiset(cs))
    && (forall hops :: multiset(sorter.related(hops)) == multiset(hops))
  }

  function NormalizeQuery(sorter: Sorter, q: Ast): Ast
    decreases SizeQuery(q), 1, 0
  {
    q.(where_ := if q.where_.Some? then (FlattenShrinks(q.where_.value); NormalizeOptional(sorter, Flatten(q.where_.value))) else None,
       related := if q.related.Related? then Related(sorter.related(NormalizeHops(sorter, q.related.hops))) else NoRelated)
  }

  function NormalizeOptional(sorter: Sorter, c: Option<Condition>): Option<Condition>
    decreases if c.Some? then Size(c.value) else 0, 2, 0
  {
    if c.Some? then Some(NormalizeWhere(sorter, c.value)) else None
  }

  function NormalizeWhere(sorter: Sorter, c: Condition): Condition
    decreases Size(c), 1, 0
  {
    match c
    case Simple(_, _, _) => c
    case Subquery(related, _, _, _, _) => c.(related := NormalizeHop(sorter, related))
    case And(cs) => And(sorter.conditions(NormalizeAll(sorter, cs)))
    case Or(cs) => Or(sorter.conditions(NormalizeAll(sorter, cs)))
  }

  function NormalizeAll(sorter: Sorter, cs: seq<Condition>): seq<Condition>
    decreases SizeAll(cs), 2, |cs|
  {
    if cs == [] then [] else [NormalizeWhere(sorter, cs[0])] + NormalizeAll(sorter, cs[1..])
  }

  function NormalizeHop(sorter: Sorter, hop: CorrelatedSubquery): CorrelatedSubquery
    decreases SizeHop(hop), 1, 0
  {
    hop.(subquery := NormalizeQuery(sorter, hop.subquery))
  }

  function NormalizeHops(sorter: Sorter, hops: seq<CorrelatedSubquery>): seq<CorrelatedSubquery>
    decreases SizeHops(hops), 2, |hops|
  {
    if hops == [] then [] else [NormalizeHop(sorter, hops[0])] + NormalizeHops(sorter, hops[1..])
  }

  lemma {:induction false} NormalizeAllAt(sorter: Sorter, cs: seq<Condition>)
    ensures |NormalizeAll(sorter, cs)| == |cs|
    ensures forall i | 0 <= i < |cs| :: NormalizeAll(sorter, cs)[i] == NormalizeWhere(sorter, cs[i])
  {
    if cs != [] {
      NormalizeAllAt(sorter, cs[1..]);
    }
  }

  // ---- The sorts the source calls --------------------------------------------

  function SortRelated(hops: seq<CorrelatedSubquery>): seq<CorrelatedSubquery> {
    if hops == [] then [] else InsertRelated(hops[0], SortRelated(hops[1..]))
  }

  function InsertRelated(hop: CorrelatedSubquery, sorted: seq<CorrelatedSubquery>): seq<CorrelatedSubquery> {
    if sorted == [] || CmpRelated(hop, sorted[0]) != Greater then [hop] + sorted
    else [sorted[0]] + InsertRelated(hop, sorted[1..])
  }

  /** The stable sorts: conditions by `cmp_condition`, related hops by alias. */
  function ByComparison(fmt: NumberFormat): Sorter {
    Sorter(cs => SortConditions(fmt, cs), hops => SortRelated(hops))
  }

  lemma {:induction false} InsertRelatedPermutes(hop: CorrelatedSubquery, hops: seq<CorrelatedSubquery>)
    ensures multiset(InsertRelated(hop, hops)) == multiset{hop} + multiset(hops)
  {
    if hops != [] && CmpRelated(hop, hops[0]) == Greater {
      InsertRelatedPermutes(hop, hops[1..]);
      assert hops == [hops[0]] + hops[1..];
    }
  }

  lemma {:induction false} SortRelatedPermutes(hops: seq<CorrelatedSubquery>)
    ensures multiset(SortRelated(hops)) == multiset(hops)
  {
    if hops != [] {
      SortRelatedPermutes(hops[1..]);
      InsertRelatedPermutes(hops[0], SortRelated(hops[1..]));
      assert hops == [hops[0]] + hops[1..];
    }
  }

  lemma ComparisonSortPermutes(fmt: NumberFormat)
    ensures Permutes(ByComparison(fmt))
  {
    forall cs ensures multiset(ByComparison(fmt).conditions(cs)) == multiset(cs) {
      SortPermutes(fmt, cs);
    }
    forall hops ensures multiset(ByComparison(fmt).related(hops)) == multiset(hops) {
      SortRelatedPermutes(hops);
    }
  }

  // ---- Sequences side by side ------------------------------------------------

  lemma SameForAll<T, U>(a: seq<T>, b: seq<U>, p: T -> bool, q: U -> bool)
    requires |a| == |b| && forall i | 0 <= i < |a| :: p(a[i]) == q(b[i])
    ensures (forall x | x in a :: p(x)) <==> forall y | y in b :: q(y)
  {
    forall i | 0 <= i < |a| ensures a[i] in a && b[i] in b {
    }
    if x :| x in a && !p(x) {
      var i :| 0 <= i < |a| && a[i] == x;
      assert !q(b[i]);
    }
    if y :| y in b && !q(y) {
      var i :| 0 <= i < |b| && b[i] == y;
      assert !p(a[i]);
    }
  }

  // ---- Rearranging a sequence ------------------------------------------------

  /** Where the first element of `a` sits in a rearrangement of it, and what is left after taking it out. */
  lemma TakeFirst<T>(a: seq<T>, b: seq<T>) returns (j: nat)
    requires a != [] && multiset(a) == multiset(b)
    ensures j < |b| && b[j] == a[0]
    ensures b == b[..j] + [b[j]] + b[j + 1..]
    ensures multiset(b[..j] + b[j + 1..]) == multiset(a[1..])
  {
    assert a[0] in multiset(b);
    j :| 0 <= j < |b| && b[j] == a[0];
    assert a == [a[0]] + a[1..];
    assert b == b[..j] + [b[j]] + b[j + 1..];
    assert multiset(a) == multiset{a[0]} + multiset(a[1..]);
    assert multiset(b) == multiset(b[..j] + b[j + 1..]) + multiset{b[j]};
    assert multiset(b[..j] + b[j + 1..]) == multiset(b) - multiset{b[j]} == multiset(a[1..]);
  }
}
