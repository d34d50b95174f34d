/**
 What rewriting keeps of a query: its parts, that is everything but the junctions and the
 order of things, under normalization; and the order of its comparisons and subqueries under
 flattening and simplification.
 */
module QueryParts {
  import opened Base
  import opened QueryAst
  import opened Normalizing
  import opened NormalizedMeaning
  import opened ReadAuthorizer
  import opened SimplifyExact

  /** A comparison, or a subquery with all it carries. */
  datatype Part =
    | Comparison(op: SimpleOperator, left: ValuePosition, right: ValuePosition)
    | Probe(hop: HopParts, existsOp: ExistsOp, flip: Option<bool>, scalar: Option<bool>, planId: Option<int>)

  datatype HopParts = HopParts(correlation: Correlation, subquery: QueryInParts, system: Option<System>, hidden: Option<bool>)

  datatype QueryInParts = QueryInParts(
    schema: Option<string>,
    table: string,
    alias: Option<string>,
    where_: multiset<Part>,
    hasRelated: bool,
    related: multiset<HopParts>,
    start: Option<Bound>,
    limit: Option<real>,
    orderBy: Option<Ordering>)

  function PartsOf(c: Condition): multiset<Part>
    decreases c, 1
  {
    match c
    case Simple(op, left, right) => multiset{Comparison(op, left, right)}
    case And(cs) => PartsOfAll(cs)
    case Or(cs) => PartsOfAll(cs)
    case Subquery(related, op, flip, scalar, planId) => multiset{Probe(PartsOfHop(related), op, flip, scalar, planId)}
  }

  function PartsOfAll(cs: seq<Condition>): multiset<Part>
    decreases cs, 0
  {
    if cs == [] then multiset{} else PartsOf(cs[0]) + PartsOfAll(cs[1..])
  }

  function PartsOfHop(hop: CorrelatedSubquery): HopParts
    decreases hop, 0
  {
    HopParts(hop.correlation, PartsOfQuery(hop.subquery), hop.system, hop.hidden)
  }

  function PartsOfHops(hops: seq<CorrelatedSubquery>): multiset<HopParts>
    decreases hops, 0
  {
    if hops == [] then multiset{} else multiset{PartsOfHop(hops[0])} + PartsOfHops(hops[1..])
  }

  function PartsOfQuery(q: Ast): QueryInParts
    decreases q, 0
  {
    QueryInParts(
      q.schema, q.table, q.alias,
      if q.where_.Some? then PartsOf(q.where_.value) else multiset{},
      q.related.Related?,
      if q.related.Related? then PartsOfHops(q.related.hops) else multiset{},
      q.start, q.limit, q.orderBy)
  }

  lemma {:induction false} PartsOfConcat(a: seq<Condition>, b: seq<Condition>)
    ensures PartsOfAll(a + b) == PartsOfAll(a) + PartsOfAll(b)
  {
    if a == [] {
      assert a + b == b;
    } else {
      assert (a + b)[0] == a[0] && (a + b)[1..] == a[1..] + b;
      PartsOfConcat(a[1..], b);
    }
  }

  lemma {:induction false} PartsInAnyOrder(a: seq<Condition>, b: seq<Condition>)
    requires multiset(a) == multiset(b)
    ensures PartsOfAll(a) == PartsOfAll(b)
  {
    if a == [] {
      assert |multiset(b)| == 0;
    } else {
      var j := TakeFirst(a, b);
      PartsInAnyOrder(a[1..], b[..j] + b[j + 1..]);
      PartsOfConcat(b[..j], b[j + 1..]);
      PartsOfConcat(b[..j] + [b[j]], b[j + 1..]);
      PartsOfConcat(b[..j], [b[j]]);
      assert [b[j]][1..] == [];
    }
  }

  lemma {:induction false} HopsOfConcat(a: seq<CorrelatedSubquery>, b: seq<CorrelatedSubquery>)
    ensures PartsOfHops(a + b) == PartsOfHops(a) + PartsOfHops(b)
  {
    if a == [] {
      assert a + b == b;
    } else {
      assert (a + b)[0] == a[0] && (a + b)[1..] == a[1..] + b;
      HopsOfConcat(a[1..], b);
    }
  }

  lemma {:induction false} HopsInAnyOrder(a: seq<CorrelatedSubquery>, b: seq<CorrelatedSubquery>)
    requires multiset(a) == multiset(b)
    ensures PartsOfHops(a) == PartsOfHops(b)
  {
    if a == [] {
      assert |multiset(b)| == 0;
    } else {
      var j := TakeFirst(a, b);
      HopsInAnyOrder(a[1..], b[..j] + b[j + 1..]);
      HopsOfConcat(b[..j], b[j + 1..]);
      HopsOfConcat(b[..j] + [b[j]], b[j + 1..]);
      HopsOfConcat(b[..j], [b[j]]);
      assert [b[j]][1..] == [];
    }
  }

  lemma {:induction false} FlatteningKeepsParts(merge: Option<bool>, cs: seq<Condition>)
    ensures PartsOfAll(FlatParts(merge, cs)) == PartsOfAll(cs)
    decreases cs, 1
  {
    if cs != [] {
      FlatPartKeepsParts(merge, cs[0]);
      FlatteningKeepsParts(merge, cs[1..]);
      PartsOfConcat(FlatPart(merge, cs[0]), FlatParts(merge, cs[1..]));
    }
  }

  lemma {:induction false} FlatPartKeepsParts(merge: Option<bool>, c: Condition)
    ensures PartsOfAll(FlatPart(merge, c)) == PartsOf(c)
    decreases c, 3
  {
    if Merged(merge, c) {
      FlatteningKeepsParts(None, c.conditions);
    } else {
      FlattenKeepsParts(c);
      var flat := Flatten(c);
      if flat.Some? {
        assert [flat.value][1..] == [];
      }
    }
  }

  lemma {:induction false} FlattenKeepsParts(c: Condition)
    ensures PartsOf(c) == if Flatten(c).Some? then PartsOf(Flatten(c).value) else multiset{}
    decreases c, 2
  {
    if c.And? || c.Or? {
      FlatteningKeepsParts(Some(c.And?), c.conditions);
      var parts := FlatParts(Some(c.And?), c.conditions);
      assert Flatten(c) == Collapse(c.And?, parts);
      if |parts| == 1 {
        assert parts[1..] == [];
      }
    }
  }

  lemma {:induction false} NormalizedWhereKeepsParts(sorter: Sorter, c: Condition)
    requires Permutes(sorter)
    ensures PartsOf(NormalizeWhere(sorter, c)) == PartsOf(c)
    decreases Size(c), 1, 0
  {
    match c
    case Simple(_, _, _) =>
    case Subquery(related, _, _, _, _) =>
      NormalizedHopKeepsParts(sorter, related);
    case And(conditions) =>
      NormalizedAllKeepParts(sorter, conditions);
      PartsOnceSorted(sorter, NormalizeAll(sorter, conditions));
    case Or(conditions) =>
      NormalizedAllKeepParts(sorter, conditions);
      PartsOnceSorted(sorter, NormalizeAll(sorter, conditions));
  }

  lemma PartsOnceSorted(sorter: Sorter, cs: seq<Condition>)
    requires Permutes(sorter)
    ensures PartsOfAll(sorter.conditions(cs)) == PartsOfAll(cs)
  {
    PartsInAnyOrder(sorter.conditions(cs), cs);
  }

  lemma {:induction false} NormalizedAllKeepParts(sorter: Sorter, cs: seq<Condition>)
    requires Permutes(sorter)
    ensures PartsOfAll(NormalizeAll(sorter, cs)) == PartsOfAll(cs)
    decreases SizeAll(cs), 2, |cs|
  {
    if cs != [] {
      NormalizedWhereKeepsParts(sorter, cs[0]);
      NormalizedAllKeepParts(sorter, cs[1..]);
    }
  }

  lemma {:induction false} NormalizedHopKeepsParts(sorter: Sorter, hop: CorrelatedSubquery)
    requires Permutes(sorter)
    ensures PartsOfHop(NormalizeHop(sorter, hop)) == PartsOfHop(hop)
    decreases SizeHop(hop), 1, 0
  {
    NormalizationKeepsParts(sorter, hop.subquery);
  }

  lemma {:induction false} NormalizedHopsKeepParts(sorter: Sorter, hops: seq<CorrelatedSubquery>)
    requires Permutes(sorter)
    ensures PartsOfHops(NormalizeHops(sorter, hops)) == PartsOfHops(hops)
    decreases SizeHops(hops), 2, |hops|
  {
    if hops != [] {
      NormalizedHopKeepsParts(sorter, hops[0]);
      NormalizedHopsKeepParts(sorter, hops[1..]);
    }
  }

  /** Normalization changes nothing but the junctions and the order of what it joins: every part stays, with all it carries, at its place. */
  lemma {:induction false} NormalizationKeepsParts(sorter: Sorter, q: Ast)
    requires Permutes(sorter)
    ensures PartsOfQuery(NormalizeQuery(sorter, q)) == PartsOfQuery(q)
    decreases SizeQuery(q), 1, 0
  {
    if q.where_.Some? {
      FlattenKeepsParts(q.where_.value);
      FlattenShrinks(q.where_.value);
      if Flatten(q.where_.value).Some? {
        NormalizedWhereKeepsParts(sorter, Flatten(q.where_.value).value);
      }
    }
    if q.related.Related? {
      var ns := NormalizeHops(sorter, q.related.hops);
      NormalizedHopsKeepParts(sorter, q.related.hops);
      HopsInAnyOrder(sorter.related(ns), ns);
    }
  }

  // ---- The order of comparisons and subqueries -------------------------------

  /** The comparisons and subqueries of a condition from left to right. */
  function Atoms(c: Condition): seq<Condition>
    decreases c, 1
  {
    if c.And? || c.Or? then AtomsOfAll(c.conditions) else [c]
  }

  function AtomsOfAll(cs: seq<Condition>): seq<Condition>
    decreases cs, 0
  {
    if cs == [] then [] else Atoms(cs[0]) + AtomsOfAll(cs[1..])
  }

  lemma {:induction false} AtomsOfConcat(a: seq<Condition>, b: seq<Condition>)
    ensures AtomsOfAll(a + b) == AtomsOfAll(a) + AtomsOfAll(b)
  {
    if a == [] {
      assert a + b == b;
    } else {
      assert (a + b)[0] == a[0] && (a + b)[1..] == a[1..] + b;
      AtomsOfConcat(a[1..], b);
      Associate(Atoms(a[0]), AtomsOfAll(a[1..]), AtomsOfAll(b));
    }
  }

  lemma AtomsOfOne(c: Condition)
    ensures AtomsOfAll([c]) == Atoms(c)
  {
    assert [c][1..] == [];
  }

  lemma {:induction false} PartsKeepAtoms(merge: Option<bool>, cs: seq<Condition>)
    ensures AtomsOfAll(FlatParts(merge, cs)) == AtomsOfAll(cs)
    decreases cs, 1
  {
    if cs != [] {
      PartKeepsAtoms(merge, cs[0]);
      PartsKeepAtoms(merge, cs[1..]);
      AtomsOfConcat(FlatPart(merge, cs[0]), FlatParts(merge, cs[1..]));
    }
  }

  lemma {:induction false} PartKeepsAtoms(merge: Option<bool>, c: Condition)
    ensures AtomsOfAll(FlatPart(merge, c)) == Atoms(c)
    decreases c, 3
  {
    if Merged(merge, c) {
      PartsKeepAtoms(None, c.conditions);
    } else {
      FlattenKeepsAtoms(c);
      if Flatten(c).Some? {
        AtomsOfOne(Flatten(c).value);
      }
    }
  }

  /** Flattening keeps every comparison and subquery, in order, whatever it drops. */
  lemma {:induction false} FlattenKeepsAtoms(c: Condition)
    ensures Atoms(c) == if Flatten(c).Some? then Atoms(Flatten(c).value) else []
    decreases c, 2
  {
    if c.And? || c.Or? {
      var parts := FlatParts(Some(c.And?), c.conditions);
      PartsKeepAtoms(Some(c.And?), c.conditions);
      assert Flatten(c) == Collapse(c.And?, parts);
      if |parts| == 1 {
        assert parts == [parts[0]];
        AtomsOfOne(parts[0]);
      }
    }
  }

  lemma {:induction false} SpliceKeepsAtoms(isAnd: bool, cs: seq<Condition>)
    ensures AtomsOfAll(Splice(isAnd, cs)) == AtomsOfAll(cs)
  {
    if cs != [] {
      SpliceKeepsAtoms(isAnd, cs[1..]);
      AtomsOfConcat(Spliced(isAnd, cs[0]), Splice(isAnd, cs[1..]));
      if !IsJunction(isAnd, cs[0]) {
        AtomsOfOne(cs[0]);
      }
    }
  }

  lemma {:induction false} SimplifiedAtoms(cs: seq<Condition>)
    requires forall c | c in cs :: NoEmptyJunction(c)
    ensures AtomsOfAll(SimplifyAll(cs)) == AtomsOfAll(cs)
    decreases cs, 0
  {
    if cs != [] {
      assert cs[0] in cs;
      SimplifyKeepsAtoms(cs[0]);
      SimplifiedAtoms(cs[1..]);
      assert SimplifyAll(cs)[1..] == SimplifyAll(cs[1..]);
    }
  }

  /** Without empty junctions, simplification keeps every comparison and subquery, in order. */
  lemma {:induction false} SimplifyKeepsAtoms(c: Condition)
    requires NoEmptyJunction(c)
    ensures Atoms(SimplifyCondition(c)) == Atoms(c)
    decreases c, 1
  {
    if c.And? || c.Or? {
      var cs := c.conditions;
      if |cs| == 1 {
        assert cs == [cs[0]] && cs[0] in cs;
        AtomsOfOne(cs[0]);
        SimplifyKeepsAtoms(cs[0]);
      } else {
        NonEmptyIsUnknown(c);
        UnknownStays(c);
        SpliceKeepsAtoms(c.And?, SimplifyAll(cs));
        SimplifiedAtoms(cs);
      }
    }
  }

  /** The condition of a transformed query holds its own comparisons and subqueries, and after them those of the rules, in order. */
  lemma RulesFollowTheWhere(where_: Option<Condition>, rules: Policy)
    requires rules != [] && (forall rule | rule in rules :: NoEmptyJunction(rule)) && (where_.Some? ==> NoEmptyJunction(where_.value))
    ensures Atoms(SimplifyCondition(AddRulesToWhere(where_, Some(rules))))
         == (if where_.Some? then Atoms(where_.value) else []) + AtomsOfAll(rules)
  {
    var own, rule := if where_.Some? then [where_.value] else [], Or(rules);
    var added := AddRulesToWhere(where_, Some(rules));
    assert added == And(own + [rule]);
    assert forall c | c in own + [rule] :: NoEmptyJunction(c);
    SimplifyKeepsAtoms(added);
    AtomsOfConcat(own, [rule]);
    AtomsOfOne(rule);
    if where_.Some? {
      AtomsOfOne(where_.value);
    }
  }
}
