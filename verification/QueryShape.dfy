/**
 What the rewriting of a query leaves alone: binding touches nothing but the sides of
 comparisons, and the permission transform nothing but the conditions of queries.
 */
module QueryShape {
  import opened Base
  import opened QueryAst
  import opened ReadAuthorizer
  import opened AuthBinding

  // ---- Binding ---------------------------------------------------------------

  const Blank := Column("")

  /** The query with the sides of all comparisons blanked out. */
  function Outline(q: Ast): Ast
    decreases q, 1
  {
    q.(where_ := if q.where_.Some? then Some(OutlineCondition(q.where_.value)) else None,
       related := if q.related.Related? then Related(OutlineHops(q.related.hops)) else NoRelated)
  }

  function OutlineHops(hops: seq<CorrelatedSubquery>): seq<CorrelatedSubquery>
    decreases hops, 0
  {
    if hops == [] then [] else [OutlineHop(hops[0])] + OutlineHops(hops[1..])
  }

  function OutlineHop(hop: CorrelatedSubquery): CorrelatedSubquery
    decreases hop, 0
  {
    CorrelatedSubquery(hop.correlation, Outline(hop.subquery), hop.system, hop.hidden)
  }

  function OutlineCondition(c: Condition): Condition
    decreases c, 1
  {
    match c
    case Simple(op, _, _) => Simple(op, Blank, Blank)
    case And(cs) => And(OutlineConditions(cs))
    case Or(cs) => Or(OutlineConditions(cs))
    case Subquery(related, op, flip, scalar, planId) => Subquery(OutlineHop(related), op, flip, scalar, planId)
  }

  function OutlineConditions(cs: seq<Condition>): seq<Condition>
    decreases cs, 0
  {
    if cs == [] then [] else [OutlineCondition(cs[0])] + OutlineConditions(cs[1..])
  }

  lemma {:induction false} BindingKeepsConditionOutline(c: Condition, auth: Json)
    ensures OutlineCondition(BindCondition(c, auth)) == OutlineCondition(c)
    decreases c, 1
  {
    match c
    case Simple(_, _, _) =>
    case Subquery(related, _, _, _, _) => BindingKeepsHopOutline(related, auth);
    case _ => BindingKeepsOutlines(c.conditions, auth);
  }

  lemma {:induction false} BindingKeepsOutlines(cs: seq<Condition>, auth: Json)
    ensures OutlineConditions(BindConditions(cs, auth)) == OutlineConditions(cs)
    decreases cs, 0
  {
    if cs != [] {
      BindingKeepsConditionOutline(cs[0], auth);
      BindingKeepsOutlines(cs[1..], auth);
      assert BindConditions(cs, auth)[1..] == BindConditions(cs[1..], auth);
    }
  }

  lemma {:induction false} BindingKeepsHopOutline(hop: CorrelatedSubquery, auth: Json)
    ensures OutlineHop(BindHop(hop, auth)) == OutlineHop(hop)
    decreases hop, 0
  {
    BindingKeepsOutline(hop.subquery, auth);
  }

  lemma {:induction false} BindingKeepsHopOutlines(hops: seq<CorrelatedSubquery>, auth: Json)
    ensures OutlineHops(BindHops(hops, auth)) == OutlineHops(hops)
    decreases hops, 0
  {
    if hops != [] {
      BindingKeepsHopOutline(hops[0], auth);
      BindingKeepsHopOutlines(hops[1..], auth);
      assert BindHops(hops, auth)[1..] == BindHops(hops[1..], auth);
    }
  }

  /** Binding changes nothing but the sides of comparisons, at any depth. */
  lemma {:induction false} BindingKeepsOutline(q: Ast, auth: Json)
    ensures Outline(BindQuery(q, auth)) == Outline(q)
    decreases q, 1
  {
    if q.where_.Some? {
      BindingKeepsConditionOutline(q.where_.value, auth);
    }
    if q.related.Related? {
      BindingKeepsHopOutlines(q.related.hops, auth);
    }
  }

  // ---- The permission transform ----------------------------------------------

  /** The query without any condition, its own or those of its related queries. */
  function Bare(q: Ast): Ast
    decreases q, 1
  {
    q.(where_ := None, related := if q.related.Related? then Related(BareHops(q.related.hops)) else NoRelated)
  }

  function BareHops(hops: seq<CorrelatedSubquery>): seq<CorrelatedSubquery>
    decreases hops, 0
  {
    if hops == [] then [] else [BareHop(hops[0])] + BareHops(hops[1..])
  }

  function BareHop(hop: CorrelatedSubquery): CorrelatedSubquery
    decreases hop, 0
  {
    CorrelatedSubquery(hop.correlation, Bare(hop.subquery), hop.system, hop.hidden)
  }

  /** The condition with bare subqueries. */
  function BareCondition(c: Condition): Condition
    decreases c, 1
  {
    match c
    case Simple(_, _, _) => c
    case And(cs) => And(BareConditions(cs))
    case Or(cs) => Or(BareConditions(cs))
    case Subquery(related, op, flip, scalar, planId) => Subquery(BareHop(related), op, flip, scalar, planId)
  }

  function BareConditions(cs: seq<Condition>): seq<Condition>
    decreases cs, 0
  {
    if cs == [] then [] else [BareCondition(cs[0])] + BareConditions(cs[1..])
  }

  lemma {:induction false} TransformKeepsBareHop(hop: CorrelatedSubquery, perms: PermissionsConfig)
    ensures BareHop(TransformHop(hop, perms)) == BareHop(hop)
    decreases hop, 0
  {
    TransformKeepsBareQuery(hop.subquery, perms);
  }

  lemma {:induction false} TransformKeepsBareHops(hops: seq<CorrelatedSubquery>, perms: PermissionsConfig)
    ensures BareHops(TransformHops(hops, perms)) == BareHops(hops)
    decreases hops, 0
  {
    if hops != [] {
      TransformKeepsBareHop(hops[0], perms);
      TransformKeepsBareHops(hops[1..], perms);
      assert TransformHops(hops, perms)[1..] == TransformHops(hops[1..], perms);
    }
  }

  /** The transform changes nothing but conditions, at any depth. */
  lemma {:induction false} TransformKeepsBareQuery(q: Ast, perms: PermissionsConfig)
    ensures Bare(TransformQuery(q, perms)) == Bare(q)
    decreases q, 1
  {
    if q.related.Related? {
      TransformKeepsBareHops(q.related.hops, perms);
    }
  }

  lemma {:induction false} TransformKeepsBareConditions(cs: seq<Condition>, perms: PermissionsConfig)
    ensures BareConditions(TransformConditions(cs, perms)) == BareConditions(cs)
    decreases cs, 0
  {
    if cs != [] {
      TransformKeepsBareCondition(cs[0], perms);
      TransformKeepsBareConditions(cs[1..], perms);
      assert TransformConditions(cs, perms)[1..] == TransformConditions(cs[1..], perms);
    }
  }

  /** Of a condition it changes nothing but the conditions inside its subqueries. */
  lemma {:induction false} TransformKeepsBareCondition(c: Condition, perms: PermissionsConfig)
    ensures BareCondition(TransformCondition(c, perms)) == BareCondition(c)
    decreases c, 1
  {
    match c
    case Simple(_, _, _) =>
    case Subquery(related, _, _, _, _) => TransformKeepsBareHop(related, perms);
    case _ => TransformKeepsBareConditions(c.conditions, perms);
  }

  // ---- A rule that always holds ----------------------------------------------

  /** A rule that always holds adds nothing to a condition but a simplification. */
  lemma TrueRuleAddsNothing(where_: Option<Condition>)
    ensures SimplifyCondition(AddRulesToWhere(where_, Some([TrueCondition])))
         == if where_.None? then TrueCondition else Rejoin(true, Spliced(true, SimplifyCondition(where_.value)))
  {
    var rule := Or([TrueCondition]);
    assert SimplifyAll([]) == [] && SimplifyCondition(TrueCondition) == TrueCondition;
    assert SimplifyCondition(rule) == TrueCondition;
    if where_.Some? {
      var w := where_.value;
      var cs := [w] + [rule];
      assert AddRulesToWhere(where_, Some([TrueCondition])) == And(cs);
      assert SimplifyAll(cs)[0] == SimplifyCondition(w) && SimplifyAll(cs)[1] == SimplifyCondition(cs[1]);
      var simple := SimplifyAll(cs);
      assert simple[1..] == [TrueCondition] && [TrueCondition][1..] == [];
      assert Splice(true, [TrueCondition]) == [] + Splice(true, []);
      assert Splice(true, simple) == Spliced(true, simple[0]) + [];
    } else {
      assert AddRulesToWhere(where_, Some([TrueCondition])) == And([] + [rule]);
      assert [] + [rule] == [rule];
    }
  }
}
