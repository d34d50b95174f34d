/**
 What binding does: static references, and nothing else, are replaced by what the claims
 say, so a bound query means what the query means to a reader who looks the claims up.
 */
module BindingMeaning {
  import opened Base
  import opened QueryAst
  import opened QuerySemantics
  import opened AuthBinding
  import AstJson

  // ---- Claims as literals ----------------------------------------------------

  /** An array none of whose items becomes an array itself. */
  predicate BecomesArray(value: Json) {
    value.JArray? && forall item | item in value.items :: !BecomesArray(item)
  }

  lemma {:induction false} ArraysExactly(value: Json)
    ensures LiteralOf(value).LArray? <==> BecomesArray(value)
  {
    if value.JArray? {
      forall item | item in value.items ensures LiteralOf(item).LArray? <==> BecomesArray(item) {
        ArraysExactly(item);
      }
    }
  }

  /** A literal of the condition grammar: a scalar or an array of scalars. */
  predicate FlatLiteral(l: LiteralValue) {
    l.LArray? ==> forall item | item in l.items :: !item.LArray?
  }

  lemma {:induction false} LiteralsToJsonAt(items: seq<LiteralValue>)
    ensures |AstJson.LiteralsToJson(items)| == |items|
    ensures forall i | 0 <= i < |items| :: AstJson.LiteralsToJson(items)[i] == AstJson.LiteralToJson(items[i])
  {
    if items != [] {
      LiteralsToJsonAt(items[1..]);
    }
  }

  /** A claim that is a scalar or an array of scalars is bound to itself. */
  lemma LiteralReadsBack(l: LiteralValue)
    requires FlatLiteral(l)
    ensures LiteralOf(AstJson.LiteralToJson(l)) == l
  {
    if l.LArray? {
      var items := AstJson.LiteralsToJson(l.items);
      LiteralsToJsonAt(l.items);
      forall i | 0 <= i < |items| ensures LiteralOf(items[i]) == l.items[i] && !LiteralOf(items[i]).LArray? {
        assert l.items[i] in l.items;
      }
    }
  }

  /** Every claim: big integers become numbers, objects and arrays with arrays inside become null, other arrays item by item. */
  lemma OtherClaims(i: int, fields: seq<(string, Json)>, items: seq<Json>)
    ensures LiteralOf(JBigInt(i)) == LNumber(i as real) && LiteralOf(JObject(fields)) == LNull
    ensures (exists item | item in items :: BecomesArray(item)) ==> LiteralOf(JArray(items)) == LNull
    ensures (forall item | item in items :: !BecomesArray(item)) ==>
              var l := LiteralOf(JArray(items));
              l.LArray? && |l.items| == |items| && forall k | 0 <= k < |items| :: l.items[k] == LiteralOf(items[k])
  {
    forall item | item in items ensures LiteralOf(item).LArray? <==> BecomesArray(item) {
      ArraysExactly(item);
    }
  }

  // ---- Nothing but references changes ----------------------------------------

  lemma {:induction false} BoundConditionStays(c: Condition, auth: Json)
    requires BoundCondition(c)
    ensures BindCondition(c, auth) == c
    decreases c, 1
  {
    match c
    case Simple(_, _, _) =>
    case Subquery(related, _, _, _, _) => BoundHopStays(related, auth);
    case _ =>
      var cs := c.conditions;
      forall i | 0 <= i < |cs| ensures BindConditions(cs, auth)[i] == cs[i] {
        assert cs[i] in cs;
        BoundConditionStays(cs[i], auth);
      }
      assert BindConditions(cs, auth) == cs;
  }

  lemma {:induction false} BoundHopStays(hop: CorrelatedSubquery, auth: Json)
    requires BoundHop(hop)
    ensures BindHop(hop, auth) == hop
    decreases hop, 0
  {
    BoundQueryStays(hop.subquery, auth);
  }

  /** A query without static references is bound to itself. */
  lemma {:induction false} BoundQueryStays(q: Ast, auth: Json)
    requires BoundQuery(q)
    ensures BindQuery(q, auth) == q
    decreases q, 1
  {
    if q.where_.Some? {
      BoundConditionStays(q.where_.value, auth);
    }
    if q.related.Related? {
      var hops := q.related.hops;
      forall i | 0 <= i < |hops| ensures BindHops(hops, auth)[i] == hops[i] {
        assert hops[i] in hops;
        BoundHopStays(hops[i], auth);
      }
      assert BindHops(hops, auth) == hops;
    }
  }

  /** So binding twice, to whatever claims, is binding once. */
  lemma FirstBindingWins(q: Ast, auth: Json, other: Json)
    ensures BindQuery(BindQuery(q, auth), other) == BindQuery(q, auth)
  {
    BindingBindsQuery(q, auth);
    BoundQueryStays(BindQuery(q, auth), other);
  }

  // ---- What a bound query means ----------------------------------------------

  /** A side of a comparison as the claims make it: a reference stands for the claim at the end of its path. */
  function Seen(v: ValuePosition, auth: Json): ValuePosition {
    match v
    case Parameter(raw) => Literal(LiteralOf(ParameterValue(raw, auth)))
    case Literal(_) => v
    case Column(_) => v
  }

  /** The meaning that looks every static reference up in the claims. */
  function LookingUp(s: Semantics, auth: Json): Semantics {
    s.(simple := (op, left, right, row) => s.simple(op, Seen(left, auth), Seen(right, auth), row))
  }

  lemma {:induction false} BoundConditionHolds(s: Semantics, db: Database, c: Condition, auth: Json, row: Row)
    ensures Holds(s, db, BindCondition(c, auth), row) == Holds(LookingUp(s, auth), db, c, row)
    decreases c, 0, 0
  {
    match c
    case Simple(_, left, right) =>
      assert BindValue(left, auth) == Seen(left, auth) && BindValue(right, auth) == Seen(right, auth);
    case Subquery(related, _, _, _, _) =>
      BoundRows(s, db, related.subquery, auth, Below(related.correlation, row));
    case _ =>
      var cs, bs := c.conditions, BindConditions(c.conditions, auth);
      forall i | 0 <= i < |cs| ensures Holds(s, db, bs[i], row) == Holds(LookingUp(s, auth), db, cs[i], row) {
        BoundConditionHolds(s, db, cs[i], auth, row);
      }
  }

  lemma {:induction false} BoundSelect(s: Semantics, db: Database, q: Ast, auth: Json, parent: Parent, rows: seq<Row>)
    ensures Select(s, db, BindQuery(q, auth), parent, rows) == Select(LookingUp(s, auth), db, q, parent, rows)
    decreases q, 0, |rows|
  {
    if rows != [] {
      BoundSelect(s, db, q, auth, parent, rows[1..]);
      if q.where_.Some? {
        BoundConditionHolds(s, db, q.where_.value, auth, rows[0]);
      }
    }
  }

  lemma {:induction false} BoundRows(s: Semantics, db: Database, q: Ast, auth: Json, parent: Parent)
    ensures Rows(s, db, BindQuery(q, auth), parent) == Rows(LookingUp(s, auth), db, q, parent)
    decreases q, 1, 0
  {
    BoundSelect(s, db, q, auth, parent, TableRows(db, q.table));
  }

  lemma {:induction false} BoundHops(s: Semantics, db: Database, hops: seq<CorrelatedSubquery>, auth: Json, row: Row)
    ensures RunHops(s, db, BindHops(hops, auth), row) == RunHops(LookingUp(s, auth), db, hops, row)
    decreases hops, 0, 0
  {
    if hops != [] {
      assert BindHops(hops, auth)[1..] == BindHops(hops[1..], auth);
      BoundHops(s, db, hops[1..], auth, row);
      BoundHopRuns(s, db, hops[0], auth, row);
    }
  }

  lemma {:induction false} BoundHopRuns(s: Semantics, db: Database, hop: CorrelatedSubquery, auth: Json, row: Row)
    ensures RunHop(s, db, BindHop(hop, auth), row) == RunHop(LookingUp(s, auth), db, hop, row)
    decreases hop, 0, 0
  {
    BoundQueryMeans(s, db, hop.subquery, auth, Below(hop.correlation, row));
  }

  lemma {:induction false} BoundAttach(s: Semantics, db: Database, q: Ast, auth: Json, rows: seq<Row>)
    ensures Attach(s, db, BindQuery(q, auth), rows) == Attach(LookingUp(s, auth), db, q, rows)
    decreases q, 2, |rows|
  {
    if rows != [] {
      BoundAttach(s, db, q, auth, rows[1..]);
      if q.related.Related? {
        BoundHops(s, db, q.related.hops, auth, rows[0]);
      }
    }
  }

  /** A bound query returns what the query returns when every static reference is looked up in the claims. */
  lemma {:induction false} BoundQueryMeans(s: Semantics, db: Database, q: Ast, auth: Json, parent: Parent)
    ensures Run(s, db, BindQuery(q, auth), parent) == Run(LookingUp(s, auth), db, q, parent)
    decreases q, 3, 0
  {
    BoundRows(s, db, q, auth, parent);
    BoundAttach(s, db, q, auth, Rows(LookingUp(s, auth), db, q, parent));
  }
}
