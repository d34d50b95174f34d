/**
 Row-level read permissions: `crates/zero-cache-auth/src/read_authorizer.rs` and the
 policy model of `crates/zero-cache-auth/src/policy.rs`.

 The select rules of every table a query touches are injected into its conditions, and
 the conditions are simplified.
 */
module ReadAuthorizer {
  import opened Base
  import opened QueryAst
  import opened QuerySemantics

  // ---- Permissions -----------------------------------------------------------

  /** Rules of which at least one must hold. */
  type Policy = seq<Condition>

  datatype UpdatePolicies = UpdatePolicies(preMutation: Option<Policy>, postMutation: Option<Policy>)

  datatype AssetPermissions = AssetPermissions(
    select: Option<Policy>,
    insert: Option<Policy>,
    update: UpdatePolicies,
    delete: Option<Policy>)

  datatype TablePermissions = TablePermissions(
    row: Option<AssetPermissions>,
    cell: Option<map<string, AssetPermissions>>)

  datatype PermissionsConfig = PermissionsConfig(tables: Option<map<string, TablePermissions>>)

  /** The select policy configured for a table's rows, if any. */
  function SelectPolicy(perms: PermissionsConfig, table: string): Option<Policy> {
    if perms.tables.Some? && table in perms.tables.value && perms.tables.value[table].row.Some?
    then perms.tables.value[table].row.value.select
    else None
  }

  /** Whether a row passes a policy; an absent or empty policy denies. */
  predicate PassesPolicy(s: Semantics, db: Database, policy: Option<Policy>, row: Row) {
    policy.Some? && policy.value != [] && exists rule | rule in policy.value :: Holds(s, db, rule, row)
  }

  /** The database a caller may see: each table keeps the rows its select policy passes, judged on the full data. */
  function Visible(s: Semantics, db: Database, perms: PermissionsConfig): Database {
    map table | table in db :: VisibleRows(s, db, SelectPolicy(perms, table), db[table])
  }

  function VisibleRows(s: Semantics, db: Database, policy: Option<Policy>, rows: seq<Row>): seq<Row> {
    if rows == [] then []
    else
      var rest := VisibleRows(s, db, policy, rows[1..]);
      if PassesPolicy(s, db, policy, rows[0]) then [rows[0]] + rest else rest
  }

  // ---- Simplification --------------------------------------------------------

  const TrueCondition := And([])
  const FalseCondition := Or([])

  function SimplifyCondition(c: Condition): Condition
    decreases c, 2
  {
    match c
    case Simple(_, _, _) => c
    case Subquery(_, _, _, _, _) => c
    case And(cs) => SimplifyCompound(true, cs)
    case Or(cs) => SimplifyCompound(false, cs)
  }

  function SimplifyCompound(isAnd: bool, cs: seq<Condition>): Condition
    decreases cs, 1
  {
    if |cs| == 1 then SimplifyCondition(cs[0]) else Rejoin(isAnd, Splice(isAnd, SimplifyAll(cs)))
  }

  function SimplifyAll(cs: seq<Condition>): seq<Condition>
    decreases cs, 0
  {
    seq(|cs|, i requires 0 <= i < |cs| => SimplifyCondition(cs[i]))
  }

  /** Replaces every child of the same junction type by that child's own children. */
  function Splice(isAnd: bool, cs: seq<Condition>): seq<Condition> {
    if cs == [] then [] else Spliced(isAnd, cs[0]) + Splice(isAnd, cs[1..])
  }

  function Spliced(isAnd: bool, c: Condition): seq<Condition> {
    if IsJunction(isAnd, c) then c.conditions else [c]
  }

  function Rejoin(isAnd: bool, flattened: seq<Condition>): Condition {
    if isAnd && FalseCondition in flattened then FalseCondition
    else if !isAnd && TrueCondition in flattened then TrueCondition
    else Junction(isAnd, flattened)
  }

  lemma {:induction false} SpliceAppends(isAnd: bool, cs: seq<Condition>, c: Condition)
    ensures Splice(isAnd, cs + [c]) == Splice(isAnd, cs) + Spliced(isAnd, c)
  {
    if cs != [] {
      SpliceAppends(isAnd, cs[1..], c);
      assert (cs + [c])[1..] == cs[1..] + [c];
    }
  }

  /** Simplifies a condition in place, collecting the flattened children of a junction one by one. */
  method Simplify(c: Condition) returns (simple: Condition)
    ensures simple == SimplifyCondition(c)
    decreases c, 2
  {
    match c {
      case And(cs) => simple := SimplifyChildren(true, cs);
      case Or(cs) => simple := SimplifyChildren(false, cs);
      case _ => simple := c;
    }
  }

  method SimplifyChildren(isAnd: bool, cs: seq<Condition>) returns (simple: Condition)
    ensures simple == SimplifyCompound(isAnd, cs)
    decreases cs, 1
  {
    if |cs| == 1 {
      simple := Simplify(cs[0]);
      return;
    }
    var flattened: seq<Condition> := [];
    var i := 0;
    while i < |cs|
      invariant 0 <= i <= |cs|
      invariant flattened == Splice(isAnd, SimplifyAll(cs)[..i])
    {
      var child := Simplify(cs[i]);
      SpliceAppends(isAnd, SimplifyAll(cs)[..i], child);
      assert SimplifyAll(cs)[..i + 1] == SimplifyAll(cs)[..i] + [child];
      if IsJunction(isAnd, child) {
        flattened := flattened + child.conditions;
      } else {
        flattened := flattened + [child];
      }
      i := i + 1;
    }
    assert SimplifyAll(cs)[..i] == SimplifyAll(cs);
    if isAnd && FalseCondition in flattened {
      simple := FalseCondition;
    } else if !isAnd && TrueCondition in flattened {
      simple := TrueCondition;
    } else {
      simple := Junction(isAnd, flattened);
    }
  }

  // ---- Injecting the rules ---------------------------------------------------

  function TransformQuery(q: Ast, perms: PermissionsConfig): Ast
    decreases q, 1
  {
    var where_ := if q.where_.Some? then Some(TransformCondition(q.where_.value, perms)) else None;
    q.(where_ := Some(SimplifyCondition(AddRulesToWhere(where_, SelectPolicy(perms, q.table)))),
       related := if q.related.Related? then Related(TransformHops(q.related.hops, perms)) else NoRelated)
  }

  function TransformHops(hops: seq<CorrelatedSubquery>, perms: PermissionsConfig): seq<CorrelatedSubquery>
    decreases hops, 0
  {
    seq(|hops|, i requires 0 <= i < |hops| => TransformHop(hops[i], perms))
  }

  function TransformHop(hop: CorrelatedSubquery, perms: PermissionsConfig): CorrelatedSubquery
    decreases hop, 0
  {
    hop.(subquery := TransformQuery(hop.subquery, perms))
  }

  function AddRulesToWhere(where_: Option<Condition>, rules: Option<Policy>): Condition {
    And((if where_.Some? then [where_.value] else []) + [Or(if rules.Some? then rules.value else [])])
  }

  function TransformCondition(c: Condition, perms: PermissionsConfig): Condition
    decreases c, 1
  {
    match c
    case Simple(_, _, _) => c
    case And(cs) => And(TransformConditions(cs, perms))
    case Or(cs) => Or(TransformConditions(cs, perms))
    case Subquery(related, _, _, _, _) =>
      c.(related := TransformHop(related, perms))
  }

  function TransformConditions(cs: seq<Condition>, perms: PermissionsConfig): seq<Condition>
    decreases cs, 0
  {
    seq(|cs|, i requires 0 <= i < |cs| => TransformCondition(cs[i], perms))
  }

  // ---- Simplification preserves meaning --------------------------------------

  lemma {:induction false} SplicePreservesMeaning(s: Semantics, db: Database, isAnd: bool, cs: seq<Condition>, row: Row)
    ensures Holds(s, db, Junction(isAnd, Splice(isAnd, cs)), row) == Holds(s, db, Junction(isAnd, cs), row)
  {
    if cs != [] {
      SplicePreservesMeaning(s, db, isAnd, cs[1..], row);
      JunctionOfConcat(s, db, isAnd, Spliced(isAnd, cs[0]), Splice(isAnd, cs[1..]), row);
      assert cs == [cs[0]] + cs[1..];
      JunctionOfConcat(s, db, isAnd, [cs[0]], cs[1..], row);
    }
  }

  lemma RejoinPreservesMeaning(s: Semantics, db: Database, isAnd: bool, flat: seq<Condition>, row: Row)
    ensures Holds(s, db, Rejoin(isAnd, flat), row) == Holds(s, db, Junction(isAnd, flat), row)
  {
    assert !Holds(s, db, FalseCondition, row) && Holds(s, db, TrueCondition, row);
  }

  /** Simplifying a condition never changes which rows it accepts, on any database. */
  lemma {:induction false} SimplifyPreservesMeaning(s: Semantics, db: Database, c: Condition, row: Row)
    ensures Holds(s, db, SimplifyCondition(c), row) == Holds(s, db, c, row)
  {
    if c.And? || c.Or? {
      var cs, simple := c.conditions, SimplifyAll(c.conditions);
      forall i | 0 <= i < |cs|
        ensures Holds(s, db, simple[i], row) == Holds(s, db, cs[i], row)
      {
        SimplifyPreservesMeaning(s, db, cs[i], row);
      }
      if |cs| != 1 {
        SplicePreservesMeaning(s, db, c.And?, simple, row);
        RejoinPreservesMeaning(s, db, c.And?, Splice(c.And?, simple), row);
      }
    }
  }

  /** No junction directly inside one of its own type, and no constant anywhere but at the root. */
  predicate Tidy(c: Condition) {
    match c
    case And(cs) => forall c' | c' in cs :: !c'.And? && c' != FalseCondition && Tidy(c')
    case Or(cs) => forall c' | c' in cs :: !c'.Or? && c' != TrueCondition && Tidy(c')
    case _ => true
  }

  lemma {:induction false} SpliceIsTidy(isAnd: bool, cs: seq<Condition>)
    requires forall c | c in cs :: Tidy(c)
    ensures forall c | c in Splice(isAnd, cs) :: !IsJunction(isAnd, c) && Tidy(c)
  {
    if cs != [] {
      SpliceIsTidy(isAnd, cs[1..]);
      assert forall c :: c in Splice(isAnd, cs) <==> c in Spliced(isAnd, cs[0]) || c in Splice(isAnd, cs[1..]);
      assert Tidy(cs[0]);
    }
  }

  lemma {:induction false} SimplifyIsTidy(c: Condition)
    ensures Tidy(SimplifyCondition(c))
  {
    if c.And? || c.Or? {
      var cs, simple := c.conditions, SimplifyAll(c.conditions);
      forall i | 0 <= i < |cs|
        ensures Tidy(simple[i])
      {
        SimplifyIsTidy(cs[i]);
      }
      SpliceIsTidy(c.And?, simple);
    }
  }

  // ---- The transformed query sees exactly the visible database ---------------

  /** The rules added to a condition accept a row exactly when the condition and the select policy do. */
  lemma AddedRulesHold(s: Semantics, db: Database, where_: Option<Condition>, rules: Option<Policy>, row: Row)
    ensures Holds(s, db, SimplifyCondition(AddRulesToWhere(where_, rules)), row)
        <==> WhereHolds(s, db, where_, row) && PassesPolicy(s, db, rules, row)
  {
    var rule := Or(if rules.Some? then rules.value else []);
    var added := AddRulesToWhere(where_, rules);
    SimplifyPreservesMeaning(s, db, added, row);
    JunctionOfConcat(s, db, true, if where_.Some? then [where_.value] else [], [rule], row);
    assert Holds(s, db, And([rule]), row) == Holds(s, db, rule, row);
  }

  lemma {:induction false} ConditionOnVisible(s: Semantics, db: Database, perms: PermissionsConfig, c: Condition, row: Row)
    ensures Holds(s, db, TransformCondition(c, perms), row) == Holds(s, Visible(s, db, perms), c, row)
    decreases c, 0, 0
  {
    match c
    case Simple(_, _, _) =>
    case Subquery(related, _, _, _, _) =>
      RowsOnVisible(s, db, perms, related.subquery, Below(related.correlation, row));
    case _ =>
      var cs, ts := c.conditions, TransformConditions(c.conditions, perms);
      forall i | 0 <= i < |cs|
        ensures Holds(s, db, ts[i], row) == Holds(s, Visible(s, db, perms), cs[i], row)
      {
        ConditionOnVisible(s, db, perms, cs[i], row);
      }
  }

  lemma {:induction false} SelectOnVisible(s: Semantics, db: Database, perms: PermissionsConfig, q: Ast, parent: Parent, rows: seq<Row>)
    ensures Select(s, db, TransformQuery(q, perms), parent, rows)
         == Select(s, Visible(s, db, perms), q, parent, VisibleRows(s, db, SelectPolicy(perms, q.table), rows))
    decreases q, 0, |rows|
  {
    if rows != [] {
      SelectOnVisible(s, db, perms, q, parent, rows[1..]);
      var where_ := if q.where_.Some? then Some(TransformCondition(q.where_.value, perms)) else None;
      AddedRulesHold(s, db, where_, SelectPolicy(perms, q.table), rows[0]);
      if q.where_.Some? {
        ConditionOnVisible(s, db, perms, q.where_.value, rows[0]);
      }
    }
  }

  lemma {:induction false} RowsOnVisible(s: Semantics, db: Database, perms: PermissionsConfig, q: Ast, parent: Parent)
    ensures Rows(s, db, TransformQuery(q, perms), parent) == Rows(s, Visible(s, db, perms), q, parent)
    decreases q, 1, 0
  {
    SelectOnVisible(s, db, perms, q, parent, TableRows(db, q.table));
  }

  lemma {:induction false} HopsOnVisible(s: Semantics, db: Database, perms: PermissionsConfig, hops: seq<CorrelatedSubquery>, row: Row)
    ensures RunHops(s, db, TransformHops(hops, perms), row) == RunHops(s, Visible(s, db, perms), hops, row)
    decreases hops, 0, 0
  {
    if hops != [] {
      assert TransformHops(hops, perms)[1..] == TransformHops(hops[1..], perms);
      HopsOnVisible(s, db, perms, hops[1..], row);
      HopOnVisible(s, db, perms, hops[0], row);
    }
  }

  lemma {:induction false} HopOnVisible(s: Semantics, db: Database, perms: PermissionsConfig, hop: CorrelatedSubquery, row: Row)
    ensures RunHop(s, db, TransformHop(hop, perms), row) == RunHop(s, Visible(s, db, perms), hop, row)
    decreases hop, 0, 0
  {
    TransformedQuerySeesVisible(s, db, perms, hop.subquery, Below(hop.correlation, row));
  }

  lemma {:induction false} AttachOnVisible(s: Semantics, db: Database, perms: PermissionsConfig, q: Ast, rows: seq<Row>)
    ensures Attach(s, db, TransformQuery(q, perms), rows) == Attach(s, Visible(s, db, perms), q, rows)
    decreases q, 2, |rows|
  {
    if rows != [] {
      AttachOnVisible(s, db, perms, q, rows[1..]);
      if q.related.Related? {
        HopsOnVisible(s, db, perms, q.related.hops, rows[0]);
      }
    }
  }

  /**
   The permission transform is exact: run on the full data, the transformed query returns
   what the original query returns on the data the caller may see. Root rows, related rows
   and the rows EXISTS and NOT EXISTS look at are all covered.
   */
  lemma {:induction false} TransformedQuerySeesVisible(s: Semantics, db: Database, perms: PermissionsConfig, q: Ast, parent: Parent)
    ensures Run(s, db, TransformQuery(q, perms), parent) == Run(s, Visible(s, db, perms), q, parent)
    decreases q, 3, 0
  {
    RowsOnVisible(s, db, perms, q, parent);
    AttachOnVisible(s, db, perms, q, Rows(s, Visible(s, db, perms), q, parent));
  }
}
