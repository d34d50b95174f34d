/**
 What a query means: a denotational evaluator over a database of tables.

 The row predicate of a simple comparison, the join test of a correlation and the
 order/start/limit window are parameters, so everything proved about `Run` holds for
 every choice of them. `And`, `Or` and EXISTS / NOT EXISTS follow
 `create_predicate_with_exists` of `crates/zero-cache-zql/src/builder/filter.rs`.
 */
module QuerySemantics {
  import opened Base
  import opened QueryAst

  type Row = seq<(string, Json)>

  type Database = map<string, seq<Row>>

  datatype Semantics = Semantics(
    simple: (SimpleOperator, ValuePosition, ValuePosition, Row) -> bool,
    joins: (Correlation, Row, Row) -> bool,
    window: (Option<Bound>, Option<real>, Option<Ordering>, seq<Row>) -> seq<Row>)

  /** Where a query runs: at the root, or below a parent row through a correlation. */
  datatype Parent = Root | Below(correlation: Correlation, row: Row)

  /** A result row with what each related hop found for it. Hops are looked up by alias, so their order carries no meaning. */
  datatype Node = Node(row: Row, hops: multiset<Hop>)

  datatype Hop = Hop(alias: Option<string>, hidden: Option<bool>, system: Option<System>, nodes: seq<Node>)

  function TableRows(db: Database, table: string): seq<Row> {
    if table in db then db[table] else []
  }

  predicate Joins(s: Semantics, parent: Parent, row: Row) {
    parent.Below? ==> s.joins(parent.correlation, parent.row, row)
  }

  predicate Holds(s: Semantics, db: Database, c: Condition, row: Row)
    decreases c, 0, 0
  {
    match c
    case Simple(op, left, right) => s.simple(op, left, right, row)
    case And(cs) => forall c' | c' in cs :: Holds(s, db, c', row)
    case Or(cs) => exists c' | c' in cs :: Holds(s, db, c', row)
    case Subquery(related, op, _, _, _) =>
      var found := Rows(s, db, related.subquery, Below(related.correlation, row)) != [];
      if op.Exists? then found else !found
  }

  predicate WhereHolds(s: Semantics, db: Database, where_: Option<Condition>, row: Row)
    decreases where_, 1, 0
  {
    where_.Some? ==> Holds(s, db, where_.value, row)
  }

  /** The rows among `rows` that join the parent and pass the query's condition. */
  function Select(s: Semantics, db: Database, q: Ast, parent: Parent, rows: seq<Row>): (kept: seq<Row>)
    decreases q, 0, |rows|
  {
    if rows == [] then []
    else
      var rest := Select(s, db, q, parent, rows[1..]);
      if Joins(s, parent, rows[0]) && WhereHolds(s, db, q.where_, rows[0]) then [rows[0]] + rest else rest
  }

  /** The rows of a query before its related hops are attached. */
  function Rows(s: Semantics, db: Database, q: Ast, parent: Parent): seq<Row>
    decreases q, 1, 0
  {
    s.window(q.start, q.limit, q.orderBy, Select(s, db, q, parent, TableRows(db, q.table)))
  }

  /** The whole result of a query: its rows, each with the results of its related hops. */
  function Run(s: Semantics, db: Database, q: Ast, parent: Parent): seq<Node>
    decreases q, 3, 0
  {
    Attach(s, db, q, Rows(s, db, q, parent))
  }

  function Attach(s: Semantics, db: Database, q: Ast, rows: seq<Row>): seq<Node>
    decreases q, 2, |rows|
  {
    if rows == [] then []
    else
      var hops := if q.related.Related? then RunHops(s, db, q.related.hops, rows[0]) else multiset{};
      [Node(rows[0], hops)] + Attach(s, db, q, rows[1..])
  }

  function RunHops(s: Semantics, db: Database, hops: seq<CorrelatedSubquery>, row: Row): multiset<Hop>
    decreases hops, 0, 0
  {
    if hops == [] then multiset{}
    else multiset{RunHop(s, db, hops[0], row)} + RunHops(s, db, hops[1..], row)
  }

  function RunHop(s: Semantics, db: Database, hop: CorrelatedSubquery, row: Row): Hop
    decreases hop, 0, 0
  {
    Hop(hop.subquery.alias, hop.hidden, hop.system, Run(s, db, hop.subquery, Below(hop.correlation, row)))
  }

  /** Appending the children of two junctions combines their truth values. */
  lemma JunctionOfConcat(s: Semantics, db: Database, isAnd: bool, a: seq<Condition>, b: seq<Condition>, row: Row)
    ensures Holds(s, db, Junction(isAnd, a + b), row)
         == if isAnd
            then Holds(s, db, And(a), row) && Holds(s, db, And(b), row)
            else Holds(s, db, Or(a), row) || Holds(s, db, Or(b), row)
  {
    assert forall c :: c in a + b <==> c in a || c in b;
  }
}
