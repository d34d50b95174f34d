/**
 The query syntax tree a client sends and the server rewrites: the data model of
 `crates/zero-cache-protocol/src/ast.rs` over the JSON values of
 `crates/zero-cache-shared/src/bigint_json.rs`.

 Floating-point numbers are exact reals.
 */
module QueryAst {
  import opened Base

  datatype Json =
    | JNull
    | JBool(b: bool)
    | JNumber(n: real)
    | JBigInt(i: int)
    | JString(s: string)
    | JArray(items: seq<Json>)
    | JObject(fields: seq<(string, Json)>)

  /** The value of the first field of that name. */
  function FindField(fields: seq<(string, Json)>, name: string): (found: Option<Json>)
    ensures found.Some? ==> exists i :: 0 <= i < |fields| && fields[i] == (name, found.value)
  {
    if fields == [] then None
    else if fields[0].0 == name then assert fields[0] == (name, fields[0].1); Some(fields[0].1)
    else
      var found := FindField(fields[1..], name);
      assert found.Some? ==> exists i :: 0 < i < |fields| && fields[i] == (name, found.value) by {
        if found.Some? {
          var i :| 0 <= i < |fields[1..]| && fields[1..][i] == (name, found.value);
          assert fields[i + 1] == (name, found.value);
        }
      }
      found
  }

  /** The first field of that name, when the value is an object. */
  function ObjectField(value: Json, name: string): Option<Json> {
    if value.JObject? then FindField(value.fields, name) else None
  }

  datatype System = Permissions | Client | Test

  datatype SimpleOperator =
    | Eq | Ne | Is | IsNot | Lt | Gt | Le | Ge
    | Like | NotLike | ILike | NotILike | In | NotIn

  datatype LiteralValue =
    | LString(s: string)
    | LNumber(n: real)
    | LBool(b: bool)
    | LNull
    | LArray(items: seq<LiteralValue>)

  /** One side of a comparison. A `Parameter` is a static reference still to be bound. */
  datatype ValuePosition =
    | Literal(value: LiteralValue)
    | Column(name: string)
    | Parameter(raw: Json)

  datatype Direction = Asc | Desc

  type Ordering = seq<(string, Direction)>

  datatype Bound = Bound(row: Json, exclusive: bool)

  datatype Correlation = Correlation(parentField: seq<string>, childField: seq<string>)

  datatype ExistsOp = Exists | NotExists

  datatype CorrelatedSubquery = CorrelatedSubquery(
    correlation: Correlation,
    subquery: Ast,
    system: Option<System>,
    hidden: Option<bool>)

  datatype Condition =
    | Simple(op: SimpleOperator, left: ValuePosition, right: ValuePosition)
    | And(conditions: seq<Condition>)
    | Or(conditions: seq<Condition>)
    | Subquery(
        related: CorrelatedSubquery,
        existsOp: ExistsOp,
        flip: Option<bool>,
        scalar: Option<bool>,
        planId: Option<int>)

  /** A conjunction or a disjunction. */
  function Junction(isAnd: bool, cs: seq<Condition>): Condition {
    if isAnd then And(cs) else Or(cs)
  }

  predicate IsJunction(isAnd: bool, c: Condition) {
    if isAnd then c.And? else c.Or?
  }

  /** The optional list of related hops; absent and empty are different syntax. */
  datatype RelatedHops = NoRelated | Related(hops: seq<CorrelatedSubquery>)

  datatype Ast = Ast(
    schema: Option<string>,
    table: string,
    alias: Option<string>,
    where_: Option<Condition>,
    related: RelatedHops,
    start: Option<Bound>,
    limit: Option<real>,
    orderBy: Option<Ordering>)

  /** A query that only names a table. */
  function TableQuery(table: string): Ast {
    Ast(None, table, None, None, NoRelated, None, None, None)
  }

  /** The wire string of an operator. */
  function OperatorString(op: SimpleOperator): string {
    match op
    case Eq => "="
    case Ne => "!="
    case Is => "IS"
    case IsNot => "IS NOT"
    case Lt => "<"
    case Gt => ">"
    case Le => "<="
    case Ge => ">="
    case Like => "LIKE"
    case NotLike => "NOT LIKE"
    case ILike => "ILIKE"
    case NotILike => "NOT ILIKE"
    case In => "IN"
    case NotIn => "NOT IN"
  }

  /** Parses the wire string of an operator. */
  function OperatorFromString(s: string): Option<SimpleOperator> {
    if s == "=" then Some(Eq)
    else if s == "!=" then Some(Ne)
    else if s == "IS" then Some(Is)
    else if s == "IS NOT" then Some(IsNot)
    else if s == "<" then Some(Lt)
    else if s == ">" then Some(Gt)
    else if s == "<=" then Some(Le)
    else if s == ">=" then Some(Ge)
    else if s == "LIKE" then Some(Like)
    else if s == "NOT LIKE" then Some(NotLike)
    else if s == "ILIKE" then Some(ILike)
    else if s == "NOT ILIKE" then Some(NotILike)
    else if s == "IN" then Some(In)
    else if s == "NOT IN" then Some(NotIn)
    else None
  }

  /** The wire strings of operators are distinct and parse back. */
  lemma OperatorRoundTrip(op: SimpleOperator)
    ensures OperatorFromString(OperatorString(op)) == Some(op)
  {
    var s := OperatorString(op);
    assert |s| == 1 ==> s[0] == '=' || s[0] == '<' || s[0] == '>';
  }
}
