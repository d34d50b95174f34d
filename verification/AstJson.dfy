/**
 The wire form of a query: `ast_to_json` and `ast_from_json` of
 `crates/zero-cache-protocol/src/ast_json.rs`. A decoding error is `None`; its message
 is not modelled.
 */
module AstJson {
  import opened Base
  import opened QueryAst

  // ---- Encoding --------------------------------------------------------------

  /** The object fields that are present, in order. */
  function Present(spec: seq<(string, Option<Json>)>): seq<(string, Json)> {
    if spec == [] then []
    else if spec[0].1.Some? then [(spec[0].0, spec[0].1.value)] + Present(spec[1..])
    else Present(spec[1..])
  }

  function OptionalString(s: Option<string>): Option<Json> {
    if s.Some? then Some(JString(s.value)) else None
  }

  function OptionalBool(b: Option<bool>): Option<Json> {
    if b.Some? then Some(JBool(b.value)) else None
  }

  function StringsToJson(names: seq<string>): Json {
    JArray(seq(|names|, i requires 0 <= i < |names| => JString(names[i])))
  }

  function DirectionString(d: Direction): string {
    if d.Asc? then "asc" else "desc"
  }

  function OrderingToJson(o: Ordering): Json {
    JArray(seq(|o|, i requires 0 <= i < |o| => JArray([JString(o[i].0), JString(DirectionString(o[i].1))])))
  }

  function SystemString(s: System): string {
    match s
    case Permissions => "permissions"
    case Client => "client"
    case Test => "test"
  }

  function SystemToJson(system: Option<System>): Option<Json> {
    if system.Some? then Some(JString(SystemString(system.value))) else None
  }

  function ExistsString(op: ExistsOp): string {
    if op.Exists? then "EXISTS" else "NOT EXISTS"
  }

  function LiteralToJson(v: LiteralValue): Json
    decreases v, 1
  {
    match v
    case LString(s) => JString(s)
    case LNumber(n) => JNumber(n)
    case LBool(b) => JBool(b)
    case LNull => JNull
    case LArray(items) => JArray(LiteralsToJson(items))
  }

  function LiteralsToJson(items: seq<LiteralValue>): seq<Json>
    decreases items, 0
  {
    if items == [] then [] else [LiteralToJson(items[0])] + LiteralsToJson(items[1..])
  }

  function PositionToJson(v: ValuePosition): Json {
    match v
    case Literal(l) => JObject([("type", JString("literal")), ("value", LiteralToJson(l))])
    case Column(name) => JObject([("type", JString("column")), ("name", JString(name))])
    case Parameter(raw) => raw
  }

  function ConditionToJson(c: Condition): Json
    decreases c, 1
  {
    match c
    case Simple(op, left, right) =>
      JObject([("type", JString("simple")), ("op", JString(OperatorString(op))),
               ("left", PositionToJson(left)), ("right", PositionToJson(right))])
    case And(cs) => JObject([("type", JString("and")), ("conditions", JArray(ConditionsToJson(cs)))])
    case Or(cs) => JObject([("type", JString("or")), ("conditions", JArray(ConditionsToJson(cs)))])
    case Subquery(related, op, flip, scalar, _) => JObject(Present(SubquerySpec(related, op, flip, scalar)))
  }

  function SubquerySpec(related: CorrelatedSubquery, op: ExistsOp, flip: Option<bool>, scalar: Option<bool>): seq<(string, Option<Json>)>
    decreases related, 2
  {
    [("type", Some(JString("correlatedSubquery"))), ("related", Some(HopToJson(related))),
     ("op", Some(JString(ExistsString(op)))), ("flip", OptionalBool(flip)), ("scalar", OptionalBool(scalar))]
  }

  function ConditionsToJson(cs: seq<Condition>): seq<Json>
    decreases cs, 0
  {
    if cs == [] then [] else [ConditionToJson(cs[0])] + ConditionsToJson(cs[1..])
  }

  function HopToJson(hop: CorrelatedSubquery): Json
    decreases hop, 1
  {
    JObject(Present(HopSpec(hop)))
  }

  function HopSpec(hop: CorrelatedSubquery): seq<(string, Option<Json>)>
    decreases hop, 0
  {
    [("correlation", Some(CorrelationToJson(hop.correlation))), ("hidden", OptionalBool(hop.hidden)),
     ("subquery", Some(QueryToJson(hop.subquery))),
     ("system", SystemToJson(hop.system))]
  }

  function CorrelationToJson(c: Correlation): Json {
    JObject([("parentField", StringsToJson(c.parentField)), ("childField", StringsToJson(c.childField))])
  }

  function HopsToJson(hops: seq<CorrelatedSubquery>): seq<Json>
    decreases hops, 0
  {
    if hops == [] then [] else [HopToJson(hops[0])] + HopsToJson(hops[1..])
  }

  function BoundToJson(b: Bound): Json {
    JObject([("row", b.row), ("exclusive", JBool(b.exclusive))])
  }

  function QueryToJson(q: Ast): Json
    decreases q, 1
  {
    JObject(Present(QuerySpec(q)))
  }

  function QuerySpec(q: Ast): seq<(string, Option<Json>)>
    decreases q, 0
  {
    [("schema", OptionalString(q.schema)),
     ("table", Some(JString(q.table))),
     ("alias", OptionalString(q.alias)),
     ("where", if q.where_.Some? then Some(ConditionToJson(q.where_.value)) else None),
     ("related", if q.related.Related? then Some(JArray(HopsToJson(q.related.hops))) else None),
     ("start", StartToJson(q.start)),
     ("limit", LimitToJson(q.limit)),
     ("orderBy", OrderByToJson(q.orderBy))]
  }

  function StartToJson(start: Option<Bound>): Option<Json> {
    if start.Some? then Some(BoundToJson(start.value)) else None
  }

  function LimitToJson(limit: Option<real>): Option<Json> {
    if limit.Some? then Some(JNumber(limit.value)) else None
  }

  function OrderByToJson(orderBy: Option<Ordering>): Option<Json> {
    if orderBy.Some? then Some(OrderingToJson(orderBy.value)) else None
  }

  // ---- Decoding --------------------------------------------------------------

  function AsString(v: Json): Option<string> {
    if v.JString? then Some(v.s) else None
  }

  function StringAt(fields: seq<(string, Json)>, key: string): Option<string> {
    var v :- FindField(fields, key);
    AsString(v)
  }

  /** An optional field: absent is fine, present must be a string. */
  function MaybeString(field: Option<Json>): Option<Option<string>> {
    match field
    case None => Some(None)
    case Some(JString(s)) => Some(Some(s))
    case _ => None
  }

  function MaybeBool(field: Option<Json>): Option<Option<bool>> {
    match field
    case None => Some(None)
    case Some(JBool(b)) => Some(Some(b))
    case _ => None
  }

  function StringsFromJson(items: seq<Json>): Option<seq<string>> {
    if forall v | v in items :: v.JString?
    then Some(seq(|items|, i requires 0 <= i < |items| => assert items[i] in items; items[i].s))
    else None
  }

  /** A compound key: a non-empty array of strings. */
  function KeyFromJson(v: Json): Option<seq<string>> {
    if v.JArray? && v.items != [] then StringsFromJson(v.items) else None
  }

  function DirectionFromString(s: string): Option<Direction> {
    if s == "asc" then Some(Asc) else if s == "desc" then Some(Desc) else None
  }

  function OrderPartFromJson(v: Json): Option<(string, Direction)> {
    if v.JArray? && |v.items| == 2 && v.items[0].JString? && v.items[1].JString? then
      var d :- DirectionFromString(v.items[1].s);
      Some((v.items[0].s, d))
    else None
  }

  function OrderingFromJson(items: seq<Json>): Option<Ordering> {
    if items == [] then Some([])
    else
      var first :- OrderPartFromJson(items[0]);
      var rest :- OrderingFromJson(items[1..]);
      Some([first] + rest)
  }

  function SystemFromString(s: string): Option<System> {
    if s == "permissions" then Some(Permissions)
    else if s == "client" then Some(Client)
    else if s == "test" then Some(Test)
    else None
  }

  function ExistsFromString(s: string): Option<ExistsOp> {
    if s == "EXISTS" then Some(Exists) else if s == "NOT EXISTS" then Some(NotExists) else None
  }

  function LiteralFromJson(v: Json): Option<LiteralValue>
    decreases v, 1
  {
    match v
    case JNull => Some(LNull)
    case JBool(b) => Some(LBool(b))
    case JNumber(n) => Some(LNumber(n))
    case JString(s) => Some(LString(s))
    case JArray(items) =>
      var ls :- LiteralsFromJson(items);
      Some(LArray(ls))
    case _ => None
  }

  function LiteralsFromJson(items: seq<Json>): Option<seq<LiteralValue>>
    decreases items, 0
  {
    if items == [] then Some([])
    else
      var first :- LiteralFromJson(items[0]);
      var rest :- LiteralsFromJson(items[1..]);
      Some([first] + rest)
  }

  function PositionFromJson(v: Json): Option<ValuePosition> {
    if !v.JObject? then None
    else
      var kind :- StringAt(v.fields, "type");
      if kind == "literal" then
        var value :- FindField(v.fields, "value");
        var l :- LiteralFromJson(value);
        Some(Literal(l))
      else if kind == "column" then
        var name :- StringAt(v.fields, "name");
        Some(Column(name))
      else if kind == "static" then Some(Parameter(v))
      else None
  }

  function ConditionFromJson(v: Json): Option<Condition>
    decreases v, 1
  {
    if !v.JObject? then None
    else
      var kind :- StringAt(v.fields, "type");
      if kind == "simple" then SimpleFromFields(v.fields)
      else if kind == "and" then JunctionAt(v, true, FindField(v.fields, "conditions"))
      else if kind == "or" then JunctionAt(v, false, FindField(v.fields, "conditions"))
      else if kind == "correlatedSubquery" then
        AssembleSubquery(
          HopAt(v, FindField(v.fields, "related")),
          StringAt(v.fields, "op"),
          MaybeBool(FindField(v.fields, "flip")),
          MaybeBool(FindField(v.fields, "scalar")))
      else None
  }

  function SimpleFromFields(fields: seq<(string, Json)>): Option<Condition> {
    var opString :- StringAt(fields, "op");
    var op :- OperatorFromString(opString);
    var l :- FindField(fields, "left");
    var left :- PositionFromJson(l);
    var r :- FindField(fields, "right");
    var right :- PositionFromJson(r);
    Some(Simple(op, left, right))
  }

  function JunctionAt(ghost v: Json, isAnd: bool, field: Option<Json>): Option<Condition>
    requires field.Some? ==> field.value < v
    decreases v, 0
  {
    if field.None? || !field.value.JArray? then None
    else
      var cs :- ConditionsFromJson(field.value.items);
      Some(Junction(isAnd, cs))
  }

  function HopAt(ghost v: Json, field: Option<Json>): Option<CorrelatedSubquery>
    requires field.Some? ==> field.value < v
    decreases v, 0
  {
    var hop :- field;
    HopFromJson(hop)
  }

  /** Plan ids are not part of the wire form. */
  function AssembleSubquery(related: Option<CorrelatedSubquery>, opString: Option<string>,
                            flip: Option<Option<bool>>, scalar: Option<Option<bool>>): Option<Condition>
  {
    var hop :- related;
    var s :- opString;
    var op :- ExistsFromString(s);
    var f :- flip;
    var sc :- scalar;
    Some(Subquery(hop, op, f, sc, None))
  }

  function ConditionsFromJson(items: seq<Json>): Option<seq<Condition>>
    decreases items, 0
  {
    if items == [] then Some([])
    else
      var first :- ConditionFromJson(items[0]);
      var rest :- ConditionsFromJson(items[1..]);
      Some([first] + rest)
  }

  function HopFromJson(v: Json): Option<CorrelatedSubquery>
    decreases v, 1
  {
    if !v.JObject? then None
    else
      AssembleHop(
        CorrelationAt(FindField(v.fields, "correlation")),
        QueryAt(v, FindField(v.fields, "subquery")),
        SystemAt(FindField(v.fields, "system")),
        MaybeBool(FindField(v.fields, "hidden")))
  }

  function AssembleHop(correlation: Option<Correlation>, subquery: Option<Ast>,
                       system: Option<Option<System>>, hidden: Option<Option<bool>>): Option<CorrelatedSubquery>
  {
    if correlation.None? || subquery.None? || system.None? || hidden.None? then None
    else Some(CorrelatedSubquery(correlation.value, subquery.value, system.value, hidden.value))
  }

  function CorrelationAt(field: Option<Json>): Option<Correlation> {
    var v :- field;
    CorrelationFromJson(v)
  }

  function QueryAt(ghost v: Json, field: Option<Json>): Option<Ast>
    requires field.Some? ==> field.value < v
    decreases v, 0
  {
    var sub :- field;
    QueryFromJson(sub)
  }

  function SystemAt(field: Option<Json>): Option<Option<System>> {
    match field
    case None => Some(None)
    case Some(JString(s)) =>
      var system :- SystemFromString(s);
      Some(Some(system))
    case _ => None
  }

  function CorrelationFromJson(v: Json): Option<Correlation> {
    if !v.JObject? then None
    else
      var parentJson :- FindField(v.fields, "parentField");
      var parentField :- KeyFromJson(parentJson);
      var childJson :- FindField(v.fields, "childField");
      var childField :- KeyFromJson(childJson);
      Some(Correlation(parentField, childField))
  }

  function HopsFromJson(items: seq<Json>): Option<seq<CorrelatedSubquery>>
    decreases items, 0
  {
    if items == [] then Some([])
    else
      var first :- HopFromJson(items[0]);
      var rest :- HopsFromJson(items[1..]);
      Some([first] + rest)
  }

  function BoundFromJson(v: Json): Option<Bound> {
    if !v.JObject? then None
    else
      var row :- FindField(v.fields, "row");
      var exclusive :- FindField(v.fields, "exclusive");
      if exclusive.JBool? then Some(Bound(row, exclusive.b)) else None
  }

  function QueryFromJson(v: Json): Option<Ast>
    decreases v, 1
  {
    if !v.JObject? then None
    else
      AssembleQuery(
        MaybeString(FindField(v.fields, "schema")),
        StringAt(v.fields, "table"),
        MaybeString(FindField(v.fields, "alias")),
        WhereAt(v, FindField(v.fields, "where")),
        RelatedAt(v, FindField(v.fields, "related")),
        StartFromField(FindField(v.fields, "start")),
        LimitFromField(FindField(v.fields, "limit")),
        OrderByFromField(FindField(v.fields, "orderBy")))
  }

  function AssembleQuery(
    schema: Option<Option<string>>, table: Option<string>, alias: Option<Option<string>>,
    where_: Option<Option<Condition>>, related: Option<RelatedHops>,
    start: Option<Option<Bound>>, limit: Option<Option<real>>, orderBy: Option<Option<Ordering>>): Option<Ast>
  {
    if schema.None? || table.None? || alias.None? || where_.None? || related.None? || start.None? || limit.None? || orderBy.None?
    then None
    else Some(Ast(schema.value, table.value, alias.value, where_.value, related.value, start.value, limit.value, orderBy.value))
  }

  function WhereAt(ghost v: Json, field: Option<Json>): Option<Option<Condition>>
    requires field.Some? ==> field.value < v
    decreases v, 0
  {
    if field.None? then Some(None)
    else
      var c :- ConditionFromJson(field.value);
      Some(Some(c))
  }

  function RelatedAt(ghost v: Json, field: Option<Json>): Option<RelatedHops>
    requires field.Some? ==> field.value < v
    decreases v, 0
  {
    if field.None? then Some(NoRelated)
    else if !field.value.JArray? then None
    else
      var hops :- HopsFromJson(field.value.items);
      Some(Related(hops))
  }

  function StartFromField(field: Option<Json>): Option<Option<Bound>> {
    if field.None? then Some(None)
    else
      var b :- BoundFromJson(field.value);
      Some(Some(b))
  }

  function LimitFromField(field: Option<Json>): Option<Option<real>> {
    match field
    case None => Some(None)
    case Some(JNumber(n)) => Some(Some(n))
    case _ => None
  }

  function OrderByFromField(field: Option<Json>): Option<Option<Ordering>> {
    match field
    case None => Some(None)
    case Some(JArray(items)) =>
      var o :- OrderingFromJson(items);
      Some(Some(o))
    case _ => None
  }

  // ---- What survives the wire ------------------------------------------------

  /** A static reference must carry its own type tag: it is sent as it is. */
  predicate EncodablePosition(v: ValuePosition) {
    v.Parameter? ==> v.raw.JObject? && FindField(v.raw.fields, "type") == Some(JString("static"))
  }

  predicate EncodableCondition(c: Condition)
    decreases c, 0
  {
    match c
    case Simple(_, left, right) => EncodablePosition(left) && EncodablePosition(right)
    case And(cs) => forall c' | c' in cs :: EncodableCondition(c')
    case Or(cs) => forall c' | c' in cs :: EncodableCondition(c')
    case Subquery(related, _, _, _, planId) => planId.None? && EncodableHop(related)
  }

  predicate EncodableHop(hop: CorrelatedSubquery)
    decreases hop, 0
  {
    hop.correlation.parentField != [] && hop.correlation.childField != [] && EncodableQuery(hop.subquery)
  }

  /** Non-empty compound keys, no plan ids and tagged static references, everywhere. */
  predicate EncodableQuery(q: Ast)
    decreases q, 0
  {
    && (q.where_.Some? ==> EncodableCondition(q.where_.value))
    && (q.related.Related? ==> forall hop | hop in q.related.hops :: EncodableHop(hop))
  }

  lemma {:induction false} FieldAt(fields: seq<(string, Json)>, i: nat)
    requires i < |fields| && forall j | 0 <= j < i :: fields[j].0 != fields[i].0
    ensures FindField(fields, fields[i].0) == Some(fields[i].1)
  {
    if i > 0 {
      FieldAt(fields[1..], i - 1);
    }
  }

  lemma {:induction false} AbsentField(spec: seq<(string, Option<Json>)>, key: string)
    requires forall j | 0 <= j < |spec| :: spec[j].0 != key
    ensures FindField(Present(spec), key) == None
  {
    if spec != [] {
      AbsentField(spec[1..], key);
    }
  }

  /** Looking up a key among the present fields finds what its entry holds. */
  lemma {:induction false} PresentField(spec: seq<(string, Option<Json>)>, i: nat)
    requires i < |spec| && forall j | 0 <= j < |spec| && j != i :: spec[j].0 != spec[i].0
    ensures FindField(Present(spec), spec[i].0) == spec[i].1
  {
    if i == 0 {
      AbsentField(spec[1..], spec[0].0);
    } else {
      PresentField(spec[1..], i - 1);
    }
  }

  lemma {:induction false} LiteralRoundTrip(v: LiteralValue)
    ensures LiteralFromJson(LiteralToJson(v)) == Some(v)
    decreases v, 1
  {
    if v.LArray? {
      LiteralsRoundTrip(v.items);
    }
  }

  lemma {:induction false} LiteralsRoundTrip(items: seq<LiteralValue>)
    ensures LiteralsFromJson(LiteralsToJson(items)) == Some(items)
    decreases items, 0
  {
    if items != [] {
      LiteralRoundTrip(items[0]);
      LiteralsRoundTrip(items[1..]);
      assert LiteralsToJson(items)[1..] == LiteralsToJson(items[1..]);
      assert items == [items[0]] + items[1..];
    }
  }

  lemma PositionRoundTrip(v: ValuePosition)
    ensures PositionFromJson(PositionToJson(v)) == Some(v) <==> EncodablePosition(v)
  {
    match v
    case Literal(l) =>
      var fields := PositionToJson(v).fields;
      FieldAt(fields, 0);
      FieldAt(fields, 1);
      LiteralRoundTrip(l);
    case Column(name) =>
      var fields := PositionToJson(v).fields;
      FieldAt(fields, 0);
      FieldAt(fields, 1);
    case Parameter(raw) =>
  }

  lemma KeyRoundTrip(key: seq<string>)
    ensures KeyFromJson(StringsToJson(key)) == if key == [] then None else Some(key)
  {
    if key != [] {
      var items := StringsToJson(key).items;
      assert forall v | v in items :: v.JString?;
      assert StringsFromJson(items).value == key;
    }
  }

  lemma CorrelationRoundTrip(c: Correlation)
    ensures CorrelationFromJson(CorrelationToJson(c)) == if c.parentField == [] || c.childField == [] then None else Some(c)
  {
    var fields := CorrelationToJson(c).fields;
    FieldAt(fields, 0);
    FieldAt(fields, 1);
    KeyRoundTrip(c.parentField);
    KeyRoundTrip(c.childField);
  }

  lemma {:induction false} OrderingRoundTrip(o: Ordering)
    ensures OrderingFromJson(OrderingToJson(o).items) == Some(o)
  {
    if o != [] {
      assert OrderingToJson(o).items[1..] == OrderingToJson(o[1..]).items;
      OrderingRoundTrip(o[1..]);
      assert OrderPartFromJson(OrderingToJson(o).items[0]) == Some(o[0]);
      assert o == [o[0]] + o[1..];
    }
  }

  lemma BoundRoundTrip(b: Bound)
    ensures BoundFromJson(BoundToJson(b)) == Some(b)
  {
    var fields := BoundToJson(b).fields;
    FieldAt(fields, 0);
    FieldAt(fields, 1);
  }

  lemma SimpleRoundTrip(c: Condition)
    requires c.Simple?
    ensures ConditionFromJson(ConditionToJson(c)) == Some(c) <==> EncodableCondition(c)
  {
    var fields := ConditionToJson(c).fields;
    FieldAt(fields, 0);
    FieldAt(fields, 1);
    FieldAt(fields, 2);
    FieldAt(fields, 3);
    OperatorRoundTrip(c.op);
    PositionRoundTrip(c.left);
    PositionRoundTrip(c.right);
    assert ConditionFromJson(ConditionToJson(c)) == SimpleFromFields(fields);
  }

  lemma JunctionDecodes(c: Condition)
    requires c.And? || c.Or?
    ensures var cs := ConditionsFromJson(ConditionsToJson(c.conditions));
            ConditionFromJson(ConditionToJson(c)) == if cs.Some? then Some(Junction(c.And?, cs.value)) else None
  {
    var v := ConditionToJson(c);
    FieldAt(v.fields, 0);
    FieldAt(v.fields, 1);
    assert ConditionFromJson(v) == JunctionAt(v, c.And?, Some(JArray(ConditionsToJson(c.conditions))));
  }

  lemma SubqueryLookups(c: Condition)
    requires c.Subquery?
    ensures var fields := ConditionToJson(c).fields;
            && FindField(fields, "type") == Some(JString("correlatedSubquery"))
            && FindField(fields, "related") == Some(HopToJson(c.related))
            && FindField(fields, "op") == Some(JString(ExistsString(c.existsOp)))
            && FindField(fields, "flip") == OptionalBool(c.flip)
            && FindField(fields, "scalar") == OptionalBool(c.scalar)
  {
    var spec := SubquerySpec(c.related, c.existsOp, c.flip, c.scalar);
    PresentField(spec, 0);
    PresentField(spec, 1);
    PresentField(spec, 2);
    PresentField(spec, 3);
    PresentField(spec, 4);
  }

  lemma SubqueryFromFields(v: Json, hop: Json)
    requires v.JObject? && FindField(v.fields, "type") == Some(JString("correlatedSubquery")) && FindField(v.fields, "related") == Some(hop)
    ensures ConditionFromJson(v)
         == AssembleSubquery(HopFromJson(hop), StringAt(v.fields, "op"), MaybeBool(FindField(v.fields, "flip")), MaybeBool(FindField(v.fields, "scalar")))
  {
  }

  lemma SubqueryAssembles(c: Condition)
    requires c.Subquery?
    ensures ConditionFromJson(ConditionToJson(c))
         == AssembleSubquery(HopFromJson(HopToJson(c.related)), Some(ExistsString(c.existsOp)),
                             MaybeBool(OptionalBool(c.flip)), MaybeBool(OptionalBool(c.scalar)))
  {
    SubqueryLookups(c);
    SubqueryFromFields(ConditionToJson(c), HopToJson(c.related));
  }

  lemma AssembledSubquery(c: Condition, hop: Option<CorrelatedSubquery>)
    requires c.Subquery?
    ensures AssembleSubquery(hop, Some(ExistsString(c.existsOp)), MaybeBool(OptionalBool(c.flip)), MaybeBool(OptionalBool(c.scalar)))
         == if hop.Some? then Some(c.(related := hop.value, planId := None)) else None
  {
  }

  lemma {:induction false} ConditionRoundTrip(c: Condition)
    ensures ConditionFromJson(ConditionToJson(c)) == Some(c) <==> EncodableCondition(c)
    decreases c, 1
  {
    match c
    case Simple(_, _, _) =>
      SimpleRoundTrip(c);
    case Subquery(related, _, _, _, _) =>
      SubqueryAssembles(c);
      AssembledSubquery(c, HopFromJson(HopToJson(related)));
      HopRoundTrip(related);
    case _ =>
      JunctionDecodes(c);
      ConditionsRoundTrip(c.conditions);
  }

  lemma {:induction false} ConditionsRoundTrip(cs: seq<Condition>)
    ensures ConditionsFromJson(ConditionsToJson(cs)) == Some(cs) <==> forall c | c in cs :: EncodableCondition(c)
    decreases cs, 0
  {
    if cs != [] {
      ConditionRoundTrip(cs[0]);
      ConditionsRoundTrip(cs[1..]);
      assert ConditionsToJson(cs)[1..] == ConditionsToJson(cs[1..]);
      assert cs == [cs[0]] + cs[1..];
      assert forall c :: c in cs <==> c == cs[0] || c in cs[1..];
    }
  }

  lemma HopLookups(hop: CorrelatedSubquery)
    ensures var fields := HopToJson(hop).fields;
            && FindField(fields, "correlation") == Some(CorrelationToJson(hop.correlation))
            && FindField(fields, "hidden") == OptionalBool(hop.hidden)
            && FindField(fields, "subquery") == Some(QueryToJson(hop.subquery))
            && FindField(fields, "system") == SystemToJson(hop.system)
  {
    var spec := HopSpec(hop);
    PresentField(spec, 0);
    PresentField(spec, 1);
    PresentField(spec, 2);
    PresentField(spec, 3);
  }

  lemma QueryLookups(q: Ast)
    ensures var fields := QueryToJson(q).fields;
            && FindField(fields, "schema") == OptionalString(q.schema)
            && FindField(fields, "table") == Some(JString(q.table))
            && FindField(fields, "alias") == OptionalString(q.alias)
            && FindField(fields, "where") == (if q.where_.Some? then Some(ConditionToJson(q.where_.value)) else None)
            && FindField(fields, "related") == (if q.related.Related? then Some(JArray(HopsToJson(q.related.hops))) else None)
            && FindField(fields, "start") == StartToJson(q.start)
            && FindField(fields, "limit") == LimitToJson(q.limit)
            && FindField(fields, "orderBy") == OrderByToJson(q.orderBy)
  {
    var spec := QuerySpec(q);
    PresentField(spec, 0);
    PresentField(spec, 1);
    PresentField(spec, 2);
    PresentField(spec, 3);
    PresentField(spec, 4);
    PresentField(spec, 5);
    PresentField(spec, 6);
    PresentField(spec, 7);
  }

  lemma HopAssembles(hop: CorrelatedSubquery)
    ensures HopFromJson(HopToJson(hop))
         == AssembleHop(CorrelationFromJson(CorrelationToJson(hop.correlation)), QueryFromJson(QueryToJson(hop.subquery)),
                        SystemAt(SystemToJson(hop.system)), MaybeBool(OptionalBool(hop.hidden)))
  {
    HopLookups(hop);
  }

  lemma SystemRoundTrip(system: Option<System>)
    ensures SystemAt(SystemToJson(system)) == Some(system)
  {
  }

  lemma {:induction false} HopRoundTrip(hop: CorrelatedSubquery)
    ensures HopFromJson(HopToJson(hop)) == Some(hop) <==> EncodableHop(hop)
    decreases hop, 0
  {
    HopAssembles(hop);
    SystemRoundTrip(hop.system);
    CorrelationRoundTrip(hop.correlation);
    QueryRoundTrip(hop.subquery);
  }

  lemma {:induction false} HopsRoundTrip(hops: seq<CorrelatedSubquery>)
    ensures HopsFromJson(HopsToJson(hops)) == Some(hops) <==> forall hop | hop in hops :: EncodableHop(hop)
    decreases hops, 0
  {
    if hops != [] {
      HopRoundTrip(hops[0]);
      HopsRoundTrip(hops[1..]);
      HopsDecodeByParts(hops);
      assert forall hop :: hop in hops <==> hop == hops[0] || hop in hops[1..];
    }
  }

  lemma HopsDecodeByParts(hops: seq<CorrelatedSubquery>)
    requires hops != []
    ensures HopsFromJson(HopsToJson(hops)) == Some(hops)
       <==> HopFromJson(HopToJson(hops[0])) == Some(hops[0]) && HopsFromJson(HopsToJson(hops[1..])) == Some(hops[1..])
  {
    HopsToJsonFirst(hops);
    HopsFromFirst(HopsToJson(hops));
    ConsIs(hops, HopFromJson(HopToJson(hops[0])), HopsFromJson(HopsToJson(hops[1..])));
  }

  lemma HopsToJsonFirst(hops: seq<CorrelatedSubquery>)
    requires hops != []
    ensures var items := HopsToJson(hops); items != [] && items[0] == HopToJson(hops[0]) && items[1..] == HopsToJson(hops[1..])
  {
  }

  function Cons<T>(first: Option<T>, rest: Option<seq<T>>): Option<seq<T>> {
    if first.Some? && rest.Some? then Some([first.value] + rest.value) else None
  }

  lemma ConsIs<T>(xs: seq<T>, first: Option<T>, rest: Option<seq<T>>)
    requires xs != []
    ensures Cons(first, rest) == Some(xs) <==> first == Some(xs[0]) && rest == Some(xs[1..])
  {
    assert xs == [xs[0]] + xs[1..];
    if first.Some? && rest.Some? {
      assert ([first.value] + rest.value)[0] == first.value && ([first.value] + rest.value)[1..] == rest.value;
    }
  }

  lemma HopsFromFirst(items: seq<Json>)
    requires items != []
    ensures HopsFromJson(items) == Cons(HopFromJson(items[0]), HopsFromJson(items[1..]))
  {
  }

  lemma QueryAssembles(q: Ast)
    ensures QueryFromJson(QueryToJson(q))
         == AssembleQuery(MaybeString(OptionalString(q.schema)), Some(q.table), MaybeString(OptionalString(q.alias)),
                          WhereAt(QueryToJson(q), FindField(QueryToJson(q).fields, "where")),
                          RelatedAt(QueryToJson(q), FindField(QueryToJson(q).fields, "related")),
                          StartFromField(StartToJson(q.start)), LimitFromField(LimitToJson(q.limit)), OrderByFromField(OrderByToJson(q.orderBy)))
  {
    QueryLookups(q);
  }

  lemma WhereDecodes(q: Ast)
    ensures WhereAt(QueryToJson(q), FindField(QueryToJson(q).fields, "where"))
         == if q.where_.None? then Some(None)
            else
              var c := ConditionFromJson(ConditionToJson(q.where_.value));
              if c.Some? then Some(Some(c.value)) else None
  {
    QueryLookups(q);
  }

  lemma RelatedDecodes(q: Ast)
    ensures RelatedAt(QueryToJson(q), FindField(QueryToJson(q).fields, "related"))
         == if q.related.NoRelated? then Some(NoRelated)
            else
              var hops := HopsFromJson(HopsToJson(q.related.hops));
              if hops.Some? then Some(Related(hops.value)) else None
  {
    QueryLookups(q);
  }

  lemma TailRoundTrip(q: Ast)
    ensures StartFromField(StartToJson(q.start)) == Some(q.start)
    ensures LimitFromField(LimitToJson(q.limit)) == Some(q.limit)
    ensures OrderByFromField(OrderByToJson(q.orderBy)) == Some(q.orderBy)
  {
    if q.start.Some? {
      BoundRoundTrip(q.start.value);
    }
    if q.orderBy.Some? {
      OrderingRoundTrip(q.orderBy.value);
    }
  }

  lemma AssembledQuery(q: Ast, where_: Option<Option<Condition>>, related: Option<RelatedHops>)
    ensures AssembleQuery(Some(q.schema), Some(q.table), Some(q.alias), where_, related, Some(q.start), Some(q.limit), Some(q.orderBy)) == Some(q)
       <==> where_ == Some(q.where_) && related == Some(q.related)
  {
  }

  lemma WhereMatches(q: Ast)
    ensures WhereAt(QueryToJson(q), FindField(QueryToJson(q).fields, "where")) == Some(q.where_)
       <==> (q.where_.Some? ==> ConditionFromJson(ConditionToJson(q.where_.value)) == Some(q.where_.value))
  {
    WhereDecodes(q);
  }

  lemma RelatedMatches(q: Ast)
    ensures RelatedAt(QueryToJson(q), FindField(QueryToJson(q).fields, "related")) == Some(q.related)
       <==> (q.related.Related? ==> HopsFromJson(HopsToJson(q.related.hops)) == Some(q.related.hops))
  {
    RelatedDecodes(q);
  }

  /** A query round-trips when its `where` and its related hops do. */
  lemma QueryDecodesByParts(q: Ast)
    ensures QueryFromJson(QueryToJson(q)) == Some(q)
       <==> && (q.where_.Some? ==> ConditionFromJson(ConditionToJson(q.where_.value)) == Some(q.where_.value))
            && (q.related.Related? ==> HopsFromJson(HopsToJson(q.related.hops)) == Some(q.related.hops))
  {
    QueryAssembles(q);
    TailRoundTrip(q);
    WhereMatches(q);
    RelatedMatches(q);
    AssembledQuery(q, WhereAt(QueryToJson(q), FindField(QueryToJson(q).fields, "where")),
                   RelatedAt(QueryToJson(q), FindField(QueryToJson(q).fields, "related")));
  }

  /** A query decodes to itself after encoding exactly when it is encodable. */
  lemma {:induction false} QueryRoundTrip(q: Ast)
    ensures QueryFromJson(QueryToJson(q)) == Some(q) <==> EncodableQuery(q)
    decreases q, 0
  {
    QueryDecodesByParts(q);
    if q.where_.Some? {
      ConditionRoundTrip(q.where_.value);
    }
    if q.related.Related? {
      HopsRoundTrip(q.related.hops);
    }
  }

  /** So two encodable queries with the same wire form are the same query. */
  lemma EncodingIsInjective(a: Ast, b: Ast)
    requires EncodableQuery(a) && EncodableQuery(b) && QueryToJson(a) == QueryToJson(b)
    ensures a == b
  {
    QueryRoundTrip(a);
    QueryRoundTrip(b);
  }
}
