/**
 Which JSON values stand for which queries, by the fields that are looked up and what they
 hold, and that decoding finds exactly the query a value stands for. Fields may come in
 any order, and further fields do not matter.
 */
module AstJsonExact {
  import opened Base
  import opened QueryAst
  import opened AstJson

  // ---- Which value stands for what -------------------------------------------

  predicate HasString(v: Json, key: string, s: string) {
    ObjectField(v, key) == Some(JString(s))
  }

  predicate HasOptionalString(v: Json, key: string, s: Option<string>) {
    match s
    case None => ObjectField(v, key) == None
    case Some(text) => HasString(v, key, text)
  }

  predicate HasOptionalBool(v: Json, key: string, b: Option<bool>) {
    match b
    case None => ObjectField(v, key) == None
    case Some(value) => ObjectField(v, key) == Some(JBool(value))
  }

  predicate IsLiteral(v: Json, l: LiteralValue)
    decreases l, 1
  {
    match l
    case LString(s) => v == JString(s)
    case LNumber(n) => v == JNumber(n)
    case LBool(b) => v == JBool(b)
    case LNull => v == JNull
    case LArray(items) => v.JArray? && AreLiterals(v.items, items)
  }

  predicate AreLiterals(vs: seq<Json>, ls: seq<LiteralValue>)
    decreases ls, 0
  {
    |vs| == |ls| && (ls != [] ==> IsLiteral(vs[0], ls[0]) && AreLiterals(vs[1..], ls[1..]))
  }

  predicate IsPosition(v: Json, p: ValuePosition) {
    match p
    case Literal(l) => HasString(v, "type", "literal") && ObjectField(v, "value").Some? && IsLiteral(ObjectField(v, "value").value, l)
    case Column(name) => HasString(v, "type", "column") && HasString(v, "name", name)
    case Parameter(raw) => HasString(v, "type", "static") && v == raw
  }

  predicate HasPosition(v: Json, key: string, p: ValuePosition) {
    ObjectField(v, key).Some? && IsPosition(ObjectField(v, key).value, p)
  }

  /** A non-empty array of the names. */
  predicate HasKey(v: Json, key: string, names: seq<string>) {
    ObjectField(v, key).Some? &&
      var k := ObjectField(v, key).value;
      k.JArray? && |k.items| == |names| > 0 && forall i | 0 <= i < |names| :: k.items[i] == JString(names[i])
  }

  predicate IsCorrelation(v: Json, c: Correlation) {
    HasKey(v, "parentField", c.parentField) && HasKey(v, "childField", c.childField)
  }

  predicate IsCondition(v: Json, c: Condition)
    decreases c, 1
  {
    match c
    case Simple(op, left, right) =>
      HasString(v, "type", "simple") && HasString(v, "op", OperatorString(op)) && HasPosition(v, "left", left) && HasPosition(v, "right", right)
    case And(cs) => HasString(v, "type", "and") && HasConditions(v, cs)
    case Or(cs) => HasString(v, "type", "or") && HasConditions(v, cs)
    case Subquery(related, op, flip, scalar, planId) =>
      && HasString(v, "type", "correlatedSubquery") && HasString(v, "op", if op.Exists? then "EXISTS" else "NOT EXISTS")
      && HasOptionalBool(v, "flip", flip) && HasOptionalBool(v, "scalar", scalar) && planId.None? && HasHop(v, related)
  }

  predicate HasHop(v: Json, hop: CorrelatedSubquery)
    decreases hop, 2
  {
    ObjectField(v, "related").Some? && IsHop(ObjectField(v, "related").value, hop)
  }

  predicate HasConditions(v: Json, cs: seq<Condition>)
    decreases cs, 1
  {
    var field := ObjectField(v, "conditions");
    field.Some? && field.value.JArray? && AreConditions(field.value.items, cs)
  }

  predicate AreConditions(vs: seq<Json>, cs: seq<Condition>)
    decreases cs, 0
  {
    |vs| == |cs| && (cs != [] ==> IsCondition(vs[0], cs[0]) && AreConditions(vs[1..], cs[1..]))
  }

  predicate HasCorrelation(v: Json, c: Correlation) {
    ObjectField(v, "correlation").Some? && IsCorrelation(ObjectField(v, "correlation").value, c)
  }

  predicate HasSubquery(v: Json, q: Ast)
    decreases q, 2
  {
    ObjectField(v, "subquery").Some? && IsQuery(ObjectField(v, "subquery").value, q)
  }

  predicate IsHop(v: Json, hop: CorrelatedSubquery)
    decreases hop, 1
  {
    && HasCorrelation(v, hop.correlation) && HasSubquery(v, hop.subquery)
    && HasOptionalBool(v, "hidden", hop.hidden) && HasSystem(v, hop.system)
  }

  predicate HasSystem(v: Json, system: Option<System>) {
    match system
    case None => ObjectField(v, "system") == None
    case Some(Permissions) => HasString(v, "system", "permissions")
    case Some(Client) => HasString(v, "system", "client")
    case Some(Test) => HasString(v, "system", "test")
  }

  predicate AreHops(vs: seq<Json>, hops: seq<CorrelatedSubquery>)
    decreases hops, 0
  {
    |vs| == |hops| && (hops != [] ==> IsHop(vs[0], hops[0]) && AreHops(vs[1..], hops[1..]))
  }

  predicate HasStart(v: Json, start: Option<Bound>) {
    match start
    case None => ObjectField(v, "start") == None
    case Some(bound) =>
      ObjectField(v, "start").Some? &&
        var b := ObjectField(v, "start").value;
        ObjectField(b, "row") == Some(bound.row) && ObjectField(b, "exclusive") == Some(JBool(bound.exclusive))
  }

  predicate HasLimit(v: Json, limit: Option<real>) {
    match limit
    case None => ObjectField(v, "limit") == None
    case Some(n) => ObjectField(v, "limit") == Some(JNumber(n))
  }

  predicate HasOrder(v: Json, orderBy: Option<Ordering>) {
    match orderBy
    case None => ObjectField(v, "orderBy") == None
    case Some(order) =>
      ObjectField(v, "orderBy").Some? &&
        var o := ObjectField(v, "orderBy").value;
        o.JArray? && |o.items| == |order|
        && forall i | 0 <= i < |order| :: o.items[i] == JArray([JString(order[i].0), JString(if order[i].1.Asc? then "asc" else "desc")])
  }

  predicate HasWhere(v: Json, where_: Option<Condition>)
    decreases where_, 2
  {
    if where_.Some? then ObjectField(v, "where").Some? && IsCondition(ObjectField(v, "where").value, where_.value)
    else ObjectField(v, "where") == None
  }

  predicate HasRelated(v: Json, related: RelatedHops)
    decreases related, 2
  {
    if related.Related?
    then ObjectField(v, "related").Some? && ObjectField(v, "related").value.JArray? && AreHops(ObjectField(v, "related").value.items, related.hops)
    else ObjectField(v, "related") == None
  }

  /** The value stands for the query. */
  predicate IsQuery(v: Json, q: Ast)
    decreases q, 1
  {
    && v.JObject? && HasOptionalString(v, "schema", q.schema) && HasString(v, "table", q.table) && HasOptionalString(v, "alias", q.alias)
    && HasWhere(v, q.where_) && HasRelated(v, q.related)
    && HasStart(v, q.start) && HasLimit(v, q.limit) && HasOrder(v, q.orderBy)
  }

  // ---- Decoding finds it -----------------------------------------------------

  lemma {:induction false} LiteralDecodesExactly(v: Json, l: LiteralValue)
    ensures LiteralFromJson(v) == Some(l) <==> IsLiteral(v, l)
    decreases l, 1
  {
    if l.LArray? && v.JArray? {
      LiteralsDecodeExactly(v.items, l.items);
    }
  }

  lemma {:induction false} LiteralsDecodeExactly(vs: seq<Json>, ls: seq<LiteralValue>)
    ensures LiteralsFromJson(vs) == Some(ls) <==> AreLiterals(vs, ls)
    decreases ls, 0
  {
    if vs != [] && ls != [] {
      LiteralDecodesExactly(vs[0], ls[0]);
      LiteralsDecodeExactly(vs[1..], ls[1..]);
      ConsIs(ls, LiteralFromJson(vs[0]), LiteralsFromJson(vs[1..]));
    }
  }

  lemma PositionDecodesExactly(v: Json, p: ValuePosition)
    ensures PositionFromJson(v) == Some(p) <==> IsPosition(v, p)
  {
    assert |"literal"| == 7 && |"column"| == 6 && |"static"| == 6 && "column"[0] != "static"[0];
    if v.JObject? && FindField(v.fields, "value").Some? && p.Literal? {
      LiteralDecodesExactly(FindField(v.fields, "value").value, p.value);
    }
  }

  lemma KeyDecodesExactly(v: Json, names: seq<string>)
    ensures KeyFromJson(v) == Some(names)
       <==> v.JArray? && |v.items| == |names| > 0 && forall i | 0 <= i < |names| :: v.items[i] == JString(names[i])
  {
    if v.JArray? && v.items != [] {
      forall i | 0 <= i < |v.items| ensures v.items[i] in v.items {
      }
      if |v.items| == |names| && forall i | 0 <= i < |names| :: v.items[i] == JString(names[i]) {
        assert StringsFromJson(v.items).value == names;
      }
    }
  }

  lemma CorrelationDecodesExactly(v: Json, c: Correlation)
    ensures CorrelationFromJson(v) == Some(c) <==> IsCorrelation(v, c)
  {
    if v.JObject? {
      var parent, child := FindField(v.fields, "parentField"), FindField(v.fields, "childField");
      if parent.Some? {
        KeyDecodesExactly(parent.value, c.parentField);
      }
      if child.Some? {
        KeyDecodesExactly(child.value, c.childField);
      }
    }
  }

  lemma OrderPartExactly(v: Json, part: (string, Direction))
    ensures OrderPartFromJson(v) == Some(part) <==> v == JArray([JString(part.0), JString(if part.1.Asc? then "asc" else "desc")])
  {
    assert |"asc"| != |"desc"|;
    if OrderPartFromJson(v) == Some(part) {
      assert v.items == [v.items[0], v.items[1]];
    }
  }

  ghost predicate AreOrderParts(vs: seq<Json>, order: Ordering) {
    |vs| == |order| && forall i | 0 <= i < |order| :: vs[i] == JArray([JString(order[i].0), JString(if order[i].1.Asc? then "asc" else "desc")])
  }

  lemma {:induction false} OrderDecodesExactly(vs: seq<Json>, order: Ordering)
    ensures OrderingFromJson(vs) == Some(order) <==> AreOrderParts(vs, order)
    decreases |order|
  {
    if vs != [] && order != [] {
      OrderPartExactly(vs[0], order[0]);
      OrderDecodesExactly(vs[1..], order[1..]);
      ConsIs(order, OrderPartFromJson(vs[0]), OrderingFromJson(vs[1..]));
      assert AreOrderParts(vs, order)
        <==> vs[0] == JArray([JString(order[0].0), JString(if order[0].1.Asc? then "asc" else "desc")]) && AreOrderParts(vs[1..], order[1..]) by {
        OrderPartsFirst(vs, order);
      }
    }
  }

  lemma OrderPartsFirst(vs: seq<Json>, order: Ordering)
    requires vs != [] && order != []
    ensures AreOrderParts(vs, order)
       <==> vs[0] == JArray([JString(order[0].0), JString(if order[0].1.Asc? then "asc" else "desc")]) && AreOrderParts(vs[1..], order[1..])
  {
    assert forall i | 0 <= i < |vs| - 1 :: vs[1..][i] == vs[i + 1];
    assert forall i | 0 <= i < |order| - 1 :: order[1..][i] == order[i + 1];
    if vs[0] == JArray([JString(order[0].0), JString(if order[0].1.Asc? then "asc" else "desc")]) && AreOrderParts(vs[1..], order[1..]) {
      forall i | 0 <= i < |order| ensures vs[i] == JArray([JString(order[i].0), JString(if order[i].1.Asc? then "asc" else "desc")]) {
        if i > 0 {
          assert vs[1..][i - 1] == vs[i] && order[1..][i - 1] == order[i];
        }
      }
    }
  }

  lemma StartDecodesExactly(v: Json, start: Option<Bound>)
    requires v.JObject?
    ensures StartFromField(FindField(v.fields, "start")) == Some(start) <==> HasStart(v, start)
  {
  }

  lemma OrderByDecodesExactly(v: Json, orderBy: Option<Ordering>)
    requires v.JObject?
    ensures OrderByFromField(FindField(v.fields, "orderBy")) == Some(orderBy) <==> HasOrder(v, orderBy)
  {
    var field := FindField(v.fields, "orderBy");
    if field.Some? && field.value.JArray? && orderBy.Some? {
      OrderDecodesExactly(field.value.items, orderBy.value);
    }
  }

  lemma SystemDecodesExactly(v: Json, system: Option<System>)
    requires v.JObject?
    ensures SystemAt(FindField(v.fields, "system")) == Some(system) <==> HasSystem(v, system)
  {
    assert |"permissions"| == 11 && |"client"| == 6 && |"test"| == 4;
  }

  lemma OperatorExactly(s: string, op: SimpleOperator)
    ensures OperatorFromString(s) == Some(op) <==> s == OperatorString(op)
  {
    OperatorRoundTrip(op);
  }

  lemma ExistsExactly(s: string, op: ExistsOp)
    ensures ExistsFromString(s) == Some(op) <==> s == if op.Exists? then "EXISTS" else "NOT EXISTS"
  {
    assert |"EXISTS"| != |"NOT EXISTS"|;
  }

  lemma SimpleDecodesExactly(v: Json, c: Condition)
    requires v.JObject? && c.Simple?
    ensures SimpleFromFields(v.fields) == Some(c)
       <==> HasString(v, "op", OperatorString(c.op)) && HasPosition(v, "left", c.left) && HasPosition(v, "right", c.right)
  {
    var op, left, right := FindField(v.fields, "op"), FindField(v.fields, "left"), FindField(v.fields, "right");
    if op.Some? && op.value.JString? {
      OperatorExactly(op.value.s, c.op);
    }
    if left.Some? {
      PositionDecodesExactly(left.value, c.left);
    }
    if right.Some? {
      PositionDecodesExactly(right.value, c.right);
    }
  }

  lemma TagsDiffer()
    ensures |"simple"| == 6 && |"and"| == 3 && |"or"| == 2 && |"correlatedSubquery"| == 18
  {
  }

  /** A condition is decoded by its type tag. */
  lemma ConditionByKind(v: Json, c: Condition)
    requires v.JObject?
    ensures ConditionFromJson(v) == Some(c)
       <==> match c
            case Simple(_, _, _) => HasString(v, "type", "simple") && SimpleFromFields(v.fields) == Some(c)
            case And(_) => HasString(v, "type", "and") && JunctionAt(v, true, FindField(v.fields, "conditions")) == Some(c)
            case Or(_) => HasString(v, "type", "or") && JunctionAt(v, false, FindField(v.fields, "conditions")) == Some(c)
            case Subquery(_, _, _, _, _) => HasString(v, "type", "correlatedSubquery") && SubqueryAt(v) == Some(c)
  {
    TagsDiffer();
  }

  function SubqueryAt(v: Json): Option<Condition>
    requires v.JObject?
  {
    AssembleSubquery(
      HopAt(v, FindField(v.fields, "related")),
      StringAt(v.fields, "op"),
      MaybeBool(FindField(v.fields, "flip")),
      MaybeBool(FindField(v.fields, "scalar")))
  }

  lemma SubqueryByParts(v: Json, c: Condition)
    requires v.JObject? && c.Subquery?
    ensures SubqueryAt(v) == Some(c)
       <==> && c.planId.None? && HopAt(v, FindField(v.fields, "related")) == Some(c.related)
            && HasString(v, "op", if c.existsOp.Exists? then "EXISTS" else "NOT EXISTS")
            && HasOptionalBool(v, "flip", c.flip) && HasOptionalBool(v, "scalar", c.scalar)
  {
    OptionalBoolExactly(v, "flip", c.flip);
    OptionalBoolExactly(v, "scalar", c.scalar);
    SubqueryAssemblesExactly(HopAt(v, FindField(v.fields, "related")), StringAt(v.fields, "op"),
                             MaybeBool(FindField(v.fields, "flip")), MaybeBool(FindField(v.fields, "scalar")), c);
  }

  lemma SubqueryAssemblesExactly(hop: Option<CorrelatedSubquery>, word: Option<string>, flip: Option<Option<bool>>, scalar: Option<Option<bool>>,
                                 c: Condition)
    requires c.Subquery?
    ensures AssembleSubquery(hop, word, flip, scalar) == Some(c)
       <==> && c.planId.None? && hop == Some(c.related) && word == Some(if c.existsOp.Exists? then "EXISTS" else "NOT EXISTS")
            && flip == Some(c.flip) && scalar == Some(c.scalar)
  {
    if word.Some? {
      ExistsExactly(word.value, c.existsOp);
    }
  }

  lemma {:induction false} ConditionDecodesExactly(v: Json, c: Condition)
    ensures ConditionFromJson(v) == Some(c) <==> IsCondition(v, c)
    decreases c, 1
  {
    if v.JObject? {
      ConditionByKind(v, c);
      match c
      case Simple(_, _, _) => SimpleDecodesExactly(v, c);
      case Subquery(related, _, _, _, _) =>
        var hop := FindField(v.fields, "related");
        SubqueryByParts(v, c);
        if hop.Some? {
          HopDecodesExactly(hop.value, related);
        }
      case _ =>
        var field := FindField(v.fields, "conditions");
        if field.Some? && field.value.JArray? {
          ConditionsDecodeExactly(field.value.items, c.conditions);
        }
    }
  }

  lemma {:induction false} ConditionsDecodeExactly(vs: seq<Json>, cs: seq<Condition>)
    ensures ConditionsFromJson(vs) == Some(cs) <==> AreConditions(vs, cs)
    decreases cs, 0
  {
    if vs != [] && cs != [] {
      ConditionDecodesExactly(vs[0], cs[0]);
      ConditionsDecodeExactly(vs[1..], cs[1..]);
      ConsIs(cs, ConditionFromJson(vs[0]), ConditionsFromJson(vs[1..]));
    }
  }

  lemma HopByParts(v: Json, hop: CorrelatedSubquery)
    requires v.JObject?
    ensures HopFromJson(v) == Some(hop)
       <==> && CorrelationAt(FindField(v.fields, "correlation")) == Some(hop.correlation)
            && QueryAt(v, FindField(v.fields, "subquery")) == Some(hop.subquery)
            && SystemAt(FindField(v.fields, "system")) == Some(hop.system) && HasOptionalBool(v, "hidden", hop.hidden)
  {
    OptionalBoolExactly(v, "hidden", hop.hidden);
    HopAssemblesExactly(CorrelationAt(FindField(v.fields, "correlation")), QueryAt(v, FindField(v.fields, "subquery")),
                        SystemAt(FindField(v.fields, "system")), MaybeBool(FindField(v.fields, "hidden")), hop);
  }

  lemma HopAssemblesExactly(correlation: Option<Correlation>, sub: Option<Ast>, system: Option<Option<System>>, hidden: Option<Option<bool>>,
                            hop: CorrelatedSubquery)
    ensures AssembleHop(correlation, sub, system, hidden) == Some(hop)
       <==> correlation == Some(hop.correlation) && sub == Some(hop.subquery) && system == Some(hop.system) && hidden == Some(hop.hidden)
  {
  }

  lemma OptionalBoolExactly(v: Json, key: string, b: Option<bool>)
    requires v.JObject?
    ensures MaybeBool(FindField(v.fields, key)) == Some(b) <==> HasOptionalBool(v, key, b)
  {
  }

  lemma CorrelationAtExactly(v: Json, c: Correlation)
    requires v.JObject?
    ensures CorrelationAt(FindField(v.fields, "correlation")) == Some(c) <==> HasCorrelation(v, c)
  {
    var field := FindField(v.fields, "correlation");
    if field.Some? {
      CorrelationDecodesExactly(field.value, c);
    }
  }

  lemma {:induction false} QueryAtExactly(v: Json, q: Ast)
    requires v.JObject?
    ensures QueryAt(v, FindField(v.fields, "subquery")) == Some(q) <==> HasSubquery(v, q)
    decreases q, 2
  {
    var field := FindField(v.fields, "subquery");
    if field.Some? {
      QueryDecodesExactly(field.value, q);
    }
  }

  lemma {:induction false} HopDecodesExactly(v: Json, hop: CorrelatedSubquery)
    ensures HopFromJson(v) == Some(hop) <==> IsHop(v, hop)
    decreases hop, 1
  {
    if v.JObject? {
      HopByParts(v, hop);
      CorrelationAtExactly(v, hop.correlation);
      QueryAtExactly(v, hop.subquery);
      SystemDecodesExactly(v, hop.system);
    }
  }

  lemma {:induction false} HopsDecodeExactly(vs: seq<Json>, hops: seq<CorrelatedSubquery>)
    ensures HopsFromJson(vs) == Some(hops) <==> AreHops(vs, hops)
    decreases hops, 0
  {
    if vs != [] && hops != [] {
      HopDecodesExactly(vs[0], hops[0]);
      HopsDecodeExactly(vs[1..], hops[1..]);
      ConsIs(hops, HopFromJson(vs[0]), HopsFromJson(vs[1..]));
    }
  }

  lemma QueryByParts(v: Json, q: Ast)
    requires v.JObject?
    ensures QueryFromJson(v) == Some(q)
       <==> && MaybeString(FindField(v.fields, "schema")) == Some(q.schema) && StringAt(v.fields, "table") == Some(q.table)
            && MaybeString(FindField(v.fields, "alias")) == Some(q.alias)
            && WhereAt(v, FindField(v.fields, "where")) == Some(q.where_) && RelatedAt(v, FindField(v.fields, "related")) == Some(q.related)
            && StartFromField(FindField(v.fields, "start")) == Some(q.start) && LimitFromField(FindField(v.fields, "limit")) == Some(q.limit)
            && OrderByFromField(FindField(v.fields, "orderBy")) == Some(q.orderBy)
  {
  }

  lemma OptionalStringExactly(v: Json, key: string, s: Option<string>)
    requires v.JObject?
    ensures MaybeString(FindField(v.fields, key)) == Some(s) <==> HasOptionalString(v, key, s)
  {
  }

  lemma LimitExactly(v: Json, limit: Option<real>)
    requires v.JObject?
    ensures LimitFromField(FindField(v.fields, "limit")) == Some(limit) <==> HasLimit(v, limit)
  {
  }

  lemma {:induction false} WhereDecodesExactly(v: Json, where_: Option<Condition>)
    requires v.JObject?
    ensures WhereAt(v, FindField(v.fields, "where")) == Some(where_) <==> HasWhere(v, where_)
    decreases where_, 1
  {
    var field := FindField(v.fields, "where");
    if field.Some? && where_.Some? {
      ConditionDecodesExactly(field.value, where_.value);
    }
  }

  lemma {:induction false} RelatedDecodesExactly(v: Json, related: RelatedHops)
    requires v.JObject?
    ensures RelatedAt(v, FindField(v.fields, "related")) == Some(related) <==> HasRelated(v, related)
    decreases related, 1
  {
    var field := FindField(v.fields, "related");
    if field.Some? && field.value.JArray? && related.Related? {
      HopsDecodeExactly(field.value.items, related.hops);
    }
  }

  /** Decoding a value gives a query exactly if the value stands for it. */
  lemma {:induction false} QueryDecodesExactly(v: Json, q: Ast)
    ensures QueryFromJson(v) == Some(q) <==> IsQuery(v, q)
    decreases q, 1
  {
    if v.JObject? {
      QueryByParts(v, q);
      OptionalStringExactly(v, "schema", q.schema);
      OptionalStringExactly(v, "alias", q.alias);
      WhereDecodesExactly(v, q.where_);
      RelatedDecodesExactly(v, q.related);
      StartDecodesExactly(v, q.start);
      LimitExactly(v, q.limit);
      OrderByDecodesExactly(v, q.orderBy);
    }
  }

  // ---- The order of fields ---------------------------------------------------

  /** Two objects that hold the same under every name. */
  ghost predicate SameLookups(v: Json, v': Json) {
    v.JObject? && v'.JObject? && forall key :: ObjectField(v, key) == ObjectField(v', key)
  }

  ghost predicate DistinctNames(fields: seq<(string, Json)>) {
    forall i, j | 0 <= i < j < |fields| :: fields[i].0 != fields[j].0
  }

  lemma FoundExactly(fields: seq<(string, Json)>, key: string, value: Json)
    requires DistinctNames(fields)
    ensures FindField(fields, key) == Some(value) <==> (key, value) in fields
  {
    if (key, value) in fields {
      var i :| 0 <= i < |fields| && fields[i] == (key, value);
      FieldAt(fields, i);
    }
  }

  /** Rearranging the fields of an object, if their names are distinct, changes no lookup. */
  lemma RearrangedLooksUpTheSame(fields: seq<(string, Json)>, fields': seq<(string, Json)>)
    requires DistinctNames(fields) && multiset(fields) == multiset(fields')
    ensures SameLookups(JObject(fields), JObject(fields'))
  {
    assert forall f :: f in fields <==> f in multiset(fields);
    assert forall f :: f in fields' <==> f in multiset(fields');
    StillDistinct(fields, fields');
    forall key ensures FindField(fields, key) == FindField(fields', key) {
      var a, b := FindField(fields, key), FindField(fields', key);
      if a.Some? {
        FoundExactly(fields, key, a.value);
        FoundExactly(fields', key, a.value);
      } else if b.Some? {
        FoundExactly(fields, key, b.value);
        FoundExactly(fields', key, b.value);
      }
    }
  }

  lemma StillDistinct(fields: seq<(string, Json)>, fields': seq<(string, Json)>)
    requires DistinctNames(fields) && multiset(fields) == multiset(fields')
    ensures DistinctNames(fields')
  {
    forall i, j | 0 <= i < j < |fields'| ensures fields'[i].0 != fields'[j].0 {
      var a, b := fields'[i], fields'[j];
      assert a in multiset(fields') && b in multiset(fields');
      var k :| 0 <= k < |fields| && fields[k] == a;
      var l :| 0 <= l < |fields| && fields[l] == b;
      if a == b {
        TwiceInside(fields', i, j);
        OnceInside(fields, k);
      }
    }
  }

  lemma TwiceInside<T>(xs: seq<T>, i: nat, j: nat)
    requires i < j < |xs| && xs[i] == xs[j]
    ensures multiset(xs)[xs[i]] >= 2
  {
    assert xs == xs[..j] + xs[j..] && xs[..j][i] == xs[i] && xs[j..][0] == xs[j];
    assert xs[i] in multiset(xs[..j]) && xs[i] in multiset(xs[j..]);
  }

  lemma OnceInside(fields: seq<(string, Json)>, k: nat)
    requires DistinctNames(fields) && k < |fields|
    ensures multiset(fields)[fields[k]] == 1
  {
    assert fields == fields[..k] + [fields[k]] + fields[k + 1..];
    assert fields[k] !in fields[..k] && fields[k] !in fields[k + 1..];
    assert fields[k] !in multiset(fields[..k]) && fields[k] !in multiset(fields[k + 1..]);
  }

  /** A query is decoded alike however the fields of its object are arranged, and whatever other fields there are. */
  lemma FieldOrderDoesNotMatter(v: Json, v': Json)
    requires SameLookups(v, v')
    ensures QueryFromJson(v) == QueryFromJson(v') && ConditionFromJson(v) == ConditionFromJson(v') && HopFromJson(v) == HopFromJson(v')
  {
    SameQuery(v, v');
    SameCondition(v, v');
    SameHop(v, v');
  }

  lemma StandsForTheSame(v: Json, v': Json, q: Ast)
    requires SameLookups(v, v')
    ensures QueryFromJson(v) == Some(q) <==> QueryFromJson(v') == Some(q)
  {
    QueryDecodesExactly(v, q);
    QueryDecodesExactly(v', q);
    SameParts(v, v', q);
  }

  lemma SameParts(v: Json, v': Json, q: Ast)
    requires SameLookups(v, v')
    ensures IsQuery(v, q) <==> IsQuery(v', q)
  {
    assert HasOptionalString(v, "schema", q.schema) == HasOptionalString(v', "schema", q.schema);
    assert HasString(v, "table", q.table) == HasString(v', "table", q.table);
    assert HasOptionalString(v, "alias", q.alias) == HasOptionalString(v', "alias", q.alias);
    assert HasWhere(v, q.where_) == HasWhere(v', q.where_);
    assert HasRelated(v, q.related) == HasRelated(v', q.related);
    assert HasStart(v, q.start) == HasStart(v', q.start);
    assert HasLimit(v, q.limit) == HasLimit(v', q.limit);
    assert HasOrder(v, q.orderBy) == HasOrder(v', q.orderBy);
  }

  lemma SameQuery(v: Json, v': Json)
    requires SameLookups(v, v')
    ensures QueryFromJson(v) == QueryFromJson(v')
  {
    var a, b := QueryFromJson(v), QueryFromJson(v');
    if a.Some? {
      StandsForTheSame(v, v', a.value);
    } else if b.Some? {
      StandsForTheSame(v, v', b.value);
    }
  }

  lemma SameConditionStands(v: Json, v': Json, c: Condition)
    requires SameLookups(v, v')
    ensures ConditionFromJson(v) == Some(c) <==> ConditionFromJson(v') == Some(c)
  {
    ConditionDecodesExactly(v, c);
    ConditionDecodesExactly(v', c);
    SameConditionParts(v, v', c);
  }

  lemma SameConditionParts(v: Json, v': Json, c: Condition)
    requires SameLookups(v, v')
    ensures IsCondition(v, c) <==> IsCondition(v', c)
  {
    assert ObjectField(v, "type") == ObjectField(v', "type");
    match c
    case Simple(op, left, right) =>
      assert HasString(v, "op", OperatorString(op)) == HasString(v', "op", OperatorString(op));
      assert HasPosition(v, "left", left) == HasPosition(v', "left", left) && HasPosition(v, "right", right) == HasPosition(v', "right", right);
    case Subquery(related, op, flip, scalar, _) =>
      assert ObjectField(v, "op") == ObjectField(v', "op") && HasHop(v, related) == HasHop(v', related);
      assert HasOptionalBool(v, "flip", flip) == HasOptionalBool(v', "flip", flip) && HasOptionalBool(v, "scalar", scalar) == HasOptionalBool(v', "scalar", scalar);
    case _ =>
      assert HasConditions(v, c.conditions) == HasConditions(v', c.conditions);
  }

  lemma SameCondition(v: Json, v': Json)
    requires SameLookups(v, v')
    ensures ConditionFromJson(v) == ConditionFromJson(v')
  {
    var a, b := ConditionFromJson(v), ConditionFromJson(v');
    if a.Some? {
      SameConditionStands(v, v', a.value);
    } else if b.Some? {
      SameConditionStands(v, v', b.value);
    }
  }

  lemma SameHopStands(v: Json, v': Json, hop: CorrelatedSubquery)
    requires SameLookups(v, v')
    ensures HopFromJson(v) == Some(hop) <==> HopFromJson(v') == Some(hop)
  {
    HopDecodesExactly(v, hop);
    HopDecodesExactly(v', hop);
    assert HasCorrelation(v, hop.correlation) == HasCorrelation(v', hop.correlation) && HasSubquery(v, hop.subquery) == HasSubquery(v', hop.subquery);
    assert HasOptionalBool(v, "hidden", hop.hidden) == HasOptionalBool(v', "hidden", hop.hidden) && HasSystem(v, hop.system) == HasSystem(v', hop.system);
  }

  lemma SameHop(v: Json, v': Json)
    requires SameLookups(v, v')
    ensures HopFromJson(v) == HopFromJson(v')
  {
    var a, b := HopFromJson(v), HopFromJson(v');
    if a.Some? {
      SameHopStands(v, v', a.value);
    } else if b.Some? {
      SameHopStands(v, v', b.value);
    }
  }

  // ---- The order an encoder writes fields in ---------------------------------

  function FieldNames(v: Json): seq<string> {
    if v.JObject? then seq(|v.fields|, i requires 0 <= i < |v.fields| => v.fields[i].0) else []
  }

  /** The names whose field is there. */
  function Chosen(names: seq<(string, bool)>): seq<string> {
    if names == [] then [] else (if names[0].1 then [names[0].0] else []) + Chosen(names[1..])
  }

  function Presence(spec: seq<(string, Option<Json>)>): seq<(string, bool)> {
    seq(|spec|, i requires 0 <= i < |spec| => (spec[i].0, spec[i].1.Some?))
  }

  lemma {:induction false} PresentNames(spec: seq<(string, Option<Json>)>)
    ensures FieldNames(JObject(Present(spec))) == Chosen(Presence(spec))
  {
    if spec != [] {
      PresentNames(spec[1..]);
      assert Presence(spec)[1..] == Presence(spec[1..]);
    }
  }

  /** An encoded query names its fields in one order, leaving out what it does not have. */
  lemma QueryFieldsInOrder(q: Ast)
    ensures FieldNames(QueryToJson(q)) == Chosen([
              ("schema", q.schema.Some?), ("table", true), ("alias", q.alias.Some?), ("where", q.where_.Some?),
              ("related", q.related.Related?), ("start", q.start.Some?), ("limit", q.limit.Some?), ("orderBy", q.orderBy.Some?)])
  {
    PresentNames(QuerySpec(q));
    assert Presence(QuerySpec(q)) == [
      ("schema", q.schema.Some?), ("table", true), ("alias", q.alias.Some?), ("where", q.where_.Some?),
      ("related", q.related.Related?), ("start", q.start.Some?), ("limit", q.limit.Some?), ("orderBy", q.orderBy.Some?)];
  }

  /** So does an encoded correlated subquery. */
  lemma HopFieldsInOrder(hop: CorrelatedSubquery)
    ensures FieldNames(HopToJson(hop)) == Chosen([
              ("correlation", true), ("hidden", hop.hidden.Some?), ("subquery", true), ("system", hop.system.Some?)])
  {
    PresentNames(HopSpec(hop));
    assert Presence(HopSpec(hop)) == [("correlation", true), ("hidden", hop.hidden.Some?), ("subquery", true), ("system", hop.system.Some?)];
  }

  /** And an encoded condition. */
  lemma ConditionFieldsInOrder(c: Condition)
    ensures FieldNames(ConditionToJson(c))
         == match c
            case Simple(_, _, _) => ["type", "op", "left", "right"]
            case And(_) => ["type", "conditions"]
            case Or(_) => ["type", "conditions"]
            case Subquery(_, _, flip, scalar, _) =>
              Chosen([("type", true), ("related", true), ("op", true), ("flip", flip.Some?), ("scalar", scalar.Some?)])
  {
    if c.Subquery? {
      var spec := SubquerySpec(c.related, c.existsOp, c.flip, c.scalar);
      PresentNames(spec);
      assert Presence(spec) == [("type", true), ("related", true), ("op", true), ("flip", c.flip.Some?), ("scalar", c.scalar.Some?)];
    }
  }
}
