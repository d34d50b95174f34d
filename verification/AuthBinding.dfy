/**
 Binding static references to the caller's authentication data:
 `bind_static_parameters` and `bind_permissions_auth_data` of
 `crates/zero-cache-auth/src/read_authorizer.rs`.
 */
module AuthBinding {
  import opened Base
  import opened QueryAst
  import opened ReadAuthorizer

  // ---- Resolving one reference -----------------------------------------------

  predicate IsAuthReference(raw: Json) {
    ObjectField(raw, "anchor") == Some(JString("authData"))
  }

  /** The claim path a reference's field names: one field, or an array of nothing but strings. */
  function PathOf(field: Json): Option<seq<string>> {
    match field
    case JString(name) => Some([name])
    case JArray(parts) => if forall p | p in parts :: p.JString? then Some(Names(parts)) else None
    case _ => None
  }

  function ClaimPath(raw: Json): Option<seq<string>> {
    match ObjectField(raw, "field")
    case Some(field) => PathOf(field)
    case None => None
  }

  function Names(parts: seq<Json>): seq<string>
    requires forall p | p in parts :: p.JString?
  {
    seq(|parts|, i requires 0 <= i < |parts| => parts[i].s)
  }

  /** The value a path of object fields leads to, null where it breaks off. */
  function Follow(value: Json, path: seq<string>): Json
    decreases |path|
  {
    if path == [] then value
    else
      match ObjectField(value, path[0])
      case Some(next) => Follow(next, path[1..])
      case None => JNull
  }

  function ParameterValue(raw: Json, auth: Json): Json {
    if raw.JObject? && IsAuthReference(raw) && ClaimPath(raw).Some? then Follow(auth, ClaimPath(raw).value) else JNull
  }

  /** A JSON value as a literal of the condition grammar: scalars, arrays of scalars, null for everything else. */
  function LiteralOf(value: Json): LiteralValue {
    match value
    case JNull => LNull
    case JBool(b) => LBool(b)
    case JNumber(n) => LNumber(n)
    case JBigInt(i) => LNumber(i as real)
    case JString(s) => LString(s)
    case JArray(items) =>
      if exists item | item in items :: LiteralOf(item).LArray? then LNull
      else LArray(seq(|items|, i requires 0 <= i < |items| => LiteralOf(items[i])))
    case JObject(_) => LNull
  }

  /** Collects the path of a reference part by part, giving up on the first part that is not a string. */
  method ReadClaimPath(field: Json) returns (path: Option<seq<string>>)
    ensures path == PathOf(field)
  {
    match field {
      case JString(name) =>
        return Some([name]);
      case JArray(parts) =>
        var names: seq<string> := [];
        var i := 0;
        while i < |parts|
          invariant 0 <= i <= |parts| && |names| == i
          invariant forall k | 0 <= k < i :: parts[k] == JString(names[k])
        {
          if !parts[i].JString? {
            assert parts[i] in parts;
            return None;
          }
          names := names + [parts[i].s];
          i := i + 1;
        }
        assert names == Names(parts);
        return Some(names);
      case _ =>
        return None;
    }
  }

  /** Walks a reference's claim path through the authentication data. */
  method ResolveParameter(raw: Json, auth: Json) returns (value: Json)
    ensures value == ParameterValue(raw, auth)
  {
    if !raw.JObject? || ObjectField(raw, "anchor") != Some(JString("authData")) || ObjectField(raw, "field").None? {
      return JNull;
    }
    var claim := ReadClaimPath(ObjectField(raw, "field").value);
    if claim.None? {
      return JNull;
    }
    var path := claim.value;
    value := auth;
    var k := 0;
    while k < |path|
      invariant 0 <= k <= |path|
      invariant Follow(value, path[k..]) == Follow(auth, path)
    {
      assert path[k..][1..] == path[k + 1..];
      match ObjectField(value, path[k]) {
        case Some(next) => value := next;
        case None => return JNull;
      }
      k := k + 1;
    }
  }

  /** Claims that hold a value at the end of a path. */
  function Nested(path: seq<string>, value: Json): Json {
    if path == [] then value else JObject([(path[0], Nested(path[1..], value))])
  }

  /** A reference to claims at the end of a path. */
  function Reference(path: seq<string>): Json {
    JObject([("anchor", JString("authData")), ("field", JArray(seq(|path|, i requires 0 <= i < |path| => JString(path[i]))))])
  }

  lemma {:induction false} PathIsFollowed(path: seq<string>, value: Json)
    ensures Follow(Nested(path, value), path) == value
  {
    if path != [] {
      PathIsFollowed(path[1..], value);
    }
  }

  lemma {:induction false} BrokenPathIsNull(path: seq<string>, rest: seq<string>)
    requires rest != []
    ensures Follow(Nested(path, JObject([])), path + rest) == JNull
  {
    if path == [] {
      assert path + rest == rest;
    } else {
      BrokenPathIsNull(path[1..], rest);
      assert (path + rest)[0] == path[0] && (path + rest)[1..] == path[1..] + rest;
    }
  }

  lemma ReferencePath(path: seq<string>)
    ensures IsAuthReference(Reference(path)) && ClaimPath(Reference(path)) == Some(path)
  {
    var fields := Reference(path).fields;
    assert fields[0].0 != "field" && fields[1..][0] == fields[1];
    assert FindField(fields, "field") == FindField(fields[1..], "field") == Some(fields[1].1);
    var parts := fields[1].1.items;
    assert forall p | p in parts :: p.JString?;
    assert Names(parts) == path;
  }

  /** A reference finds the claim at the end of its path, and null where the path breaks off. */
  lemma ReferenceFindsItsClaim(path: seq<string>, value: Json, rest: seq<string>)
    ensures ParameterValue(Reference(path), Nested(path, value)) == value
    ensures rest != [] ==> ParameterValue(Reference(path + rest), Nested(path, JObject([]))) == JNull
  {
    ReferencePath(path);
    PathIsFollowed(path, value);
    ReferencePath(path + rest);
    if rest != [] {
      BrokenPathIsNull(path, rest);
    }
  }

  /** Converts a JSON value to a literal, giving up on the first nested array. */
  method LiteralFromJson(value: Json) returns (literal: LiteralValue)
    ensures literal == LiteralOf(value)
    decreases value
  {
    match value {
      case JNull => literal := LNull;
      case JBool(b) => literal := LBool(b);
      case JNumber(n) => literal := LNumber(n);
      case JBigInt(i) => literal := LNumber(i as real);
      case JString(s) => literal := LString(s);
      case JObject(_) => literal := LNull;
      case JArray(items) =>
        var literals: seq<LiteralValue> := [];
        var i := 0;
        while i < |items|
          invariant 0 <= i <= |items| && |literals| == i
          invariant forall k | 0 <= k < i :: literals[k] == LiteralOf(items[k]) && !literals[k].LArray?
        {
          var item := LiteralFromJson(items[i]);
          if item.LArray? {
            assert items[i] in items;
            return LNull;
          }
          literals := literals + [item];
          i := i + 1;
        }
        literal := LArray(literals);
    }
  }

  /** A bound reference is a scalar or an array of scalars, whatever the authentication data holds. */
  lemma {:induction false} LiteralsAreFlat(value: Json)
    ensures var l := LiteralOf(value); l.LArray? ==> forall item | item in l.items :: !item.LArray?
  {
    if value.JArray? && LiteralOf(value).LArray? {
      forall item | item in LiteralOf(value).items
        ensures !item.LArray?
      {
        var i :| 0 <= i < |value.items| && item == LiteralOf(value.items[i]);
        assert value.items[i] in value.items;
      }
    }
  }

  // ---- Binding a tree --------------------------------------------------------

  function BindValue(v: ValuePosition, auth: Json): ValuePosition {
    if v.Parameter? then Literal(LiteralOf(ParameterValue(v.raw, auth))) else v
  }

  function BindQuery(q: Ast, auth: Json): Ast
    decreases q, 1
  {
    q.(where_ := if q.where_.Some? then Some(BindCondition(q.where_.value, auth)) else None,
       related := if q.related.Related? then Related(BindHops(q.related.hops, auth)) else NoRelated)
  }

  function BindHops(hops: seq<CorrelatedSubquery>, auth: Json): seq<CorrelatedSubquery>
    decreases hops, 0
  {
    seq(|hops|, i requires 0 <= i < |hops| => BindHop(hops[i], auth))
  }

  function BindHop(hop: CorrelatedSubquery, auth: Json): CorrelatedSubquery
    decreases hop, 0
  {
    hop.(subquery := BindQuery(hop.subquery, auth))
  }

  function BindCondition(c: Condition, auth: Json): Condition
    decreases c, 1
  {
    match c
    case Simple(op, left, right) => Simple(op, BindValue(left, auth), BindValue(right, auth))
    case And(cs) => And(BindConditions(cs, auth))
    case Or(cs) => Or(BindConditions(cs, auth))
    case Subquery(related, _, _, _, _) => c.(related := BindHop(related, auth))
  }

  function BindConditions(cs: seq<Condition>, auth: Json): seq<Condition>
    decreases cs, 0
  {
    seq(|cs|, i requires 0 <= i < |cs| => BindCondition(cs[i], auth))
  }

  function BindPolicy(policy: Option<Policy>, auth: Json): Option<Policy> {
    if policy.Some? then Some(BindConditions(policy.value, auth)) else None
  }

  function BindAsset(asset: AssetPermissions, auth: Json): AssetPermissions {
    AssetPermissions(
      BindPolicy(asset.select, auth),
      BindPolicy(asset.insert, auth),
      UpdatePolicies(BindPolicy(asset.update.preMutation, auth), BindPolicy(asset.update.postMutation, auth)),
      BindPolicy(asset.delete, auth))
  }

  function BindTable(entry: TablePermissions, auth: Json): TablePermissions {
    TablePermissions(
      if entry.row.Some? then Some(BindAsset(entry.row.value, auth)) else None,
      if entry.cell.Some? then Some(map name | name in entry.cell.value :: BindAsset(entry.cell.value[name], auth)) else None)
  }

  function BindPermissions(perms: PermissionsConfig, auth: Json): PermissionsConfig {
    PermissionsConfig(
      if perms.tables.Some?
      then Some(map name | name in perms.tables.value :: BindTable(perms.tables.value[name], auth))
      else None)
  }

  // ---- Binding commutes with the permission transform ------------------------

  lemma BindConcat(a: seq<Condition>, b: seq<Condition>, auth: Json)
    ensures BindConditions(a + b, auth) == BindConditions(a, auth) + BindConditions(b, auth)
  {
  }

  lemma BindSpliced(isAnd: bool, c: Condition, auth: Json)
    ensures BindConditions(Spliced(isAnd, c), auth) == Spliced(isAnd, BindCondition(c, auth))
  {
  }

  lemma {:induction false} BindCommutesWithSplice(isAnd: bool, cs: seq<Condition>, auth: Json)
    ensures BindConditions(Splice(isAnd, cs), auth) == Splice(isAnd, BindConditions(cs, auth))
  {
    if cs != [] {
      var bound := BindConditions(cs, auth);
      assert bound[1..] == BindConditions(cs[1..], auth);
      calc {
        BindConditions(Splice(isAnd, cs), auth);
        BindConditions(Spliced(isAnd, cs[0]) + Splice(isAnd, cs[1..]), auth);
        { BindConcat(Spliced(isAnd, cs[0]), Splice(isAnd, cs[1..]), auth); }
        BindConditions(Spliced(isAnd, cs[0]), auth) + BindConditions(Splice(isAnd, cs[1..]), auth);
        { BindSpliced(isAnd, cs[0], auth); BindCommutesWithSplice(isAnd, cs[1..], auth); }
        Spliced(isAnd, bound[0]) + Splice(isAnd, bound[1..]);
        Splice(isAnd, bound);
      }
    }
  }

  lemma BindKeepsConstants(c: Condition, isAnd: bool, auth: Json)
    ensures BindCondition(c, auth) == Junction(isAnd, []) <==> c == Junction(isAnd, [])
  {
    assert BindConditions([], auth) == [];
    if c.And? || c.Or? {
      assert |BindConditions(c.conditions, auth)| == |c.conditions|;
    }
  }

  lemma BindKeepsConstantsIn(flat: seq<Condition>, isAnd: bool, auth: Json)
    ensures Junction(isAnd, []) in BindConditions(flat, auth) <==> Junction(isAnd, []) in flat
  {
    var bound := BindConditions(flat, auth);
    forall i | 0 <= i < |flat|
      ensures bound[i] == Junction(isAnd, []) <==> flat[i] == Junction(isAnd, [])
    {
      BindKeepsConstants(flat[i], isAnd, auth);
    }
  }

  lemma BindCommutesWithRejoin(isAnd: bool, flat: seq<Condition>, auth: Json)
    ensures BindCondition(Rejoin(isAnd, flat), auth) == Rejoin(isAnd, BindConditions(flat, auth))
  {
    BindKeepsConstantsIn(flat, true, auth);
    BindKeepsConstantsIn(flat, false, auth);
    assert BindConditions([], auth) == [];
  }

  lemma {:induction false} BindCommutesWithSimplify(c: Condition, auth: Json)
    ensures BindCondition(SimplifyCondition(c), auth) == SimplifyCondition(BindCondition(c, auth))
  {
    if c.And? || c.Or? {
      var cs, simple := c.conditions, SimplifyAll(c.conditions);
      forall i | 0 <= i < |cs|
        ensures BindCondition(simple[i], auth) == SimplifyCondition(BindCondition(cs[i], auth))
      {
        BindCommutesWithSimplify(cs[i], auth);
      }
      assert BindConditions(simple, auth) == SimplifyAll(BindConditions(cs, auth));
      BindCommutesWithSplice(c.And?, simple, auth);
      BindCommutesWithRejoin(c.And?, Splice(c.And?, simple), auth);
    }
  }

  lemma BindCommutesWithRules(where_: Option<Condition>, rules: Option<Policy>, auth: Json)
    ensures BindCondition(AddRulesToWhere(where_, rules), auth)
         == AddRulesToWhere(if where_.Some? then Some(BindCondition(where_.value, auth)) else None, BindPolicy(rules, auth))
  {
    var front := if where_.Some? then [where_.value] else [];
    var rule := Or(if rules.Some? then rules.value else []);
    assert BindConditions(front + [rule], auth) == BindConditions(front, auth) + BindConditions([rule], auth);
    assert BindConditions([], auth) == [];
  }

  /** The select policy of bound permissions is the bound select policy. */
  lemma SelectPolicyOfBound(perms: PermissionsConfig, table: string, auth: Json)
    ensures SelectPolicy(BindPermissions(perms, auth), table) == BindPolicy(SelectPolicy(perms, table), auth)
  {
  }

  lemma {:induction false} BindCommutesWithTransformCondition(c: Condition, perms: PermissionsConfig, auth: Json)
    ensures BindCondition(TransformCondition(c, perms), auth)
         == TransformCondition(BindCondition(c, auth), BindPermissions(perms, auth))
    decreases c, 1
  {
    match c
    case Simple(_, _, _) =>
    case Subquery(related, _, _, _, _) => BindCommutesWithTransformHop(related, perms, auth);
    case _ =>
      var cs := c.conditions;
      forall i | 0 <= i < |cs|
        ensures BindCondition(TransformCondition(cs[i], perms), auth)
             == TransformCondition(BindCondition(cs[i], auth), BindPermissions(perms, auth))
      {
        BindCommutesWithTransformCondition(cs[i], perms, auth);
      }
      assert BindConditions(TransformConditions(cs, perms), auth)
          == TransformConditions(BindConditions(cs, auth), BindPermissions(perms, auth));
  }

  lemma {:induction false} BindCommutesWithTransformHop(hop: CorrelatedSubquery, perms: PermissionsConfig, auth: Json)
    ensures BindHop(TransformHop(hop, perms), auth) == TransformHop(BindHop(hop, auth), BindPermissions(perms, auth))
    decreases hop, 0
  {
    BindCommutesWithTransform(hop.subquery, perms, auth);
  }

  /** Binding after the permission transform gives the same syntax as transforming the bound query under the bound permissions. */
  lemma {:induction false} BindCommutesWithTransform(q: Ast, perms: PermissionsConfig, auth: Json)
    ensures BindQuery(TransformQuery(q, perms), auth) == TransformQuery(BindQuery(q, auth), BindPermissions(perms, auth))
    decreases q, 1
  {
    var where_ := if q.where_.Some? then Some(TransformCondition(q.where_.value, perms)) else None;
    if q.where_.Some? {
      BindCommutesWithTransformCondition(q.where_.value, perms, auth);
    }
    var rules := SelectPolicy(perms, q.table);
    SelectPolicyOfBound(perms, q.table, auth);
    BindCommutesWithRules(where_, rules, auth);
    BindCommutesWithSimplify(AddRulesToWhere(where_, rules), auth);
    if q.related.Related? {
      var hops := q.related.hops;
      forall i | 0 <= i < |hops|
        ensures BindHop(TransformHop(hops[i], perms), auth)
             == TransformHop(BindHop(hops[i], auth), BindPermissions(perms, auth))
      {
        BindCommutesWithTransformHop(hops[i], perms, auth);
      }
      assert BindHops(TransformHops(hops, perms), auth)
          == TransformHops(BindHops(hops, auth), BindPermissions(perms, auth));
    }
  }

  // ---- Nothing is left unbound -----------------------------------------------

  /** No static reference anywhere in a condition, its subqueries included. */
  predicate BoundCondition(c: Condition)
    decreases c, 0
  {
    match c
    case Simple(_, left, right) => !left.Parameter? && !right.Parameter?
    case And(cs) => forall c' | c' in cs :: BoundCondition(c')
    case Or(cs) => forall c' | c' in cs :: BoundCondition(c')
    case Subquery(related, _, _, _, _) => BoundHop(related)
  }

  predicate BoundHop(hop: CorrelatedSubquery)
    decreases hop, 0
  {
    BoundQuery(hop.subquery)
  }

  predicate BoundQuery(q: Ast)
    decreases q, 0
  {
    && (q.where_.Some? ==> BoundCondition(q.where_.value))
    && (q.related.Related? ==> forall hop | hop in q.related.hops :: BoundHop(hop))
  }

  lemma {:induction false} BindingBindsCondition(c: Condition, auth: Json)
    ensures BoundCondition(BindCondition(c, auth))
    decreases c, 1
  {
    match c
    case Simple(_, _, _) =>
    case Subquery(related, _, _, _, _) => BindingBindsHop(related, auth);
    case _ =>
      forall i | 0 <= i < |c.conditions|
        ensures BoundCondition(BindConditions(c.conditions, auth)[i])
      {
        BindingBindsCondition(c.conditions[i], auth);
      }
  }

  lemma {:induction false} BindingBindsHop(hop: CorrelatedSubquery, auth: Json)
    ensures BoundHop(BindHop(hop, auth))
    decreases hop, 0
  {
    BindingBindsQuery(hop.subquery, auth);
  }

  /** A bound query holds no static reference in its condition or its related hops, at any depth. */
  lemma {:induction false} BindingBindsQuery(q: Ast, auth: Json)
    ensures BoundQuery(BindQuery(q, auth))
    decreases q, 1
  {
    if q.where_.Some? {
      BindingBindsCondition(q.where_.value, auth);
    }
    if q.related.Related? {
      forall i | 0 <= i < |q.related.hops|
        ensures BoundHop(BindHops(q.related.hops, auth)[i])
      {
        BindingBindsHop(q.related.hops[i], auth);
      }
    }
  }
}
