/**
 Whose policies decide what a caller sees, and what binding does to policies and to the
 forms a reference to the claims can take.
 */
module PolicyMeaning {
  import opened Base
  import opened QueryAst
  import opened QuerySemantics
  import opened ReadAuthorizer
  import opened AuthBinding
  import opened BindingMeaning

  // ---- What a caller may see -------------------------------------------------

  /** Some select rule for the rows of the table holds of the row. Other policies, and those of cells, have no say. */
  predicate MaySee(s: Semantics, db: Database, perms: PermissionsConfig, table: string, row: Row) {
    && perms.tables.Some? && table in perms.tables.value && perms.tables.value[table].row.Some?
    && perms.tables.value[table].row.value.select.Some?
    && exists rule | rule in perms.tables.value[table].row.value.select.value :: Holds(s, db, rule, row)
  }

  function Filter<T>(xs: seq<T>, p: T -> bool): seq<T> {
    if xs == [] then [] else Filter(xs[..|xs| - 1], p) + if p(xs[|xs| - 1]) then [xs[|xs| - 1]] else []
  }

  lemma {:induction false} FilterFirst<T>(xs: seq<T>, p: T -> bool)
    requires xs != []
    ensures Filter(xs, p) == (if p(xs[0]) then [xs[0]] else []) + Filter(xs[1..], p)
  {
    var n := |xs| - 1;
    if n == 0 {
      assert xs[..0] == [] && xs[1..] == [];
    } else {
      FilterFirst(xs[..n], p);
      assert xs[..n][1..] == xs[1..][..n - 1] && xs[1..][n - 1] == xs[n];
    }
  }

  lemma {:induction false} VisibleRowsExactly(s: Semantics, db: Database, perms: PermissionsConfig, table: string, rows: seq<Row>)
    ensures VisibleRows(s, db, SelectPolicy(perms, table), rows) == Filter(rows, row => MaySee(s, db, perms, table, row))
  {
    if rows != [] {
      VisibleRowsExactly(s, db, perms, table, rows[1..]);
      FilterFirst(rows, row => MaySee(s, db, perms, table, row));
    }
  }

  /** The visible database has every table, with exactly the rows the caller may see, in order. */
  lemma VisibleExactly(s: Semantics, db: Database, perms: PermissionsConfig, table: string)
    ensures table in Visible(s, db, perms) <==> table in db
    ensures table in db ==> Visible(s, db, perms)[table] == Filter(db[table], row => MaySee(s, db, perms, table, row))
  {
    if table in db {
      VisibleRowsExactly(s, db, perms, table, db[table]);
    }
  }

  // ---- Policies are bound, all of them and nothing else ----------------------

  predicate BoundPolicy(policy: Option<Policy>) {
    policy.Some? ==> forall rule | rule in policy.value :: BoundCondition(rule)
  }

  predicate BoundAsset(asset: AssetPermissions) {
    && BoundPolicy(asset.select) && BoundPolicy(asset.insert) && BoundPolicy(asset.delete)
    && BoundPolicy(asset.update.preMutation) && BoundPolicy(asset.update.postMutation)
  }

  predicate BoundTable(entry: TablePermissions) {
    && (entry.row.Some? ==> BoundAsset(entry.row.value))
    && (entry.cell.Some? ==> forall name | name in entry.cell.value :: BoundAsset(entry.cell.value[name]))
  }

  /** No static reference in any policy of any table, row or cell. */
  predicate BoundPermissions(perms: PermissionsConfig) {
    perms.tables.Some? ==> forall name | name in perms.tables.value :: BoundTable(perms.tables.value[name])
  }

  lemma BindingBindsPolicy(policy: Option<Policy>, auth: Json)
    ensures BoundPolicy(BindPolicy(policy, auth))
  {
    if policy.Some? {
      forall i | 0 <= i < |policy.value| ensures BoundCondition(BindConditions(policy.value, auth)[i]) {
        BindingBindsCondition(policy.value[i], auth);
      }
    }
  }

  lemma BindingBindsAsset(asset: AssetPermissions, auth: Json)
    ensures BoundAsset(BindAsset(asset, auth))
  {
    BindingBindsPolicy(asset.select, auth);
    BindingBindsPolicy(asset.insert, auth);
    BindingBindsPolicy(asset.delete, auth);
    BindingBindsPolicy(asset.update.preMutation, auth);
    BindingBindsPolicy(asset.update.postMutation, auth);
  }

  lemma BindingBindsTable(entry: TablePermissions, auth: Json)
    ensures BoundTable(BindTable(entry, auth))
  {
    if entry.row.Some? {
      BindingBindsAsset(entry.row.value, auth);
    }
    if entry.cell.Some? {
      forall name | name in entry.cell.value ensures BoundAsset(BindAsset(entry.cell.value[name], auth)) {
        BindingBindsAsset(entry.cell.value[name], auth);
      }
    }
  }

  /** Binding leaves no static reference in any policy. */
  lemma BindingBindsPermissions(perms: PermissionsConfig, auth: Json)
    ensures BoundPermissions(BindPermissions(perms, auth))
  {
    if perms.tables.Some? {
      forall name | name in perms.tables.value ensures BoundTable(BindTable(perms.tables.value[name], auth)) {
        BindingBindsTable(perms.tables.value[name], auth);
      }
    }
  }

  lemma BoundPolicyStays(policy: Option<Policy>, auth: Json)
    requires BoundPolicy(policy)
    ensures BindPolicy(policy, auth) == policy
  {
    if policy.Some? {
      forall i | 0 <= i < |policy.value| ensures BindConditions(policy.value, auth)[i] == policy.value[i] {
        assert policy.value[i] in policy.value;
        BoundConditionStays(policy.value[i], auth);
      }
      assert BindConditions(policy.value, auth) == policy.value;
    }
  }

  lemma BoundAssetStays(asset: AssetPermissions, auth: Json)
    requires BoundAsset(asset)
    ensures BindAsset(asset, auth) == asset
  {
    BoundPolicyStays(asset.select, auth);
    BoundPolicyStays(asset.insert, auth);
    BoundPolicyStays(asset.delete, auth);
    BoundPolicyStays(asset.update.preMutation, auth);
    BoundPolicyStays(asset.update.postMutation, auth);
  }

  lemma BoundTableStays(entry: TablePermissions, auth: Json)
    requires BoundTable(entry)
    ensures BindTable(entry, auth) == entry
  {
    if entry.row.Some? {
      BoundAssetStays(entry.row.value, auth);
    }
    if entry.cell.Some? {
      forall name | name in entry.cell.value ensures BindAsset(entry.cell.value[name], auth) == entry.cell.value[name] {
        BoundAssetStays(entry.cell.value[name], auth);
      }
      assert BindTable(entry, auth).cell.value == entry.cell.value;
    }
  }

  /** Policies without static references are bound to themselves. */
  lemma BoundPermissionsStay(perms: PermissionsConfig, auth: Json)
    requires BoundPermissions(perms)
    ensures BindPermissions(perms, auth) == perms
  {
    if perms.tables.Some? {
      forall name | name in perms.tables.value ensures BindTable(perms.tables.value[name], auth) == perms.tables.value[name] {
        BoundTableStays(perms.tables.value[name], auth);
      }
      assert BindPermissions(perms, auth).tables.value == perms.tables.value;
    }
  }

  /** Under bound permissions a caller sees the rows for which a rule holds once its references are looked up in the claims. */
  lemma BoundRulesHold(s: Semantics, db: Database, perms: PermissionsConfig, auth: Json, table: string, row: Row)
    ensures MaySee(s, db, BindPermissions(perms, auth), table, row) <==> MaySee(LookingUp(s, auth), db, perms, table, row)
  {
    if perms.tables.Some? && table in perms.tables.value && perms.tables.value[table].row.Some? && perms.tables.value[table].row.value.select.Some? {
      var rules := perms.tables.value[table].row.value.select.value;
      var bound := BindConditions(rules, auth);
      forall i | 0 <= i < |rules|
        ensures rules[i] in rules && bound[i] in bound && Holds(s, db, bound[i], row) == Holds(LookingUp(s, auth), db, rules[i], row)
      {
        BoundConditionHolds(s, db, rules[i], auth, row);
      }
    }
  }

  // ---- The forms of a reference ----------------------------------------------

  /** A reference with any anchor and field. */
  function ReferenceTo(anchor: string, field: Json): Json {
    JObject([("anchor", JString(anchor)), ("field", field)])
  }

  lemma ReferenceLookups(anchor: string, field: Json)
    ensures ObjectField(ReferenceTo(anchor, field), "anchor") == Some(JString(anchor))
    ensures ObjectField(ReferenceTo(anchor, field), "field") == Some(field)
  {
    var fields := ReferenceTo(anchor, field).fields;
    assert |"anchor"| != |"field"|;
    assert fields[1..][0] == fields[1];
    assert FindField(fields, "field") == FindField(fields[1..], "field");
  }

  /** Only the authentication data can be referred to; one name is a path of one; a path with anything but names in it, or no path, is null. */
  lemma OtherReferences(anchor: string, field: Json, name: string, auth: Json, raw: Json)
    ensures anchor != "authData" ==> ParameterValue(ReferenceTo(anchor, field), auth) == JNull
    ensures ParameterValue(ReferenceTo("authData", JString(name)), auth) == ParameterValue(Reference([name]), auth)
    ensures (field.JArray? && exists part | part in field.items :: !part.JString?) ==> ParameterValue(ReferenceTo("authData", field), auth) == JNull
    ensures !field.JArray? && !field.JString? ==> ParameterValue(ReferenceTo("authData", field), auth) == JNull
    ensures ObjectField(raw, "anchor") == None || ObjectField(raw, "field") == None ==> ParameterValue(raw, auth) == JNull
  {
    ReferenceLookups(anchor, field);
    ReferenceLookups("authData", field);
    ReferenceLookups("authData", JString(name));
    ReferencePath([name]);
  }
}
