/**
 Batching queued pushes per connection: `crates/zero-cache-mutagen/src/pusher_batch.rs`.

 Schema and push versions are exact reals, so they always equal themselves.
 */
module PushBatch {
  import opened Base

  datatype MutateContext = MutateContext(url: string, cookie: Option<string>, origin: Option<string>)

  datatype ConnCtx = ConnCtx(
    clientId: string,
    wsId: string,
    revision: string,
    auth: Option<string>,
    userId: string,
    mutateContext: MutateContext)

  datatype PushBody<M> = PushBody(schemaVersion: Option<real>, pushVersion: real, mutations: seq<M>)

  datatype Entry<M> = Entry(ctx: ConnCtx, push: PushBody<M>)

  datatype Item<M> = Queued(entry: Entry<M>) | Stop

  /** Which comparison of two pushes failed first. */
  datatype Field = ClientId | WsId | Revision | Auth | SchemaVersion | PushVersion | Cookie | Origin | UserId | Url

  // ---- Contexts --------------------------------------------------------------

  /** Everything about a push but its mutations. */
  datatype Context = Context(ctx: ConnCtx, schemaVersion: Option<real>, pushVersion: real)

  function ContextOf<M>(e: Entry<M>): Context {
    Context(e.ctx, e.push.schemaVersion, e.push.pushVersion)
  }

  /** A connection: client, socket and revision. */
  datatype Connection = Connection(clientId: string, wsId: string, revision: string)

  function ConnectionOf(ctx: ConnCtx): Connection {
    Connection(ctx.clientId, ctx.wsId, ctx.revision)
  }

  function ConnectionKey(c: Connection): string {
    c.clientId + ":" + c.wsId + ":" + c.revision
  }

  function GroupKey(ctx: ConnCtx): string {
    ConnectionKey(ConnectionOf(ctx))
  }

  /** The first field in which two pushes differ. */
  function Incompatible<M>(left: Entry<M>, right: Entry<M>): (field: Option<Field>)
    ensures field == None <==> ContextOf(left) == ContextOf(right)
  {
    if left.ctx.clientId != right.ctx.clientId then Some(ClientId)
    else if left.ctx.wsId != right.ctx.wsId then Some(WsId)
    else if left.ctx.revision != right.ctx.revision then Some(Revision)
    else if left.ctx.auth != right.ctx.auth then Some(Auth)
    else if left.push.schemaVersion != right.push.schemaVersion then Some(SchemaVersion)
    else if left.push.pushVersion != right.push.pushVersion then Some(PushVersion)
    else if left.ctx.mutateContext.cookie != right.ctx.mutateContext.cookie then Some(Cookie)
    else if left.ctx.mutateContext.origin != right.ctx.mutateContext.origin then Some(Origin)
    else if left.ctx.userId != right.ctx.userId then Some(UserId)
    else if left.ctx.mutateContext.url != right.ctx.mutateContext.url then Some(Url)
    else None
  }

  // ---- Combining -------------------------------------------------------------

  /** The entries up to the first stop or missing item, and whether there was one. */
  function BeforeStop<M>(items: seq<Option<Item<M>>>): (seq<Entry<M>>, bool) {
    if items == [] then ([], false)
    else if items[0].None? || items[0].value.Stop? then ([], true)
    else
      var rest := BeforeStop(items[1..]);
      ([items[0].value.entry] + rest.0, rest.1)
  }

  /** The group keys in the order they are first seen. */
  function KeysInOrder<M>(entries: seq<Entry<M>>): seq<string> {
    if entries == [] then []
    else
      var keys := KeysInOrder(entries[..|entries| - 1]);
      var key := GroupKey(entries[|entries| - 1].ctx);
      if key in keys then keys else keys + [key]
  }

  function Group<M>(entries: seq<Entry<M>>, key: string): seq<Entry<M>> {
    if entries == [] then []
    else
      var last := entries[|entries| - 1];
      Group(entries[..|entries| - 1], key) + if GroupKey(last.ctx) == key then [last] else []
  }

  function WithMutations<M>(e: Entry<M>, mutations: seq<M>): Entry<M> {
    e.(push := e.push.(mutations := mutations))
  }

  /** Adds the mutations of each entry to the composite, checking that they belong together. */
  function Merge<M>(composite: Entry<M>, group: seq<Entry<M>>): Result<Entry<M>, Field>
    decreases |group|
  {
    if group == [] then Ok(composite)
    else
      match Incompatible(composite, group[0])
      case Some(field) => Err(field)
      case None => Merge(WithMutations(composite, composite.push.mutations + group[0].push.mutations), group[1..])
  }

  function MergeGroup<M>(group: seq<Entry<M>>): Result<Entry<M>, Field>
    requires group != []
  {
    Merge(WithMutations(group[0], []), group)
  }

  function MergeAll<M>(keys: seq<string>, entries: seq<Entry<M>>): Result<seq<Entry<M>>, Field>
    requires forall i | 0 <= i < |keys| :: Group(entries, keys[i]) != []
  {
    if keys == [] then Ok([])
    else
      match MergeGroup(Group(entries, keys[0]))
      case Err(field) => Err(field)
      case Ok(first) =>
        match MergeAll(keys[1..], entries)
        case Err(field) => Err(field)
        case Ok(rest) => Ok([first] + rest)
  }

  /** Every key that is seen has a group, and every group's key is seen once. */
  lemma {:induction false} KeysAreSeen<M>(entries: seq<Entry<M>>)
    ensures forall k :: k in KeysInOrder(entries) <==> Group(entries, k) != []
    ensures forall i, j | 0 <= i < j < |KeysInOrder(entries)| :: KeysInOrder(entries)[i] != KeysInOrder(entries)[j]
  {
    if entries != [] {
      KeysAreSeen(entries[..|entries| - 1]);
    }
  }

  function Combine<M>(items: seq<Option<Item<M>>>): Result<(seq<Entry<M>>, bool), Field> {
    var (entries, stopped) := BeforeStop(items);
    KeysAreSeen(entries);
    match MergeAll(KeysInOrder(entries), entries)
    case Err(field) => Err(field)
    case Ok(combined) => Ok((combined, stopped))
  }

  // ---- The loops -------------------------------------------------------------

  /** What was seen, followed by what the rest of the items holds. */
  ghost function SeenThen<M>(seen: seq<Entry<M>>, rest: seq<Option<Item<M>>>): (seq<Entry<M>>, bool) {
    (seen + BeforeStop(rest).0, BeforeStop(rest).1)
  }

  lemma SeenNothing<M>(items: seq<Option<Item<M>>>)
    ensures SeenThen([], items[0..]) == BeforeStop(items)
  {
    assert items[0..] == items;
    assert [] + BeforeStop(items).0 == BeforeStop(items).0;
  }

  lemma SeenOne<M>(seen: seq<Entry<M>>, items: seq<Option<Item<M>>>, i: nat)
    requires i < |items|
    ensures if items[i].None? || items[i].value.Stop? then SeenThen(seen, items[i..]) == (seen, true)
            else SeenThen(seen, items[i..]) == SeenThen(seen + [items[i].value.entry], items[i + 1..])
  {
    assert items[i..][0] == items[i] && items[i..][1..] == items[i + 1..];
    var rest := BeforeStop(items[i + 1..]).0;
    if items[i].None? || items[i].value.Stop? {
      assert seen + [] == seen;
    } else {
      assert seen + ([items[i].value.entry] + rest) == (seen + [items[i].value.entry]) + rest;
    }
  }

  lemma SeenAll<M>(seen: seq<Entry<M>>, items: seq<Option<Item<M>>>)
    ensures SeenThen(seen, items[|items|..]) == (seen, false)
  {
    assert items[|items|..] == [];
    assert seen + [] == seen;
  }

  ghost predicate GroupsOf<M>(groups: map<string, seq<Entry<M>>>, order: seq<string>, seen: seq<Entry<M>>) {
    && order == KeysInOrder(seen)
    && (forall k :: k in groups <==> k in order)
    && (forall k | k in groups :: groups[k] == Group(seen, k))
  }

  lemma Append<M>(seen: seq<Entry<M>>, e: Entry<M>)
    ensures KeysInOrder(seen + [e]) == if GroupKey(e.ctx) in KeysInOrder(seen) then KeysInOrder(seen) else KeysInOrder(seen) + [GroupKey(e.ctx)]
    ensures forall k :: Group(seen + [e], k) == if GroupKey(e.ctx) == k then Group(seen, k) + [e] else Group(seen, k)
  {
    assert (seen + [e])[..|seen|] == seen;
  }

  method AddToGroup<M>(order: seq<string>, groups: map<string, seq<Entry<M>>>, e: Entry<M>, ghost seen: seq<Entry<M>>)
    returns (order': seq<string>, groups': map<string, seq<Entry<M>>>)
    requires GroupsOf(groups, order, seen)
    ensures GroupsOf(groups', order', seen + [e])
  {
    KeysAreSeen(seen);
    Append(seen, e);
    order', groups' := order, groups;
    var key := GroupKey(e.ctx);
    if key !in groups {
      order' := order + [key];
      groups' := groups[key := []];
    }
    groups' := groups'[key := groups'[key] + [e]];
  }

  method CollectGroups<M>(items: seq<Option<Item<M>>>)
    returns (order: seq<string>, groups: map<string, seq<Entry<M>>>, sawStop: bool)
    ensures sawStop == BeforeStop(items).1 && GroupsOf(groups, order, BeforeStop(items).0)
  {
    order, groups, sawStop := [], map[], false;
    ghost var seen: seq<Entry<M>> := [];
    ghost var all := BeforeStop(items);
    SeenNothing(items);
    for i := 0 to |items|
      invariant !sawStop && all == SeenThen(seen, items[i..]) && GroupsOf(groups, order, seen)
    {
      SeenOne(seen, items, i);
      if items[i].None? || items[i].value.Stop? {
        sawStop := true;
        return;
      }
      order, groups := AddToGroup(order, groups, items[i].value.entry, seen);
      seen := seen + [items[i].value.entry];
    }
    SeenAll(seen, items);
  }

  method MergeEntries<M>(group: seq<Entry<M>>) returns (r: Result<Entry<M>, Field>)
    requires group != []
    ensures r == MergeGroup(group)
  {
    var composite := WithMutations(group[0], []);
    for i := 0 to |group|
      invariant Merge(composite, group[i..]) == MergeGroup(group)
    {
      var entry := group[i];
      assert group[i..][0] == entry && group[i..][1..] == group[i + 1..];
      var field := Incompatible(composite, entry);
      if field.Some? {
        return Err(field.value);
      }
      composite := WithMutations(composite, composite.push.mutations + entry.push.mutations);
    }
    r := Ok(composite);
  }

  /** The pushes combined so far, followed by those of the remaining keys. */
  ghost function CombinedThen<M>(combined: seq<Entry<M>>, rest: Result<seq<Entry<M>>, Field>): Result<seq<Entry<M>>, Field> {
    if rest.Ok? then Ok(combined + rest.value) else rest
  }

  lemma CombinedNothing<M>(rest: Result<seq<Entry<M>>, Field>)
    ensures CombinedThen([], rest) == rest
  {
    assert rest.Ok? ==> [] + rest.value == rest.value;
  }

  lemma CombinedOne<M>(combined: seq<Entry<M>>, keys: seq<string>, i: nat, entries: seq<Entry<M>>)
    requires i < |keys| && forall j | 0 <= j < |keys| :: Group(entries, keys[j]) != []
    ensures var first := MergeGroup(Group(entries, keys[i]));
            CombinedThen(combined, MergeAll(keys[i..], entries))
            == if first.Err? then Err(first.error) else CombinedThen(combined + [first.value], MergeAll(keys[i + 1..], entries))
  {
    assert keys[i..][0] == keys[i] && keys[i..][1..] == keys[i + 1..];
    var first, rest := MergeGroup(Group(entries, keys[i])), MergeAll(keys[i + 1..], entries);
    if first.Ok? && rest.Ok? {
      assert combined + ([first.value] + rest.value) == (combined + [first.value]) + rest.value;
    }
  }

  method MergeGroups<M>(order: seq<string>, groups: map<string, seq<Entry<M>>>, ghost seen: seq<Entry<M>>) returns (r: Result<seq<Entry<M>>, Field>)
    requires GroupsOf(groups, order, seen) && forall i | 0 <= i < |order| :: Group(seen, order[i]) != []
    ensures r == MergeAll(order, seen)
  {
    var combined: seq<Entry<M>> := [];
    ghost var all := MergeAll(order, seen);
    CombinedNothing(all);
    assert order[0..] == order;
    for i := 0 to |order|
      invariant all == CombinedThen(combined, MergeAll(order[i..], seen))
    {
      CombinedOne(combined, order, i, seen);
      var composite := MergeEntries(groups[order[i]]);
      if composite.Err? {
        return Err(composite.error);
      }
      combined := combined + [composite.value];
    }
    assert combined + [] == combined;
    r := Ok(combined);
  }

  method CombinePushes<M>(items: seq<Option<Item<M>>>) returns (r: Result<(seq<Entry<M>>, bool), Field>)
    ensures r == Combine(items)
  {
    var order, groups, sawStop := CollectGroups(items);
    ghost var seen := BeforeStop(items).0;
    KeysAreSeen(seen);
    var combined := MergeGroups(order, groups, seen);
    r := if combined.Ok? then Ok((combined.value, sawStop)) else Err(combined.error);
  }

  // ---- What is forwarded -----------------------------------------------------

  /** The mutations of the entries in order, each with the context it is sent under. */
  function Tagged<M>(entries: seq<Entry<M>>): seq<(Context, M)> {
    if entries == [] then []
    else TagEach(ContextOf(entries[0]), entries[0].push.mutations) + Tagged(entries[1..])
  }

  function TagEach<M>(c: Context, mutations: seq<M>): seq<(Context, M)> {
    seq(|mutations|, i requires 0 <= i < |mutations| => (c, mutations[i]))
  }

  /** The tagged mutations of one connection, in order. */
  function ForConnection<M>(tags: seq<(Context, M)>, c: Connection): seq<(Context, M)> {
    if tags == [] then []
    else (if ConnectionOf(tags[0].0.ctx) == c then [tags[0]] else []) + ForConnection(tags[1..], c)
  }

  lemma {:induction false} ForConnectionConcat<M>(a: seq<(Context, M)>, b: seq<(Context, M)>, c: Connection)
    ensures ForConnection(a + b, c) == ForConnection(a, c) + ForConnection(b, c)
  {
    if a == [] {
      assert a + b == b;
    } else {
      assert (a + b)[0] == a[0] && (a + b)[1..] == a[1..] + b;
      ForConnectionConcat(a[1..], b, c);
    }
  }

  lemma {:induction false} TaggedConcat<M>(a: seq<Entry<M>>, b: seq<Entry<M>>)
    ensures Tagged(a + b) == Tagged(a) + Tagged(b)
  {
    if a == [] {
      assert a + b == b;
    } else {
      assert (a + b)[0] == a[0] && (a + b)[1..] == a[1..] + b;
      TaggedConcat(a[1..], b);
    }
  }

  /** Merging keeps the context and, tag by tag, what the entries said. */
  lemma {:induction false} MergeKeepsTags<M>(composite: Entry<M>, group: seq<Entry<M>>)
    requires Merge(composite, group).Ok?
    ensures Tagged([Merge(composite, group).value]) == Tagged([composite]) + Tagged(group)
    decreases |group|
  {
    if group != [] {
      var more := WithMutations(composite, composite.push.mutations + group[0].push.mutations);
      MergeKeepsTags(more, group[1..]);
      assert Tagged([more]) == Tagged([composite]) + TagEach(ContextOf(group[0]), group[0].push.mutations);
    }
  }

  lemma MergedGroupKeepsTags<M>(group: seq<Entry<M>>)
    requires group != [] && MergeGroup(group).Ok?
    ensures Tagged([MergeGroup(group).value]) == Tagged(group)
  {
    MergeKeepsTags(WithMutations(group[0], []), group);
    assert Tagged([WithMutations(group[0], [])]) == [];
  }

  lemma {:induction false} AllOrNothing<M>(tags: seq<(Context, M)>, c: Connection)
    requires forall i, j | 0 <= i < j < |tags| :: tags[i].0 == tags[j].0
    ensures ForConnection(tags, c) == if tags != [] && ConnectionOf(tags[0].0.ctx) == c then tags else []
  {
    if |tags| > 1 {
      AllOrNothing(tags[1..], c);
    }
  }

  lemma EntryForConnection<M>(e: Entry<M>, c: Connection)
    ensures ForConnection(Tagged([e]), c) == if ConnectionOf(e.ctx) == c then Tagged([e]) else []
  {
    assert Tagged([e]) == TagEach(ContextOf(e), e.push.mutations);
    AllOrNothing(Tagged([e]), c);
  }

  /** The group of a connection's key holds everything of that connection; other groups hold nothing of it. */
  lemma {:induction false} GroupForConnection<M>(entries: seq<Entry<M>>, key: string, c: Connection)
    ensures ForConnection(Tagged(Group(entries, key)), c) == if key == ConnectionKey(c) then ForConnection(Tagged(entries), c) else []
  {
    if entries != [] {
      var init, last := entries[..|entries| - 1], entries[|entries| - 1];
      GroupForConnection(init, key, c);
      EntryForConnection(last, c);
      assert entries == init + [last];
      TaggedConcat(init, [last]);
      ForConnectionConcat(Tagged(init), Tagged([last]), c);
      if GroupKey(last.ctx) == key {
        TaggedConcat(Group(init, key), [last]);
        ForConnectionConcat(Tagged(Group(init, key)), Tagged([last]), c);
      } else {
        assert Group(init, key) + [] == Group(init, key);
      }
    }
  }

  lemma {:induction false} MergedForConnection<M>(keys: seq<string>, entries: seq<Entry<M>>, c: Connection)
    requires forall i | 0 <= i < |keys| :: Group(entries, keys[i]) != []
    requires forall i, j | 0 <= i < j < |keys| :: keys[i] != keys[j]
    requires MergeAll(keys, entries).Ok?
    ensures ForConnection(Tagged(MergeAll(keys, entries).value), c)
         == if ConnectionKey(c) in keys then ForConnection(Tagged(entries), c) else []
  {
    if keys != [] {
      var group, rest := Group(entries, keys[0]), keys[1..];
      MergedForConnection(rest, entries, c);
      MergedGroupKeepsTags(group);
      GroupForConnection(entries, keys[0], c);
      var first, others := MergeGroup(group).value, MergeAll(rest, entries).value;
      TaggedConcat([first], others);
      ForConnectionConcat(Tagged([first]), Tagged(others), c);
      assert keys[0] !in rest;
    }
  }

  /** Combining keeps, for every connection, exactly its mutations, in order and each under its own context. */
  lemma CombiningKeepsConnections<M>(items: seq<Option<Item<M>>>, c: Connection)
    requires Combine(items).Ok?
    ensures ForConnection(Tagged(Combine(items).value.0), c) == ForConnection(Tagged(BeforeStop(items).0), c)
  {
    var entries := BeforeStop(items).0;
    KeysAreSeen(entries);
    MergedForConnection(KeysInOrder(entries), entries, c);
    if ConnectionKey(c) !in KeysInOrder(entries) {
      GroupForConnection(entries, ConnectionKey(c), c);
    }
  }

  // ---- When combining fails --------------------------------------------------

  /** Entries that share a group key share their whole context. */
  ghost predicate Agreed<M>(entries: seq<Entry<M>>) {
    forall i, j | 0 <= i < |entries| && 0 <= j < |entries| && GroupKey(entries[i].ctx) == GroupKey(entries[j].ctx) ::
      ContextOf(entries[i]) == ContextOf(entries[j])
  }

  lemma {:induction false} MergeSucceeds<M>(composite: Entry<M>, group: seq<Entry<M>>)
    ensures Merge(composite, group).Ok? <==> forall i | 0 <= i < |group| :: ContextOf(group[i]) == ContextOf(composite)
    decreases |group|
  {
    if group != [] {
      var more := WithMutations(composite, composite.push.mutations + group[0].push.mutations);
      MergeSucceeds(more, group[1..]);
      assert forall i | 0 < i < |group| :: group[i] == group[1..][i - 1];
    }
  }

  lemma {:induction false} GroupMembers<M>(entries: seq<Entry<M>>, key: string)
    ensures forall e :: e in Group(entries, key) <==> e in entries && GroupKey(e.ctx) == key
  {
    if entries != [] {
      GroupMembers(entries[..|entries| - 1], key);
      assert entries == entries[..|entries| - 1] + [entries[|entries| - 1]];
    }
  }

  ghost predicate GroupAgrees<M>(entries: seq<Entry<M>>, key: string) {
    forall e, e' | e in entries && e' in entries && GroupKey(e.ctx) == GroupKey(e'.ctx) == key :: ContextOf(e) == ContextOf(e')
  }

  lemma GroupSucceeds<M>(entries: seq<Entry<M>>, key: string)
    requires Group(entries, key) != []
    ensures MergeGroup(Group(entries, key)).Ok? <==> GroupAgrees(entries, key)
  {
    var group := Group(entries, key);
    GroupMembers(entries, key);
    MergeSucceeds(WithMutations(group[0], []), group);
    if MergeGroup(group).Ok? {
      forall e, e' | e in entries && e' in entries && GroupKey(e.ctx) == GroupKey(e'.ctx) == key ensures ContextOf(e) == ContextOf(e') {
        assert e in group && e' in group;
      }
    } else {
      var i :| 0 <= i < |group| && ContextOf(group[i]) != ContextOf(group[0]);
      assert group[i] in group && group[0] in group;
    }
  }

  lemma {:induction false} MergeAllSucceeds<M>(keys: seq<string>, entries: seq<Entry<M>>)
    requires forall i | 0 <= i < |keys| :: Group(entries, keys[i]) != []
    ensures MergeAll(keys, entries).Ok? <==> forall i | 0 <= i < |keys| :: GroupAgrees(entries, keys[i])
  {
    if keys != [] {
      GroupSucceeds(entries, keys[0]);
      MergeAllSucceeds(keys[1..], entries);
      assert forall i | 0 < i < |keys| :: keys[i] == keys[1..][i - 1];
    }
  }

  lemma AgreedByGroups<M>(entries: seq<Entry<M>>, keys: seq<string>)
    requires forall e | e in entries :: GroupKey(e.ctx) in keys
    ensures Agreed(entries) <==> forall i | 0 <= i < |keys| :: GroupAgrees(entries, keys[i])
  {
    if forall i | 0 <= i < |keys| :: GroupAgrees(entries, keys[i]) {
      forall i, j | 0 <= i < |entries| && 0 <= j < |entries| && GroupKey(entries[i].ctx) == GroupKey(entries[j].ctx)
        ensures ContextOf(entries[i]) == ContextOf(entries[j])
      {
        assert entries[i] in entries && entries[j] in entries;
        assert GroupKey(entries[i].ctx) in keys;
      }
    }
  }

  /** Combining fails exactly when two entries before the stop share a key but not their context. */
  lemma CombiningFailsOnDisagreement<M>(items: seq<Option<Item<M>>>)
    ensures Combine(items).Ok? <==> Agreed(BeforeStop(items).0)
  {
    var entries := BeforeStop(items).0;
    var keys := KeysInOrder(entries);
    KeysAreSeen(entries);
    MergeAllSucceeds(keys, entries);
    forall e | e in entries ensures GroupKey(e.ctx) in keys {
      GroupMembers(entries, GroupKey(e.ctx));
      assert e in Group(entries, GroupKey(e.ctx));
    }
    AgreedByGroups(entries, keys);
  }

  lemma MergeKeepsContext<M>(composite: Entry<M>, group: seq<Entry<M>>)
    requires Merge(composite, group).Ok?
    ensures ContextOf(Merge(composite, group).value) == ContextOf(composite)
    decreases |group|
  {
  }

  /** One push per key, in the order the keys are first seen. */
  lemma {:induction false} OnePushPerKey<M>(keys: seq<string>, entries: seq<Entry<M>>)
    requires (forall i | 0 <= i < |keys| :: Group(entries, keys[i]) != []) && MergeAll(keys, entries).Ok?
    ensures var combined := MergeAll(keys, entries).value;
            |combined| == |keys| && forall i | 0 <= i < |keys| :: GroupKey(combined[i].ctx) == keys[i]
  {
    if keys != [] {
      OnePushPerKey(keys[1..], entries);
      var group := Group(entries, keys[0]);
      MergeKeepsContext(WithMutations(group[0], []), group);
      GroupMembers(entries, keys[0]);
      assert group[0] in group;
      var combined := MergeAll(keys, entries).value;
      assert combined[0].ctx == group[0].ctx;
      assert forall i | 0 < i < |keys| :: keys[i] == keys[1..][i - 1] && combined[i] == combined[1..][i - 1];
    }
  }

  // ---- Which disagreement is reported ----------------------------------------

  /** The fields in the order they are compared. */
  const FIELD_ORDER: seq<Field> := [ClientId, WsId, Revision, Auth, SchemaVersion, PushVersion, Cookie, Origin, UserId, Url]

  predicate Agrees<M>(field: Field, left: Entry<M>, right: Entry<M>) {
    match field
    case ClientId => left.ctx.clientId == right.ctx.clientId
    case WsId => left.ctx.wsId == right.ctx.wsId
    case Revision => left.ctx.revision == right.ctx.revision
    case Auth => left.ctx.auth == right.ctx.auth
    case SchemaVersion => left.push.schemaVersion == right.push.schemaVersion
    case PushVersion => left.push.pushVersion == right.push.pushVersion
    case Cookie => left.ctx.mutateContext.cookie == right.ctx.mutateContext.cookie
    case Origin => left.ctx.mutateContext.origin == right.ctx.mutateContext.origin
    case UserId => left.ctx.userId == right.ctx.userId
    case Url => left.ctx.mutateContext.url == right.ctx.mutateContext.url
  }

  /** Two pushes are told apart by the first field in which they differ. */
  lemma FirstDifferenceIsNamed<M>(left: Entry<M>, right: Entry<M>, k: nat)
    requires k < |FIELD_ORDER|
    ensures Incompatible(left, right) == Some(FIELD_ORDER[k])
       <==> !Agrees(FIELD_ORDER[k], left, right) && forall j | 0 <= j < k :: Agrees(FIELD_ORDER[j], left, right)
  {
    assert Agrees(FIELD_ORDER[0], left, right) == (left.ctx.clientId == right.ctx.clientId);
    assert Agrees(FIELD_ORDER[1], left, right) == (left.ctx.wsId == right.ctx.wsId);
    assert Agrees(FIELD_ORDER[2], left, right) == (left.ctx.revision == right.ctx.revision);
    assert Agrees(FIELD_ORDER[3], left, right) == (left.ctx.auth == right.ctx.auth);
    assert Agrees(FIELD_ORDER[4], left, right) == (left.push.schemaVersion == right.push.schemaVersion);
    assert Agrees(FIELD_ORDER[5], left, right) == (left.push.pushVersion == right.push.pushVersion);
    assert Agrees(FIELD_ORDER[6], left, right) == (left.ctx.mutateContext.cookie == right.ctx.mutateContext.cookie);
    assert Agrees(FIELD_ORDER[7], left, right) == (left.ctx.mutateContext.origin == right.ctx.mutateContext.origin);
    assert Agrees(FIELD_ORDER[8], left, right) == (left.ctx.userId == right.ctx.userId);
  }

  /** The first entry of a group that does not share the context of the first one. */
  ghost predicate FirstStranger<M>(group: seq<Entry<M>>, first: Entry<M>, i: nat) {
    i < |group| && ContextOf(group[i]) != ContextOf(first) && forall j | 0 <= j < i :: ContextOf(group[j]) == ContextOf(first)
  }

  lemma SameFirstDifference<M>(a: Entry<M>, b: Entry<M>, e: Entry<M>)
    requires ContextOf(a) == ContextOf(b)
    ensures Incompatible(a, e) == Incompatible(b, e)
  {
  }

  lemma {:induction false} MergeFailsAt<M>(composite: Entry<M>, group: seq<Entry<M>>)
    requires Merge(composite, group).Err?
    ensures exists i: nat :: FirstStranger(group, composite, i) && Incompatible(composite, group[i]) == Some(Merge(composite, group).error)
    decreases |group|
  {
    if Incompatible(composite, group[0]).Some? {
      assert FirstStranger(group, composite, 0);
    } else {
      var more := WithMutations(composite, composite.push.mutations + group[0].push.mutations);
      MergeFailsAt(more, group[1..]);
      var i: nat :| FirstStranger(group[1..], more, i) && Incompatible(more, group[1..][i]) == Some(Merge(more, group[1..]).error);
      SameFirstDifference(composite, more, group[i + 1]);
      assert forall j | 0 < j < i + 1 :: group[j] == group[1..][j - 1];
      assert FirstStranger(group, composite, i + 1);
    }
  }

  /** A disagreement in the group of a key, named by its first entry and the first one that differs from it. */
  ghost predicate NamesDisagreement<M>(entries: seq<Entry<M>>, key: string, field: Field) {
    Group(entries, key) != [] &&
      exists i: nat :: FirstStranger(Group(entries, key), Group(entries, key)[0], i)
                    && Incompatible(Group(entries, key)[0], Group(entries, key)[i]) == Some(field)
  }

  lemma GroupFailsAt<M>(entries: seq<Entry<M>>, key: string)
    requires Group(entries, key) != [] && MergeGroup(Group(entries, key)).Err?
    ensures NamesDisagreement(entries, key, MergeGroup(Group(entries, key)).error)
  {
    var group := Group(entries, key);
    var start := WithMutations(group[0], []);
    MergeFailsAt(start, group);
    var i: nat :| FirstStranger(group, start, i) && Incompatible(start, group[i]) == Some(Merge(start, group).error);
    SameFirstDifference(start, group[0], group[i]);
    assert FirstStranger(group, group[0], i);
  }

  /** The `k`-th key is the first whose entries disagree, and the field is where they do. */
  ghost predicate FirstToDisagree<M>(keys: seq<string>, entries: seq<Entry<M>>, field: Field, k: nat) {
    k < |keys| && NamesDisagreement(entries, keys[k], field) && forall j | 0 <= j < k :: GroupAgrees(entries, keys[j])
  }

  lemma FirstMovesUp<M>(keys: seq<string>, entries: seq<Entry<M>>, field: Field, k: nat)
    requires keys != [] && GroupAgrees(entries, keys[0]) && FirstToDisagree(keys[1..], entries, field, k)
    ensures FirstToDisagree(keys, entries, field, k + 1)
  {
    assert keys[k + 1] == keys[1..][k];
    assert forall j | 0 < j < k + 1 :: keys[j] == keys[1..][j - 1];
  }

  lemma {:induction false} MergeAllFailsAt<M>(keys: seq<string>, entries: seq<Entry<M>>)
    requires (forall i | 0 <= i < |keys| :: Group(entries, keys[i]) != []) && MergeAll(keys, entries).Err?
    ensures exists k: nat :: FirstToDisagree(keys, entries, MergeAll(keys, entries).error, k)
  {
    GroupSucceeds(entries, keys[0]);
    if MergeGroup(Group(entries, keys[0])).Err? {
      GroupFailsAt(entries, keys[0]);
      assert FirstToDisagree(keys, entries, MergeAll(keys, entries).error, 0);
    } else {
      MergeAllFailsAt(keys[1..], entries);
      var k: nat :| FirstToDisagree(keys[1..], entries, MergeAll(keys[1..], entries).error, k);
      FirstMovesUp(keys, entries, MergeAll(keys, entries).error, k);
    }
  }

  /** A failure names the first disagreement: of the first key, in the order of first sight, whose entries disagree. */
  lemma FailureNamesFirstDisagreement<M>(items: seq<Option<Item<M>>>)
    requires Combine(items).Err?
    ensures exists k: nat :: FirstToDisagree(KeysInOrder(BeforeStop(items).0), BeforeStop(items).0, Combine(items).error, k)
  {
    var entries := BeforeStop(items).0;
    var keys := KeysInOrder(entries);
    KeysAreSeen(entries);
    assert Combine(items).error == MergeAll(keys, entries).error;
    MergeAllFailsAt(keys, entries);
    var k: nat :| FirstToDisagree(keys, entries, MergeAll(keys, entries).error, k);
    assert FirstToDisagree(KeysInOrder(BeforeStop(items).0), BeforeStop(items).0, Combine(items).error, k);
  }

  /** A key is first seen before another exactly if its first entry comes first. */
  lemma {:induction false} KeysBySight<M>(entries: seq<Entry<M>>, i: nat)
    requires i < |KeysInOrder(entries)|
    ensures exists p: nat :: FirstSight(entries, KeysInOrder(entries)[i], p)
    ensures forall j, p, q | i < j < |KeysInOrder(entries)| && FirstSight(entries, KeysInOrder(entries)[i], p)
                          && FirstSight(entries, KeysInOrder(entries)[j], q) :: p < q
  {
    var n := |entries| - 1;
    var init, last := entries[..n], GroupKey(entries[n].ctx);
    var keys, before := KeysInOrder(entries), KeysInOrder(init);
    KeysAreSeen(init);
    GroupMembers(init, last);
    forall k: string, p: int ensures FirstSight(entries, k, p) <==> FirstSight(init, k, p) || (k == last && p == n && last !in before) {
      SightGrows(entries, k, p);
    }
    if i < |before| {
      KeysBySight(init, i);
      assert keys[i] == before[i];
      var p: nat :| FirstSight(init, before[i], p);
      assert FirstSight(entries, keys[i], p);
    } else {
      assert FirstSight(entries, keys[i], n);
    }
  }

  ghost predicate FirstSight<M>(entries: seq<Entry<M>>, key: string, p: int) {
    0 <= p < |entries| && GroupKey(entries[p].ctx) == key && forall j | 0 <= j < p :: GroupKey(entries[j].ctx) != key
  }

  lemma {:induction false} SeenBefore<M>(entries: seq<Entry<M>>, key: string) returns (j: nat)
    requires Group(entries, key) != []
    ensures j < |entries| && GroupKey(entries[j].ctx) == key
  {
    j := |entries| - 1;
    if GroupKey(entries[j].ctx) != key {
      j := SeenBefore(entries[..j], key);
    }
  }

  lemma {:induction false} NotSeenBefore<M>(entries: seq<Entry<M>>, key: string, j: nat)
    requires Group(entries, key) == [] && j < |entries|
    ensures GroupKey(entries[j].ctx) != key
  {
    if j < |entries| - 1 {
      NotSeenBefore(entries[..|entries| - 1], key, j);
    }
  }

  lemma SightGrows<M>(entries: seq<Entry<M>>, k: string, p: int)
    requires entries != []
    ensures var n := |entries| - 1;
            var last := GroupKey(entries[n].ctx);
            FirstSight(entries, k, p) <==> FirstSight(entries[..n], k, p) || (k == last && p == n && last !in KeysInOrder(entries[..n]))
  {
    var n := |entries| - 1;
    var init, last := entries[..n], GroupKey(entries[n].ctx);
    KeysAreSeen(init);
    GroupMembers(init, last);
    if last in KeysInOrder(init) {
      var j := SeenBefore(init, last);
      assert GroupKey(entries[j].ctx) == last;
    } else {
      forall j | 0 <= j < n ensures GroupKey(entries[j].ctx) != last {
        NotSeenBefore(init, last, j);
      }
    }
  }
}
