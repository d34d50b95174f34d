/**
 Replicated DDL events: `RelationTracker::ddl_outcome` of
 `crates/zero-cache-change-source/src/pg_to_change.rs`.

 Reading UTF-8, JSON and a published schema are parameters.
 */
module DdlTracker {
  import opened Base
  import opened QueryAst
  import opened SchemaDiff
  import opened SchemaApply
  import opened SchemaCorrect
  import SchemaDiffLoops
  import SchemaExact

  datatype Message = Logical(prefix: string, content: seq<byte>) | OtherMessage

  datatype Parsers = Parsers(
    utf8: seq<byte> -> Option<string>,
    json: string -> Option<Json>,
    schema: Json -> Option<Schema>,
    replicable: Replicable)

  /** What is kept of an event for the next one. */
  datatype DdlEvent = DdlEvent(eventType: string, tag: string, schema: Json)

  datatype Tracker = Tracker(prefix: Option<string>, last: Option<DdlEvent>)

  /** What a message is to the tracker. */
  datatype Reading =
    | Foreign
    | Malformed(reason: Reason)
    | UnknownType
    | Event(event: DdlEvent, previous: Option<Json>)

  function JsonString(value: Json, name: string): Option<string> {
    match ObjectField(value, name)
    case Some(JString(s)) => Some(s)
    case _ => None
  }

  function OrElse(s: Option<string>, default: string): string {
    if s.Some? then s.value else default
  }

  function ReadEvent(event: Json): Reading {
    var eventType := OrElse(JsonString(event, "type"), "");
    if eventType !in ["ddlStart", "ddlUpdate", "schemaSnapshot"] then UnknownType
    else
      match ObjectField(event, "schema")
      case None => Malformed(NoSchema)
      case Some(schema) =>
        var inner := ObjectField(event, "event");
        var tag := OrElse(if inner.Some? then JsonString(inner.value, "tag") else None, "UNKNOWN");
        var previous := ObjectField(event, "previousSchema");
        Event(DdlEvent(eventType, tag, schema), if previous == Some(JNull) then None else previous)
  }

  function Read(prefix: Option<string>, msg: Message, p: Parsers): Reading {
    if !msg.Logical? || prefix != Some(msg.prefix) then Foreign
    else
      match p.utf8(msg.content)
      case None => Malformed(NotUtf8)
      case Some(text) =>
        match p.json(text)
        case None => Malformed(NotJson)
        case Some(event) => ReadEvent(event)
  }

  /** A `ddlStart` names the statement its nested events belong to. */
  function EffectiveTag(last: Option<DdlEvent>, event: DdlEvent): string {
    if last.Some? && last.value.eventType == "ddlStart" then last.value.tag
    else if event.eventType == "ddlUpdate" then event.tag
    else "UNKNOWN"
  }

  function DiffJson(prev: Json, next: Json, tag: string, p: Parsers): DdlOutcome {
    match p.schema(prev)
    case None => Resync(BadPreviousSchema)
    case Some(s) =>
      match p.schema(next)
      case None => Resync(BadSchema)
      case Some(s') => Diff(s, s', tag, p.replicable)
  }

  function Outcome(last: Option<DdlEvent>, reading: Reading, p: Parsers): Option<DdlOutcome> {
    match reading
    case Foreign => None
    case Malformed(reason) => Some(Resync(reason))
    case UnknownType => Some(Changes([]))
    case Event(event, previous) =>
      var prev := if previous.Some? then previous else if last.Some? then Some(last.value.schema) else None;
      if prev.None? then Some(Changes([])) else Some(DiffJson(prev.value, event.schema, EffectiveTag(last, event), p))
  }

  function After(t: Tracker, reading: Reading): Tracker {
    if reading.Event? then t.(last := Some(reading.event)) else t
  }

  class RelationTracker {
    var ddlPrefix: Option<string>
    var lastDdl: Option<DdlEvent>

    ghost function State(): Tracker
      reads this
    {
      Tracker(ddlPrefix, lastDdl)
    }

    constructor ()
      ensures State() == Tracker(None, None)
    {
      ddlPrefix, lastDdl := None, None;
    }

    method SetDdlPrefix(appId: string, shard: string)
      modifies this
      ensures State() == Tracker(Some(appId + "/" + shard + "/ddl"), old(lastDdl))
    {
      ddlPrefix := Some(appId + "/" + shard + "/ddl");
    }

    method TakeDdl(msg: Message, p: Parsers) returns (outcome: Option<DdlOutcome>)
      modifies this
      ensures var reading := Read(old(ddlPrefix), msg, p);
              outcome == Outcome(old(lastDdl), reading, p) && State() == After(old(State()), reading)
    {
      if !msg.Logical? || ddlPrefix.None? || msg.prefix != ddlPrefix.value {
        return None;
      }
      var text := p.utf8(msg.content);
      if text.None? {
        return Some(Resync(NotUtf8));
      }
      var json := p.json(text.value);
      if json.None? {
        return Some(Resync(NotJson));
      }
      outcome := TakeEvent(json.value, p);
    }

    method TakeEvent(event: Json, p: Parsers) returns (outcome: Option<DdlOutcome>)
      modifies this
      ensures outcome == Outcome(old(lastDdl), ReadEvent(event), p) && State() == After(old(State()), ReadEvent(event))
    {
      var eventType := OrElse(JsonString(event, "type"), "");
      if eventType != "ddlStart" && eventType != "ddlUpdate" && eventType != "schemaSnapshot" {
        return Some(Changes([]));
      }
      var schema := ObjectField(event, "schema");
      if schema.None? {
        return Some(Resync(NoSchema));
      }
      var inner := ObjectField(event, "event");
      var tag := "UNKNOWN";
      if inner.Some? {
        tag := OrElse(JsonString(inner.value, "tag"), "UNKNOWN");
      }
      var prevEvent := lastDdl;
      lastDdl := None;
      var previous := ObjectField(event, "previousSchema");
      if previous.None? || previous.value.JNull? {
        previous := if prevEvent.Some? then Some(prevEvent.value.schema) else None;
      }
      var effectiveTag := "UNKNOWN";
      if prevEvent.Some? && prevEvent.value.eventType == "ddlStart" {
        effectiveTag := prevEvent.value.tag;
      } else if eventType == "ddlUpdate" {
        effectiveTag := tag;
      }
      lastDdl := Some(DdlEvent(eventType, tag, schema.value));
      if previous.None? {
        return Some(Changes([]));
      }
      var result := DiffPublished(previous.value, schema.value, effectiveTag, p);
      outcome := Some(result);
    }
  }

  method DiffPublished(prev: Json, next: Json, tag: string, p: Parsers) returns (outcome: DdlOutcome)
    ensures outcome == DiffJson(prev, next, tag, p)
  {
    var before := p.schema(prev);
    if before.None? {
      return Resync(BadPreviousSchema);
    }
    var after := p.schema(next);
    if after.None? {
      return Resync(BadSchema);
    }
    outcome := SchemaDiffLoops.MakeSchemaChanges(before.value, after.value, tag, p.replicable);
  }

  // ---- Runs ------------------------------------------------------------------

  /** What the messages of a run are to the tracker, whose prefix does not change. */
  function Readings(prefix: Option<string>, msgs: seq<Message>, p: Parsers): seq<Reading> {
    seq(|msgs|, i requires 0 <= i < |msgs| => Read(prefix, msgs[i], p))
  }

  function RunTracker(t: Tracker, readings: seq<Reading>): Tracker
    decreases |readings|
  {
    if readings == [] then t else RunTracker(After(t, readings[0]), readings[1..])
  }

  function Emitted(outcome: Option<DdlOutcome>): seq<Change> {
    if outcome.Some? && outcome.value.Changes? then outcome.value.changes else []
  }

  function Latest(last: Option<DdlEvent>, reading: Reading): Option<DdlEvent> {
    if reading.Event? then Some(reading.event) else last
  }

  /** All changes a run emits. */
  function EmittedBy(last: Option<DdlEvent>, readings: seq<Reading>, p: Parsers): seq<Change>
    decreases |readings|
  {
    if readings == [] then []
    else Emitted(Outcome(last, readings[0], p)) + EmittedBy(Latest(last, readings[0]), readings[1..], p)
  }

  /** The first event of a run. */
  function FirstEvent(readings: seq<Reading>): Option<DdlEvent> {
    if readings == [] then None else if readings[0].Event? then Some(readings[0].event) else FirstEvent(readings[1..])
  }

  ghost predicate GoodSchema(event: DdlEvent, p: Parsers) {
    var s := p.schema(event.schema);
    s.Some? && WellFormed(s.value)
  }

  ghost function Replica(event: DdlEvent, p: Parsers): Catalog
    requires GoodSchema(event, p)
  {
    CatalogOf(p.schema(event.schema).value)
  }

  /** An event carries no previous schema, or one that reads like the last event's. */
  ghost predicate Continues(last: Option<DdlEvent>, previous: Option<Json>, p: Parsers) {
    previous.Some? ==> last.Some? && p.schema(previous.value) == p.schema(last.value.schema)
  }

  ghost predicate NoIndexMoves(last: Option<DdlEvent>, event: DdlEvent, p: Parsers) {
    last.Some? && GoodSchema(last.value, p) && GoodSchema(event, p) ==>
      IndexesStay(p.schema(last.value.schema).value, p.schema(event.schema).value)
  }

  ghost predicate NoNameClash(last: Option<DdlEvent>, event: DdlEvent, p: Parsers) {
    last.Some? && GoodSchema(last.value, p) && GoodSchema(event, p) ==>
      NoClash(p.schema(last.value.schema).value, p.schema(event.schema).value)
  }

  /** The tracker can be followed through the message: no resync, and a good schema that continues the last one. */
  ghost predicate Followed(last: Option<DdlEvent>, reading: Reading, p: Parsers) {
    && (var outcome := Outcome(last, reading, p); outcome.Some? ==> outcome.value.Changes?)
    && (reading.Event? ==> GoodSchema(reading.event, p) && Continues(last, reading.previous, p))
  }

  ghost predicate RunFollowed(last: Option<DdlEvent>, readings: seq<Reading>, p: Parsers)
    decreases |readings|
  {
    readings == [] || (Followed(last, readings[0], p) && RunFollowed(Latest(last, readings[0]), readings[1..], p))
  }

  /** No event of the run gives a table or column a name still in use. */
  ghost predicate RunClashFree(last: Option<DdlEvent>, readings: seq<Reading>, p: Parsers)
    decreases |readings|
  {
    readings == [] ||
      (&& (readings[0].Event? ==> NoNameClash(last, readings[0].event, p))
       && RunClashFree(Latest(last, readings[0]), readings[1..], p))
  }

  /** No event of the run moves an index that its diff leaves alone. */
  ghost predicate RunKeepsIndexes(last: Option<DdlEvent>, readings: seq<Reading>, p: Parsers)
    decreases |readings|
  {
    readings == [] ||
      (&& (readings[0].Event? ==> NoIndexMoves(last, readings[0].event, p))
       && RunKeepsIndexes(Latest(last, readings[0]), readings[1..], p))
  }

  /** Only the messages that are events of a known type with a schema. */
  function EventsOnly(readings: seq<Reading>): seq<Reading> {
    if readings == [] then [] else (if readings[0].Event? then [readings[0]] else []) + EventsOnly(readings[1..])
  }

  /** Foreign, malformed and unknown messages anywhere in a run change neither the tracker nor what is emitted. */
  lemma {:induction false} OtherMessagesChangeNothing(t: Tracker, readings: seq<Reading>, p: Parsers)
    ensures RunTracker(t, EventsOnly(readings)) == RunTracker(t, readings)
    ensures EmittedBy(t.last, EventsOnly(readings), p) == EmittedBy(t.last, readings, p)
    decreases |readings|
  {
    if readings != [] {
      var first, rest := readings[0], EventsOnly(readings[1..]);
      OtherMessagesChangeNothing(After(t, first), readings[1..], p);
      if first.Event? {
        assert ([first] + rest)[1..] == rest;
      } else {
        assert Emitted(Outcome(t.last, first, p)) == [];
        assert [] + rest == rest && [] + EmittedBy(t.last, readings[1..], p) == EmittedBy(t.last, readings[1..], p);
      }
    }
  }

  /** One event moves the replica from the last event's schema to its own, exactly when no names clash and no index moves. */
  lemma EventIsExact(last: DdlEvent, reading: Reading, p: Parsers)
    requires reading.Event? && GoodSchema(last, p) && Followed(Some(last), reading, p)
    ensures ApplyAll(Replica(last, p), Emitted(Outcome(Some(last), reading, p))) == Some(Replica(reading.event, p))
       <==> NoNameClash(Some(last), reading.event, p) && NoIndexMoves(Some(last), reading.event, p)
  {
    var prev, next := p.schema(last.schema).value, p.schema(reading.event.schema).value;
    SchemaExact.DiffIsExactlyRight(prev, next, EffectiveTag(Some(last), reading.event), p.replicable);
  }

  lemma EventClashes(last: DdlEvent, reading: Reading, p: Parsers)
    requires reading.Event? && GoodSchema(last, p) && Followed(Some(last), reading, p)
    requires NoIndexMoves(Some(last), reading.event, p) && !NoNameClash(Some(last), reading.event, p)
    ensures ApplyAll(Replica(last, p), Emitted(Outcome(Some(last), reading, p))) == None
  {
    var prev, next := p.schema(last.schema).value, p.schema(reading.event.schema).value;
    DiffIsExact(prev, next, EffectiveTag(Some(last), reading.event), p.replicable);
  }

  /** Folding everything a run emits over the last event's schema gives the final event's schema, exactly when no names clash. */
  lemma {:induction false} RunIsExact(t: Tracker, readings: seq<Reading>, p: Parsers)
    requires t.last.Some? && GoodSchema(t.last.value, p) && RunFollowed(t.last, readings, p) && RunKeepsIndexes(t.last, readings, p)
    ensures var final := RunTracker(t, readings).last;
            && final.Some? && GoodSchema(final.value, p)
            && ApplyAll(Replica(t.last.value, p), EmittedBy(t.last, readings, p))
               == if RunClashFree(t.last, readings, p) then Some(Replica(final.value, p)) else None
    decreases |readings|
  {
    if readings != [] {
      var first, next := readings[0], After(t, readings[0]);
      RunIsExact(next, readings[1..], p);
      ApplyConcat(Replica(t.last.value, p), Emitted(Outcome(t.last, first, p)), EmittedBy(next.last, readings[1..], p));
      if first.Event? {
        EventIsExact(t.last.value, first, p);
        if !NoNameClash(t.last, first.event, p) {
          EventClashes(t.last.value, first, p);
        }
      }
    }
  }

  lemma NothingBeforeFirst(reading: Reading, p: Parsers)
    requires Followed(None, reading, p)
    ensures Emitted(Outcome(None, reading, p)) == []
  {
  }

  lemma EmitsNothingFirst(last: Option<DdlEvent>, readings: seq<Reading>, p: Parsers)
    requires readings != [] && Emitted(Outcome(last, readings[0], p)) == []
    ensures EmittedBy(last, readings, p) == EmittedBy(Latest(last, readings[0]), readings[1..], p)
  {
  }

  /** A run that starts without a last event: its first event emits nothing. */
  lemma {:induction false} FirstEventIsExact(t: Tracker, readings: seq<Reading>, p: Parsers)
    requires t.last == None && RunFollowed(t.last, readings, p) && RunKeepsIndexes(t.last, readings, p) && FirstEvent(readings).Some?
    ensures var first, final := FirstEvent(readings).value, RunTracker(t, readings).last;
            && GoodSchema(first, p) && final.Some? && GoodSchema(final.value, p)
            && ApplyAll(Replica(first, p), EmittedBy(t.last, readings, p))
               == if RunClashFree(t.last, readings, p) then Some(Replica(final.value, p)) else None
    decreases |readings|
  {
    NothingBeforeFirst(readings[0], p);
    EmitsNothingFirst(t.last, readings, p);
    if readings[0].Event? {
      RunIsExact(After(t, readings[0]), readings[1..], p);
    } else {
      FirstEventIsExact(t, readings[1..], p);
    }
  }

  /** Over a run from a fresh tracker, folding everything emitted over the first event's schema gives the last event's schema. */
  lemma FreshRunIsExact(prefix: Option<string>, msgs: seq<Message>, p: Parsers)
    requires var readings := Readings(prefix, msgs, p);
             RunFollowed(None, readings, p) && RunKeepsIndexes(None, readings, p) && FirstEvent(readings).Some?
    ensures var readings := Readings(prefix, msgs, p);
            var first, final := FirstEvent(readings).value, RunTracker(Tracker(prefix, None), readings).last;
            && GoodSchema(first, p) && final.Some? && GoodSchema(final.value, p)
            && ApplyAll(Replica(first, p), EmittedBy(None, readings, p))
               == if RunClashFree(None, readings, p) then Some(Replica(final.value, p)) else None
  {
    FirstEventIsExact(Tracker(prefix, None), Readings(prefix, msgs, p), p);
  }

  // ---- In step all along -----------------------------------------------------

  /** The catalog, changed message by message, is that of the last event's schema after every one. */
  ghost predicate StaysInStep(cat: Catalog, t: Tracker, readings: seq<Reading>, p: Parsers)
    decreases |readings|
  {
    readings == [] ||
      var next := After(t, readings[0]);
      var changed := ApplyAll(cat, Emitted(Outcome(t.last, readings[0], p)));
      && next.last.Some? && GoodSchema(next.last.value, p)
      && changed == Some(Replica(next.last.value, p))
      && StaysInStep(changed.value, next, readings[1..], p)
  }

  lemma OtherMessageEmitsNothing(last: Option<DdlEvent>, reading: Reading, p: Parsers)
    requires !reading.Event?
    ensures Emitted(Outcome(last, reading, p)) == []
  {
  }

  /** A replica that began in step is so after every message exactly when no event clashes or moves an index. */
  lemma {:induction false} RunStaysInStepExactly(t: Tracker, readings: seq<Reading>, p: Parsers)
    requires t.last.Some? && GoodSchema(t.last.value, p) && RunFollowed(t.last, readings, p)
    ensures StaysInStep(Replica(t.last.value, p), t, readings, p) <==> RunClashFree(t.last, readings, p) && RunKeepsIndexes(t.last, readings, p)
    decreases |readings|
  {
    if readings != [] {
      RunStaysInStepExactly(After(t, readings[0]), readings[1..], p);
      if readings[0].Event? {
        EventIsExact(t.last.value, readings[0], p);
      } else {
        OtherMessageEmitsNothing(t.last, readings[0], p);
      }
    }
  }

  /** The messages of a run up to and including its first event. */
  function UpToFirst(readings: seq<Reading>): (n: nat)
    requires FirstEvent(readings).Some?
    ensures 0 < n <= |readings| && readings[n - 1].Event? && readings[n - 1].event == FirstEvent(readings).value
  {
    if readings[0].Event? then 1 else 1 + UpToFirst(readings[1..])
  }

  lemma {:induction false} BeforeFirst(t: Tracker, readings: seq<Reading>, p: Parsers)
    requires t.last == None && RunFollowed(None, readings, p) && FirstEvent(readings).Some?
    ensures var n, first := UpToFirst(readings), FirstEvent(readings).value;
            && GoodSchema(first, p) && RunFollowed(Some(first), readings[n..], p)
            && RunTracker(t, readings[..n]) == t.(last := Some(first))
            && (RunClashFree(None, readings, p) <==> RunClashFree(Some(first), readings[n..], p))
            && (RunKeepsIndexes(None, readings, p) <==> RunKeepsIndexes(Some(first), readings[n..], p))
    decreases |readings|
  {
    var n := UpToFirst(readings);
    assert readings[..n][0] == readings[0] && readings[..n][1..] == readings[1..][..n - 1];
    if !readings[0].Event? {
      BeforeFirst(t, readings[1..], p);
      assert readings[1..][n - 1..] == readings[n..];
    }
  }

  /** From a fresh tracker, a replica made at the first event is in step after every later message exactly when no event clashes or moves an index. */
  lemma FreshRunStaysInStepExactly(prefix: Option<string>, msgs: seq<Message>, p: Parsers)
    requires var readings := Readings(prefix, msgs, p); RunFollowed(None, readings, p) && FirstEvent(readings).Some?
    ensures var readings := Readings(prefix, msgs, p);
            var first := FirstEvent(readings).value;
            var n := UpToFirst(readings);
            && GoodSchema(first, p) && RunTracker(Tracker(prefix, None), readings[..n]) == Tracker(prefix, Some(first))
            && (StaysInStep(Replica(first, p), Tracker(prefix, Some(first)), readings[n..], p)
                <==> RunClashFree(None, readings, p) && RunKeepsIndexes(None, readings, p))
  {
    var readings := Readings(prefix, msgs, p);
    BeforeFirst(Tracker(prefix, None), readings, p);
    RunStaysInStepExactly(Tracker(prefix, FirstEvent(readings)), readings[UpToFirst(readings)..], p);
  }

  // ---- Tags and previous schemas ---------------------------------------------

  predicate IsStart(last: Option<DdlEvent>) {
    last.Some? && last.value.eventType == "ddlStart"
  }

  /** A snapshot outside a statement never introduces a table or a column: it asks for a resync instead. */
  lemma SnapshotsNeverBackfill(last: DdlEvent, reading: Reading, p: Parsers)
    requires reading.Event? && reading.event.eventType == "schemaSnapshot" && !IsStart(Some(last)) && reading.previous == None
    requires p.schema(last.schema).Some? && p.schema(reading.event.schema).Some?
    ensures var outcome := Outcome(Some(last), reading, p);
            outcome.Some? && (outcome.value.Changes? <==> SchemaDiffLoops.NothingNew(p.schema(last.schema).value, p.schema(reading.event.schema).value))
  {
    SchemaDiffLoops.UnknownStatementNeverBackfills(p.schema(last.schema).value, p.schema(reading.event.schema).value, p.replicable);
  }
}
