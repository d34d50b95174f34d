/**
 How the tracker reads a message, and what it diffs an event against: which fields of the
 event matter, what stands in for missing ones, and which statement an event belongs to.
 */
module DdlReading {
  import opened Base
  import opened QueryAst
  import opened SchemaDiff
  import opened DdlTracker
  import AstJson

  // ---- Events on the wire ----------------------------------------------------

  /** What the publisher writes about the statement. */
  function InnerEvent(tag: Option<string>): Json {
    JObject(AstJson.Present([("tag", AstJson.OptionalString(tag))]))
  }

  function EventSpec(kind: Option<string>, schema: Option<Json>, inner: Option<Json>, previous: Option<Json>): seq<(string, Option<Json>)> {
    [("type", AstJson.OptionalString(kind)), ("event", inner), ("schema", schema), ("previousSchema", previous)]
  }

  /** An event message with any of its parts missing. */
  function EventJson(kind: Option<string>, schema: Option<Json>, inner: Option<Json>, previous: Option<Json>): Json {
    JObject(AstJson.Present(EventSpec(kind, schema, inner, previous)))
  }

  lemma EventLookups(kind: Option<string>, schema: Option<Json>, inner: Option<Json>, previous: Option<Json>)
    ensures var v := EventJson(kind, schema, inner, previous);
            && ObjectField(v, "type") == AstJson.OptionalString(kind) && ObjectField(v, "event") == inner
            && ObjectField(v, "schema") == schema && ObjectField(v, "previousSchema") == previous
  {
    var spec := EventSpec(kind, schema, inner, previous);
    assert |spec[0].0| == 4 && |spec[1].0| == 5 && |spec[2].0| == 6 && |spec[3].0| == 14;
    AstJson.PresentField(spec, 0);
    AstJson.PresentField(spec, 1);
    AstJson.PresentField(spec, 2);
    AstJson.PresentField(spec, 3);
  }

  lemma InnerLookup(tag: Option<string>)
    ensures ObjectField(InnerEvent(tag), "tag") == AstJson.OptionalString(tag)
  {
    AstJson.PresentField([("tag", AstJson.OptionalString(tag))], 0);
  }

  predicate KnownKind(kind: Option<string>) {
    kind == Some("ddlStart") || kind == Some("ddlUpdate") || kind == Some("schemaSnapshot")
  }

  /**
   An event of one of the three types is read back with its schema, tag and previous schema; a missing tag is
   unknown, a null previous schema is none, a missing schema makes it malformed, and any other type is unknown.
   */
  lemma EventReadsBack(kind: Option<string>, schema: Option<Json>, tag: Option<string>, previous: Option<Json>)
    ensures ReadEvent(EventJson(kind, schema, Some(InnerEvent(tag)), previous))
         == if !KnownKind(kind) then UnknownType
            else if schema.None? then Malformed(NoSchema)
            else Event(DdlEvent(kind.value, if tag.Some? then tag.value else "UNKNOWN", schema.value),
                       if previous == Some(JNull) then None else previous)
  {
    EventLookups(kind, schema, Some(InnerEvent(tag)), previous);
    InnerLookup(tag);
    KnownKinds(kind);
  }

  /** The same without anything about the statement. */
  lemma EventWithoutTag(kind: Option<string>, schema: Json, previous: Option<Json>)
    ensures ReadEvent(EventJson(kind, Some(schema), None, previous))
         == if !KnownKind(kind) then UnknownType
            else Event(DdlEvent(kind.value, "UNKNOWN", schema), if previous == Some(JNull) then None else previous)
  {
    EventLookups(kind, Some(schema), None, previous);
    KnownKinds(kind);
  }

  lemma KnownKinds(kind: Option<string>)
    ensures KnownKind(kind) <==> OrElse(kind, "") in ["ddlStart", "ddlUpdate", "schemaSnapshot"]
  {
    var kinds := ["ddlStart", "ddlUpdate", "schemaSnapshot"];
    assert kinds[0] == "ddlStart" && kinds[1] == "ddlUpdate" && kinds[2] == "schemaSnapshot";
    assert |""| == 0 && |"ddlStart"| == 8 && |"ddlUpdate"| == 9 && |"schemaSnapshot"| == 14;
  }

  /** A message is read exactly if it carries the tracker's prefix, and is malformed if it is no UTF-8 or no JSON. */
  lemma MessageIsRead(prefix: string, content: seq<byte>, tracked: Option<string>, p: Parsers)
    ensures Read(tracked, Logical(prefix, content), p)
         == if tracked != Some(prefix) then Foreign
            else if p.utf8(content).None? then Malformed(NotUtf8)
            else if p.json(p.utf8(content).value).None? then Malformed(NotJson)
            else ReadEvent(p.json(p.utf8(content).value).value)
    ensures Read(tracked, OtherMessage, p) == Foreign
  {
  }

  // ---- What an event is diffed against, and as what --------------------------

  /** An event inside a statement is diffed under that statement's tag, a `ddlUpdate` outside one under its own, anything else under none. */
  lemma EventsBelongToStatements(last: DdlEvent, event: DdlEvent, p: Parsers)
    ensures last.eventType == "ddlStart" ==>
              Outcome(Some(last), Event(event, None), p) == Some(DiffJson(last.schema, event.schema, last.tag, p))
    ensures last.eventType != "ddlStart" && event.eventType == "ddlUpdate" ==>
              Outcome(Some(last), Event(event, None), p) == Some(DiffJson(last.schema, event.schema, event.tag, p))
    ensures last.eventType != "ddlStart" && event.eventType != "ddlUpdate" ==>
              Outcome(Some(last), Event(event, None), p) == Some(DiffJson(last.schema, event.schema, "UNKNOWN", p))
  {
  }

  /** A previous schema that comes with the event takes the place of the last event's; with neither, there is nothing to diff. */
  lemma OwnPreviousSchemaWins(last: Option<DdlEvent>, event: DdlEvent, previous: Json, p: Parsers)
    ensures Outcome(last, Event(event, Some(previous)), p) == Outcome(Some(DdlEvent(
              if last.Some? then last.value.eventType else "", if last.Some? then last.value.tag else "", previous)), Event(event, None), p)
    ensures Outcome(None, Event(event, None), p) == Some(Changes([]))
  {
  }

  /**
   From the wire: after a `ddlStart` for a statement, the update that follows is diffed from the start's schema to its
   own under the start's tag, and an update without a start under its own.
   */
  lemma StatementFromTheWire(t: Tracker, start: Json, schema: Json, tag: string, own: string, p: Parsers)
    ensures var before := After(t, ReadEvent(EventJson(Some("ddlStart"), Some(start), Some(InnerEvent(Some(tag))), None)));
            var update := ReadEvent(EventJson(Some("ddlUpdate"), Some(schema), Some(InnerEvent(Some(own))), None));
            var after := After(before, update);
            && Outcome(before.last, update, p) == Some(DiffJson(start, schema, tag, p))
            && Outcome(after.last, update, p) == Some(DiffJson(schema, schema, own, p))
  {
    EventReadsBack(Some("ddlStart"), Some(start), Some(tag), None);
    EventReadsBack(Some("ddlUpdate"), Some(schema), Some(own), None);
    assert |"ddlStart"| != |"ddlUpdate"|;
  }
}
