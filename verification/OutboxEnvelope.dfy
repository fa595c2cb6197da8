/**
 Outbox events: the row Record stores and the message Publish hands to the broker for it.
 */
module OutboxEnvelope {
  import opened Wrappers

  datatype RowState = Pending | Publishing | Published | Failed

  datatype Params = Params(
    topic: string, eventKey: string, aggregateType: string, aggregateId: Option<string>, eventType: string,
    occurredAt: int, traceId: string, correlationId: string, causationId: string,
    actorType: string, actorId: Option<int>, schemaVersion: int, idempotencyKey: string, payload: string)

  datatype Envelope = Envelope(
    eventId: string, eventType: string, aggregateType: string, aggregateId: Option<string>,
    occurredAt: int, producedAt: int, traceId: string, correlationId: string, causationId: string,
    actorType: string, actorId: Option<int>, schemaVersion: int, idempotencyKey: string, payload: string)

  /** A row of outbox_events; `payload` and `metadata` are the JSON documents stored in it. */
  datatype Row = Row(
    topic: string, eventKey: string, aggregateType: string, aggregateId: Option<string>, eventType: string,
    payload: Envelope, metadata: Option<map<string, string>>, state: RowState, createdAt: int)

  datatype KafkaEnvelope = KafkaEnvelope(
    eventId: string, eventType: string, aggregateType: string, aggregateId: string,
    occurredAt: int, producedAt: int, traceId: string, correlationId: string, causationId: string,
    actorType: string, actorId: int, schemaVersion: int, idempotencyKey: string, payload: string)

  /** What the broker stores. */
  datatype Message = Message(topic: string, key: string, value: KafkaEnvelope)

  datatype Error = MarshalFailed | InsertFailed

  /** The trace fields by their names in the metadata column, those that are set. */
  function TraceFields(p: Params): map<string, string> {
    var all := map["trace_id" := p.traceId, "correlation_id" := p.correlationId, "causation_id" := p.causationId];
    map name | name in all && all[name] != "" :: all[name]
  }

  /** The row of an event that was given the id `eventId`. */
  function RowOf(p: Params, eventId: string, createdAt: int): Row {
    Row(p.topic, p.eventKey, p.aggregateType, p.aggregateId, p.eventType,
        Envelope(eventId, p.eventType, p.aggregateType, p.aggregateId, p.occurredAt, 0, p.traceId, p.correlationId,
                 p.causationId, p.actorType, p.actorId, p.schemaVersion, p.idempotencyKey, p.payload),
        if TraceFields(p) == map[] then None else Some(TraceFields(p)), Pending, createdAt)
  }

  /** Record: an event id is minted, the envelope and the metadata column are filled, the row is inserted. */
  method Record(p: Params, eventId: string, createdAt: int, marshalOk: bool, insertOk: bool)
    returns (r: Result<Row, Error>)
    ensures r == if !marshalOk then Failure(MarshalFailed)
                 else if !insertOk then Failure(InsertFailed)
                 else Success(RowOf(p, eventId, createdAt))
    ensures r.Success? ==>
              && r.value.topic == p.topic && r.value.eventKey == p.eventKey && r.value.eventType == p.eventType
              && r.value.aggregateType == p.aggregateType && r.value.aggregateId == p.aggregateId
              && r.value.state == Pending && r.value.createdAt == createdAt
              && r.value.payload.eventId == eventId && r.value.payload.payload == p.payload
  {
    var envelope := Envelope(
      eventId, p.eventType, p.aggregateType, p.aggregateId, p.occurredAt, 0, p.traceId, p.correlationId,
      p.causationId, p.actorType, p.actorId, p.schemaVersion, p.idempotencyKey, p.payload);
    if !marshalOk { return Failure(MarshalFailed); }
    var metadata: Option<map<string, string>> := None;
    NamesDiffer();
    if p.traceId != "" || p.correlationId != "" || p.causationId != "" {
      var meta: map<string, string> := map[];
      if p.traceId != "" { meta := meta["trace_id" := p.traceId]; }
      if p.correlationId != "" { meta := meta["correlation_id" := p.correlationId]; }
      if p.causationId != "" { meta := meta["causation_id" := p.causationId]; }
      assert meta == TraceFields(p);
      metadata := Some(meta);
    }
    MetadataRecovers(p, eventId, createdAt);
    if !insertOk { return Failure(InsertFailed); }
    return Success(
        Row(p.topic, p.eventKey, p.aggregateType, p.aggregateId, p.eventType, envelope, metadata, Pending, createdAt));
  }

  lemma NamesDiffer()
    ensures "trace_id" != "correlation_id" && "trace_id" != "causation_id" && "correlation_id" != "causation_id"
  {
    assert |"trace_id"| == 8 && |"correlation_id"| == 14 && |"causation_id"| == 12;
  }

  /** A field of the metadata column; a field that is not there reads as empty. */
  function Field(row: Row, name: string): string {
    if row.metadata.Some? && name in row.metadata.value then row.metadata.value[name] else ""
  }

  /** The metadata column gives back the three trace fields; it is absent exactly when they are all empty. */
  lemma MetadataRecovers(p: Params, eventId: string, createdAt: int)
    ensures var row := RowOf(p, eventId, createdAt);
            && Field(row, "trace_id") == p.traceId
            && Field(row, "correlation_id") == p.correlationId
            && Field(row, "causation_id") == p.causationId
            && (row.metadata.None? <==> p.traceId == "" && p.correlationId == "" && p.causationId == "")
  {
    NamesDiffer();
    var f := TraceFields(p);
    assert p.traceId != "" ==> "trace_id" in f;
    assert p.correlationId != "" ==> "correlation_id" in f;
    assert p.causationId != "" ==> "causation_id" in f;
  }

  /** NewEnvelope with the two options Publish passes; `uuid` is the id it makes up. */
  function NewEnvelope(e: Envelope, aggregateId: string, uuid: string, now: int): KafkaEnvelope {
    var k := KafkaEnvelope(uuid, e.eventType, e.aggregateType, aggregateId, e.occurredAt, now, "", "", "",
                           "", 0, 1, uuid, e.payload);
    k.(schemaVersion := e.schemaVersion).(idempotencyKey := e.idempotencyKey)
  }

  /** The aggregate id as text; a missing one is the empty text. */
  function Text(id: Option<string>): string {
    if id.Some? then id.value else ""
  }

  function EventKey(aggregateType: string, aggregateId: string): string {
    aggregateType + ":" + aggregateId
  }

  /** The actor number that reaches the broker: none without an actor type. */
  function Actor(actorType: string, actorId: Option<int>): int {
    if actorType != "" && actorId.Some? then actorId.value else 0
  }

  /** The message for a stored envelope: its key is made from the aggregate, not taken from the row. */
  function MessageOf(topic: string, e: Envelope, now: int): Message {
    Message(topic, EventKey(e.aggregateType, Text(e.aggregateId)),
            KafkaEnvelope(e.eventId, e.eventType, e.aggregateType, Text(e.aggregateId), e.occurredAt, now, e.traceId,
                          e.correlationId, e.causationId, e.actorType, Actor(e.actorType, e.actorId),
                          e.schemaVersion, e.idempotencyKey, e.payload))
  }

  /**
   Publish, up to the write. The message carries the id minted at Record, not the one NewEnvelope
   makes up, so every copy of it is the same event to the consumers' deduplication.
   */
  method Publish(topic: string, e: Envelope, uuid: string, now: int) returns (m: Message)
    ensures m == MessageOf(topic, e, now)
    ensures m.topic == topic && m.value.eventId == e.eventId && m.value.payload == e.payload
    ensures m.value.idempotencyKey == e.idempotencyKey && m.value.producedAt == now
    ensures m.value.traceId == e.traceId && m.value.correlationId == e.correlationId
    ensures m.value.causationId == e.causationId
    ensures m.key == e.aggregateType + ":" + if e.aggregateId.Some? then e.aggregateId.value else ""
  {
    var aggregateId := "";
    if e.aggregateId.Some? { aggregateId := e.aggregateId.value; }
    var k := NewEnvelope(e, aggregateId, uuid, now);
    k := k.(producedAt := now);
    k := k.(eventId := e.eventId);
    k := k.(idempotencyKey := e.idempotencyKey);
    if e.traceId != "" { k := k.(traceId := e.traceId); }
    if e.correlationId != "" { k := k.(correlationId := e.correlationId); }
    if e.causationId != "" { k := k.(causationId := e.causationId); }
    if e.actorType != "" {
      k := k.(actorType := e.actorType);
      if e.actorId.Some? { k := k.(actorId := e.actorId.value); }
    }
    m := Message(topic, EventKey(k.aggregateType, k.aggregateId), k);
  }

  /** Each field of the message, and its key, in terms of what was recorded. */
  lemma MessageCarries(p: Params, eventId: string, createdAt: int, now: int)
    ensures var m := MessageOf(p.topic, RowOf(p, eventId, createdAt).payload, now);
            var aggregate := if p.aggregateId.Some? then p.aggregateId.value else "";
            && m.topic == p.topic && m.key == p.aggregateType + ":" + aggregate
            && m.value.eventId == eventId && m.value.eventType == p.eventType
            && m.value.aggregateType == p.aggregateType && m.value.aggregateId == aggregate
            && m.value.occurredAt == p.occurredAt && m.value.producedAt == now
            && m.value.traceId == p.traceId && m.value.correlationId == p.correlationId
            && m.value.causationId == p.causationId
            && m.value.actorType == p.actorType
            && (p.actorType != "" && p.actorId.Some? ==> m.value.actorId == p.actorId.value)
            && (p.actorType == "" || p.actorId.None? ==> m.value.actorId == 0)
            && m.value.schemaVersion == p.schemaVersion && m.value.idempotencyKey == p.idempotencyKey
            && m.value.payload == p.payload
  {}

  /** The two events look alike to a consumer: they differ only in what the message does not carry. */
  predicate Alike(p: Params, q: Params) {
    && q.(eventKey := p.eventKey, aggregateId := p.aggregateId, actorId := p.actorId) == p
    && Text(p.aggregateId) == Text(q.aggregateId)
    && Actor(p.actorType, p.actorId) == Actor(q.actorType, q.actorId)
  }

  /**
   From Record to the broker nothing is lost but the row's event key, the difference between a missing
   aggregate id and an empty one, and an actor number that comes without an actor type: two events
   published at the same moment are the same message if and only if they have one id and agree
   in the rest.
   */
  lemma SameMessageExactlyWhen(p: Params, q: Params, i: string, j: string, c: int, d: int, now: int)
    ensures MessageOf(p.topic, RowOf(p, i, c).payload, now) == MessageOf(q.topic, RowOf(q, j, d).payload, now)
            <==> i == j && Alike(p, q)
  {
    var x := MessageOf(p.topic, RowOf(p, i, c).payload, now).value;
    var y := MessageOf(q.topic, RowOf(q, j, d).payload, now).value;
    if x == y && p.topic == q.topic {
      assert x.eventId == i && y.eventId == j;
    }
  }
}
