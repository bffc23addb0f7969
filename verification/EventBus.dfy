/** The hybrid event bus: a durable `events` table and a bounded live channel. */
module EventBus {
  import opened Options

  const LIFECYCLE := "lifecycle.transition.applied"

  datatype Source = User | Restore | System

  /** The payload column: a text that parses as JSON, or one that does not. */
  datatype Payload = Json(value: string) | Corrupt(text: string)

  datatype Row = Row(eventId: nat, topic: string, payload: Payload)

  /** A live message. `origin` names the durable row it announces; it is bookkeeping of the
      model, no step looks at it. */
  datatype Envelope = Envelope(topic: string, source: Source, payload: string, origin: Option<nat>)

  datatype Event = Event(topic: string, source: Source, payload: string)

  /** `table` is in ascending `event_id` order and `nextId` is the AUTOINCREMENT counter. `sent` is
      everything broadcast since the channel was opened; the ring retains its last messages. */
  datatype BusState = BusState(table: seq<Row>, nextId: nat, sent: seq<Envelope>)

  // ----- Steps on the state -------------------------------------------------

  function Inserted(b: BusState, topic: string, payload: Payload): BusState {
    b.(table := b.table + [Row(b.nextId, topic, payload)], nextId := b.nextId + 1)
  }

  function Broadcast(b: BusState, env: Envelope): BusState {
    b.(sent := b.sent + [env])
  }

  function Announce(id: nat, e: Event): Envelope {
    Envelope(e.topic, e.source, e.payload, Some(id))
  }

  /** `publish` without a failure: the durable row first, then the envelope. */
  function Published(b: BusState, e: Event): BusState {
    Broadcast(Inserted(b, e.topic, Json(e.payload)), Announce(b.nextId, e))
  }

  function PublishedEach(b: BusState, events: seq<Event>): BusState
    decreases |events|
  {
    if events == [] then b else PublishedEach(Published(b, events[0]), events[1..])
  }

  function InsertedAll(b: BusState, events: seq<Event>): BusState
    decreases |events|
  {
    if events == [] then b else InsertedAll(Inserted(b, events[0].topic, Json(events[0].payload)), events[1..])
  }

  function Announcements(firstId: nat, events: seq<Event>): seq<Envelope>
    decreases |events|
  {
    if events == [] then [] else [Announce(firstId, events[0])] + Announcements(firstId + 1, events[1..])
  }

  // ----- The ring -----------------------------------------------------------

  /** Position of the oldest message still in a ring of `capacity` messages. */
  function Oldest(sent: seq<Envelope>, capacity: nat): nat {
    if |sent| > capacity then |sent| - capacity else 0
  }

  // ----- Queries ------------------------------------------------------------

  /** `list_since_by_topic`: the rows of one topic after a cursor, oldest first. */
  function ListSince(table: seq<Row>, since: nat, topic: string): seq<Row> {
    if table == [] then []
    else if table[0].eventId > since && table[0].topic == topic then [table[0]] + ListSince(table[1..], since, topic)
    else ListSince(table[1..], since, topic)
  }

  /** `list_since`: the rows of every topic after a cursor, oldest first. */
  function ListSinceAnyTopic(table: seq<Row>, since: nat): seq<Row> {
    if table == [] then []
    else (if table[0].eventId > since then [table[0]] else []) + ListSinceAnyTopic(table[1..], since)
  }

  function Selected(table: seq<Row>, since: Option<nat>, topic: Option<string>): seq<Row> {
    var cursor := if since.Some? then since.value else 0;
    if topic.Some? then ListSince(table, cursor, topic.value) else ListSinceAnyTopic(table, cursor)
  }

  function Take<T>(s: seq<T>, n: nat): seq<T> {
    if |s| <= n then s else s[..n]
  }

  /** `list_since_by_topic_paged`. */
  function Page(table: seq<Row>, since: nat, topic: string, limit: nat): seq<Row> {
    Take(ListSince(table, since, topic), limit)
  }

  ghost predicate AscendingIds(rows: seq<Row>) {
    forall i, j :: 0 <= i < j < |rows| ==> rows[i].eventId < rows[j].eventId
  }

  lemma AscendingTail(rows: seq<Row>)
    requires AscendingIds(rows) && rows != []
    ensures AscendingIds(rows[1..])
    ensures forall r :: r in rows <==> r == rows[0] || r in rows[1..]
    ensures forall r :: r in rows[1..] ==> rows[0].eventId < r.eventId
  {
    assert rows == [rows[0]] + rows[1..];
  }

  lemma AscendingPrepend(row: Row, rows: seq<Row>)
    requires AscendingIds(rows) && forall r :: r in rows ==> row.eventId < r.eventId
    ensures AscendingIds([row] + rows)
    ensures forall r :: r in [row] + rows <==> r == row || r in rows
  {}

  lemma {:induction false} ListSinceMeans(table: seq<Row>, since: nat, topic: string)
    requires AscendingIds(table)
    ensures AscendingIds(ListSince(table, since, topic))
    ensures forall r :: r in ListSince(table, since, topic) <==> r in table && r.eventId > since && r.topic == topic
  {
    if table != [] {
      hide AscendingIds;
      AscendingTail(table);
      ListSinceMeans(table[1..], since, topic);
      AscendingPrepend(table[0], ListSince(table[1..], since, topic));
    }
  }

  /** What a replay selects: each row once, in id order, by cursor and topic. */
  lemma SelectedMeans(table: seq<Row>, since: Option<nat>, topic: Option<string>)
    requires AscendingIds(table)
    ensures AscendingIds(Selected(table, since, topic))
    ensures forall r :: r in Selected(table, since, topic) <==>
              r in table && r.eventId > (if since.Some? then since.value else 0)
                && (topic.Some? ==> r.topic == topic.value)
  {
    if topic.Some? {
      ListSinceMeans(table, if since.Some? then since.value else 0, topic.value);
    } else {
      ListSinceAnyTopicMeans(table, if since.Some? then since.value else 0);
    }
  }

  lemma {:induction false} ListSinceAnyTopicMeans(table: seq<Row>, since: nat)
    requires AscendingIds(table)
    ensures AscendingIds(ListSinceAnyTopic(table, since))
    ensures forall r :: r in ListSinceAnyTopic(table, since) <==> r in table && r.eventId > since
  {
    if table != [] {
      hide AscendingIds;
      AscendingTail(table);
      ListSinceAnyTopicMeans(table[1..], since);
      AscendingPrepend(table[0], ListSinceAnyTopic(table[1..], since));
    }
  }

  // ----- The bus object -----------------------------------------------------

  datatype BusError = Serialise | Database

  datatype Outcome<T> = Ok(value: T) | Err(error: BusError)

  /** What a call does to the outside, in the order it does it. */
  datatype Effect = AuditWritten(auditId: string) | RowWritten(rowId: nat) | Sent(env: Envelope)

  /** A serialised event about to be published; a payload that cannot be serialised is `None`. */
  datatype Draft = Draft(topic: string, source: Source, payload: Option<string>)

  ghost predicate Serialisable(drafts: seq<Draft>) {
    forall i :: 0 <= i < |drafts| ==> drafts[i].payload.Some?
  }

  ghost function Events(drafts: seq<Draft>): (r: seq<Event>)
    requires Serialisable(drafts)
  {
    seq(|drafts|, i requires 0 <= i < |drafts| => Event(drafts[i].topic, drafts[i].source, drafts[i].payload.value))
  }

  /** The effects of writing `n` rows from `firstId` on. */
  ghost function RowsWritten(firstId: nat, n: nat): seq<Effect> {
    seq(n, i requires 0 <= i < n => RowWritten(firstId + i))
  }

  ghost function AllSent(envelopes: seq<Envelope>): seq<Effect> {
    seq(|envelopes|, i requires 0 <= i < |envelopes| => Sent(envelopes[i]))
  }

  class EventBus {
    var table: seq<Row>
    var nextId: nat
    var sent: seq<Envelope>
    var receivers: nat
    var audit: seq<string>
    /** Every effect so far, in order. */
    ghost var effects: seq<Effect>

    ghost function State(): BusState
      reads this
    {
      BusState(table, nextId, sent)
    }

    constructor (rows: seq<Row>, next: nat)
      ensures State() == BusState(rows, next, []) && receivers == 0 && audit == [] && effects == []
    {
      table, nextId, sent, receivers, audit, effects := rows, next, [], 0, [], [];
    }

    method Subscribe() returns (position: nat)
      modifies this`receivers
      ensures receivers == old(receivers) + 1 && position == |sent|
    {
      receivers := receivers + 1;
      position := |sent|;
    }

    /** `broadcast::Sender::send`: without receivers the message is dropped. */
    method Send(env: Envelope) returns (reached: nat)
      modifies this`sent, this`effects
      ensures reached == receivers
      ensures sent == if receivers > 0 then old(sent) + [env] else old(sent)
      ensures effects == old(effects) + [Sent(env)]
    {
      if receivers > 0 {
        sent := sent + [env];
      }
      effects := effects + [Sent(env)];
      reached := receivers;
    }

    /** `insert_event`. */
    method Insert(topic: string, payload: Payload) returns (id: nat)
      modifies this`table, this`nextId, this`effects
      ensures id == old(nextId)
      ensures State() == Inserted(old(State()), topic, payload)
      ensures effects == old(effects) + [RowWritten(id)]
    {
      id := nextId;
      table := table + [Row(nextId, topic, payload)];
      nextId := nextId + 1;
      effects := effects + [RowWritten(id)];
    }

    /** `publish`. A payload that cannot be serialised is `None`; `databaseUp` says whether the
        durable write succeeds. The row is written first, and only then is its envelope sent. */
    method Publish(topic: string, source: Source, payload: Option<string>, databaseUp: bool) returns (r: Outcome<nat>)
      modifies this`table, this`nextId, this`sent, this`effects
      ensures r == if payload.None? then Err(Serialise) else if !databaseUp then Err(Database) else Ok(receivers)
      ensures r.Err? ==> State() == old(State()) && effects == old(effects)
      ensures r.Ok? && receivers > 0 ==> State() == Published(old(State()), Event(topic, source, payload.value))
      ensures r.Ok? && receivers == 0 ==> State() == Inserted(old(State()), topic, Json(payload.value))
      ensures r.Ok? ==> effects == old(effects) + [RowWritten(old(nextId)),
                                                   Sent(Announce(old(nextId), Event(topic, source, payload.value)))]
    {
      if payload.None? {
        return Err(Serialise);
      }
      if !databaseUp {
        return Err(Database);
      }
      var id := Insert(topic, Json(payload.value));
      var reached := Send(Envelope(topic, source, payload.value, Some(id)));
      return Ok(reached);
    }

    /** `write_audit`: the audit entry is written first and alone decides the answer; the bus event
        that follows is best effort. */
    method WriteAudit(auditId: string, topic: string, source: Source, payload: Option<string>, auditUp: bool,
                      databaseUp: bool)
      returns (r: Outcome<string>)
      modifies this`table, this`nextId, this`sent, this`audit, this`effects
      ensures r == if auditUp then Ok(auditId) else Err(Database)
      ensures audit == if auditUp then old(audit) + [auditId] else old(audit)
      ensures !auditUp || !databaseUp || payload.None? ==> State() == old(State())
      ensures auditUp && databaseUp && payload.Some? && receivers > 0 ==>
                State() == Published(old(State()), Event(topic, source, payload.value))
      ensures auditUp && databaseUp && payload.Some? && receivers == 0 ==>
                State() == Inserted(old(State()), topic, Json(payload.value))
      ensures !auditUp ==> effects == old(effects)
      ensures auditUp && (!databaseUp || payload.None?) ==> effects == old(effects) + [AuditWritten(auditId)]
      ensures auditUp && databaseUp && payload.Some? ==>
                effects == old(effects) + [AuditWritten(auditId), RowWritten(old(nextId)),
                                           Sent(Announce(old(nextId), Event(topic, source, payload.value)))]
    {
      if !auditUp {
        return Err(Database);
      }
      audit := audit + [auditId];
      effects := effects + [AuditWritten(auditId)];
      var _ := Publish(topic, source, payload, databaseUp);
      return Ok(auditId);
    }

    /** `broadcast_only`: a signal without a durable row. */
    method BroadcastOnly(topic: string) returns (reached: nat)
      modifies this`sent, this`effects
      ensures reached == receivers
      ensures sent == if receivers > 0 then old(sent) + [Envelope(topic, System, "null", None)] else old(sent)
      ensures effects == old(effects) + [Sent(Envelope(topic, System, "null", None))]
    {
      reached := Send(Envelope(topic, System, "null", None));
    }

    /** Serialises every payload, or fails at the first that cannot be. */
    method SerialiseAll(drafts: seq<Draft>) returns (events: Outcome<seq<Event>>)
      ensures events.Ok? <==> Serialisable(drafts)
      ensures events.Ok? ==> events.value == Events(drafts)
      ensures events.Err? ==> events.error == Serialise
    {
      var done: seq<Event> := [];
      for i := 0 to |drafts|
        invariant Serialisable(drafts[..i]) && |done| == i
        invariant forall k :: 0 <= k < i ==>
                    done[k] == Event(drafts[k].topic, drafts[k].source, drafts[k].payload.value)
      {
        if drafts[i].payload.None? {
          return Err(Serialise);
        }
        done := done + [Event(drafts[i].topic, drafts[i].source, drafts[i].payload.value)];
      }
      return Ok(done);
    }

    /** Writes the rows of a batch in one transaction. */
    method InsertBatch(events: seq<Event>) returns (envelopes: seq<Envelope>)
      modifies this`table, this`nextId, this`effects
      ensures State() == InsertedAll(old(State()), events) && nextId == old(nextId) + |events|
      ensures envelopes == Announcements(old(nextId), events)
      ensures effects == old(effects) + RowsWritten(old(nextId), |events|)
    {
      envelopes := [];
      ghost var start, before := State(), effects;
      for i := 0 to |events|
        invariant State() == InsertedAll(start, events[..i])
        invariant envelopes == Announcements(start.nextId, events[..i])
        invariant nextId == start.nextId + i && sent == start.sent
        invariant effects == before + RowsWritten(start.nextId, i)
      {
        var id := Insert(events[i].topic, Json(events[i].payload));
        envelopes := envelopes + [Announce(id, events[i])];
        InsertedAllExtend(start, events, i);
        AnnouncementsExtend(start.nextId, events, i);
      }
      assert events[..|events|] == events;
    }

    method SendAll(envelopes: seq<Envelope>)
      modifies this`sent, this`effects
      ensures sent == if receivers > 0 then old(sent) + envelopes else old(sent)
      ensures effects == old(effects) + AllSent(envelopes)
    {
      for i := 0 to |envelopes|
        invariant sent == if receivers > 0 then old(sent) + envelopes[..i] else old(sent)
        invariant effects == old(effects) + AllSent(envelopes[..i])
      {
        var _ := Send(envelopes[i]);
        assert envelopes[..i + 1] == envelopes[..i] + [envelopes[i]];
      }
      assert envelopes[..|envelopes|] == envelopes;
    }

    /** `publish_batch`: every row in one transaction, then every envelope. With a live receiver the
        outcome is that of publishing the events one by one; a failure changes nothing. */
    method PublishBatch(drafts: seq<Draft>, databaseUp: bool) returns (r: Outcome<()>)
      modifies this`table, this`nextId, this`sent, this`effects
      ensures r == if !Serialisable(drafts) then Err(Serialise)
                   else if drafts != [] && !databaseUp then Err(Database) else Ok(())
      ensures r.Err? ==> State() == old(State()) && effects == old(effects)
      ensures r.Ok? && receivers > 0 ==> State() == PublishedEach(old(State()), Events(drafts))
      ensures r.Ok? && receivers == 0 ==> State() == InsertedAll(old(State()), Events(drafts))
      ensures r.Ok? ==> effects == old(effects) + RowsWritten(old(nextId), |drafts|)
                                   + AllSent(Announcements(old(nextId), Events(drafts)))
    {
      if drafts == [] {
        return Ok(());
      }
      var serialised := SerialiseAll(drafts);
      if serialised.Err? {
        return Err(serialised.error);
      }
      if !databaseUp {
        return Err(Database);
      }
      ghost var start := State();
      var events := serialised.value;
      var envelopes := InsertBatch(events);
      SendAll(envelopes);
      BatchIsEach(start, events);
      InsertedAllIgnoresSent(start, start.sent + envelopes, events);
      return Ok(());
    }

    /** `replay`: the selected rows after a cursor, as restore envelopes, or an error at the first
        payload that does not parse. No cursor means from the start, no topic means all topics. */
    method Replay(topic: Option<string>, since: Option<nat>, databaseUp: bool) returns (r: Outcome<seq<Envelope>>)
      ensures !databaseUp ==> r == Err(Database)
      ensures databaseUp ==> (r.Ok? <==> forall row :: row in Selected(table, since, topic) ==> row.payload.Json?)
      ensures r.Ok? ==> r.value == Restored(Selected(table, since, topic))
      ensures r.Ok? ==> Restores(r.value, Selected(table, since, topic))
      ensures databaseUp && r.Err? ==> r.error == Serialise
    {
      if !databaseUp {
        return Err(Database);
      }
      var rows := Selected(table, since, topic);
      var envelopes: seq<Envelope> := [];
      for i := 0 to |rows|
        invariant forall row :: row in rows[..i] ==> row.payload.Json?
        invariant envelopes == Restored(rows[..i])
      {
        if rows[i].payload.Corrupt? {
          return Err(Serialise);
        }
        envelopes := envelopes + [Restoring(rows[i])];
        RestoredExtend(rows, i);
        assert rows[..i + 1] == rows[..i] + [rows[i]];
      }
      assert rows[..|rows|] == rows;
      RestoredMeans(rows);
      return Ok(envelopes);
    }
  }

  function Restoring(row: Row): Envelope
    requires row.payload.Json?
  {
    Envelope(row.topic, Restore, row.payload.value, Some(row.eventId))
  }

  /** The restore envelopes of the rows whose payload parses. */
  function Restored(rows: seq<Row>): seq<Envelope> {
    if rows == [] then []
    else (if rows[0].payload.Json? then [Restoring(rows[0])] else []) + Restored(rows[1..])
  }

  /** The rows whose payload parses. */
  function Parsing(rows: seq<Row>): seq<Row> {
    if rows == [] then [] else (if rows[0].payload.Json? then [rows[0]] else []) + Parsing(rows[1..])
  }

  /** Each envelope announces its row: the row's topic and payload, with restore semantics. */
  ghost predicate Restores(envelopes: seq<Envelope>, rows: seq<Row>) {
    && |envelopes| == |rows|
    && forall i :: 0 <= i < |rows| ==>
         && envelopes[i].topic == rows[i].topic
         && rows[i].payload == Json(envelopes[i].payload)
         && envelopes[i].source == Restore
         && envelopes[i].origin == Some(rows[i].eventId)
  }

  lemma {:induction false} RestoredMeans(rows: seq<Row>)
    ensures Restores(Restored(rows), Parsing(rows))
    ensures (forall r :: r in rows ==> r.payload.Json?) ==> Parsing(rows) == rows
  {
    hide Restores;
    if rows == [] {
      NothingRestored();
    } else {
      RestoredMeans(rows[1..]);
      assert rows[0] in rows && forall r :: r in rows[1..] ==> r in rows;
      assert rows == [rows[0]] + rows[1..];
      if rows[0].payload.Json? {
        RestoresPrepend(rows[0], Restored(rows[1..]), Parsing(rows[1..]));
      } else {
        var none: seq<Envelope>, noRow: seq<Row> := [], [];
        assert none + Restored(rows[1..]) == Restored(rows[1..]) && noRow + Parsing(rows[1..]) == Parsing(rows[1..]);
      }
    }
  }

  lemma NothingRestored()
    ensures Restores([], [])
  {}

  lemma RestoresPrepend(row: Row, envelopes: seq<Envelope>, rows: seq<Row>)
    requires Restores(envelopes, rows) && row.payload.Json?
    ensures Restores([Restoring(row)] + envelopes, [row] + rows)
  {
    var e, r := [Restoring(row)] + envelopes, [row] + rows;
    assert forall i :: 0 < i < |r| ==> e[i] == envelopes[i - 1] && r[i] == rows[i - 1];
  }

  lemma {:induction false} ParsingMeans(rows: seq<Row>)
    ensures forall r :: r in Parsing(rows) <==> r in rows && r.payload.Json?
    ensures AscendingIds(rows) ==> AscendingIds(Parsing(rows))
  {
    if rows != [] {
      ParsingMeans(rows[1..]);
      if AscendingIds(rows) {
        AscendingTail(rows);
        AscendingPrepend(rows[0], Parsing(rows[1..]));
      }
      assert rows == [rows[0]] + rows[1..];
    }
  }

  lemma {:induction false} RestoredConcat(a: seq<Row>, b: seq<Row>)
    ensures Restored(a + b) == Restored(a) + Restored(b)
  {
    if a == [] {
      assert a + b == b;
    } else {
      assert (a + b)[1..] == a[1..] + b;
      RestoredConcat(a[1..], b);
    }
  }

  lemma RestoredExtend(rows: seq<Row>, i: nat)
    requires i < |rows|
    ensures Restored(rows[..i + 1])
            == Restored(rows[..i]) + (if rows[i].payload.Json? then [Restoring(rows[i])] else [])
  {
    assert rows[..i + 1] == rows[..i] + [rows[i]];
    RestoredConcat(rows[..i], [rows[i]]);
  }

  lemma {:induction false} InsertedAllExtend(b: BusState, events: seq<Event>, i: nat)
    requires i < |events|
    ensures InsertedAll(b, events[..i + 1])
            == Inserted(InsertedAll(b, events[..i]), events[i].topic, Json(events[i].payload))
    decreases i
  {
    if i > 0 {
      InsertedAllExtend(Inserted(b, events[0].topic, Json(events[0].payload)), events[1..], i - 1);
      assert events[..i + 1][1..] == events[1..][..i] && events[..i][1..] == events[1..][..i - 1];
    } else {
      assert events[..1][1..] == [];
    }
  }

  lemma {:induction false} AnnouncementsExtend(id: nat, events: seq<Event>, i: nat)
    requires i < |events|
    ensures Announcements(id, events[..i + 1]) == Announcements(id, events[..i]) + [Announce(id + i, events[i])]
    decreases i
  {
    if i > 0 {
      AnnouncementsExtend(id + 1, events[1..], i - 1);
      assert events[..i + 1][1..] == events[1..][..i] && events[..i][1..] == events[1..][..i - 1];
    } else {
      assert events[..1][1..] == [];
    }
  }

  /** One commit for the batch reaches the state of one publish per event: same rows, same messages
      in the same order, hence the same ring and the same lag for every receiver. */
  lemma {:induction false} BatchIsEach(b: BusState, events: seq<Event>)
    ensures InsertedAll(b, events).(sent := b.sent + Announcements(b.nextId, events)) == PublishedEach(b, events)
    decreases |events|
  {
    if events == [] {
      assert b.sent + [] == b.sent;
    } else {
      var p := Published(b, events[0]);
      var q := Inserted(b, events[0].topic, Json(events[0].payload));
      BatchIsEach(p, events[1..]);
      InsertedAllIgnoresSent(q, p.sent, events[1..]);
      assert b.sent + Announcements(b.nextId, events) == p.sent + Announcements(b.nextId + 1, events[1..]);
    }
  }

  lemma {:induction false} InsertedAllIgnoresSent(b: BusState, sent: seq<Envelope>, events: seq<Event>)
    ensures InsertedAll(b.(sent := sent), events) == InsertedAll(b, events).(sent := sent)
    decreases |events|
  {
    if events != [] {
      InsertedAllIgnoresSent(Inserted(b, events[0].topic, Json(events[0].payload)), sent, events[1..]);
    }
  }
}
