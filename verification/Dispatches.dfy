/** Which messages and rows reach the hooks: the other direction of the delivery guarantees. */
module Dispatches {
  import opened Options
  import opened EventBus
  import opened Delivery

  /** A position was dispatched live exactly when it was received and carries a lifecycle transition;
      only messages the ring had dropped were jumped. */
  ghost predicate LiveExact(c: Capacities, s: System) {
    && s.sub.next <= |s.bus.sent|
    && (forall k: nat :: k in s.sub.live <==> k < s.sub.next && s.bus.sent[k].topic == LIFECYCLE && k !in s.sub.skipped)
    && (forall k :: k in s.sub.skipped ==> k < s.sub.next && k < Oldest(s.bus.sent, c.capacity))
  }

  /** Only rows that carry a lifecycle transition and parse were replayed, and the page in hand holds rows
      as the table has them. */
  ghost predicate ReplayExact(s: System) {
    && (forall r :: r in s.bus.table && r.eventId in s.sub.replayed ==> Replayable(r))
    && (s.sub.mode.Paging? ==>
          forall q, r :: q in s.bus.table && r in s.sub.mode.rest && q.eventId == r.eventId ==> q == r)
  }

  lemma SameRow(rows: seq<Row>, q: Row, r: Row)
    requires AscendingIds(rows) && q in rows && r in rows && q.eventId == r.eventId
    ensures q == r
  {
    var i :| 0 <= i < |rows| && rows[i] == q;
    var j :| 0 <= j < |rows| && rows[j] == r;
  }

  lemma ReceiveExact(c: Capacities, s: System)
    requires LiveExact(c, s) && LiveInv(s) && Enabled(c, s, Receive)
    ensures LiveExact(c, Next(c, s, Receive))
  {
    var t := Next(c, s, Receive);
    assert forall k: nat :: k in t.sub.live <==>
      k in s.sub.live || (k == s.sub.next && s.bus.sent[k].topic == LIFECYCLE);
  }

  lemma LagExact(c: Capacities, s: System)
    requires LiveExact(c, s) && Enabled(c, s, DetectLag)
    ensures LiveExact(c, Next(c, s, DetectLag))
  {}

  lemma BroadcastExact(c: Capacities, s: System, t: System, env: Envelope)
    requires LiveExact(c, s) && t.sub == s.sub && t.bus.sent == s.bus.sent + [env]
    ensures LiveExact(c, t)
  {}

  lemma StepKeepsLive(c: Capacities, s: System, step: Step)
    requires Inv(s) && LiveExact(c, s) && Enabled(c, s, step)
    ensures LiveExact(c, Next(c, s, step))
  {
    var t := Next(c, s, step);
    match step
    case FinishPublish(id) => BroadcastExact(c, s, t, Announce(id, s.inflight[id]));
    case Signal(topic) => BroadcastExact(c, s, t, Envelope(topic, Source.System, "null", None));
    case Receive => ReceiveExact(c, s);
    case DetectLag => LagExact(c, s);
    case _ =>
  }

  /** Rows that come later have ids above everything replayed or in hand. */
  lemma TableMovesExact(s: System, t: System)
    requires CursorInv(s) && PageInv(s) && ReplayExact(s) && TableMoves(s.bus, t.bus) && t.sub == s.sub
    ensures ReplayExact(t)
  {
    forall r | r in t.bus.table && r.eventId in s.sub.replayed ensures Replayable(r) {
      assert r.eventId <= s.sub.cursor;
    }
    if s.sub.mode.Paging? {
      forall q, r | q in t.bus.table && r in s.sub.mode.rest && q.eventId == r.eventId ensures q == r {
        assert r.eventId < s.sub.mode.horizon <= s.bus.nextId;
      }
    }
  }

  lemma FetchExact(c: Capacities, s: System)
    requires Proper(c) && Inv(s) && ReplayExact(s) && Enabled(c, s, FetchPage)
    ensures ReplayExact(Next(c, s, FetchPage))
  {
    hide Page, AscendingIds;
    PageMeans(c, s.bus, s.sub.cursor);
    var rows := Page(s.bus.table, s.sub.cursor, LIFECYCLE, c.pageSize);
    forall q, r | q in s.bus.table && r in rows && q.eventId == r.eventId ensures q == r {
      SameRow(s.bus.table, q, r);
    }
  }

  lemma HandleExact(c: Capacities, s: System)
    requires Inv(s) && ReplayExact(s) && Enabled(c, s, HandleRow)
    ensures ReplayExact(Next(c, s, HandleRow))
  {
    var t := Next(c, s, HandleRow);
    var row := s.sub.mode.rest[0];
    assert row in s.sub.mode.rest;
    assert forall id :: id in t.sub.replayed <==> id in s.sub.replayed || (id == row.eventId && row.payload.Json?);
    forall r | r in s.bus.table && r.eventId in t.sub.replayed ensures Replayable(r) {
      if r.eventId == row.eventId && row.payload.Json? {
        assert r == row && row.topic == LIFECYCLE;
      }
    }
  }

  lemma StepKeepsReplay(c: Capacities, s: System, step: Step)
    requires Proper(c) && Inv(s) && ReplayExact(s) && Enabled(c, s, step)
    ensures ReplayExact(Next(c, s, step))
  {
    var t := Next(c, s, step);
    hide Inserted;
    match step
    case WriteRow(topic, payload) =>
      InsertMoves(s.bus, topic, payload);
      TableMovesExact(s, t);
    case BeginPublish(e) =>
      InsertMoves(s.bus, e.topic, Json(e.payload));
      TableMovesExact(s, t);
    case Prune(ids) =>
      RemainingMeans(s.bus.table, ids);
      TableMovesExact(s, t);
    case FetchPage => FetchExact(c, s);
    case HandleRow => HandleExact(c, s);
    case _ =>
  }

  lemma {:induction false} RunKeepsExact(c: Capacities, s: System, steps: seq<Step>, t: System)
    requires Proper(c) && Inv(s) && LiveExact(c, s) && ReplayExact(s) && Run(c, s, steps, t)
    ensures LiveExact(c, t) && ReplayExact(t)
    decreases |steps|
  {
    hide Inv, LiveExact, ReplayExact, Next, Enabled;
    if steps != [] {
      StepKeepsInv(c, s, steps[0]);
      StepKeepsLive(c, s, steps[0]);
      StepKeepsReplay(c, s, steps[0]);
      RunKeepsExact(c, Next(c, s, steps[0]), steps[1..], t);
    }
  }

  /** In every reachable state the messages dispatched live are exactly those received so far that carry a
      lifecycle transition and were not jumped by a lag, and a lag jumps only messages the ring dropped. */
  lemma LiveDispatchIsExact(c: Capacities, s: System, steps: seq<Step>, t: System)
    requires Proper(c) && Initial(s) && Run(c, s, steps, t)
    ensures t.sub.next <= |t.bus.sent|
    ensures forall k: nat :: k in t.sub.live <==>
              k < t.sub.next && t.bus.sent[k].topic == LIFECYCLE && k !in t.sub.skipped
    ensures forall k :: k in t.sub.skipped ==> k < t.sub.next && k < Oldest(t.bus.sent, c.capacity)
  {
    InitialInv(s);
    assert LiveExact(c, s) && ReplayExact(s);
    hide LiveInv, Inv, Run, Initial;
    RunKeepsExact(c, s, steps, t);
  }

  /** In every reachable state the unpruned rows dispatched by a replay are exactly those not above the cursor
      that carry a lifecycle transition and parse. */
  lemma ReplayDispatchIsExact(c: Capacities, s: System, steps: seq<Step>, t: System, r: Row)
    requires Proper(c) && Initial(s) && Run(c, s, steps, t) && r in t.bus.table
    ensures r.eventId in t.sub.replayed <==> r.topic == LIFECYCLE && r.payload.Json? && r.eventId <= t.sub.cursor
  {
    InitialInv(s);
    RunKeepsInv(c, s, steps, t);
    RunKeepsExact(c, s, steps, t);
  }
}
