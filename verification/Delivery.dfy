/** One subscriber on the bus as a transition system: every interleaving of publishers, the pruner,
    failing queries and the stale propagator's receive and replay loops. */
module Delivery {
  import opened Options
  import opened EventBus

  // ----- States -------------------------------------------------------------

  /** Where the subscriber task stands. `Paging` holds the rows of the fetched page still to handle,
      whether the page was full, and the AUTOINCREMENT counter at the time of the query. */
  datatype Mode = Receiving | Querying | Paging(rest: seq<Row>, full: bool, horizon: nat)

  /** `next` is the receiver's position in `sent`. `live`, `replayed` and `skipped` are history:
      positions dispatched live, row ids dispatched by a replay, positions jumped over by a lag.
      `synced` says that the latest lag, if any, was followed by a replay that ran to its end. */
  datatype Subscriber = Subscriber(
    next: nat, cursor: nat, mode: Mode,
    live: seq<nat>, replayed: seq<nat>, skipped: set<nat>, synced: bool)

  /** `inflight` holds the events written by a `publish` that has not broadcast them yet. */
  datatype System = System(bus: BusState, inflight: map<nat, Event>, sub: Subscriber)

  datatype Capacities = Capacities(capacity: nat, pageSize: nat)

  ghost predicate Proper(c: Capacities) {
    c.capacity >= 1 && c.pageSize >= 1
  }

  /** The state in which the subscriber task starts: the table has any history, nothing was received. */
  ghost predicate Initial(s: System) {
    && TableInv(s.bus)
    && s.bus.sent == []
    && (forall id :: id in s.inflight ==> id < s.bus.nextId && RowMatches(s.bus, id, s.inflight[id]))
    && s.sub == Subscriber(0, 0, Receiving, [], [], {}, true)
  }

  // ----- Steps --------------------------------------------------------------

  datatype Step =
    | WriteRow(topic: string, payload: Payload)
    | BeginPublish(event: Event)
    | FinishPublish(id: nat)
    | Signal(topic: string)
    | Prune(ids: set<nat>)
    | Receive
    | DetectLag
    | FetchPage
    | QueryFails
    | HandleRow

  ghost predicate Enabled(c: Capacities, s: System, step: Step) {
    match step
    case WriteRow(_, _) => true
    case BeginPublish(_) => true
    case FinishPublish(id) => id in s.inflight
    case Signal(_) => true
    case Prune(_) => true
    case Receive => s.sub.mode.Receiving? && Oldest(s.bus.sent, c.capacity) <= s.sub.next < |s.bus.sent|
    case DetectLag => s.sub.mode.Receiving? && s.sub.next < Oldest(s.bus.sent, c.capacity)
    case FetchPage => s.sub.mode.Querying?
    case QueryFails => s.sub.mode.Querying?
    case HandleRow => s.sub.mode.Paging? && s.sub.mode.rest != []
  }

  function Remaining(table: seq<Row>, ids: set<nat>): seq<Row> {
    if table == [] then []
    else (if table[0].eventId in ids then [] else [table[0]]) + Remaining(table[1..], ids)
  }

  function AfterFetch(c: Capacities, b: BusState, sub: Subscriber): Subscriber {
    var rows := Page(b.table, sub.cursor, LIFECYCLE, c.pageSize);
    if rows == [] then sub.(mode := Receiving, synced := true)
    else sub.(mode := Paging(rows, |rows| >= c.pageSize, b.nextId))
  }

  function AfterRow(sub: Subscriber): Subscriber
    requires sub.mode.Paging? && sub.mode.rest != []
  {
    var row, rest := sub.mode.rest[0], sub.mode.rest[1..];
    sub.(cursor := row.eventId,
         replayed := if row.payload.Json? then sub.replayed + [row.eventId] else sub.replayed,
         mode := if rest != [] then sub.mode.(rest := rest) else if sub.mode.full then Querying else Receiving,
         synced := rest == [] && !sub.mode.full)
  }

  ghost function Next(c: Capacities, s: System, step: Step): System
    requires Enabled(c, s, step)
  {
    var b, sub := s.bus, s.sub;
    match step
    case WriteRow(topic, payload) => s.(bus := Inserted(b, topic, payload))
    case BeginPublish(e) => s.(bus := Inserted(b, e.topic, Json(e.payload)), inflight := s.inflight[b.nextId := e])
    case FinishPublish(id) => s.(bus := Broadcast(b, Announce(id, s.inflight[id])), inflight := s.inflight - {id})
    case Signal(topic) => s.(bus := Broadcast(b, Envelope(topic, Source.System, "null", None)))
    case Prune(ids) => s.(bus := b.(table := Remaining(b.table, ids)))
    case Receive => s.(sub := sub.(
      next := sub.next + 1,
      live := if b.sent[sub.next].topic == LIFECYCLE then sub.live + [sub.next] else sub.live))
    case DetectLag => s.(sub := sub.(
      next := Oldest(b.sent, c.capacity),
      skipped := sub.skipped + Range(sub.next, Oldest(b.sent, c.capacity)),
      mode := Querying,
      synced := false))
    case FetchPage => s.(sub := AfterFetch(c, b, sub))
    case QueryFails => s.(sub := sub.(mode := Receiving))
    case HandleRow => s.(sub := AfterRow(sub))
  }

  ghost function Range(a: nat, b: nat): (r: set<nat>)
    ensures forall k: nat :: k in r <==> a <= k < b
    decreases b - a
  {
    if a >= b then {} else {a} + Range(a + 1, b)
  }

  ghost predicate Run(c: Capacities, s: System, steps: seq<Step>, t: System)
    decreases |steps|
  {
    if steps == [] then s == t
    else Enabled(c, s, steps[0]) && Run(c, Next(c, s, steps[0]), steps[1..], t)
  }

  lemma {:induction false} RunConcat(c: Capacities, s: System, a: seq<Step>, t: System, b: seq<Step>, u: System)
    requires Run(c, s, a, t) && Run(c, t, b, u)
    ensures Run(c, s, a + b, u)
    decreases |a|
  {
    hide Next, Enabled;
    if a == [] {
      assert a + b == b;
    } else {
      assert (a + b)[1..] == a[1..] + b;
      RunConcat(c, Next(c, s, a[0]), a[1..], t, b, u);
    }
  }

  lemma RunStep(c: Capacities, s: System, step: Step, rest: seq<Step>, t: System)
    requires Enabled(c, s, step) && Run(c, Next(c, s, step), rest, t)
    ensures Run(c, s, [step] + rest, t)
  {
    hide Next, Enabled;
    assert ([step] + rest)[1..] == rest;
  }

  lemma RunOne(c: Capacities, s: System, step: Step)
    requires Enabled(c, s, step)
    ensures Run(c, s, [step], Next(c, s, step))
  {
    hide Next, Enabled;
    assert [step][1..] == [];
  }

  // ----- The invariant ------------------------------------------------------

  ghost predicate TableInv(b: BusState) {
    && AscendingIds(b.table)
    && b.nextId >= 1
    && forall r :: r in b.table ==> 1 <= r.eventId < b.nextId
  }

  /** If the row is still in the table it holds the event. */
  ghost predicate RowMatches(b: BusState, id: nat, e: Event) {
    forall r :: r in b.table && r.eventId == id ==> r.topic == e.topic && r.payload == Json(e.payload)
  }

  ghost function EventOf(env: Envelope): Event {
    Event(env.topic, env.source, env.payload)
  }

  /** Every message that announces a row was written to the table before. */
  ghost predicate SentInv(s: System) {
    && (forall id :: id in s.inflight ==> id < s.bus.nextId && RowMatches(s.bus, id, s.inflight[id]))
    && (forall k :: 0 <= k < |s.bus.sent| && s.bus.sent[k].origin.Some? ==>
          var id := s.bus.sent[k].origin.value;
          id < s.bus.nextId && id !in s.inflight && RowMatches(s.bus, id, EventOf(s.bus.sent[k])))
    && (forall j, k :: 0 <= j < k < |s.bus.sent| && s.bus.sent[j].origin.Some? ==>
          s.bus.sent[j].origin != s.bus.sent[k].origin)
  }

  ghost predicate StrictlyIncreasing(s: seq<nat>) {
    forall i, j :: 0 <= i < j < |s| ==> s[i] < s[j]
  }

  ghost predicate Replayable(r: Row) {
    r.topic == LIFECYCLE && r.payload.Json?
  }

  /** Nothing at or below the cursor is lost. */
  ghost predicate CursorInv(s: System) {
    && s.sub.cursor < s.bus.nextId
    && StrictlyIncreasing(s.sub.replayed)
    && (forall id :: id in s.sub.replayed ==> id <= s.sub.cursor)
    && (forall r :: r in s.bus.table && Replayable(r) && r.eventId <= s.sub.cursor ==> r.eventId in s.sub.replayed)
  }

  /** The page in hand misses no row of the topic up to its last id, and when it was not full, no row
      that existed at the time of the query. */
  ghost predicate PageCovers(b: BusState, cursor: nat, rest: seq<Row>, full: bool, horizon: nat) {
    && rest != [] && AscendingIds(rest)
    && horizon <= b.nextId
    && (forall r :: r in rest ==> cursor < r.eventId < horizon && r.topic == LIFECYCLE)
    && (forall r :: r in b.table && r.topic == LIFECYCLE && cursor < r.eventId <= rest[|rest| - 1].eventId
          ==> r in rest)
    && (!full ==> forall r :: r in b.table && r.topic == LIFECYCLE && cursor < r.eventId < horizon ==> r in rest)
  }

  ghost predicate PageInv(s: System) {
    s.sub.mode.Paging? ==>
      PageCovers(s.bus, s.sub.cursor, s.sub.mode.rest, s.sub.mode.full, s.sub.mode.horizon)
  }

  ghost predicate LiveInv(s: System) {
    && s.sub.next <= |s.bus.sent|
    && StrictlyIncreasing(s.sub.live)
    && (forall k :: k in s.sub.live ==> k < s.sub.next)
    && (forall k :: k in s.sub.skipped ==> k < s.sub.next)
    && (forall k :: 0 <= k < s.sub.next && s.bus.sent[k].topic == LIFECYCLE ==> k in s.sub.live || k in s.sub.skipped)
  }

  ghost predicate StillInTable(b: BusState, id: nat) {
    exists r :: r in b.table && r.eventId == id
  }

  /** Delivered by a replay, or pruned. Signals carry no row. */
  ghost predicate MadeGood(s: System, k: nat)
    requires k < |s.bus.sent|
  {
    var env := s.bus.sent[k];
    env.topic == LIFECYCLE && env.origin.Some? ==>
      env.origin.value in s.sub.replayed || !StillInTable(s.bus, env.origin.value)
  }

  ghost predicate SyncInv(s: System) {
    && (s.sub.synced ==> s.sub.mode.Receiving?)
    && (s.sub.synced ==> forall k :: k in s.sub.skipped && k < |s.bus.sent| ==> MadeGood(s, k))
    && (s.sub.mode.Paging? ==>
          forall k :: k in s.sub.skipped && k < |s.bus.sent| && s.bus.sent[k].origin.Some? ==>
            s.bus.sent[k].origin.value < s.sub.mode.horizon)
  }

  ghost predicate Inv(s: System) {
    TableInv(s.bus) && SentInv(s) && CursorInv(s) && PageInv(s) && LiveInv(s) && SyncInv(s)
  }

  // ----- Steps of the publishers and the pruner -----------------------------

  /** The table may lose rows and gain rows with new ids. */
  ghost predicate TableMoves(b: BusState, b': BusState) {
    && TableInv(b') && b'.nextId >= b.nextId && b'.sent == b.sent
    && forall r :: r in b'.table ==> r in b.table || r.eventId >= b.nextId
  }

  lemma TableStepSent(s: System, b': BusState)
    requires SentInv(s) && TableMoves(s.bus, b')
    ensures SentInv(s.(bus := b'))
  {
    var t := s.(bus := b');
    forall id | id in t.inflight ensures id < b'.nextId && RowMatches(b', id, t.inflight[id]) {
      assert RowMatches(s.bus, id, s.inflight[id]);
    }
    forall k | 0 <= k < |b'.sent| && b'.sent[k].origin.Some?
      ensures RowMatches(b', b'.sent[k].origin.value, EventOf(b'.sent[k]))
    {
      assert RowMatches(s.bus, b'.sent[k].origin.value, EventOf(b'.sent[k]));
    }
  }

  lemma TableStepSync(s: System, b': BusState)
    requires SyncInv(s) && SentInv(s) && TableMoves(s.bus, b')
    ensures SyncInv(s.(bus := b'))
  {
    var t := s.(bus := b');
    if s.sub.synced {
      forall k | k in s.sub.skipped && k < |s.bus.sent| ensures MadeGood(t, k) {
        assert MadeGood(s, k);
      }
    }
  }

  lemma TableStepKeepsInv(s: System, b': BusState)
    requires Inv(s) && TableMoves(s.bus, b')
    ensures Inv(s.(bus := b'))
  {
    TableStepSent(s, b');
    TableStepSync(s, b');
    hide SentInv, SyncInv;
    var t := s.(bus := b');
    assert PageInv(t) by {
      if s.sub.mode.Paging? {
        assert s.sub.mode.rest[|s.sub.mode.rest| - 1] in s.sub.mode.rest;
      }
    }
  }

  lemma InsertMoves(b: BusState, topic: string, payload: Payload)
    requires TableInv(b)
    ensures TableMoves(b, Inserted(b, topic, payload))
  {
    var row := Row(b.nextId, topic, payload);
    var t := b.table + [row];
    assert forall r :: r in t <==> r in b.table || r == row;
    forall i, j | 0 <= i < j < |t| ensures t[i].eventId < t[j].eventId {
      assert t[i] in b.table;
    }
  }

  lemma {:induction false} RemainingMeans(table: seq<Row>, ids: set<nat>)
    requires AscendingIds(table)
    ensures AscendingIds(Remaining(table, ids))
    ensures forall r :: r in Remaining(table, ids) <==> r in table && r.eventId !in ids
  {
    if table != [] {
      hide AscendingIds;
      AscendingTail(table);
      RemainingMeans(table[1..], ids);
      AscendingPrepend(table[0], Remaining(table[1..], ids));
    }
  }

  lemma PublishWriteKeepsInv(s: System, e: Event)
    requires Inv(s)
    ensures Inv(s.(bus := Inserted(s.bus, e.topic, Json(e.payload)), inflight := s.inflight[s.bus.nextId := e]))
  {
    var b' := Inserted(s.bus, e.topic, Json(e.payload));
    InsertMoves(s.bus, e.topic, Json(e.payload));
    TableStepKeepsInv(s, b');
    var u := s.(bus := b');
    var t := u.(inflight := s.inflight[s.bus.nextId := e]);
    assert RowMatches(b', s.bus.nextId, e) by {
      assert forall r :: r in b'.table <==> r in s.bus.table || r == Row(s.bus.nextId, e.topic, Json(e.payload));
    }
    assert SentInv(t);
    SameBusAndSub(u, t);
  }

  /** Only the message invariant looks at the publishes in flight. */
  lemma SameBusAndSub(s: System, t: System)
    requires Inv(s) && SentInv(t) && s.bus == t.bus && s.sub == t.sub
    ensures Inv(t)
  {
    if s.sub.synced {
      forall k | k in s.sub.skipped && k < |s.bus.sent| ensures MadeGood(t, k) {
        assert MadeGood(s, k);
      }
    }
  }

  lemma BroadcastKeepsInv(s: System, env: Envelope, inflight: map<nat, Event>)
    requires Inv(s)
    requires inflight == if env.origin.Some? then s.inflight - {env.origin.value} else s.inflight
    requires env.origin.Some? ==> env.origin.value in s.inflight && s.inflight[env.origin.value] == EventOf(env)
    ensures Inv(s.(bus := Broadcast(s.bus, env), inflight := inflight))
  {
    var t := s.(bus := Broadcast(s.bus, env), inflight := inflight);
    var n := |s.bus.sent|;
    assert forall k :: 0 <= k < n ==> t.bus.sent[k] == s.bus.sent[k];
    assert t.bus.sent[n] == env;
    assert SentInv(t) by {
      forall k | 0 <= k < |t.bus.sent| && t.bus.sent[k].origin.Some?
        ensures var id := t.bus.sent[k].origin.value;
                id < t.bus.nextId && id !in t.inflight && RowMatches(t.bus, id, EventOf(t.bus.sent[k]))
      {
        if k == n {
          assert RowMatches(s.bus, env.origin.value, s.inflight[env.origin.value]);
        } else {
          assert RowMatches(s.bus, s.bus.sent[k].origin.value, EventOf(s.bus.sent[k]));
        }
      }
      forall id | id in t.inflight ensures id < t.bus.nextId && RowMatches(t.bus, id, t.inflight[id]) {
        assert RowMatches(s.bus, id, s.inflight[id]);
      }
    }
    BroadcastSync(s, t, env);
  }

  lemma BroadcastSync(s: System, t: System, env: Envelope)
    requires LiveInv(s) && SyncInv(s) && t.sub == s.sub && t.bus == Broadcast(s.bus, env)
    ensures LiveInv(t) && SyncInv(t)
  {
    assert forall k :: 0 <= k < |s.bus.sent| ==> t.bus.sent[k] == s.bus.sent[k];
    if s.sub.synced {
      forall k | k in s.sub.skipped && k < |t.bus.sent| ensures MadeGood(t, k) {
        assert MadeGood(s, k);
      }
    }
  }

  // ----- Steps of the subscriber --------------------------------------------

  lemma ReceiveKeepsInv(c: Capacities, s: System)
    requires Inv(s) && Enabled(c, s, Receive)
    ensures Inv(Next(c, s, Receive))
  {
    var t := Next(c, s, Receive);
    assert LiveInv(t) by {
      var n := |s.sub.live|;
      forall k | k in t.sub.live ensures k < t.sub.next {
        assert k in s.sub.live || k == s.sub.next;
      }
      forall i, j | 0 <= i < j < |t.sub.live| ensures t.sub.live[i] < t.sub.live[j] {
        assert s.sub.live[i] in s.sub.live;
      }
      forall k | 0 <= k < t.sub.next && t.bus.sent[k].topic == LIFECYCLE ensures k in t.sub.live || k in t.sub.skipped {
        assert k == s.sub.next ==> t.sub.live[n] == k;
        assert k < s.sub.next ==> k in s.sub.live || k in s.sub.skipped;
        assert forall x :: x in s.sub.live ==> x in t.sub.live;
      }
    }
    SameHistory(s, t);
  }

  /** Settledness and page coverage do not depend on the receive position. */
  lemma SameHistory(s: System, t: System)
    requires SyncInv(s) && s.bus == t.bus && s.sub.mode == t.sub.mode && s.sub.synced == t.sub.synced
    requires s.sub.skipped == t.sub.skipped && s.sub.replayed == t.sub.replayed
    ensures SyncInv(t)
  {
    if s.sub.synced {
      forall k | k in s.sub.skipped && k < |s.bus.sent| ensures MadeGood(t, k) {
        assert MadeGood(s, k);
      }
    }
  }

  lemma DetectLagKeepsInv(c: Capacities, s: System)
    requires Inv(s) && Enabled(c, s, DetectLag)
    ensures Inv(Next(c, s, DetectLag))
  {}

  lemma PageMeans(c: Capacities, b: BusState, cursor: nat)
    requires TableInv(b) && c.pageSize >= 1
    ensures var rows := Page(b.table, cursor, LIFECYCLE, c.pageSize);
            && AscendingIds(rows)
            && (forall r :: r in rows ==> r in b.table && cursor < r.eventId && r.topic == LIFECYCLE)
            && (rows == [] || |rows| < c.pageSize ==>
                  forall r :: r in b.table && r.topic == LIFECYCLE && cursor < r.eventId ==> r in rows)
            && (rows != [] ==>
                  forall r :: r in b.table && r.topic == LIFECYCLE && cursor < r.eventId <= rows[|rows| - 1].eventId
                    ==> r in rows)
  {
    hide ListSince, AscendingIds;
    ListSinceMeans(b.table, cursor, LIFECYCLE);
    TakeMeans(ListSince(b.table, cursor, LIFECYCLE), c.pageSize);
  }

  lemma TakeMeans(all: seq<Row>, n: nat)
    requires AscendingIds(all) && n >= 1
    ensures var rows := Take(all, n);
            && AscendingIds(rows)
            && (forall r :: r in rows ==> r in all)
            && (rows == [] || |rows| < n ==> rows == all)
            && (rows != [] ==> forall r :: r in all && r.eventId <= rows[|rows| - 1].eventId ==> r in rows)
  {
    var rows := Take(all, n);
    if rows != [] {
      forall r | r in all && r.eventId <= rows[|rows| - 1].eventId ensures r in rows {
        var i :| 0 <= i < |all| && all[i] == r;
        assert rows[|rows| - 1] == all[|rows| - 1];
        assert i < |rows| && rows[i] == r;
      }
    }
  }

  lemma FetchPageKeepsInv(c: Capacities, s: System)
    requires Inv(s) && Proper(c) && Enabled(c, s, FetchPage)
    ensures Inv(Next(c, s, FetchPage))
  {
    hide Page, ListSince;
    var t := Next(c, s, FetchPage);
    var rows := Page(s.bus.table, s.sub.cursor, LIFECYCLE, c.pageSize);
    PageMeans(c, s.bus, s.sub.cursor);
    if rows == [] {
      forall k | k in s.sub.skipped && k < |s.bus.sent| ensures MadeGood(t, k) {
        CaughtUpSettles(s, t, k);
      }
    } else {
      assert PageInv(t);
    }
  }

  /** Once no replayable row is above the cursor, a skipped message was replayed or its row is gone. */
  lemma CaughtUpSettles(s: System, t: System, k: nat)
    requires SentInv(s) && CursorInv(t) && t.bus == s.bus && k < |s.bus.sent|
    requires forall r :: r in t.bus.table && r.topic == LIFECYCLE && s.bus.sent[k].origin == Some(r.eventId) ==>
               r.eventId <= t.sub.cursor
    ensures MadeGood(t, k)
  {
    var env := s.bus.sent[k];
    if env.topic == LIFECYCLE && env.origin.Some? && StillInTable(t.bus, env.origin.value) {
      var r :| r in t.bus.table && r.eventId == env.origin.value;
      assert RowMatches(s.bus, env.origin.value, EventOf(env));
      assert Replayable(r);
    }
  }

  lemma QueryFailsKeepsInv(c: Capacities, s: System)
    requires Inv(s) && Enabled(c, s, QueryFails)
    ensures Inv(Next(c, s, QueryFails))
  {}

  lemma HandleRowCursor(s: System)
    requires TableInv(s.bus) && CursorInv(s) && PageInv(s) && s.sub.mode.Paging? && s.sub.mode.rest != []
    ensures CursorInv(s.(sub := AfterRow(s.sub)))
  {
    var t := s.(sub := AfterRow(s.sub));
    var rest := s.sub.mode.rest;
    var row, last := rest[0], rest[|rest| - 1];
    assert row in rest && last in rest;
    forall r | r in s.bus.table && Replayable(r) && r.eventId <= row.eventId ensures r.eventId in t.sub.replayed {
      if r.eventId > s.sub.cursor {
        assert row.eventId <= last.eventId;
        assert r in rest;
        assert r == row;
        assert t.sub.replayed[|s.sub.replayed|] == row.eventId;
      } else {
        assert r.eventId in s.sub.replayed;
      }
    }
    forall id | id in t.sub.replayed ensures id <= t.sub.cursor {
      assert id in s.sub.replayed || id == row.eventId;
    }
    forall i, j | 0 <= i < j < |t.sub.replayed| ensures t.sub.replayed[i] < t.sub.replayed[j] {
      assert s.sub.replayed[i] in s.sub.replayed;
    }
  }

  lemma TailOfPage(rest: seq<Row>)
    requires AscendingIds(rest) && |rest| >= 2
    ensures AscendingIds(rest[1..]) && rest[1..][|rest| - 2] == rest[|rest| - 1]
    ensures forall r :: r in rest <==> r == rest[0] || r in rest[1..]
    ensures forall r :: r in rest[1..] ==> rest[0].eventId < r.eventId
  {
    var tail := rest[1..];
    assert rest == [rest[0]] + tail;
    forall r | r in tail ensures rest[0].eventId < r.eventId {
      var i :| 0 <= i < |tail| && tail[i] == r;
      assert rest[i + 1] == r;
    }
  }

  lemma CoverageMovesOn(b: BusState, cursor: nat, rest: seq<Row>, full: bool, horizon: nat)
    requires PageCovers(b, cursor, rest, full, horizon) && |rest| >= 2
    ensures PageCovers(b, rest[0].eventId, rest[1..], full, horizon)
  {
    TailOfPage(rest);
    assert rest[0] in rest;
    hide AscendingIds;
  }

  lemma HandleRowPage(s: System)
    requires PageInv(s) && s.sub.mode.Paging? && s.sub.mode.rest != []
    ensures PageInv(s.(sub := AfterRow(s.sub)))
  {
    hide PageCovers;
    if |s.sub.mode.rest| >= 2 {
      CoverageMovesOn(s.bus, s.sub.cursor, s.sub.mode.rest, s.sub.mode.full, s.sub.mode.horizon);
    }
  }

  lemma HandleRowKeepsInv(c: Capacities, s: System)
    requires Inv(s) && Enabled(c, s, HandleRow)
    ensures Inv(Next(c, s, HandleRow))
  {
    var t := Next(c, s, HandleRow);
    HandleRowCursor(s);
    HandleRowPage(s);
    var rest := s.sub.mode.rest;
    if t.sub.synced {
      forall k | k in s.sub.skipped && k < |s.bus.sent| ensures MadeGood(t, k) {
        forall r | r in t.bus.table && r.topic == LIFECYCLE && s.bus.sent[k].origin == Some(r.eventId)
          ensures r.eventId <= t.sub.cursor
        {
          assert r.eventId < s.sub.mode.horizon;
          assert r.eventId > s.sub.cursor ==> r in rest;
        }
        CaughtUpSettles(s, t, k);
      }
    }
  }

  // ----- Whole runs ---------------------------------------------------------

  lemma StepKeepsInv(c: Capacities, s: System, step: Step)
    requires Proper(c) && Inv(s) && Enabled(c, s, step)
    ensures Inv(Next(c, s, step))
  {
    match step
    case WriteRow(topic, payload) =>
      InsertMoves(s.bus, topic, payload);
      TableStepKeepsInv(s, Inserted(s.bus, topic, payload));
    case BeginPublish(e) => PublishWriteKeepsInv(s, e);
    case FinishPublish(id) => BroadcastKeepsInv(s, Announce(id, s.inflight[id]), s.inflight - {id});
    case Signal(topic) => BroadcastKeepsInv(s, Envelope(topic, Source.System, "null", None), s.inflight);
    case Prune(ids) =>
      RemainingMeans(s.bus.table, ids);
      TableStepKeepsInv(s, s.bus.(table := Remaining(s.bus.table, ids)));
    case Receive => ReceiveKeepsInv(c, s);
    case DetectLag => DetectLagKeepsInv(c, s);
    case FetchPage => FetchPageKeepsInv(c, s);
    case QueryFails => QueryFailsKeepsInv(c, s);
    case HandleRow => HandleRowKeepsInv(c, s);
  }

  lemma {:induction false} RunKeepsInv(c: Capacities, s: System, steps: seq<Step>, t: System)
    requires Proper(c) && Inv(s) && Run(c, s, steps, t)
    ensures Inv(t)
    decreases |steps|
  {
    if steps != [] {
      StepKeepsInv(c, s, steps[0]);
      RunKeepsInv(c, Next(c, s, steps[0]), steps[1..], t);
    }
  }

  lemma InitialInv(s: System)
    requires Initial(s)
    ensures Inv(s)
  {}

  // ----- What every run keeps -----------------------------------------------

  /** In every reachable state, each row that is still in the table, carries a lifecycle transition
      and parses, and has an id not above the cursor, was dispatched by a replay. */
  lemma NothingLostBelowCursor(c: Capacities, s: System, steps: seq<Step>, t: System, r: Row)
    requires Proper(c) && Initial(s) && Run(c, s, steps, t)
    requires r in t.bus.table && Replayable(r) && r.eventId <= t.sub.cursor
    ensures r.eventId in t.sub.replayed
  {
    InitialInv(s);
    RunKeepsInv(c, s, steps, t);
  }

  /** In every reachable state, each lifecycle event broadcast since the subscription was dispatched live,
      is yet to be reached by the receiver, or was jumped by a lag; and then it was replayed or pruned, or
      lies above the cursor while the replay of the latest lag has not run to its end. */
  lemma EveryEventAccountedFor(c: Capacities, s: System, steps: seq<Step>, t: System, k: nat, id: nat)
    requires Proper(c) && Initial(s) && Run(c, s, steps, t)
    requires k < |t.bus.sent| && t.bus.sent[k].topic == LIFECYCLE && t.bus.sent[k].origin == Some(id)
    ensures || k in t.sub.live
            || t.sub.next <= k
            || (k in t.sub.skipped
                && (|| id in t.sub.replayed
                    || !StillInTable(t.bus, id)
                    || (id > t.sub.cursor && !t.sub.synced)))
  {
    InitialInv(s);
    RunKeepsInv(c, s, steps, t);
    if k in t.sub.skipped && StillInTable(t.bus, id) {
      if t.sub.synced {
        assert MadeGood(t, k);
      } else if id <= t.sub.cursor {
        assert RowMatches(t.bus, id, EventOf(t.bus.sent[k]));
        var r :| r in t.bus.table && r.eventId == id;
        assert Replayable(r);
      }
    }
  }

  /** A subscriber that has read everything, and whose latest lag was followed by a replay that ran to
      its end, has dispatched every event broadcast since the subscription, apart from pruned ones:
      an earlier replay that failed half-way is made good by the later one. */
  lemma DrainedSubscriberMissesNothing(c: Capacities, s: System, steps: seq<Step>, t: System, k: nat, id: nat)
    requires Proper(c) && Initial(s) && Run(c, s, steps, t)
    requires t.sub.next == |t.bus.sent| && t.sub.synced
    requires k < |t.bus.sent| && t.bus.sent[k].topic == LIFECYCLE && t.bus.sent[k].origin == Some(id)
    ensures k in t.sub.live || id in t.sub.replayed || !StillInTable(t.bus, id)
  {
    InitialInv(s);
    RunKeepsInv(c, s, steps, t);
    if k in t.sub.skipped {
      assert MadeGood(t, k);
    }
  }

  /** Without a replay that ran to its end, a drained subscriber can miss an event: on a ring for one
      message, two events, a lag, and a failing query lose the first. */
  lemma DrainedAloneIsNotEnough(c: Capacities, e: Event) returns (s: System, steps: seq<Step>, t: System)
    requires c.capacity == 1 && c.pageSize >= 1 && e.topic == LIFECYCLE
    ensures Proper(c) && Initial(s) && Run(c, s, steps, t)
    ensures t.sub.mode.Receiving? && t.sub.next == |t.bus.sent| && !t.sub.synced
    ensures |t.bus.sent| > 0 && t.bus.sent[0].topic == LIFECYCLE && t.bus.sent[0].origin == Some(1)
    ensures 0 !in t.sub.live && 1 !in t.sub.replayed && StillInTable(t.bus, 1)
  {
    s := System.System(BusState([], 1, []), map[], Subscriber(0, 0, Receiving, [], [], {}, true));
    var u := s.(bus := Published(s.bus, e));
    var v := u.(bus := Published(u.bus, e));
    PublishIsWriteThenBroadcast(c, s, e);
    PublishIsWriteThenBroadcast(c, u, e);
    RunConcat(c, s, [BeginPublish(e), FinishPublish(1)], u, [BeginPublish(e), FinishPublish(2)], v);
    steps := [BeginPublish(e), FinishPublish(1)] + [BeginPublish(e), FinishPublish(2)];
    hide Run;
    var w := Next(c, v, DetectLag);
    var x := Next(c, w, QueryFails);
    t := Next(c, x, Receive);
    RunOne(c, x, Receive);
    RunStep(c, w, QueryFails, [Receive], t);
    RunStep(c, v, DetectLag, [QueryFails] + [Receive], t);
    RunConcat(c, s, steps, v, [DetectLag] + ([QueryFails] + [Receive]), t);
    steps := steps + ([DetectLag] + ([QueryFails] + [Receive]));
    assert t.bus.table[0].eventId == 1;
  }

  /** A run without a failing query leaves no replay unfinished: whenever the subscriber is back at
      receiving, it is synced. */
  lemma {:induction false} NoFailureStaysSynced(c: Capacities, s: System, steps: seq<Step>, t: System)
    requires Proper(c) && Run(c, s, steps, t)
    requires forall i :: 0 <= i < |steps| ==> steps[i] != QueryFails
    requires s.sub.mode.Receiving? ==> s.sub.synced
    ensures t.sub.mode.Receiving? ==> t.sub.synced
    decreases |steps|
  {
    if steps != [] {
      assert steps[0] != QueryFails;
      NoFailureStaysSynced(c, Next(c, s, steps[0]), steps[1..], t);
    }
  }

  /** Each row is replayed at most once, each message is dispatched live at most once, and no two
      messages announce the same row: an event is dispatched at most twice. */
  lemma DispatchedAtMostTwice(c: Capacities, s: System, steps: seq<Step>, t: System)
    requires Proper(c) && Initial(s) && Run(c, s, steps, t)
    ensures forall i, j :: 0 <= i < j < |t.sub.replayed| ==> t.sub.replayed[i] != t.sub.replayed[j]
    ensures forall i, j :: 0 <= i < j < |t.sub.live| ==> t.sub.live[i] != t.sub.live[j]
    ensures forall j, k :: j in t.sub.live && k in t.sub.live && AnnounceSameRow(t.bus, j, k) ==> j == k
  {
    InitialInv(s);
    RunKeepsInv(c, s, steps, t);
  }

  ghost predicate AnnounceSameRow(b: BusState, j: nat, k: nat) {
    j < |b.sent| && k < |b.sent| && b.sent[j].origin.Some? && b.sent[j].origin == b.sent[k].origin
  }

  /** The subscriber is never stuck: it has read everything, or one of its own steps is enabled. */
  lemma SubscriberNeverStuck(c: Capacities, s: System, steps: seq<Step>, t: System)
    requires Proper(c) && Initial(s) && Run(c, s, steps, t)
    ensures || (t.sub.mode.Receiving? && t.sub.next == |t.bus.sent|)
            || Enabled(c, t, Receive) || Enabled(c, t, DetectLag)
            || Enabled(c, t, FetchPage) || Enabled(c, t, HandleRow)
  {
    InitialInv(s);
    RunKeepsInv(c, s, steps, t);
  }

  /** No message announces a row that was not written first. */
  lemma RowsPrecedeMessages(c: Capacities, s: System, steps: seq<Step>, t: System, k: nat, id: nat)
    requires Proper(c) && Initial(s) && Run(c, s, steps, t)
    requires k < |t.bus.sent| && t.bus.sent[k].origin == Some(id)
    ensures id < t.bus.nextId
    ensures forall r :: r in t.bus.table && r.eventId == id ==>
              r.topic == t.bus.sent[k].topic && r.payload == Json(t.bus.sent[k].payload)
  {
    InitialInv(s);
    RunKeepsInv(c, s, steps, t);
    assert RowMatches(t.bus, id, EventOf(t.bus.sent[k]));
  }

  /** A `publish` that nothing interrupts is the write step followed by the broadcast step. */
  lemma PublishIsWriteThenBroadcast(c: Capacities, s: System, e: Event)
    requires s.bus.nextId !in s.inflight
    ensures var id := s.bus.nextId;
            Run(c, s, [BeginPublish(e), FinishPublish(id)], s.(bus := Published(s.bus, e)))
  {
    var id := s.bus.nextId;
    var u := Next(c, s, BeginPublish(e));
    assert Enabled(c, u, FinishPublish(id));
    var v := Next(c, u, FinishPublish(id));
    assert u.inflight - {id} == s.inflight;
    assert Run(c, v, [], v);
    assert [FinishPublish(id)][1..] == [];
    assert Run(c, u, [FinishPublish(id)], v);
    assert [BeginPublish(e), FinishPublish(id)][1..] == [FinishPublish(id)];
  }

  // ----- A batch is a run ---------------------------------------------------

  function Begins(events: seq<Event>): seq<Step> {
    if events == [] then [] else [BeginPublish(events[0])] + Begins(events[1..])
  }

  function Finishes(firstId: nat, n: nat): seq<Step>
    decreases n
  {
    if n == 0 then [] else [FinishPublish(firstId)] + Finishes(firstId + 1, n - 1)
  }

  /** The events of a batch by the ids of their rows. */
  function Pending(firstId: nat, events: seq<Event>): (r: map<nat, Event>)
    ensures forall id :: id in r ==> firstId <= id
    decreases |events|
  {
    if events == [] then map[] else Pending(firstId + 1, events[1..])[firstId := events[0]]
  }

  lemma PendingFirst(m: map<nat, Event>, firstId: nat, events: seq<Event>)
    requires events != [] && firstId !in m
    ensures m[firstId := events[0]] + Pending(firstId + 1, events[1..]) == m + Pending(firstId, events)
    ensures (m + Pending(firstId, events)) - {firstId} == m + Pending(firstId + 1, events[1..])
    ensures (m + Pending(firstId, events))[firstId] == events[0]
  {}

  /** Every row of the batch is written, nothing is broadcast. */
  lemma {:induction false} BeginsRun(c: Capacities, s: System, events: seq<Event>)
    requires forall id :: id in s.inflight ==> id < s.bus.nextId
    ensures Run(c, s, Begins(events), s.(bus := InsertedAll(s.bus, events),
                                         inflight := s.inflight + Pending(s.bus.nextId, events)))
    decreases |events|
  {
    hide Run, Pending;
    if events == [] {
      NothingToRun(c, s);
      NothingPending(s.inflight, s.bus.nextId);
    } else {
      var u := Next(c, s, BeginPublish(events[0]));
      BeginsRun(c, u, events[1..]);
      PendingFirst(s.inflight, s.bus.nextId, events);
      RunStep(c, s, BeginPublish(events[0]), Begins(events[1..]),
              u.(bus := InsertedAll(u.bus, events[1..]), inflight := u.inflight + Pending(u.bus.nextId, events[1..])));
    }
  }

  lemma NothingToRun(c: Capacities, s: System)
    ensures Run(c, s, [], s)
  {}

  lemma NothingPending(m: map<nat, Event>, firstId: nat)
    ensures m + Pending(firstId, []) == m
  {}

  /** Then the envelopes of the rows are broadcast, in the order of the rows. */
  lemma {:induction false} FinishesRun(c: Capacities, s: System, base: map<nat, Event>, firstId: nat,
                                       events: seq<Event>)
    requires s.inflight == base + Pending(firstId, events) && forall id :: id in base ==> id < firstId
    ensures Run(c, s, Finishes(firstId, |events|),
                s.(bus := s.bus.(sent := s.bus.sent + Announcements(firstId, events)), inflight := base))
    decreases |events|
  {
    hide Run, Pending;
    if events == [] {
      NothingToRun(c, s);
      NothingPending(base, firstId);
      assert s.bus.sent + [] == s.bus.sent;
    } else {
      PendingFirst(base, firstId, events);
      assert firstId in s.inflight by {
        InPending(base, firstId, events);
      }
      var u := Next(c, s, FinishPublish(firstId));
      FinishesRun(c, u, base, firstId + 1, events[1..]);
      var rest := Announcements(firstId + 1, events[1..]);
      assert (s.bus.sent + [Announce(firstId, events[0])]) + rest
          == s.bus.sent + ([Announce(firstId, events[0])] + rest);
      RunStep(c, s, FinishPublish(firstId), Finishes(firstId + 1, |events| - 1),
              u.(bus := u.bus.(sent := u.bus.sent + rest), inflight := base));
    }
  }

  lemma InPending(m: map<nat, Event>, firstId: nat, events: seq<Event>)
    requires events != []
    ensures firstId in m + Pending(firstId, events)
  {}

  /** A `publish_batch` that nothing interrupts is all its write steps followed by all its broadcast
      steps, so what holds in every reachable state holds of batches too. */
  lemma BatchIsWritesThenBroadcasts(c: Capacities, s: System, events: seq<Event>)
    requires forall id :: id in s.inflight ==> id < s.bus.nextId
    ensures Run(c, s, Begins(events) + Finishes(s.bus.nextId, |events|), s.(bus := PublishedEach(s.bus, events)))
  {
    hide Run, Pending;
    var first := s.bus.nextId;
    var u := s.(bus := InsertedAll(s.bus, events), inflight := s.inflight + Pending(first, events));
    BeginsRun(c, s, events);
    FinishesRun(c, u, s.inflight, first, events);
    BatchIsEach(s.bus, events);
    SentOfInsertedAll(s.bus, events);
    RunConcat(c, s, Begins(events), u, Finishes(first, |events|), s.(bus := PublishedEach(s.bus, events)));
  }

  lemma {:induction false} SentOfInsertedAll(b: BusState, events: seq<Event>)
    ensures InsertedAll(b, events).sent == b.sent
    decreases |events|
  {
    if events != [] {
      SentOfInsertedAll(Inserted(b, events[0].topic, Json(events[0].payload)), events[1..]);
    }
  }
}
