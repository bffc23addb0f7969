/** The subscriber left to itself: its own steps run a replay to its end, and let it catch up. */
module Draining {
  import opened Options
  import opened EventBus
  import opened StalePropagator
  import opened Delivery

  /** Steps the subscriber takes by itself, with queries that succeed. */
  ghost predicate Own(steps: seq<Step>) {
    forall i :: 0 <= i < |steps| ==> steps[i] in {Receive, DetectLag, FetchPage, HandleRow}
  }

  function ParsedIds(rows: seq<Row>): seq<nat> {
    if rows == [] then []
    else (if rows[0].payload.Json? then [rows[0].eventId] else []) + ParsedIds(rows[1..])
  }

  lemma {:induction false} ParsedIdsConcat(a: seq<Row>, b: seq<Row>)
    ensures ParsedIds(a + b) == ParsedIds(a) + ParsedIds(b)
  {
    if a == [] {
      assert a + b == b;
    } else {
      var first := if a[0].payload.Json? then [a[0].eventId] else [];
      assert (a + b)[0] == a[0] && (a + b)[1..] == a[1..] + b;
      ParsedIdsConcat(a[1..], b);
      assert first + (ParsedIds(a[1..]) + ParsedIds(b)) == (first + ParsedIds(a[1..])) + ParsedIds(b);
    }
  }

  // ----- One replay ---------------------------------------------------------

  function AfterPage(sub: Subscriber): Subscriber
    requires sub.mode.Paging?
  {
    var rows := sub.mode.rest;
    sub.(cursor := CursorAfter(rows, sub.cursor), replayed := sub.replayed + ParsedIds(rows),
         mode := if sub.mode.full then Querying else Receiving, synced := !sub.mode.full)
  }

  lemma {:induction false} HandlePage(c: Capacities, s: System) returns (steps: seq<Step>)
    requires s.sub.mode.Paging? && s.sub.mode.rest != []
    ensures Run(c, s, steps, s.(sub := AfterPage(s.sub))) && Own(steps)
    decreases |s.sub.mode.rest|
  {
    hide Run;
    var rows := s.sub.mode.rest;
    var u := Next(c, s, HandleRow);
    assert ParsedIds(rows) == (if rows[0].payload.Json? then [rows[0].eventId] else []) + ParsedIds(rows[1..]);
    if |rows| == 1 {
      RunOne(c, s, HandleRow);
      steps := [HandleRow];
      assert ParsedIds(rows[1..]) == [];
      assert u.sub.replayed == s.sub.replayed + ParsedIds(rows);
    } else {
      steps := HandlePage(c, u);
      RunStep(c, s, HandleRow, steps, u.(sub := AfterPage(u.sub)));
      steps := [HandleRow] + steps;
      assert u.sub.replayed + ParsedIds(rows[1..]) == s.sub.replayed + ParsedIds(rows);
    }
  }

  /** The state of the subscriber when a replay has dispatched `rows`, the unpaged selection. */
  function AfterReplay(sub: Subscriber, rows: seq<Row>): Subscriber {
    sub.(cursor := CursorAfter(rows, sub.cursor), replayed := sub.replayed + ParsedIds(rows),
         mode := Receiving, synced := true)
  }

  /** Without interleaved writes the paged replay terminates, having dispatched exactly the unpaged
      selection in order, with the cursor on its highest id. */
  lemma {:induction false} UninterruptedReplay(c: Capacities, s: System) returns (steps: seq<Step>)
    requires Proper(c) && AscendingIds(s.bus.table) && s.sub.mode.Querying?
    ensures Run(c, s, steps, s.(sub := AfterReplay(s.sub, ListSince(s.bus.table, s.sub.cursor, LIFECYCLE))))
    ensures Own(steps)
    decreases |ListSince(s.bus.table, s.sub.cursor, LIFECYCLE)|
  {
    hide Run, ListSince, ParsedIds;
    var rows := ListSince(s.bus.table, s.sub.cursor, LIFECYCLE);
    var page := Page(s.bus.table, s.sub.cursor, LIFECYCLE, c.pageSize);
    var u := Next(c, s, FetchPage);
    if page == [] {
      RunOne(c, s, FetchPage);
      steps := [FetchPage];
      NoIds();
      assert s.sub.replayed + [] == s.sub.replayed;
    } else {
      steps := HandlePage(c, u);
      var v := u.(sub := AfterPage(u.sub));
      RunStep(c, s, FetchPage, steps, v);
      steps := [FetchPage] + steps;
      if |page| < c.pageSize {
        assert page == rows;
      } else {
        ListSinceResumes(s.bus.table, s.sub.cursor, LIFECYCLE, |page|);
        assert page == rows[..|page|] && rows == page + rows[|page|..];
        var rest := UninterruptedReplay(c, v);
        ParsedIdsConcat(page, rows[|page|..]);
        assert (s.sub.replayed + ParsedIds(page)) + ParsedIds(rows[|page|..]) == s.sub.replayed + ParsedIds(rows);
        RunConcat(c, s, steps, v, rest, v.(sub := AfterReplay(v.sub, rows[|page|..])));
        steps := steps + rest;
      }
    }
  }

  lemma NoIds()
    ensures ParsedIds([]) == []
  {}

  // ----- Catching up --------------------------------------------------------

  ghost predicate Drained(s: System) {
    s.sub.mode.Receiving? && s.sub.next == |s.bus.sent|
  }

  /** Back to receiving, by the subscriber's own steps. */
  lemma FinishReplay(c: Capacities, s: System) returns (steps: seq<Step>, t: System)
    requires Proper(c) && AscendingIds(s.bus.table)
    requires s.sub.mode.Paging? ==> s.sub.mode.rest != []
    ensures Run(c, s, steps, t) && Own(steps)
    ensures t.bus == s.bus && t.sub.mode.Receiving? && t.sub.next == s.sub.next
    ensures (s.sub.mode.Receiving? ==> s.sub.synced) ==> t.sub.synced
  {
    hide ListSince, ParsedIds;
    steps, t := [], s;
    if s.sub.mode.Paging? {
      steps := HandlePage(c, s);
      t := s.(sub := AfterPage(s.sub));
    }
    hide Run;
    if t.sub.mode.Querying? {
      var rest := UninterruptedReplay(c, t);
      var u := t.(sub := AfterReplay(t.sub, ListSince(t.bus.table, t.sub.cursor, LIFECYCLE)));
      RunConcat(c, s, steps, t, rest, u);
      steps, t := steps + rest, u;
    }
  }

  /** Receiving on, with a replay for each lag. */
  lemma {:induction false} CatchUp(c: Capacities, s: System) returns (steps: seq<Step>, t: System)
    requires Proper(c) && AscendingIds(s.bus.table)
    requires s.sub.mode.Receiving? && s.sub.next <= |s.bus.sent|
    ensures Run(c, s, steps, t) && Own(steps)
    ensures t.bus == s.bus && Drained(t) && (s.sub.synced ==> t.sub.synced)
    decreases |s.bus.sent| - s.sub.next
  {
    steps, t := [], s;
    if s.sub.next < |s.bus.sent| {
      hide Run;
      var step := if s.sub.next < Oldest(s.bus.sent, c.capacity) then DetectLag else Receive;
      var u := Next(c, s, step);
      var first, v := FinishReplay(c, u);
      RunStep(c, s, step, first, v);
      var rest;
      rest, t := CatchUp(c, v);
      RunConcat(c, s, [step] + first, v, rest, t);
      steps := [step] + first + rest;
    }
  }

  ghost predicate Delivered(t: System, k: nat, id: nat) {
    k in t.sub.live || id in t.sub.replayed || !StillInTable(t.bus, id)
  }

  /** From every reachable state the subscriber can catch up by its own steps; if no query has failed,
      every lifecycle event broadcast so far is then dispatched or pruned. */
  lemma SubscriberCatchesUp(c: Capacities, s: System, before: seq<Step>, u: System)
    returns (steps: seq<Step>, t: System)
    requires Proper(c) && Initial(s) && Run(c, s, before, u)
    ensures Run(c, u, steps, t) && Own(steps) && t.bus == u.bus && Drained(t)
    ensures (forall i :: 0 <= i < |before| ==> before[i] != QueryFails) ==>
              forall k: nat, id: nat :: k < |t.bus.sent| && t.bus.sent[k].topic == LIFECYCLE
                && t.bus.sent[k].origin == Some(id)
                ==> Delivered(t, k, id)
  {
    InitialInv(s);
    RunKeepsInv(c, s, before, u);
    hide Run;
    var first, v := FinishReplay(c, u);
    var rest;
    rest, t := CatchUp(c, v);
    steps := first + rest;
    RunConcat(c, u, first, v, rest, t);
    if forall i :: 0 <= i < |before| ==> before[i] != QueryFails {
      NoFailureStaysSynced(c, s, before, u);
      RunConcat(c, s, before, u, steps, t);
      forall k: nat, id: nat | k < |t.bus.sent| && t.bus.sent[k].topic == LIFECYCLE && t.bus.sent[k].origin == Some(id)
        ensures Delivered(t, k, id)
      {
        DrainedSubscriberMissesNothing(c, s, before + steps, t, k, id);
      }
    }
  }

  // ----- There is only one way to catch up ----------------------------------

  /** In any state at most one of the subscriber's own steps is enabled, and none when it is drained. */
  lemma OwnStepIsDetermined(c: Capacities, s: System, a: Step, b: Step)
    requires Own([a]) && Own([b]) && Enabled(c, s, a)
    ensures Enabled(c, s, b) ==> a == b
    ensures !Drained(s)
  {
    assert [a][0] == a && [b][0] == b;
  }

  lemma RunHead(c: Capacities, s: System, steps: seq<Step>, t: System)
    requires Run(c, s, steps, t)
    ensures steps == [] ==> s == t
    ensures steps != [] ==> Enabled(c, s, steps[0]) && Run(c, Next(c, s, steps[0]), steps[1..], t)
  {}

  lemma OwnHead(steps: seq<Step>)
    requires Own(steps) && steps != []
    ensures Own([steps[0]]) && Own(steps[1..])
  {}

  lemma AlongSlices<T>(a: seq<T>, b: seq<T>)
    requires a != [] && b != [] && a[0] == b[0] && a[1..] <= b[1..]
    ensures a <= b && b[1..][|a| - 1..] == b[|a|..]
  {
    assert a == [a[0]] + a[1..] && b == [b[0]] + b[1..];
  }

  /** A run of own steps goes along the run that drains the subscriber. */
  lemma {:induction false} OwnRunsAreOne(c: Capacities, s: System, steps: seq<Step>, t: System,
                                         some: seq<Step>, v: System)
    requires Run(c, s, steps, t) && Own(steps) && Drained(t)
    requires Run(c, s, some, v) && Own(some)
    ensures some <= steps && Run(c, v, steps[|some|..], t)
    decreases |some|
  {
    hide Next, Enabled, Drained, Run, Own;
    RunHead(c, s, steps, t);
    RunHead(c, s, some, v);
    if some == [] {
      assert steps[0..] == steps;
    } else {
      OwnHead(some);
      OwnStepIsDetermined(c, s, some[0], some[0]);
      OwnHead(steps);
      OwnStepIsDetermined(c, s, some[0], steps[0]);
      OwnRunsAreOne(c, Next(c, s, some[0]), steps[1..], t, some[1..], v);
      AlongSlices(some, steps);
    }
  }

  /** Catching up is inevitable without failing queries: from every reachable state, whatever own steps the
      subscriber has taken, it is on its way along one finite run to one drained state. */
  lemma CatchingUpIsInevitable(c: Capacities, s: System, before: seq<Step>, u: System)
    returns (steps: seq<Step>, t: System)
    requires Proper(c) && Initial(s) && Run(c, s, before, u)
    ensures Run(c, u, steps, t) && Own(steps) && t.bus == u.bus && Drained(t)
    ensures forall some, v :: Run(c, u, some, v) && Own(some) ==> some <= steps && Run(c, v, steps[|some|..], t)
  {
    steps, t := SubscriberCatchesUp(c, s, before, u);
    forall some, v | Run(c, u, some, v) && Own(some) ensures some <= steps && Run(c, v, steps[|some|..], t) {
      OwnRunsAreOne(c, u, steps, t, some, v);
    }
  }
}
