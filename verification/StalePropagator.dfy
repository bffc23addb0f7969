/** The stale propagator: dispatch to hooks, and paged replay after a lag. */
module StalePropagator {
  import opened Options
  import opened EventBus

  /** A hook answers with an error text or nothing. */
  type Hook = Envelope -> Option<string>

  /** `errors` are the texts of the hooks that answer with one, in order; `failing` are their indices. */
  ghost predicate ErrorsOf(hooks: seq<Hook>, env: Envelope, failing: seq<nat>, errors: seq<string>) {
    && |errors| == |failing|
    && (forall i, j :: 0 <= i < j < |failing| ==> failing[i] < failing[j])
    && (forall j :: 0 <= j < |failing| ==> failing[j] < |hooks| && hooks[failing[j]](env) == Some(errors[j]))
    && (forall i: nat :: i < |hooks| && hooks[i](env).Some? ==> i in failing)
  }

  lemma ErrorsOfNext(hooks: seq<Hook>, env: Envelope, failing: seq<nat>, errors: seq<string>, i: nat)
    requires i < |hooks| && ErrorsOf(hooks[..i], env, failing, errors)
    ensures match hooks[i](env)
            case None => ErrorsOf(hooks[..i + 1], env, failing, errors)
            case Some(e) => ErrorsOf(hooks[..i + 1], env, failing + [i], errors + [e])
  {
    var next := hooks[..i + 1];
    assert forall k :: 0 <= k < i ==> next[k] == hooks[..i][k];
    if hooks[i](env).Some? {
      var more := failing + [i];
      assert forall k :: k in failing ==> k in more;
      assert more[|failing|] == i;
    }
  }

  /** A hook registered last answers last and changes nothing about the answers before it. */
  lemma RegisteredHookAnswersLast(hooks: seq<Hook>, hook: Hook, env: Envelope, failing: seq<nat>, errors: seq<string>)
    requires ErrorsOf(hooks, env, failing, errors)
    ensures match hook(env)
            case None => ErrorsOf(hooks + [hook], env, failing, errors)
            case Some(e) => ErrorsOf(hooks + [hook], env, failing + [|hooks|], errors + [e])
  {
    var more := hooks + [hook];
    assert more[..|hooks|] == hooks && more[..|hooks| + 1] == more;
    hide ErrorsOf;
    ErrorsOfNext(more, env, failing, errors, |hooks|);
  }

  /** The cursor after handling rows one by one. */
  function CursorAfter(rows: seq<Row>, cursor: nat): nat {
    if rows == [] then cursor else rows[|rows| - 1].eventId
  }

  lemma {:induction false} ListSinceAfterAll(table: seq<Row>, low: nat, high: nat, topic: string)
    requires low <= high && forall r :: r in table ==> r.eventId > high
    ensures ListSince(table, low, topic) == ListSince(table, high, topic)
  {
    if table != [] {
      ListSinceAfterAll(table[1..], low, high, topic);
      assert table[0] in table;
    }
  }

  /** Asking again after handling a prefix gives exactly the rest. */
  lemma {:induction false} ListSinceResumes(table: seq<Row>, since: nat, topic: string, n: nat)
    requires AscendingIds(table) && 0 < n <= |ListSince(table, since, topic)|
    ensures var rows := ListSince(table, since, topic); ListSince(table, rows[n - 1].eventId, topic) == rows[n..]
  {
    hide AscendingIds;
    AscendingTail(table);
    var first, rest := table[0], table[1..];
    var tail := ListSince(rest, since, topic);
    ListSinceMeans(rest, since, topic);
    if first.eventId > since && first.topic == topic {
      if n == 1 {
        ListSinceAfterAll(rest, since, first.eventId, topic);
        assert ([first] + tail)[1..] == tail;
      } else {
        ListSinceResumes(rest, since, topic, n - 1);
        assert tail[n - 2] in tail;
        Behind(first, tail, n);
      }
    } else {
      ListSinceResumes(rest, since, topic, n);
      assert tail[n - 1] in tail;
    }
  }

  lemma Behind<T>(first: T, tail: seq<T>, n: nat)
    requires 2 <= n <= |tail| + 1
    ensures ([first] + tail)[n - 1] == tail[n - 2] && ([first] + tail)[n..] == tail[n - 1..]
  {}

  // ----- Paging with failing queries ----------------------------------------

  /** How many of `n` selected rows a replay handles whose next query has the number `query`. */
  ghost function Handled(n: nat, limit: nat, failing: set<nat>, query: nat): (r: nat)
    requires limit >= 1
    ensures r <= n
  {
    if query in failing then 0 else if n < limit then n else limit + Handled(n - limit, limit, failing, query + 1)
  }

  /** Whether such a replay ends at a failing query. */
  ghost predicate ReplayFails(n: nat, limit: nat, failing: set<nat>, query: nat)
    requires limit >= 1
  {
    query in failing || (n >= limit && ReplayFails(n - limit, limit, failing, query + 1))
  }

  /** What `replay_since` returns. */
  ghost function ReplayCursor(table: seq<Row>, cursor0: nat, limit: nat, failing: set<nat>): nat
    requires limit >= 1
  {
    var rows := ListSince(table, cursor0, LIFECYCLE);
    CursorAfter(rows[..Handled(|rows|, limit, failing, 0)], cursor0)
  }

  /** How many full pages `n` rows make. */
  ghost function FullPages(n: nat, limit: nat): (r: nat)
    requires limit >= 1
    ensures r * limit <= n < (r + 1) * limit
  {
    if n < limit then 0
    else
      var r := FullPages(n - limit, limit);
      assert (r + 1) * limit == r * limit + limit && (r + 2) * limit == (r + 1) * limit + limit;
      r + 1
  }

  ghost predicate SomeFails(failing: set<nat>, first: nat, last: nat) {
    exists k :: first <= k <= last && k in failing
  }

  /** A replay fails if and only if one of the queries it needs does: one for each full page, and one
      more that finds the short or empty last page. */
  lemma {:induction false} ReplayFailsExactly(n: nat, limit: nat, failing: set<nat>, query: nat)
    requires limit >= 1
    ensures ReplayFails(n, limit, failing, query) <==> SomeFails(failing, query, query + FullPages(n, limit))
  {
    if n >= limit {
      ReplayFailsExactly(n - limit, limit, failing, query + 1);
      assert FullPages(n, limit) == FullPages(n - limit, limit) + 1;
    }
    if ReplayFails(n, limit, failing, query) && query !in failing {
      var k :| query + 1 <= k <= query + 1 + FullPages(n - limit, limit) && k in failing;
    }
  }

  lemma {:induction false} ReplayCoversAll(n: nat, limit: nat, failing: set<nat>, query: nat)
    requires limit >= 1 && !ReplayFails(n, limit, failing, query)
    ensures Handled(n, limit, failing, query) == n
  {
    if n >= limit {
      ReplayCoversAll(n - limit, limit, failing, query + 1);
    }
  }

  /** On an error the incoming cursor comes back if and only if the very first query failed. */
  lemma IncomingCursorOnError(table: seq<Row>, cursor0: nat, limit: nat, failing: set<nat>)
    requires limit >= 1 && AscendingIds(table)
    requires ReplayFails(|ListSince(table, cursor0, LIFECYCLE)|, limit, failing, 0)
    ensures ReplayCursor(table, cursor0, limit, failing) == cursor0 <==> 0 in failing
  {
    var rows := ListSince(table, cursor0, LIFECYCLE);
    ListSinceMeans(table, cursor0, LIFECYCLE);
    var handled := Handled(|rows|, limit, failing, 0);
    if handled > 0 {
      assert rows[handled - 1] in rows;
    }
  }

  lemma {:induction false} AllSelected(table: seq<Row>, since: nat)
    requires forall r :: r in table ==> r.topic == LIFECYCLE && r.eventId > since
    ensures ListSince(table, since, LIFECYCLE) == table
  {
    if table != [] {
      assert table[0] in table;
      assert forall r :: r in table[1..] ==> r in table;
      AllSelected(table[1..], since);
    }
  }

  /** At least one full page of lifecycle rows and a second query that fails: the cursor comes back on the
      last row of the first page, not where it was. */
  lemma CursorMovesBeforeTheError(table: seq<Row>, limit: nat)
    requires 1 <= limit <= |table| && AscendingIds(table)
    requires forall r :: r in table ==> r.topic == LIFECYCLE && r.eventId > 0
    ensures ReplayFails(|ListSince(table, 0, LIFECYCLE)|, limit, {1}, 0)
    ensures ReplayCursor(table, 0, limit, {1}) == table[limit - 1].eventId != 0
  {
    AllSelected(table, 0);
    hide ListSince, AscendingIds;
    assert table[limit - 1] in table;
    SecondQueryFails(|table|, limit);
    assert table[..limit][limit - 1] == table[limit - 1];
  }

  lemma SecondQueryFails(n: nat, limit: nat)
    requires 1 <= limit <= n
    ensures Handled(n, limit, {1}, 0) == limit && ReplayFails(n, limit, {1}, 0)
  {
    NextQuery(n, limit, {1}, 0);
    FailedQuery(n - limit, limit, {1}, 1);
  }

  lemma FailedQuery(n: nat, limit: nat, failing: set<nat>, query: nat)
    requires limit >= 1 && query in failing
    ensures Handled(n, limit, failing, query) == 0 && ReplayFails(n, limit, failing, query)
  {}

  class StalePropagator {
    var hooks: seq<Hook>
    /** Every envelope handed to the hooks, in order. */
    var dispatched: seq<Envelope>

    constructor ()
      ensures hooks == [] && dispatched == []
    {
      hooks, dispatched := [], [];
    }

    method WithHook(hook: Hook)
      modifies this`hooks
      ensures hooks == old(hooks) + [hook]
    {
      hooks := hooks + [hook];
    }

    /** `dispatch`: every hook sees the envelope once, in order of registration and whatever earlier
        hooks answered; the error texts come back in the same order. */
    method Dispatch(env: Envelope)
      returns (errors: seq<string>, ghost calls: seq<(nat, Envelope)>, ghost failing: seq<nat>)
      modifies this`dispatched
      ensures dispatched == old(dispatched) + [env]
      ensures |calls| == |hooks| && forall i :: 0 <= i < |hooks| ==> calls[i] == (i, env)
      ensures ErrorsOf(hooks, env, failing, errors)
    {
      errors, calls, failing := [], [], [];
      assert ErrorsOf(hooks[..0], env, failing, errors);
      hide ErrorsOf;
      for i := 0 to |hooks|
        invariant dispatched == old(dispatched)
        invariant |calls| == i && forall k :: 0 <= k < i ==> calls[k] == (k, env)
        invariant ErrorsOf(hooks[..i], env, failing, errors)
      {
        var answer := hooks[i](env);
        calls := calls + [(i, env)];
        ErrorsOfNext(hooks, env, failing, errors, i);
        if answer.Some? {
          errors := errors + [answer.value];
          failing := failing + [i];
        }
      }
      assert hooks[..|hooks|] == hooks;
      dispatched := dispatched + [env];
    }

    /** Handles the rows of one page; rows that do not parse only move the cursor. */
    method DispatchPage(rows: seq<Row>, cursor0: nat) returns (cursor: nat)
      requires forall r :: r in rows ==> r.topic == LIFECYCLE
      modifies this`dispatched
      ensures dispatched == old(dispatched) + Restored(rows)
      ensures Restores(dispatched[|old(dispatched)|..], Parsing(rows))
      ensures cursor == CursorAfter(rows, cursor0)
    {
      cursor := cursor0;
      for i := 0 to |rows|
        invariant dispatched == old(dispatched) + Restored(rows[..i])
        invariant cursor == CursorAfter(rows[..i], cursor0)
      {
        RestoredExtend(rows, i);
        if rows[i].payload.Json? {
          var _, _, _ := Dispatch(Envelope(LIFECYCLE, Restore, rows[i].payload.value, Some(rows[i].eventId)));
        }
        cursor := rows[i].eventId;
      }
      assert rows[..|rows|] == rows;
      RestoredMeans(rows);
    }

    /** `replay_since` on a table that does not change meanwhile; the queries numbered in `failing`
        fail. It handles the rows of the unpaged filter in order, page by page, up to the first
        failing query, and returns the id of the last row handled. */
    method ReplaySince(bus: EventBus, cursor0: nat, limit: nat, failing: set<nat>)
      returns (cursor: nat, ghost handled: nat, ghost failed: bool)
      requires limit >= 1 && AscendingIds(bus.table)
      modifies this`dispatched
      ensures handled == Handled(|ListSince(bus.table, cursor0, LIFECYCLE)|, limit, failing, 0)
      ensures failed <==> SomeFails(failing, 0, FullPages(|ListSince(bus.table, cursor0, LIFECYCLE)|, limit))
      ensures !failed ==> handled == |ListSince(bus.table, cursor0, LIFECYCLE)|
      ensures dispatched == old(dispatched) + Restored(ListSince(bus.table, cursor0, LIFECYCLE)[..handled])
      ensures Restores(dispatched[|old(dispatched)|..],
                       Parsing(ListSince(bus.table, cursor0, LIFECYCLE)[..handled]))
      ensures cursor == ReplayCursor(bus.table, cursor0, limit, failing)
      ensures failed ==> (cursor == cursor0 <==> 0 in failing)
    {
      ghost var log := dispatched;
      cursor, handled := ReplayPages(bus.table, cursor0, limit, failing);
      failed := ReplayFails(|ListSince(bus.table, cursor0, LIFECYCLE)|, limit, failing, 0);
      ReplayResult(bus.table, cursor0, limit, failing, handled, cursor, log, dispatched);
      RestoredMeans(ListSince(bus.table, cursor0, LIFECYCLE)[..handled]);
    }

    /** The paging loop of a replay. */
    method ReplayPages(table: seq<Row>, cursor0: nat, limit: nat, failing: set<nat>)
      returns (cursor: nat, ghost handled: nat)
      requires limit >= 1 && AscendingIds(table)
      modifies this`dispatched
      ensures Replayed(table, cursor0, limit, failing, handled, cursor, old(dispatched), dispatched)
    {
      hide ListSince, Restored, Replaying, Replayed, CursorAfter, AscendingIds, Page;
      ghost var log := dispatched;
      cursor, handled := cursor0, 0;
      ReplayStarts(table, cursor0, limit, failing, log);
      var query := 0;
      while true
        invariant Replaying(table, cursor0, limit, failing, query, handled, cursor, log, dispatched)
        decreases |ListSince(table, cursor0, LIFECYCLE)| - handled
      {
        if query in failing {
          QueryFails(table, cursor0, limit, failing, query, handled, cursor, log, dispatched);
          break;
        }
        var page := Page(table, cursor, LIFECYCLE, limit);
        QueryAnswers(table, cursor0, limit, failing, query, handled, cursor, log, dispatched);
        if page == [] {
          break;
        }
        cursor := DispatchPage(page, cursor);
        handled := handled + |page|;
        if |page| < limit {
          break;
        }
        query := query + 1;
      }
    }

    /** Without failures the whole filter is dispatched, and nothing selected is left behind. */
    method ReplayAll(bus: EventBus, cursor0: nat, limit: nat) returns (cursor: nat)
      requires limit >= 1 && AscendingIds(bus.table)
      modifies this`dispatched
      ensures dispatched == old(dispatched) + Restored(ListSince(bus.table, cursor0, LIFECYCLE))
      ensures Restores(dispatched[|old(dispatched)|..], Parsing(ListSince(bus.table, cursor0, LIFECYCLE)))
      ensures cursor == CursorAfter(ListSince(bus.table, cursor0, LIFECYCLE), cursor0)
      ensures ListSince(bus.table, cursor, LIFECYCLE) == []
    {
      ghost var handled, failed;
      cursor, handled, failed := ReplaySince(bus, cursor0, limit, {});
      ghost var rows := ListSince(bus.table, cursor0, LIFECYCLE);
      assert rows[..handled] == rows;
      if rows != [] {
        ListSinceResumes(bus.table, cursor0, LIFECYCLE, |rows|);
      }
    }
  }

  /** The first `handled` rows of the unpaged filter were dispatched and the cursor stands on the last. */
  ghost predicate ReplayedUpTo(table: seq<Row>, cursor0: nat, handled: nat, cursor: nat, log: seq<Envelope>,
                               now: seq<Envelope>) {
    var rows := ListSince(table, cursor0, LIFECYCLE);
    && handled <= |rows|
    && now == log + Restored(rows[..handled])
    && cursor == CursorAfter(rows[..handled], cursor0)
    && ListSince(table, cursor, LIFECYCLE) == rows[handled..]
  }

  /** Before query number `query`, with `handled` rows behind. */
  ghost predicate Replaying(table: seq<Row>, cursor0: nat, limit: nat, failing: set<nat>, query: nat, handled: nat,
                            cursor: nat, log: seq<Envelope>, now: seq<Envelope>)
    requires limit >= 1
  {
    var n := |ListSince(table, cursor0, LIFECYCLE)|;
    && ReplayedUpTo(table, cursor0, handled, cursor, log, now)
    && Handled(n, limit, failing, 0) == handled + Handled(n - handled, limit, failing, query)
    && ReplayFails(n, limit, failing, 0) == ReplayFails(n - handled, limit, failing, query)
  }

  /** At the end of a replay. */
  ghost predicate Replayed(table: seq<Row>, cursor0: nat, limit: nat, failing: set<nat>, handled: nat, cursor: nat,
                           log: seq<Envelope>, now: seq<Envelope>)
    requires limit >= 1
  {
    && ReplayedUpTo(table, cursor0, handled, cursor, log, now)
    && handled == Handled(|ListSince(table, cursor0, LIFECYCLE)|, limit, failing, 0)
  }

  lemma QueryFails(table: seq<Row>, cursor0: nat, limit: nat, failing: set<nat>, query: nat, handled: nat,
                   cursor: nat, log: seq<Envelope>, now: seq<Envelope>)
    requires limit >= 1 && Replaying(table, cursor0, limit, failing, query, handled, cursor, log, now)
             && query in failing
    ensures Replayed(table, cursor0, limit, failing, handled, cursor, log, now)
  {
    hide ListSince, Restored;
  }

  lemma QueryAnswers(table: seq<Row>, cursor0: nat, limit: nat, failing: set<nat>, query: nat, handled: nat,
                     cursor: nat, log: seq<Envelope>, now: seq<Envelope>)
    requires limit >= 1 && AscendingIds(table) && query !in failing
    requires Replaying(table, cursor0, limit, failing, query, handled, cursor, log, now)
    ensures var page := Page(table, cursor, LIFECYCLE, limit);
            var end, after, more := handled + |page|, CursorAfter(page, cursor), now + Restored(page);
            && (forall r :: r in page ==> r.topic == LIFECYCLE)
            && end <= |ListSince(table, cursor0, LIFECYCLE)|
            && (page == [] ==> Replayed(table, cursor0, limit, failing, handled, cursor, log, now))
            && (if |page| < limit then Replayed(table, cursor0, limit, failing, end, after, log, more)
                else Replaying(table, cursor0, limit, failing, query + 1, end, after, log, more))
  {
    hide ListSince, Restored, ReplayedUpTo, CursorAfter, Page, AscendingIds, Handled, ReplayFails;
    PageStep(table, cursor0, cursor, limit, handled, log, now);
    NextQuery(|ListSince(table, cursor0, LIFECYCLE)| - handled, limit, failing, query);
    var page := Page(table, cursor, LIFECYCLE, limit);
    if page == [] {
      NothingOnPage(cursor, now);
    }
  }

  lemma NothingOnPage(cursor: nat, now: seq<Envelope>)
    ensures CursorAfter([], cursor) == cursor && now + Restored([]) == now
  {}

  /** What one successful query decides about the rest of the replay. */
  lemma NextQuery(n: nat, limit: nat, failing: set<nat>, query: nat)
    requires limit >= 1 && query !in failing
    ensures n < limit ==> Handled(n, limit, failing, query) == n && !ReplayFails(n, limit, failing, query)
    ensures n >= limit ==>
              && Handled(n, limit, failing, query) == limit + Handled(n - limit, limit, failing, query + 1)
              && ReplayFails(n, limit, failing, query) == ReplayFails(n - limit, limit, failing, query + 1)
  {}

  lemma ReplayResult(table: seq<Row>, cursor0: nat, limit: nat, failing: set<nat>, handled: nat, cursor: nat,
                     log: seq<Envelope>, now: seq<Envelope>)
    requires limit >= 1 && AscendingIds(table)
    requires Replayed(table, cursor0, limit, failing, handled, cursor, log, now)
    ensures var rows := ListSince(table, cursor0, LIFECYCLE);
            var failed := ReplayFails(|rows|, limit, failing, 0);
            && handled == Handled(|rows|, limit, failing, 0) && now == log + Restored(rows[..handled])
            && (failed <==> SomeFails(failing, 0, FullPages(|rows|, limit)))
            && (!failed ==> handled == |rows|)
            && cursor == ReplayCursor(table, cursor0, limit, failing)
            && (failed ==> (cursor == cursor0 <==> 0 in failing))
  {
    hide ListSince, Restored, CursorAfter, Handled, ReplayFails, FullPages, SomeFails, AscendingIds;
    var rows := ListSince(table, cursor0, LIFECYCLE);
    ReplayFailsExactly(|rows|, limit, failing, 0);
    if ReplayFails(|rows|, limit, failing, 0) {
      IncomingCursorOnError(table, cursor0, limit, failing);
    } else {
      ReplayCoversAll(|rows|, limit, failing, 0);
    }
  }

  lemma ReplayStarts(table: seq<Row>, cursor0: nat, limit: nat, failing: set<nat>, log: seq<Envelope>)
    requires limit >= 1
    ensures Replaying(table, cursor0, limit, failing, 0, 0, cursor0, log, log)
  {
    var rows := ListSince(table, cursor0, LIFECYCLE);
    assert rows[..0] == [] && rows[0..] == rows && log + [] == log;
  }

  /** One page of a replay continues where the previous one ended; a short page is the last. */
  lemma PageStep(table: seq<Row>, cursor0: nat, cursor: nat, limit: nat, handled: nat, log: seq<Envelope>,
                 now: seq<Envelope>)
    requires AscendingIds(table) && limit >= 1
    requires ReplayedUpTo(table, cursor0, handled, cursor, log, now)
    ensures var page := Page(table, cursor, LIFECYCLE, limit);
            && (forall r :: r in page ==> r.topic == LIFECYCLE)
            && ReplayedUpTo(table, cursor0, handled + |page|, CursorAfter(page, cursor), log, now + Restored(page))
            && |page| <= limit
            && handled + |page| <= |ListSince(table, cursor0, LIFECYCLE)|
            && (|page| < limit ==> handled + |page| == |ListSince(table, cursor0, LIFECYCLE)|)
  {
    hide ListSince, Restored, AscendingIds;
    var rows := ListSince(table, cursor0, LIFECYCLE);
    var page := Page(table, cursor, LIFECYCLE, limit);
    var end := handled + |page|;
    TakeFrom(rows, handled, limit);
    RestoredConcat(rows[..handled], page);
    RegroupLog(log, Restored(rows[..handled]), Restored(page));
    PageTopic(table, cursor, limit);
    CursorMoves(table, cursor0, cursor, handled, page);
  }

  lemma RegroupLog<T>(a: seq<T>, b: seq<T>, c: seq<T>)
    ensures (a + b) + c == a + (b + c)
  {}

  /** Where the cursor stands when the next `page` of the selection is handled too. */
  lemma CursorMoves(table: seq<Row>, cursor0: nat, cursor: nat, handled: nat, page: seq<Row>)
    requires AscendingIds(table)
    requires var rows := ListSince(table, cursor0, LIFECYCLE);
             && handled + |page| <= |rows| && page == rows[handled..handled + |page|]
             && ListSince(table, cursor, LIFECYCLE) == rows[handled..]
             && cursor == CursorAfter(rows[..handled], cursor0)
    ensures var rows := ListSince(table, cursor0, LIFECYCLE);
            var end := handled + |page|;
            && CursorAfter(page, cursor) == CursorAfter(rows[..end], cursor0)
            && ListSince(table, CursorAfter(page, cursor), LIFECYCLE) == rows[end..]
  {
    hide ListSince, AscendingIds;
    var rows := ListSince(table, cursor0, LIFECYCLE);
    var end := handled + |page|;
    if page != [] {
      ListSinceResumes(table, cursor0, LIFECYCLE, end);
      assert page[|page| - 1] == rows[end - 1] == rows[..end][end - 1];
    } else {
      assert rows[..end] == rows[..handled];
    }
  }

  lemma TakeFrom<T>(s: seq<T>, n: nat, limit: nat)
    requires n <= |s|
    ensures var page := Take(s[n..], limit);
            var end := n + |page|;
            && end <= |s| && |page| <= limit && (|page| < limit ==> end == |s|)
            && s[..end] == s[..n] + page && page == s[n..end]
  {
    var page := Take(s[n..], limit);
    assert page == s[n..][..|page|];
  }

  lemma PageTopic(table: seq<Row>, cursor: nat, limit: nat)
    requires AscendingIds(table)
    ensures forall r :: r in Page(table, cursor, LIFECYCLE, limit) ==> r.topic == LIFECYCLE
  {
    ListSinceMeans(table, cursor, LIFECYCLE);
    forall r | r in Page(table, cursor, LIFECYCLE, limit) ensures r.topic == LIFECYCLE {
      assert r in ListSince(table, cursor, LIFECYCLE);
    }
  }
}
