/** The main results about one clustering pass. */
module FramingTheorems {
  import opened Options
  import opened Framings
  import opened FramingLaws
  import opened Orders

  // ----- The rule of one step -----------------------------------------------

  /** `i` is the nearest group in tolerance, the lowest one on a tie. */
  ghost predicate IsNearest(sky: Sky, params: ToleranceParams, groups: seq<Group>, x: Geometry, i: nat) {
    && i < |groups| && InTolerance(sky, params, groups[i], x)
    && forall j :: 0 <= j < |groups| && InTolerance(sky, params, groups[j], x) ==>
         Distance(sky, groups[i], x) <= Distance(sky, groups[j], x)
         && (Distance(sky, groups[i], x) == Distance(sky, groups[j], x) ==> i <= j)
  }

  ghost predicate NoneInTolerance(sky: Sky, params: ToleranceParams, groups: seq<Group>, x: Geometry) {
    forall j :: 0 <= j < |groups| ==> !InTolerance(sky, params, groups[j], x)
  }

  /** The declared rule: the nearest group in tolerance; failing that, the first existing framing that was
      declared empty and still is; failing that, a new group. */
  ghost predicate Rule(sky: Sky, params: ToleranceParams, groups: seq<Group>, x: Geometry, i: nat) {
    || IsNearest(sky, params, groups, x, i)
    || (NoneInTolerance(sky, params, groups, x) && i < |groups| && WaitingEmpty(groups[i])
        && forall j :: 0 <= j < i ==> !WaitingEmpty(groups[j]))
    || (NoneInTolerance(sky, params, groups, x) && i == |groups|
        && forall j :: 0 <= j < |groups| ==> !WaitingEmpty(groups[j]))
  }

  /** Each step of a partition joins exactly the group the rule names. */
  lemma StepFollowsRule(sky: Sky, params: ToleranceParams, groups: seq<Group>, x: Geometry, i: nat)
    ensures Rule(sky, params, groups, x, i) <==> i == Chosen(sky, params, groups, x)
  {
    hide InTolerance, Distance, WaitingEmpty;
    var near, waiting := Nearest(sky, params, groups, x), FirstWaiting(groups);
  }

  // ----- From sessions to candidates ----------------------------------------

  ghost predicate Yields(s: SessionGeometry, framingOf: map<EntityId, EntityId>, c: Candidate) {
    Classify(s, framingOf) == Clusterable(c.0, c.1.geometry) && c.1.sessionId == s.sessionId
  }

  ghost predicate Comes(sessions: seq<SessionGeometry>, framingOf: map<EntityId, EntityId>, c: Candidate) {
    exists s :: s in sessions && Yields(s, framingOf, c)
  }

  lemma {:induction false} CandidatesMean(sessions: seq<SessionGeometry>, framingOf: map<EntityId, EntityId>)
    ensures forall c :: c in Candidates(sessions, framingOf) <==> Comes(sessions, framingOf, c)
  {
    if sessions != [] {
      var init, last := sessions[..|sessions| - 1], sessions[|sessions| - 1];
      assert sessions == init + [last];
      CandidatesMean(init, framingOf);
      forall c ensures c in Candidates(sessions, framingOf) <==> Comes(sessions, framingOf, c) {
        if c in Candidates(sessions, framingOf) && c !in Candidates(init, framingOf) {
          assert Yields(last, framingOf, c);
        }
        if Comes(sessions, framingOf, c) && !Comes(init, framingOf, c) {
          assert Yields(last, framingOf, c);
          assert c == (c.0, Member(last.sessionId, c.1.geometry));
        }
      }
    }
  }

  lemma {:induction false} CandidatesDistinct(sessions: seq<SessionGeometry>, framingOf: map<EntityId, EntityId>)
    requires DistinctIds(sessions)
    ensures DistinctCandidates(Candidates(sessions, framingOf))
  {
    if sessions != [] {
      var init, last := sessions[..|sessions| - 1], sessions[|sessions| - 1];
      CandidatesDistinct(init, framingOf);
      CandidatesMean(init, framingOf);
      var cs := Candidates(init, framingOf);
      forall i | 0 <= i < |cs| ensures cs[i].1.sessionId != last.sessionId {
        assert cs[i] in cs;
        var s :| s in init && Yields(s, framingOf, cs[i]);
        var k :| 0 <= k < |init| && init[k] == s;
        assert sessions[k] == s;
      }
    }
  }

  lemma ByIdIsPreorder()
    ensures Preorder(ById)
  {}

  /** The sorted candidates are the candidates, each once. */
  lemma SortedMeans(sessions: seq<SessionGeometry>, framingOf: map<EntityId, EntityId>)
    ensures forall c :: c in SortedCandidates(sessions, framingOf) <==> Comes(sessions, framingOf, c)
  {
    CandidatesMean(sessions, framingOf);
    var cs, sorted := Candidates(sessions, framingOf), SortedCandidates(sessions, framingOf);
    assert multiset(cs) == multiset(sorted);
    hide Comes, Candidates, SortedCandidates;
    forall c ensures c in sorted <==> Comes(sessions, framingOf, c) {
      assert c in sorted <==> c in multiset(sorted);
      assert c in cs <==> c in multiset(cs);
    }
  }

  lemma SortedDistinct(sessions: seq<SessionGeometry>, framingOf: map<EntityId, EntityId>)
    requires DistinctIds(sessions)
    ensures DistinctCandidates(SortedCandidates(sessions, framingOf))
  {
    CandidatesDistinct(sessions, framingOf);
    hide Candidates;
    PermutedDistinct(Candidates(sessions, framingOf), SortedCandidates(sessions, framingOf));
  }

  lemma PermutedDistinct(a: seq<Candidate>, b: seq<Candidate>)
    requires DistinctCandidates(a) && multiset(a) == multiset(b)
    ensures DistinctCandidates(b)
  {
    SameElements(a, b);
    PermutationKeepsDistinct(a, b);
    forall i, j | 0 <= i < j < |b| ensures b[i].1.sessionId != b[j].1.sessionId {
      assert b[i] in a && b[j] in a;
      DistinctKeysDistinctIds(a, b[i], b[j]);
    }
  }

  // ----- Assignments decided before clustering ------------------------------

  ghost function Early(s: SessionGeometry, framingOf: map<EntityId, EntityId>): Option<Assignment> {
    match Classify(s, framingOf)
    case Known(f) => Some(JoinExisting(f))
    case Excluded(reason) => Some(Unassigned(reason))
    case Clusterable(_, _) => None
  }

  ghost predicate Decides(s: SessionGeometry, framingOf: map<EntityId, EntityId>, id: EntityId) {
    s.sessionId == id && Early(s, framingOf).Some?
  }

  lemma {:induction false} ResolvedKeys(sessions: seq<SessionGeometry>, framingOf: map<EntityId, EntityId>)
    ensures forall id :: id in Resolved(sessions, framingOf) <==> exists s :: s in sessions && Decides(s, framingOf, id)
  {
    if sessions != [] {
      var init, last := sessions[..|sessions| - 1], sessions[|sessions| - 1];
      assert sessions == init + [last];
      ResolvedKeys(init, framingOf);
      forall id ensures id in Resolved(sessions, framingOf)
        <==> exists s :: s in sessions && Decides(s, framingOf, id) {
        if id in Resolved(init, framingOf) {
          var s :| s in init && Decides(s, framingOf, id);
          assert s in sessions;
        }
        if Decides(last, framingOf, id) {
          assert last in sessions;
        }
      }
    }
  }

  lemma {:induction false} ResolvedValues(sessions: seq<SessionGeometry>, framingOf: map<EntityId, EntityId>,
                                          s: SessionGeometry)
    requires DistinctIds(sessions) && s in sessions
    ensures var m := Resolved(sessions, framingOf);
            match Early(s, framingOf)
            case Some(a) => s.sessionId in m && m[s.sessionId] == a
            case None => s.sessionId !in m
  {
    var init, last := sessions[..|sessions| - 1], sessions[|sessions| - 1];
    assert sessions == init + [last];
    if s == last {
      ResolvedKeys(init, framingOf);
      forall r | r in init ensures r.sessionId != s.sessionId {
        var k :| 0 <= k < |init| && init[k] == r;
        assert sessions[k] == r;
      }
    } else {
      ResolvedValues(init, framingOf, s);
      var k :| 0 <= k < |init| && init[k] == s;
      assert sessions[k] == s;
    }
  }

  lemma {:induction false} GeometryKeys(sessions: seq<SessionGeometry>, id: EntityId)
    ensures id in GeometryById(sessions) <==> exists s :: s in sessions && s.sessionId == id && SeedGeometry(s).Some?
  {
    if sessions != [] {
      var init, last := sessions[..|sessions| - 1], sessions[|sessions| - 1];
      assert sessions == init + [last];
      GeometryKeys(init, id);
    }
  }

  lemma {:induction false} GeometryValues(sessions: seq<SessionGeometry>, s: SessionGeometry)
    requires DistinctIds(sessions) && s in sessions
    ensures var m := GeometryById(sessions);
            match SeedGeometry(s)
            case Some(g) => s.sessionId in m && m[s.sessionId] == g
            case None => s.sessionId !in m
  {
    var init, last := sessions[..|sessions| - 1], sessions[|sessions| - 1];
    assert sessions == init + [last];
    if s == last {
      GeometryKeys(init, s.sessionId);
      forall r | r in init ensures r.sessionId != s.sessionId {
        var k :| 0 <= k < |init| && init[k] == r;
        assert sessions[k] == r;
      }
    } else {
      GeometryValues(init, s);
      var k :| 0 <= k < |init| && init[k] == s;
      assert sessions[k] == s;
    }
  }

  // ----- The whole pass -----------------------------------------------------

  lemma KeyListMeans(sorted: seq<Candidate>)
    ensures forall k :: k in KeyList(sorted) <==> k in KeysOf(sorted)
    ensures forall i, j :: 0 <= i < j < |KeyList(sorted)| ==> KeyList(sorted)[i] != KeyList(sorted)[j]
  {
    KeyOrderIsTotal();
    AscendingElements(PairLe(IdLe, StringLe), KeysOf(sorted));
  }

  lemma DerivedSettled(sky: Sky, params: ToleranceParams, existing: seq<ExistingFraming>,
                       sessions: seq<SessionGeometry>)
    requires DistinctIds(sessions)
    ensures var framingOf := FramingOf(existing);
            var sorted := SortedCandidates(sessions, framingOf);
            Settled(Derived(sky, params, existing, sessions), Resolved(sessions, framingOf), existing, sorted,
                    KeysOf(sorted))
  {
    hide PartitionSteps, KeyList, Settled, SortedCandidates, Resolved, FramingOf, Classify;
    var framingOf := FramingOf(existing);
    var sorted := SortedCandidates(sessions, framingOf);
    var base := Resolved(sessions, framingOf);
    var keys := KeyList(sorted);
    SortedDistinct(sessions, framingOf);
    KeyListMeans(sorted);
    EarlyIdsAreNotCandidates(sessions, framingOf);
    StepsSettled(InputsOf(sky, params, existing, sessions), base, sorted, keys);
    assert (set k | k in keys) == KeysOf(sorted);
  }

  lemma EarlyIdsAreNotCandidates(sessions: seq<SessionGeometry>, framingOf: map<EntityId, EntityId>)
    requires DistinctIds(sessions)
    ensures var sorted := SortedCandidates(sessions, framingOf);
            Resolved(sessions, framingOf).Keys !! IdsAt(sorted, KeysOf(sorted))
  {
    var sorted := SortedCandidates(sessions, framingOf);
    SortedMeans(sessions, framingOf);
    hide Classify, Resolved, SortedCandidates;
    forall id | id in IdsAt(sorted, KeysOf(sorted)) ensures id !in Resolved(sessions, framingOf) {
      var c :| c in sorted && c.0 in KeysOf(sorted) && c.1.sessionId == id;
      var s :| s in sessions && Yields(s, framingOf, c);
      ResolvedValues(sessions, framingOf, s);
    }
  }

  // ----- Who is assigned where ----------------------------------------------

  /** A session is assigned to new framing `i` exactly when that framing lists it; the framing then has
      the session's own target and optic train. */
  lemma NewFramingListsItsSessions(sky: Sky, params: ToleranceParams, existing: seq<ExistingFraming>,
                                   sessions: seq<SessionGeometry>, s: SessionGeometry, i: nat)
    requires DistinctIds(sessions) && s in sessions
    ensures var t := Derived(sky, params, existing, sessions);
            && s.sessionId in t.resolved
            && (t.resolved[s.sessionId] == NewFraming(i)
                <==> i < |t.newFramings| && s.sessionId in t.newFramings[i].sessionIds)
            && (i < |t.newFramings| && s.sessionId in t.newFramings[i].sessionIds ==>
                  s.targetId == Some(t.newFramings[i].targetId)
                    && s.opticTrainKey == Some(t.newFramings[i].opticTrainKey))
  {
    hide Derived, SortedCandidates, Resolved, FramingOf, IsCandidate, Early, Comes;
    var framingOf := FramingOf(existing);
    var sorted := SortedCandidates(sessions, framingOf);
    var t := Derived(sky, params, existing, sessions);
    var id := s.sessionId;
    DerivedSettled(sky, params, existing, sessions);
    ResolvedValues(sessions, framingOf, s);
    SessionIsCandidateOrEarly(sessions, framingOf, s);
    if i < |t.newFramings| && id in t.newFramings[i].sessionIds {
      var key := KeyOf(t.newFramings[i]);
      assert Shown(t, key, id, i) && Claims(sorted, KeysOf(sorted), key, id);
      var c :| c in sorted && c.1.sessionId == id && c.0 == key;
      CandidateOfSession(sessions, framingOf, s, c);
    }
  }

  lemma SessionIsCandidateOrEarly(sessions: seq<SessionGeometry>, framingOf: map<EntityId, EntityId>,
                                  s: SessionGeometry)
    requires s in sessions
    ensures match Classify(s, framingOf)
            case Clusterable(key, g) => (key, Member(s.sessionId, g)) in SortedCandidates(sessions, framingOf)
              && Early(s, framingOf).None?
            case Known(f) => Early(s, framingOf) == Some(JoinExisting(f))
            case Excluded(r) => Early(s, framingOf) == Some(Unassigned(r))
  {
    SortedMeans(sessions, framingOf);
    hide SortedCandidates;
    match Classify(s, framingOf)
    case Clusterable(key, g) =>
      assert Yields(s, framingOf, (key, Member(s.sessionId, g)));
      assert Comes(sessions, framingOf, (key, Member(s.sessionId, g)));
    case _ =>
  }

  /** With distinct ids, a candidate with a session's id is that session's. */
  lemma CandidateOfSession(sessions: seq<SessionGeometry>, framingOf: map<EntityId, EntityId>, s: SessionGeometry,
                           c: Candidate)
    requires DistinctIds(sessions) && s in sessions
    requires c in SortedCandidates(sessions, framingOf) && c.1.sessionId == s.sessionId
    ensures Yields(s, framingOf, c)
    ensures s.targetId == Some(c.0.0) && s.opticTrainKey == Some(c.0.1)
    ensures SeedGeometry(s) == Some(c.1.geometry)
  {
    SortedMeans(sessions, framingOf);
    hide SortedCandidates;
    var r :| r in sessions && Yields(r, framingOf, c);
    var i :| 0 <= i < |sessions| && sessions[i] == s;
    var j :| 0 <= j < |sessions| && sessions[j] == r;
    assert i == j;
  }

  /** New framings are never empty and list input sessions only. */
  lemma NewFramingsAreInhabited(sky: Sky, params: ToleranceParams, existing: seq<ExistingFraming>,
                                sessions: seq<SessionGeometry>, i: nat)
    requires DistinctIds(sessions) && i < |Derived(sky, params, existing, sessions).newFramings|
    ensures var ids := Derived(sky, params, existing, sessions).newFramings[i].sessionIds;
            && ids != []
            && forall id :: id in ids ==> exists s :: s in sessions && s.sessionId == id
  {
    hide Derived, SortedCandidates, Resolved, FramingOf, Classify;
    var framingOf := FramingOf(existing);
    var sorted := SortedCandidates(sessions, framingOf);
    var t := Derived(sky, params, existing, sessions);
    DerivedSettled(sky, params, existing, sessions);
    SortedMeans(sessions, framingOf);
    forall id | id in t.newFramings[i].sessionIds ensures exists s :: s in sessions && s.sessionId == id {
      var key := KeyOf(t.newFramings[i]);
      assert Claims(sorted, KeysOf(sorted), key, id);
      var c :| c in sorted && c.1.sessionId == id && c.0 == key;
      var s :| s in sessions && Yields(s, framingOf, c);
    }
  }

  // ----- Protected membership -----------------------------------------------

  ghost predicate DistinctFramings(existing: seq<ExistingFraming>) {
    forall i, j :: 0 <= i < j < |existing| ==> existing[i].id != existing[j].id
  }

  ghost predicate DisjointMembers(existing: seq<ExistingFraming>) {
    forall i, j, id :: 0 <= i < j < |existing| && id in existing[i].memberSessionIds ==>
        id !in existing[j].memberSessionIds
  }

  lemma {:induction false} MembersOfMeans(framing: EntityId, ids: seq<EntityId>, m: map<EntityId, EntityId>,
                                          id: EntityId)
    ensures var r := MembersOf(framing, ids, m);
            if id in ids then id in r && r[id] == framing
            else (id in r <==> id in m) && (id in m ==> r[id] == m[id])
  {
    if ids != [] {
      assert ids == ids[..|ids| - 1] + [ids[|ids| - 1]];
      MembersOfMeans(framing, ids[..|ids| - 1], m, id);
    }
  }

  /** A declared member maps to a framing that declares it. */
  lemma {:induction false} FramingOfDeclared(existing: seq<ExistingFraming>, id: EntityId)
    ensures id in FramingOf(existing) <==> exists f :: f in existing && id in f.memberSessionIds
    ensures id in FramingOf(existing) ==>
              exists f :: f in existing && id in f.memberSessionIds && FramingOf(existing)[id] == f.id
  {
    if existing != [] {
      var init, last := existing[..|existing| - 1], existing[|existing| - 1];
      assert existing == init + [last];
      FramingOfDeclared(init, id);
      MembersOfMeans(last.id, last.memberSessionIds, FramingOf(init), id);
      if id in last.memberSessionIds {
        assert last in existing && FramingOf(existing)[id] == last.id;
      } else if id in FramingOf(init) {
        var f :| f in init && id in f.memberSessionIds && FramingOf(init)[id] == f.id;
        assert f in existing;
      }
    }
  }

  lemma DeclaredOnce(existing: seq<ExistingFraming>, f: ExistingFraming, id: EntityId)
    requires DisjointMembers(existing) && f in existing && id in f.memberSessionIds
    ensures id in FramingOf(existing) && FramingOf(existing)[id] == f.id
  {
    FramingOfDeclared(existing, id);
    var g :| g in existing && id in g.memberSessionIds && FramingOf(existing)[id] == g.id;
    var i :| 0 <= i < |existing| && existing[i] == f;
    var j :| 0 <= j < |existing| && existing[j] == g;
    assert i == j;
  }

  /** The input sessions joined to a user-adjusted framing are exactly those its membership claims:
      a pass neither adds to it nor drains it. */
  lemma UserAdjustedMembershipIsKept(sky: Sky, params: ToleranceParams, existing: seq<ExistingFraming>,
                                     sessions: seq<SessionGeometry>, s: SessionGeometry, f: ExistingFraming)
    requires DistinctIds(sessions) && s in sessions
    requires DistinctFramings(existing) && DisjointMembers(existing)
    requires f in existing && f.clustering == UserAdjusted
    ensures var t := Derived(sky, params, existing, sessions);
            s.sessionId in t.resolved
            && (t.resolved[s.sessionId] == JoinExisting(f.id) <==> s.sessionId in f.memberSessionIds)
  {
    hide Derived, SortedCandidates, Resolved, FramingOf;
    var framingOf := FramingOf(existing);
    var sorted := SortedCandidates(sessions, framingOf);
    var t := Derived(sky, params, existing, sessions);
    var id := s.sessionId;
    DerivedSettled(sky, params, existing, sessions);
    ResolvedValues(sessions, framingOf, s);
    SessionIsCandidateOrEarly(sessions, framingOf, s);
    FramingOfDeclared(existing, id);
    if id in f.memberSessionIds {
      DeclaredOnce(existing, f, id);
    } else if id in framingOf {
      var g :| g in existing && id in g.memberSessionIds && framingOf[id] == g.id;
      SameFraming(existing, f, g);
    } else if Early(s, framingOf).None? {
      ClusteredIsNotUserAdjusted(t, existing, sessions, s, f);
    }
  }

  ghost predicate AllDeclared(existing: seq<ExistingFraming>, sessions: seq<SessionGeometry>) {
    forall s :: s in sessions ==> exists f :: f in existing && s.sessionId in f.memberSessionIds
  }

  /** Deriving again once every session is a declared member moves nothing: no new framing opens, and each
      session joins the framing that declares it. */
  lemma DerivingAgainMovesNothing(sky: Sky, params: ToleranceParams, existing: seq<ExistingFraming>,
                                  sessions: seq<SessionGeometry>)
    requires AllDeclared(existing, sessions)
    ensures var t := Derived(sky, params, existing, sessions);
            && t.newFramings == []
            && forall s :: s in sessions ==>
                 && s.sessionId in t.resolved
                 && exists f :: f in existing && s.sessionId in f.memberSessionIds
                      && t.resolved[s.sessionId] == JoinExisting(f.id)
  {
    hide Resolved, SortedCandidates, FramingOf, GeometryById;
    var framingOf := FramingOf(existing);
    var sorted := SortedCandidates(sessions, framingOf);
    forall s | s in sessions ensures s.sessionId in framingOf {
      FramingOfDeclared(existing, s.sessionId);
    }
    NoCandidates(sessions, framingOf);
    KeyListMeans(sorted);
    var t := Derived(sky, params, existing, sessions);
    assert t == Totals([], Resolved(sessions, framingOf));
    forall s | s in sessions
      ensures s.sessionId in t.resolved
      ensures exists f :: f in existing && s.sessionId in f.memberSessionIds
                && t.resolved[s.sessionId] == JoinExisting(f.id)
    {
      FramingOfDeclared(existing, s.sessionId);
      DeclaredResolves(sessions, framingOf, s.sessionId);
    }
  }

  lemma NoCandidates(sessions: seq<SessionGeometry>, framingOf: map<EntityId, EntityId>)
    requires forall s :: s in sessions ==> s.sessionId in framingOf
    ensures SortedCandidates(sessions, framingOf) == []
  {
    NothingClusterable(sessions, framingOf);
  }

  lemma {:induction false} NothingClusterable(sessions: seq<SessionGeometry>, framingOf: map<EntityId, EntityId>)
    requires forall s :: s in sessions ==> s.sessionId in framingOf
    ensures Candidates(sessions, framingOf) == []
  {
    if sessions != [] {
      assert sessions[|sessions| - 1] in sessions;
      assert forall s :: s in sessions[..|sessions| - 1] ==> s in sessions;
      NothingClusterable(sessions[..|sessions| - 1], framingOf);
    }
  }

  lemma {:induction false} DeclaredResolves(sessions: seq<SessionGeometry>, framingOf: map<EntityId, EntityId>,
                                            id: EntityId)
    requires id in framingOf && exists s :: s in sessions && s.sessionId == id
    ensures id in Resolved(sessions, framingOf) && Resolved(sessions, framingOf)[id] == JoinExisting(framingOf[id])
  {
    var init, last := sessions[..|sessions| - 1], sessions[|sessions| - 1];
    assert sessions == init + [last];
    if last.sessionId != id {
      var s :| s in sessions && s.sessionId == id;
      assert s in init;
      DeclaredResolves(init, framingOf, id);
    }
  }

  lemma SameFraming(existing: seq<ExistingFraming>, f: ExistingFraming, g: ExistingFraming)
    requires DistinctFramings(existing) && f in existing && g in existing
    ensures f.id == g.id ==> f == g
  {}

  lemma ClusteredIsNotUserAdjusted(t: Totals, existing: seq<ExistingFraming>, sessions: seq<SessionGeometry>,
                                   s: SessionGeometry, f: ExistingFraming)
    requires DistinctFramings(existing) && f in existing && f.clustering == UserAdjusted
    requires var framingOf := FramingOf(existing);
             var sorted := SortedCandidates(sessions, framingOf);
             Settled(t, Resolved(sessions, framingOf), existing, sorted, KeysOf(sorted))
             && exists c :: c in sorted && c.1.sessionId == s.sessionId
    ensures s.sessionId in t.resolved && t.resolved[s.sessionId] != JoinExisting(f.id)
  {
    hide SortedCandidates, Resolved, FramingOf;
    var framingOf := FramingOf(existing);
    var sorted := SortedCandidates(sessions, framingOf);
    var c :| c in sorted && c.1.sessionId == s.sessionId;
    assert Clustered(t, existing, c);
    if JoinsCandidate(t, existing, c.0, s.sessionId) {
      var g :| g in existing && IsCandidate(g, c.0) && t.resolved[s.sessionId] == JoinExisting(g.id);
      SameFraming(existing, f, g);
    }
  }

  // ----- Input order does not matter ----------------------------------------

  lemma PermutedSessions(a: seq<SessionGeometry>, b: seq<SessionGeometry>)
    requires DistinctIds(a) && multiset(a) == multiset(b)
    ensures DistinctIds(b)
    ensures forall s :: s in a <==> s in b
  {
    SameElements(a, b);
    PermutationKeepsDistinct(a, b);
    forall i, j | 0 <= i < j < |b| ensures b[i].sessionId != b[j].sessionId {
      assert b[i] in a && b[j] in a;
      var k :| 0 <= k < |a| && a[k] == b[i];
      var l :| 0 <= l < |a| && a[l] == b[j];
    }
  }

  lemma SameResolved(a: seq<SessionGeometry>, b: seq<SessionGeometry>, framingOf: map<EntityId, EntityId>)
    requires DistinctIds(a) && DistinctIds(b) && forall s :: s in a <==> s in b
    ensures Resolved(a, framingOf) == Resolved(b, framingOf)
  {
    var ra, rb := Resolved(a, framingOf), Resolved(b, framingOf);
    ResolvedKeys(a, framingOf);
    ResolvedKeys(b, framingOf);
    forall id ensures id in ra <==> id in rb {
      assert (exists s :: s in a && Decides(s, framingOf, id)) <==> (exists s :: s in b && Decides(s, framingOf, id));
    }
    forall id | id in ra ensures ra[id] == rb[id] {
      var s :| s in a && Decides(s, framingOf, id);
      ResolvedValues(a, framingOf, s);
      ResolvedValues(b, framingOf, s);
    }
  }

  lemma SameGeometry(a: seq<SessionGeometry>, b: seq<SessionGeometry>)
    requires DistinctIds(a) && DistinctIds(b) && forall s :: s in a <==> s in b
    ensures GeometryById(a) == GeometryById(b)
  {
    var ga, gb := GeometryById(a), GeometryById(b);
    forall id ensures id in ga <==> id in gb {
      GeometryKeys(a, id);
      GeometryKeys(b, id);
    }
    forall id | id in ga ensures ga[id] == gb[id] {
      GeometryKeys(a, id);
      var s :| s in a && s.sessionId == id && SeedGeometry(s).Some?;
      GeometryValues(a, s);
      GeometryValues(b, s);
    }
  }

  lemma SameSorted(a: seq<SessionGeometry>, b: seq<SessionGeometry>, framingOf: map<EntityId, EntityId>)
    requires DistinctIds(a) && DistinctIds(b) && forall s :: s in a <==> s in b
    ensures SortedCandidates(a, framingOf) == SortedCandidates(b, framingOf)
  {
    var ca, cb := Candidates(a, framingOf), Candidates(b, framingOf);
    CandidatesMean(a, framingOf);
    CandidatesMean(b, framingOf);
    CandidatesDistinct(a, framingOf);
    CandidatesDistinct(b, framingOf);
    forall c ensures c in ca <==> c in cb {
      assert Comes(a, framingOf, c) <==> Comes(b, framingOf, c);
    }
    SameSetPermutation(ca, cb);
    ByIdIsPreorder();
    SortPermutation(ById, ca, cb);
  }

  /** For any permutation of sessions with distinct ids, the new framings and every session's
      assignment are the same. */
  lemma InputOrderDoesNotMatter(sky: Sky, params: ToleranceParams, existing: seq<ExistingFraming>,
                                a: seq<SessionGeometry>, b: seq<SessionGeometry>)
    requires DistinctIds(a) && multiset(a) == multiset(b)
    ensures Derived(sky, params, existing, a) == Derived(sky, params, existing, b)
  {
    hide Resolved, SortedCandidates, GeometryById, PartitionSteps, KeyList;
    PermutedSessions(a, b);
    SameResolved(a, b, FramingOf(existing));
    SameGeometry(a, b);
    SameSorted(a, b, FramingOf(existing));
  }

  // ----- Every session is resolved ------------------------------------------

  lemma {:induction false} MembersKeep(sky: Sky, params: ToleranceParams, cc: nat, offset: nat, p: Progress,
                                       ms: seq<Member>)
    requires NewGroupsLast(p.groups, cc)
    ensures p.resolved.Keys <= StepMembers(sky, params, cc, offset, p, ms).resolved.Keys
    ensures forall m :: m in ms ==> m.sessionId in StepMembers(sky, params, cc, offset, p, ms).resolved
  {
    if ms != [] {
      hide Chosen, Opened;
      assert ms == ms[..|ms| - 1] + [ms[|ms| - 1]];
      MembersKeep(sky, params, cc, offset, p, ms[..|ms| - 1]);
    }
  }

  lemma PartitionKeeps(inputs: Inputs, key: PartitionKey, ms: seq<Member>, t: Totals)
    ensures t.resolved.Keys <= PartitionStep(inputs, key, ms, t).resolved.Keys
    ensures forall m :: m in ms ==> m.sessionId in PartitionStep(inputs, key, ms, t).resolved
  {
    hide StepMembers, CandidatesFor, SeededGroups;
    var candidates := CandidatesFor(inputs.existing, key);
    MembersKeep(inputs.sky, inputs.params, |candidates|, |t.newFramings|,
                Progress(SeededGroups(candidates, inputs.geometry), t.resolved), ms);
  }

  lemma {:induction false} MembersAtCovers(sorted: seq<Candidate>, c: Candidate)
    requires c in sorted
    ensures c.1 in MembersAt(sorted, c.0)
  {
    var init, last := sorted[..|sorted| - 1], sorted[|sorted| - 1];
    assert sorted == init + [last];
    if c in init {
      MembersAtCovers(init, c);
    }
  }

  lemma {:induction false} PartitionsKeep(inputs: Inputs, sorted: seq<Candidate>, keys: seq<PartitionKey>, t: Totals)
    ensures t.resolved.Keys <= PartitionSteps(inputs, sorted, keys, t).resolved.Keys
    ensures forall c :: c in sorted && c.0 in keys ==> c.1.sessionId in PartitionSteps(inputs, sorted, keys, t).resolved
  {
    hide PartitionStep, MembersAt;
    if keys != [] {
      var init, last := keys[..|keys| - 1], keys[|keys| - 1];
      assert keys == init + [last];
      PartitionsKeep(inputs, sorted, init, t);
      PartitionKeeps(inputs, last, MembersAt(sorted, last), PartitionSteps(inputs, sorted, init, t));
      forall c | c in sorted && c.0 in keys ensures c.1.sessionId in PartitionSteps(inputs, sorted, keys, t).resolved {
        if c.0 == last {
          MembersAtCovers(sorted, c);
        }
      }
    }
  }

  /** Every input session has an assignment, whatever the ids: the lookup at the end can only fail for
      an id that was already taken out. */
  lemma EverySessionIsResolved(sky: Sky, params: ToleranceParams, existing: seq<ExistingFraming>,
                               sessions: seq<SessionGeometry>, s: SessionGeometry)
    requires s in sessions
    ensures s.sessionId in Derived(sky, params, existing, sessions).resolved
  {
    hide PartitionSteps, KeyList, SortedCandidates, Resolved, FramingOf, Classify;
    var framingOf := FramingOf(existing);
    var sorted := SortedCandidates(sessions, framingOf);
    SessionIsCandidateOrEarly(sessions, framingOf, s);
    KeyListMeans(sorted);
    ResolvedKeys(sessions, framingOf);
    PartitionsKeep(InputsOf(sky, params, existing, sessions), sorted, KeyList(sorted),
                   Totals([], Resolved(sessions, framingOf)));
    if Early(s, framingOf).Some? {
      assert Decides(s, framingOf, s.sessionId);
    }
  }

  // ----- Representatives are exact ------------------------------------------

  ghost predicate Covered(ids: seq<EntityId>, geometry: map<EntityId, Geometry>) {
    forall i :: 0 <= i < |ids| ==> ids[i] in geometry
  }

  ghost function Ras(ids: seq<EntityId>, geometry: map<EntityId, Geometry>): seq<real>
    requires Covered(ids, geometry)
  {
    seq(|ids|, i requires 0 <= i < |ids| => geometry[ids[i]].pointing.ra)
  }

  ghost function Rotations(ids: seq<EntityId>, geometry: map<EntityId, Geometry>): seq<real>
    requires Covered(ids, geometry)
  {
    seq(|ids|, i requires 0 <= i < |ids| => geometry[ids[i]].rotation)
  }

  ghost function SumDec(ids: seq<EntityId>, geometry: map<EntityId, Geometry>): real
    requires Covered(ids, geometry)
  {
    if ids == [] then 0.0
    else SumDec(ids[..|ids| - 1], geometry) + geometry[ids[|ids| - 1]].pointing.dec
  }

  /** The running sums of a group are the sums over its listed sessions. */
  ghost predicate Exact(g: Group, geometry: map<EntityId, Geometry>) {
    && Covered(g.sessionIds, geometry)
    && g.count == |g.sessionIds|
    && g.ras == Ras(g.sessionIds, geometry)
    && g.rotations == Rotations(g.sessionIds, geometry)
    && g.sumDec == SumDec(g.sessionIds, geometry)
    && (g.sessionIds != [] ==> g.seedUsedFallback == geometry[g.sessionIds[0]].fov.None?)
  }

  lemma PushedExact(g: Group, geometry: map<EntityId, Geometry>, m: Member)
    requires Exact(g, geometry) && m.sessionId in geometry && geometry[m.sessionId] == m.geometry
    ensures Exact(Pushed(g, m), geometry)
  {
    var ids := g.sessionIds + [m.sessionId];
    assert ids[..|ids| - 1] == g.sessionIds;
  }

  lemma {:induction false} SeedExact(g: Group, ids: seq<EntityId>, geometry: map<EntityId, Geometry>)
    requires Exact(g, geometry)
    ensures Exact(PushedAll(g, SeedMembers(ids, geometry)), geometry)
  {
    hide Exact, Pushed;
    if ids != [] {
      var init, last := ids[..|ids| - 1], ids[|ids| - 1];
      SeedExact(g, init, geometry);
      var ms := SeedMembers(init, geometry);
      if last in geometry {
        var m := Member(last, geometry[last]);
        PushedExact(PushedAll(g, ms), geometry, m);
        assert (ms + [m])[..|ms|] == ms;
      } else {
        assert ms + [] == ms;
      }
    }
  }

  ghost predicate AllExact(groups: seq<Group>, geometry: map<EntityId, Geometry>) {
    forall i :: 0 <= i < |groups| ==> Exact(groups[i], geometry)
  }

  lemma EmptyExact(existingId: Option<EntityId>, declaredEmpty: bool, geometry: map<EntityId, Geometry>)
    ensures Exact(EmptyGroup(existingId, declaredEmpty), geometry)
  {}

  lemma SeededExact(candidates: seq<ExistingFraming>, geometry: map<EntityId, Geometry>)
    ensures AllExact(SeededGroups(candidates, geometry), geometry)
  {
    hide Exact;
    forall i | 0 <= i < |candidates| ensures Exact(Seeded(candidates[i], geometry), geometry) {
      var start := EmptyGroup(Some(candidates[i].id), candidates[i].memberSessionIds == []);
      EmptyExact(start.existingId, start.declaredEmpty, geometry);
      SeedExact(start, candidates[i].memberSessionIds, geometry);
    }
  }

  lemma StepExact(sky: Sky, params: ToleranceParams, cc: nat, offset: nat, p: Progress,
                  geometry: map<EntityId, Geometry>, m: Member)
    requires NewGroupsLast(p.groups, cc)
    requires AllExact(p.groups, geometry) && m.sessionId in geometry && geometry[m.sessionId] == m.geometry
    ensures AllExact(StepMember(sky, params, cc, offset, p, m).groups, geometry)
  {
    hide Exact, Pushed, Chosen;
    var groups := Opened(sky, params, p.groups, m.geometry);
    EmptyExact(None, false, geometry);
    var i := Chosen(sky, params, p.groups, m.geometry);
    PushedExact(groups[i], geometry, m);
  }

  ghost predicate FromGeometry(ms: seq<Member>, geometry: map<EntityId, Geometry>) {
    forall m :: m in ms ==> m.sessionId in geometry && geometry[m.sessionId] == m.geometry
  }

  lemma {:induction false} StepsExact(sky: Sky, params: ToleranceParams, cc: nat, offset: nat, p: Progress,
                                      geometry: map<EntityId, Geometry>, ms: seq<Member>)
    requires NewGroupsLast(p.groups, cc)
    requires AllExact(p.groups, geometry) && FromGeometry(ms, geometry)
    ensures AllExact(StepMembers(sky, params, cc, offset, p, ms).groups, geometry)
  {
    hide AllExact, StepMember;
    if ms != [] {
      StepsExact(sky, params, cc, offset, p, geometry, ms[..|ms| - 1]);
      StepExact(sky, params, cc, offset, StepMembers(sky, params, cc, offset, p, ms[..|ms| - 1]), geometry,
                ms[|ms| - 1]);
    }
  }

  /** A new framing is what one would compute from scratch over the sessions it lists: circular means of
      their right ascensions and rotations, arithmetic mean of their declinations, and the tolerance
      kind of the first of them. */
  ghost predicate Batch(sky: Sky, params: ToleranceParams, geometry: map<EntityId, Geometry>, f: NewFramingGroup) {
    var ids := f.sessionIds;
    && ids != []
    && Covered(ids, geometry)
    && f.representative == Pointing(sky.circularMean(Ras(ids, geometry)), SumDec(ids, geometry) / (|ids| as real))
    && f.representativeRotation == sky.axialMean(Rotations(ids, geometry))
    && f.toleranceIsFallback == geometry[ids[0]].fov.None?
    && f.pointingTolerance == (if f.toleranceIsFallback then params.pointingFallback else params.pointingFractionOfFov)
    && f.rotationTolerance == params.rotationTolerance
  }

  lemma ExactEmitsBatch(sky: Sky, params: ToleranceParams, key: PartitionKey, geometry: map<EntityId, Geometry>,
                        g: Group)
    requires Exact(g, geometry) && g.sessionIds != []
    ensures Batch(sky, params, geometry, Emitted(sky, params, key, g))
  {}

  lemma PartitionBatch(inputs: Inputs, key: PartitionKey, ms: seq<Member>, t: Totals, i: nat)
    requires FromGeometry(ms, inputs.geometry)
    requires |t.newFramings| <= i < |PartitionStep(inputs, key, ms, t).newFramings|
    requires PartitionStep(inputs, key, ms, t).newFramings[i].sessionIds != []
    ensures Batch(inputs.sky, inputs.params, inputs.geometry, PartitionStep(inputs, key, ms, t).newFramings[i])
  {
    hide Exact, PartitionStep, SeededGroups, StepMembers, CandidatesFor, Batch;
    var candidates := CandidatesFor(inputs.existing, key);
    var p := Progress(SeededGroups(candidates, inputs.geometry), t.resolved);
    SeededExact(candidates, inputs.geometry);
    StepsExact(inputs.sky, inputs.params, |candidates|, |t.newFramings|, p, inputs.geometry, ms);
    var at := NewGroupAt(inputs, key, ms, t, i);
    ExactEmitsBatch(inputs.sky, inputs.params, key, inputs.geometry, PartitionRun(inputs, key, ms, t).groups[at]);
  }

  ghost predicate AllBatch(inputs: Inputs, t: Totals) {
    forall i :: 0 <= i < |t.newFramings| && t.newFramings[i].sessionIds != [] ==>
      Batch(inputs.sky, inputs.params, inputs.geometry, t.newFramings[i])
  }

  lemma {:induction false} PartitionsBatch(inputs: Inputs, sorted: seq<Candidate>, keys: seq<PartitionKey>, t: Totals)
    requires AllBatch(inputs, t) && DistinctCandidates(sorted)
    requires forall c :: c in sorted ==>
               c.1.sessionId in inputs.geometry && inputs.geometry[c.1.sessionId] == c.1.geometry
    ensures AllBatch(inputs, PartitionSteps(inputs, sorted, keys, t))
  {
    hide Batch, PartitionStep, MembersAt;
    if keys != [] {
      var key := keys[|keys| - 1];
      var before := PartitionSteps(inputs, sorted, keys[..|keys| - 1], t);
      var ms := MembersAt(sorted, key);
      PartitionsBatch(inputs, sorted, keys[..|keys| - 1], t);
      MembersAtMeans(sorted, key);
      StepResolved(inputs, key, ms, before);
      var after := PartitionStep(inputs, key, ms, before);
      forall i | |before.newFramings| <= i < |after.newFramings| && after.newFramings[i].sessionIds != []
        ensures Batch(inputs.sky, inputs.params, inputs.geometry, after.newFramings[i])
      {
        PartitionBatch(inputs, key, ms, before, i);
      }
    }
  }

  /** Every emitted framing equals the batch computation over its sessions' own geometry. */
  lemma RepresentativesAreExact(sky: Sky, params: ToleranceParams, existing: seq<ExistingFraming>,
                                sessions: seq<SessionGeometry>, i: nat)
    requires DistinctIds(sessions) && i < |Derived(sky, params, existing, sessions).newFramings|
    ensures Batch(sky, params, GeometryById(sessions), Derived(sky, params, existing, sessions).newFramings[i])
  {
    hide Batch, PartitionSteps, KeyList, SortedCandidates, Resolved, FramingOf, GeometryById;
    var framingOf := FramingOf(existing);
    var sorted := SortedCandidates(sessions, framingOf);
    var inputs := InputsOf(sky, params, existing, sessions);
    SortedDistinct(sessions, framingOf);
    forall c | c in sorted ensures c.1.sessionId in inputs.geometry && inputs.geometry[c.1.sessionId] == c.1.geometry {
      SortedMeans(sessions, framingOf);
      assert Comes(sessions, framingOf, c);
      var s :| s in sessions && Yields(s, framingOf, c);
      CandidateOfSession(sessions, framingOf, s, c);
      GeometryValues(sessions, s);
    }
    PartitionsBatch(inputs, sorted, KeyList(sorted), Totals([], Resolved(sessions, framingOf)));
    NewFramingsAreInhabited(sky, params, existing, sessions, i);
  }
}
