/** What clustering promises about a whole pass. */
module FramingLaws {
  import opened Options
  import opened Framings

  // ----- One partition ------------------------------------------------------

  ghost function Ids(ms: seq<Member>): set<EntityId> {
    set m | m in ms :: m.sessionId
  }

  ghost predicate DistinctMembers(ms: seq<Member>) {
    forall i, j :: 0 <= i < j < |ms| ==> ms[i].sessionId != ms[j].sessionId
  }

  /** The candidates' groups come first and keep their framing; all others are new. */
  ghost predicate Layout(groups: seq<Group>, candidates: seq<ExistingFraming>) {
    && |groups| >= |candidates|
    && (forall i :: 0 <= i < |candidates| ==> groups[i].existingId == Some(candidates[i].id))
    && (forall i :: |candidates| <= i < |groups| ==> groups[i].existingId == None)
  }

  /** The assignments of a partition's members, as the groups show them. */
  ghost predicate Placed(p: Progress, candidates: seq<ExistingFraming>, offset: nat, base: map<EntityId, Assignment>,
                         ids: set<EntityId>) {
    var cc := |candidates|;
    && Layout(p.groups, candidates)
    && p.resolved.Keys == base.Keys + ids
    && (forall id :: id in base && id !in ids ==> p.resolved[id] == base[id])
    && (forall id :: id in ids ==> InSomeGroup(p, cc, offset, id))
    && (forall i, id :: cc <= i < |p.groups| && id in p.groups[i].sessionIds ==>
          id in ids && p.resolved[id] == NewFraming(offset + i - cc))
    && (forall i :: cc <= i < |p.groups| ==> p.groups[i].sessionIds != [])
  }

  ghost predicate InSomeGroup(p: Progress, cc: nat, offset: nat, id: EntityId)
    requires id in p.resolved && NewGroupsLast(p.groups, cc)
  {
    exists i :: InGroup(p, cc, offset, id, i)
  }

  ghost predicate InGroup(p: Progress, cc: nat, offset: nat, id: EntityId, i: nat)
    requires id in p.resolved && NewGroupsLast(p.groups, cc)
  {
    i < |p.groups| && id in p.groups[i].sessionIds && p.resolved[id] == AssignmentAt(p.groups[i], i, cc, offset)
  }

  lemma StepShape(sky: Sky, params: ToleranceParams, cc: nat, offset: nat, p: Progress, m: Member)
    requires NewGroupsLast(p.groups, cc)
    ensures var q := StepMember(sky, params, cc, offset, p, m);
            var i := Chosen(sky, params, p.groups, m.geometry);
            && i < |q.groups|
            && |q.groups| == (if i < |p.groups| then |p.groups| else |p.groups| + 1)
            && i <= |p.groups|
            && q.groups[i].sessionIds == (if i < |p.groups| then p.groups[i].sessionIds else []) + [m.sessionId]
            && q.groups[i].existingId == (if i < |p.groups| then p.groups[i].existingId else None)
            && (forall k :: 0 <= k < |q.groups| && k != i ==> k < |p.groups| && q.groups[k] == p.groups[k])
            && q.resolved == p.resolved[m.sessionId := AssignmentAt(q.groups[i], i, cc, offset)]
  {}

  /** Whatever the ids, the group that any member of a partition joins is either a candidate's or stands
      behind all candidates, so the index of a new framing never goes below zero. */
  lemma NewFramingIndexIsSafe(inputs: Inputs, key: PartitionKey, ms: seq<Member>, t: Totals, k: nat)
    requires k < |ms|
    ensures var groups := PartitionRun(inputs, key, ms[..k], t).groups;
            var i := Chosen(inputs.sky, inputs.params, groups, ms[k].geometry);
            var grown := Opened(inputs.sky, inputs.params, groups, ms[k].geometry);
            && (grown[i].existingId.None? ==> |CandidatesFor(inputs.existing, key)| <= i)
            && (grown[i].existingId.Some? ==>
                  exists f :: f in CandidatesFor(inputs.existing, key) && grown[i].existingId == Some(f.id))
  {
    hide PartitionRun, CandidatesFor, Chosen;
    RunLayout(inputs, key, ms[..k], t);
    var candidates := CandidatesFor(inputs.existing, key);
    var groups := PartitionRun(inputs, key, ms[..k], t).groups;
    var i := Chosen(inputs.sky, inputs.params, groups, ms[k].geometry);
    if i < |candidates| {
      assert candidates[i] in candidates;
    }
  }

  lemma RunLayout(inputs: Inputs, key: PartitionKey, ms: seq<Member>, t: Totals)
    ensures Layout(PartitionRun(inputs, key, ms, t).groups, CandidatesFor(inputs.existing, key))
  {
    hide StepMembers, CandidatesFor;
    var candidates := CandidatesFor(inputs.existing, key);
    StepsLayout(inputs.sky, inputs.params, candidates, |t.newFramings|,
                Progress(SeededGroups(candidates, inputs.geometry), t.resolved), ms);
  }

  lemma {:induction false} StepsLayout(sky: Sky, params: ToleranceParams, candidates: seq<ExistingFraming>,
                                       offset: nat, p: Progress, ms: seq<Member>)
    requires Layout(p.groups, candidates)
    ensures Layout(StepMembers(sky, params, |candidates|, offset, p, ms).groups, candidates)
  {
    if ms != [] {
      hide StepMember, Chosen;
      StepsLayout(sky, params, candidates, offset, p, ms[..|ms| - 1]);
      StepShape(sky, params, |candidates|, offset, StepMembers(sky, params, |candidates|, offset, p, ms[..|ms| - 1]),
                ms[|ms| - 1]);
    }
  }

  lemma StepInSomeGroup(sky: Sky, params: ToleranceParams, candidates: seq<ExistingFraming>, offset: nat,
                        base: map<EntityId, Assignment>,
                        p: Progress, m: Member, ids: set<EntityId>, id: EntityId)
    requires Placed(p, candidates, offset, base, ids) && m.sessionId !in ids && m.sessionId !in base
    requires id in ids + {m.sessionId}
    ensures var q := StepMember(sky, params, |candidates|, offset, p, m);
            && id in q.resolved
            && InSomeGroup(q, |candidates|, offset, id)
  {
    hide StepMember, Chosen;
    var cc := |candidates|;
    var q := StepMember(sky, params, cc, offset, p, m);
    var c := Chosen(sky, params, p.groups, m.geometry);
    StepShape(sky, params, cc, offset, p, m);
    if id == m.sessionId {
      assert q.groups[c].sessionIds[|q.groups[c].sessionIds| - 1] == id;
      assert InGroup(q, cc, offset, id, c);
    } else {
      assert InSomeGroup(p, cc, offset, id);
      var i: nat :| InGroup(p, cc, offset, id, i);
      assert InGroup(q, cc, offset, id, i);
    }
  }

  lemma StepNewGroups(sky: Sky, params: ToleranceParams, candidates: seq<ExistingFraming>, offset: nat,
                      base: map<EntityId, Assignment>,
                      p: Progress, m: Member, ids: set<EntityId>, i: nat, id: EntityId)
    requires Placed(p, candidates, offset, base, ids) && m.sessionId !in ids && m.sessionId !in base
    requires var q := StepMember(sky, params, |candidates|, offset, p, m);
             |candidates| <= i < |q.groups| && id in q.groups[i].sessionIds
    ensures var q := StepMember(sky, params, |candidates|, offset, p, m);
            id in ids + {m.sessionId} && id in q.resolved && q.resolved[id] == NewFraming(offset + i - |candidates|)
  {
    hide StepMember, Chosen;
    StepShape(sky, params, |candidates|, offset, p, m);
    var c := Chosen(sky, params, p.groups, m.geometry);
    if i < |p.groups| && id in p.groups[i].sessionIds {
      assert p.resolved[id] == NewFraming(offset + i - |candidates|);
    } else {
      assert i == c && id == m.sessionId;
    }
  }

  /** Placing a member that was not placed before. */
  lemma StepPlaced(sky: Sky, params: ToleranceParams, candidates: seq<ExistingFraming>, offset: nat,
                   base: map<EntityId, Assignment>,
                   p: Progress, m: Member, ids: set<EntityId>)
    requires Placed(p, candidates, offset, base, ids) && m.sessionId !in ids && m.sessionId !in base
    ensures Placed(StepMember(sky, params, |candidates|, offset, p, m), candidates, offset, base, ids + {m.sessionId})
  {
    hide StepMember, Chosen, InSomeGroup, AssignmentAt;
    var cc := |candidates|;
    var q := StepMember(sky, params, cc, offset, p, m);
    StepShape(sky, params, cc, offset, p, m);
    forall id | id in ids + {m.sessionId} ensures InSomeGroup(q, cc, offset, id) {
      StepInSomeGroup(sky, params, candidates, offset, base, p, m, ids, id);
    }
    forall i, id | cc <= i < |q.groups| && id in q.groups[i].sessionIds
      ensures id in ids + {m.sessionId} && q.resolved[id] == NewFraming(offset + i - cc)
    {
      StepNewGroups(sky, params, candidates, offset, base, p, m, ids, i, id);
    }
  }

  lemma {:induction false} StepsPlaced(sky: Sky, params: ToleranceParams, candidates: seq<ExistingFraming>, offset: nat,
                                       p: Progress, ms: seq<Member>)
    requires Placed(p, candidates, offset, p.resolved, {})
    requires DistinctMembers(ms) && Ids(ms) !! p.resolved.Keys
    ensures Placed(StepMembers(sky, params, |candidates|, offset, p, ms), candidates, offset, p.resolved, Ids(ms))
  {
    if ms == [] {
      assert Ids(ms) == {};
    } else {
      var init, last := ms[..|ms| - 1], ms[|ms| - 1];
      assert ms == init + [last];
      assert Ids(ms) == Ids(init) + {last.sessionId};
      StepsPlaced(sky, params, candidates, offset, p, init);
      StepPlaced(sky, params, candidates, offset, p.resolved,
                 StepMembers(sky, params, |candidates|, offset, p, init), last, Ids(init));
    }
  }

  // ----- All partitions -----------------------------------------------------

  ghost predicate DistinctCandidates(sorted: seq<Candidate>) {
    forall i, j :: 0 <= i < j < |sorted| ==> sorted[i].1.sessionId != sorted[j].1.sessionId
  }

  ghost function IdsAt(sorted: seq<Candidate>, done: set<PartitionKey>): set<EntityId> {
    set c | c in sorted && c.0 in done :: c.1.sessionId
  }

  ghost function KeyOf(g: NewFramingGroup): PartitionKey {
    (g.targetId, g.opticTrainKey)
  }

  /** `id` is in new framing `i` and assigned to it. */
  ghost predicate Shown(t: Totals, key: PartitionKey, id: EntityId, i: nat) {
    && i < |t.newFramings| && id in t.newFramings[i].sessionIds && KeyOf(t.newFramings[i]) == key
    && id in t.resolved && t.resolved[id] == NewFraming(i)
  }

  ghost predicate JoinsCandidate(t: Totals, existing: seq<ExistingFraming>, key: PartitionKey, id: EntityId) {
    id in t.resolved && exists f :: f in existing && IsCandidate(f, key) && t.resolved[id] == JoinExisting(f.id)
  }

  ghost predicate Clustered(t: Totals, existing: seq<ExistingFraming>, c: Candidate) {
    (exists i :: Shown(t, c.0, c.1.sessionId, i)) || JoinsCandidate(t, existing, c.0, c.1.sessionId)
  }

  ghost predicate Claims(sorted: seq<Candidate>, done: set<PartitionKey>, key: PartitionKey, id: EntityId) {
    key in done && exists c :: c in sorted && c.1.sessionId == id && c.0 == key
  }

  /** What holds after the partitions in `done`. */
  ghost predicate Settled(t: Totals, base: map<EntityId, Assignment>, existing: seq<ExistingFraming>,
                          sorted: seq<Candidate>, done: set<PartitionKey>) {
    && t.resolved.Keys == base.Keys + IdsAt(sorted, done)
    && (forall id :: id in base ==> t.resolved[id] == base[id])
    && (forall c :: c in sorted && c.0 in done ==> Clustered(t, existing, c))
    && (forall i, id :: 0 <= i < |t.newFramings| && id in t.newFramings[i].sessionIds ==>
          Shown(t, KeyOf(t.newFramings[i]), id, i) && Claims(sorted, done, KeyOf(t.newFramings[i]), id))
    && (forall i :: 0 <= i < |t.newFramings| ==> t.newFramings[i].sessionIds != [])
  }

  lemma {:induction false} MembersAtMeans(sorted: seq<Candidate>, key: PartitionKey)
    requires DistinctCandidates(sorted)
    ensures DistinctMembers(MembersAt(sorted, key))
    ensures forall m :: m in MembersAt(sorted, key) <==> (key, m) in sorted
  {
    if sorted != [] {
      var init, last := sorted[..|sorted| - 1], sorted[|sorted| - 1];
      assert sorted == init + [last];
      MembersAtMeans(init, key);
      var ms := MembersAt(init, key);
      forall i | 0 <= i < |ms| ensures ms[i].sessionId != last.1.sessionId {
        assert ms[i] in ms;
        assert (key, ms[i]) in init;
      }
    }
  }

  lemma MembersAtIds(sorted: seq<Candidate>, key: PartitionKey)
    requires DistinctCandidates(sorted)
    ensures Ids(MembersAt(sorted, key)) == IdsAt(sorted, {key})
  {
    MembersAtMeans(sorted, key);
    var ms := MembersAt(sorted, key);
    forall id | id in Ids(ms) ensures id in IdsAt(sorted, {key}) {
      var m :| m in ms && m.sessionId == id;
      assert (key, m) in sorted;
    }
    forall id | id in IdsAt(sorted, {key}) ensures id in Ids(ms) {
      var c :| c in sorted && c.0 in {key} && c.1.sessionId == id;
      assert c == (key, c.1);
      assert c.1 in ms;
    }
  }

  lemma {:induction false} CandidatesForMeans(existing: seq<ExistingFraming>, key: PartitionKey)
    ensures forall f :: f in CandidatesFor(existing, key) <==> f in existing && IsCandidate(f, key)
  {
    if existing != [] {
      assert existing == existing[..|existing| - 1] + [existing[|existing| - 1]];
      CandidatesForMeans(existing[..|existing| - 1], key);
    }
  }

  lemma DistinctKeysDistinctIds(sorted: seq<Candidate>, a: Candidate, b: Candidate)
    requires DistinctCandidates(sorted) && a in sorted && b in sorted
    ensures a.1.sessionId == b.1.sessionId ==> a == b
  {}

  lemma DoneIdsDisjoint(sorted: seq<Candidate>, done: set<PartitionKey>, key: PartitionKey)
    requires DistinctCandidates(sorted) && key !in done
    ensures IdsAt(sorted, {key}) !! IdsAt(sorted, done)
    ensures IdsAt(sorted, done + {key}) == IdsAt(sorted, done) + IdsAt(sorted, {key})
  {
    forall a, b | a in sorted && a.0 == key && b in sorted && b.0 in done ensures a.1.sessionId != b.1.sessionId {
      DistinctKeysDistinctIds(sorted, a, b);
    }
  }

  /** The placement of the members of one partition, run on the totals so far. */
  lemma PartitionPlaced(inputs: Inputs, sorted: seq<Candidate>, key: PartitionKey, t: Totals)
    requires DistinctCandidates(sorted) && IdsAt(sorted, {key}) !! t.resolved.Keys
    ensures Placed(PartitionRun(inputs, key, MembersAt(sorted, key), t), CandidatesFor(inputs.existing, key),
                   |t.newFramings|, t.resolved, IdsAt(sorted, {key}))
  {
    var candidates := CandidatesFor(inputs.existing, key);
    var p := Progress(SeededGroups(candidates, inputs.geometry), t.resolved);
    MembersAtMeans(sorted, key);
    MembersAtIds(sorted, key);
    StepsPlaced(inputs.sky, inputs.params, candidates, |t.newFramings|, p, MembersAt(sorted, key));
  }

  /** Where the groups of a partition show in the extended list. */
  lemma EmittedAt(inputs: Inputs, key: PartitionKey, ms: seq<Member>, t: Totals, i: nat)
    requires |CandidatesFor(inputs.existing, key)| <= i < |PartitionRun(inputs, key, ms, t).groups|
    ensures var at := |t.newFramings| + i - |CandidatesFor(inputs.existing, key)|;
            var u := PartitionStep(inputs, key, ms, t);
            at < |u.newFramings|
            && u.newFramings[at] == Emitted(inputs.sky, inputs.params, key, PartitionRun(inputs, key, ms, t).groups[i])
  {
    hide PartitionRun, CandidatesFor, Emitted;
  }

  /** A member of the partition ends up shown in a new framing or joined to a candidate. */
  lemma PartitionClusters(inputs: Inputs, sorted: seq<Candidate>, key: PartitionKey, t: Totals, c: Candidate)
    requires DistinctCandidates(sorted) && IdsAt(sorted, {key}) !! t.resolved.Keys
    requires c in sorted && c.0 == key
    ensures Clustered(PartitionStep(inputs, key, MembersAt(sorted, key), t), inputs.existing, c)
  {
    hide PartitionRun, PartitionStep, CandidatesFor, MembersAt, Emitted;
    var p := PartitionRun(inputs, key, MembersAt(sorted, key), t);
    var candidates := CandidatesFor(inputs.existing, key);
    var u := PartitionStep(inputs, key, MembersAt(sorted, key), t);
    var cc, offset, id := |candidates|, |t.newFramings|, c.1.sessionId;
    PartitionPlaced(inputs, sorted, key, t);
    StepResolved(inputs, key, MembersAt(sorted, key), t);
    assert id in IdsAt(sorted, {key});
    assert InSomeGroup(p, cc, offset, id);
    var i: nat :| InGroup(p, cc, offset, id, i);
    if i < cc {
      CandidatesForMeans(inputs.existing, key);
      assert candidates[i] in candidates;
      assert JoinsCandidate(u, inputs.existing, key, id);
    } else {
      EmittedAt(inputs, key, MembersAt(sorted, key), t, i);
      EmittedShape(inputs.sky, inputs.params, key, p.groups[i]);
      assert Shown(u, key, id, offset + i - cc);
    }
  }

  lemma StepResolved(inputs: Inputs, key: PartitionKey, ms: seq<Member>, t: Totals)
    ensures PartitionStep(inputs, key, ms, t).resolved == PartitionRun(inputs, key, ms, t).resolved
    ensures t.newFramings <= PartitionStep(inputs, key, ms, t).newFramings
  {}

  lemma EmittedShape(sky: Sky, params: ToleranceParams, key: PartitionKey, g: Group)
    ensures var e := Emitted(sky, params, key, g); KeyOf(e) == key && e.sessionIds == g.sessionIds
  {}

  lemma StepKeepsShown(inputs: Inputs, sorted: seq<Candidate>, key: PartitionKey, t: Totals, k: PartitionKey,
                       id: EntityId, i: nat)
    requires DistinctCandidates(sorted) && IdsAt(sorted, {key}) !! t.resolved.Keys
    requires Shown(t, k, id, i)
    ensures Shown(PartitionStep(inputs, key, MembersAt(sorted, key), t), k, id, i)
  {
    hide PartitionRun, CandidatesFor, MembersAt;
    PartitionPlaced(inputs, sorted, key, t);
  }

  lemma StepKeepsJoined(inputs: Inputs, sorted: seq<Candidate>, key: PartitionKey, t: Totals, k: PartitionKey,
                        id: EntityId)
    requires DistinctCandidates(sorted) && IdsAt(sorted, {key}) !! t.resolved.Keys
    requires JoinsCandidate(t, inputs.existing, k, id)
    ensures JoinsCandidate(PartitionStep(inputs, key, MembersAt(sorted, key), t), inputs.existing, k, id)
  {
    hide PartitionRun, CandidatesFor, MembersAt;
    PartitionPlaced(inputs, sorted, key, t);
  }

  /** New framings of this partition. */
  lemma StepShowsNew(inputs: Inputs, sorted: seq<Candidate>, key: PartitionKey, t: Totals, i: nat, id: EntityId)
    requires DistinctCandidates(sorted) && IdsAt(sorted, {key}) !! t.resolved.Keys
    requires var u := PartitionStep(inputs, key, MembersAt(sorted, key), t);
             |t.newFramings| <= i < |u.newFramings| && id in u.newFramings[i].sessionIds
    ensures var u := PartitionStep(inputs, key, MembersAt(sorted, key), t);
            Shown(u, key, id, i) && Claims(sorted, {key}, key, id)
  {
    hide PartitionRun, PartitionStep, CandidatesFor, MembersAt, Emitted;
    var ms := MembersAt(sorted, key);
    var p := PartitionRun(inputs, key, ms, t);
    var at := NewGroupAt(inputs, key, ms, t, i);
    PartitionPlaced(inputs, sorted, key, t);
    StepResolved(inputs, key, ms, t);
    EmittedShape(inputs.sky, inputs.params, key, p.groups[at]);
    assert id in p.groups[at].sessionIds;
    assert id in IdsAt(sorted, {key});
  }

  /** The group behind a new framing of this partition. */
  lemma NewGroupAt(inputs: Inputs, key: PartitionKey, ms: seq<Member>, t: Totals, i: nat) returns (at: nat)
    requires |t.newFramings| <= i < |PartitionStep(inputs, key, ms, t).newFramings|
    ensures |CandidatesFor(inputs.existing, key)| <= at < |PartitionRun(inputs, key, ms, t).groups|
    ensures i == |t.newFramings| + at - |CandidatesFor(inputs.existing, key)|
    ensures PartitionStep(inputs, key, ms, t).newFramings[i]
         == Emitted(inputs.sky, inputs.params, key, PartitionRun(inputs, key, ms, t).groups[at])
  {
    hide PartitionRun, CandidatesFor, Emitted;
    at := i - |t.newFramings| + |CandidatesFor(inputs.existing, key)|;
  }

  lemma StepNewNotEmpty(inputs: Inputs, sorted: seq<Candidate>, key: PartitionKey, t: Totals, i: nat)
    requires DistinctCandidates(sorted) && IdsAt(sorted, {key}) !! t.resolved.Keys
    requires |t.newFramings| <= i < |PartitionStep(inputs, key, MembersAt(sorted, key), t).newFramings|
    ensures PartitionStep(inputs, key, MembersAt(sorted, key), t).newFramings[i].sessionIds != []
  {
    hide PartitionRun, CandidatesFor, MembersAt;
    PartitionPlaced(inputs, sorted, key, t);
  }

  lemma StepKeepsClustered(inputs: Inputs, sorted: seq<Candidate>, key: PartitionKey, t: Totals, c: Candidate)
    requires DistinctCandidates(sorted) && IdsAt(sorted, {key}) !! t.resolved.Keys
    requires Clustered(t, inputs.existing, c)
    ensures Clustered(PartitionStep(inputs, key, MembersAt(sorted, key), t), inputs.existing, c)
  {
    hide PartitionStep, Shown, JoinsCandidate;
    if JoinsCandidate(t, inputs.existing, c.0, c.1.sessionId) {
      StepKeepsJoined(inputs, sorted, key, t, c.0, c.1.sessionId);
    } else {
      var i: nat :| Shown(t, c.0, c.1.sessionId, i);
      StepKeepsShown(inputs, sorted, key, t, c.0, c.1.sessionId, i);
    }
  }

  lemma StepSettled(inputs: Inputs, base: map<EntityId, Assignment>, sorted: seq<Candidate>, done: set<PartitionKey>,
                    key: PartitionKey, t: Totals)
    requires DistinctCandidates(sorted) && base.Keys !! IdsAt(sorted, KeysOf(sorted))
    requires Settled(t, base, inputs.existing, sorted, done) && key !in done && key in KeysOf(sorted)
    ensures Settled(PartitionStep(inputs, key, MembersAt(sorted, key), t), base, inputs.existing, sorted, done + {key})
  {
    hide PartitionStep, PartitionRun, MembersAt, Clustered, Shown, DistinctCandidates;
    var ms := MembersAt(sorted, key);
    var u := PartitionStep(inputs, key, ms, t);
    DoneIdsDisjoint(sorted, done, key);
    assert IdsAt(sorted, {key}) <= IdsAt(sorted, KeysOf(sorted));
    assert IdsAt(sorted, {key}) !! t.resolved.Keys;
    PartitionPlaced(inputs, sorted, key, t);
    StepResolved(inputs, key, ms, t);
    forall c | c in sorted && c.0 in done + {key} ensures Clustered(u, inputs.existing, c) {
      if c.0 == key {
        PartitionClusters(inputs, sorted, key, t, c);
      } else {
        StepKeepsClustered(inputs, sorted, key, t, c);
      }
    }
    forall i, id | 0 <= i < |u.newFramings| && id in u.newFramings[i].sessionIds
      ensures Shown(u, KeyOf(u.newFramings[i]), id, i) && Claims(sorted, done + {key}, KeyOf(u.newFramings[i]), id)
    {
      if i < |t.newFramings| {
        assert u.newFramings[i] == t.newFramings[i];
        StepKeepsShown(inputs, sorted, key, t, KeyOf(t.newFramings[i]), id, i);
      } else {
        StepShowsNew(inputs, sorted, key, t, i, id);
        ShownKey(u, key, id, i);
      }
    }
    forall i | 0 <= i < |u.newFramings| ensures u.newFramings[i].sessionIds != [] {
      if i >= |t.newFramings| {
        StepNewNotEmpty(inputs, sorted, key, t, i);
      }
    }
  }

  lemma ShownKey(t: Totals, key: PartitionKey, id: EntityId, i: nat)
    requires Shown(t, key, id, i)
    ensures i < |t.newFramings| && KeyOf(t.newFramings[i]) == key
  {}

  lemma NothingSettled(base: map<EntityId, Assignment>, existing: seq<ExistingFraming>, sorted: seq<Candidate>)
    ensures Settled(Totals([], base), base, existing, sorted, {})
  {
    assert IdsAt(sorted, {}) == {};
  }

  lemma {:induction false} StepsSettled(inputs: Inputs, base: map<EntityId, Assignment>, sorted: seq<Candidate>,
                                        keys: seq<PartitionKey>)
    requires DistinctCandidates(sorted) && base.Keys !! IdsAt(sorted, KeysOf(sorted))
    requires forall i, j :: 0 <= i < j < |keys| ==> keys[i] != keys[j]
    requires forall k :: k in keys ==> k in KeysOf(sorted)
    ensures Settled(PartitionSteps(inputs, sorted, keys, Totals([], base)), base, inputs.existing, sorted,
                    set k | k in keys)
  {
    hide PartitionStep, Settled, DistinctCandidates;
    if keys == [] {
      NothingSettled(base, inputs.existing, sorted);
      assert (set k | k in keys) == {};
    } else {
      var init, last := keys[..|keys| - 1], keys[|keys| - 1];
      assert keys == init + [last];
      StepsSettled(inputs, base, sorted, init);
      assert (set k | k in keys) == (set k | k in init) + {last};
      assert last !in init;
      StepSettled(inputs, base, sorted, (set k | k in init), last,
                  PartitionSteps(inputs, sorted, init, Totals([], base)));
    }
  }
}
