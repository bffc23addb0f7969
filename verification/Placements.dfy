/** Where sessions are placed, stated over the sessions' own geometry: tolerances are measured from means
    computed from scratch over the sessions of a group, and no accumulator appears. */
module Placements {
  import opened Options
  import opened Framings
  import opened FramingLaws
  import opened FramingTheorems
  import opened Orders

  // ----- The matching rule --------------------------------------------------

  /** The representative of the sessions `ids`: circular mean of their right ascensions and arithmetic mean
      of their declinations. */
  ghost function MeanPointing(sky: Sky, geometry: map<EntityId, Geometry>, ids: seq<EntityId>): Pointing
    requires Covered(ids, geometry) && ids != []
  {
    Pointing(sky.circularMean(Ras(ids, geometry)), SumDec(ids, geometry) / (|ids| as real))
  }

  ghost function MeanRotation(sky: Sky, geometry: map<EntityId, Geometry>, ids: seq<EntityId>): real
    requires Covered(ids, geometry)
  {
    sky.axialMean(Rotations(ids, geometry))
  }

  /** `x` lies within both tolerances of the sessions `ids`: the pointing within its fraction of the field
      of view, or the fallback when there is none; the rotation within the rotation tolerance, up to 1e-9. */
  ghost predicate Fits(sky: Sky, params: ToleranceParams, geometry: map<EntityId, Geometry>, ids: seq<EntityId>,
                       x: Geometry) {
    && Covered(ids, geometry) && ids != []
    && sky.separation(x.pointing, MeanPointing(sky, geometry, ids))
       <= (if x.fov.Some? then params.pointingFractionOfFov * x.fov.value else params.pointingFallback)
    && sky.axialDistance(x.rotation, MeanRotation(sky, geometry, ids)) <= params.rotationTolerance + 0.000000001
  }

  /** How far `x` is from the sessions `ids`. */
  ghost function Gap(sky: Sky, geometry: map<EntityId, Geometry>, ids: seq<EntityId>, x: Geometry): real
    requires Covered(ids, geometry) && ids != []
  {
    sky.separation(x.pointing, MeanPointing(sky, geometry, ids))
  }

  /** Group `i` fits and none that fits is nearer, or as near with a lower index. */
  ghost predicate NearestFit(sky: Sky, params: ToleranceParams, geometry: map<EntityId, Geometry>,
                             groups: seq<seq<EntityId>>, x: Geometry, i: nat) {
    && i < |groups| && Fits(sky, params, geometry, groups[i], x)
    && forall j :: 0 <= j < |groups| && Fits(sky, params, geometry, groups[j], x) ==>
         && Gap(sky, geometry, groups[i], x) <= Gap(sky, geometry, groups[j], x)
         && (Gap(sky, geometry, groups[i], x) == Gap(sky, geometry, groups[j], x) ==> i <= j)
  }

  ghost predicate NothingFits(sky: Sky, params: ToleranceParams, geometry: map<EntityId, Geometry>,
                              groups: seq<seq<EntityId>>, x: Geometry) {
    forall j :: 0 <= j < |groups| ==> !Fits(sky, params, geometry, groups[j], x)
  }

  /** An existing framing that was declared without members and has got none since. */
  ghost predicate StillEmpty(candidates: seq<ExistingFraming>, groups: seq<seq<EntityId>>, i: nat) {
    i < |candidates| && i < |groups| && candidates[i].memberSessionIds == [] && groups[i] == []
  }

  /** Where `x` goes among the sessions placed so far: to the nearest group that fits; if none does, to the
      first existing framing that is still empty; if there is none, to a new group. */
  ghost predicate Goes(sky: Sky, params: ToleranceParams, geometry: map<EntityId, Geometry>,
                       candidates: seq<ExistingFraming>, groups: seq<seq<EntityId>>, x: Geometry, i: nat) {
    || NearestFit(sky, params, geometry, groups, x, i)
    || (NothingFits(sky, params, geometry, groups, x) && StillEmpty(candidates, groups, i)
        && forall j :: 0 <= j < i ==> !StillEmpty(candidates, groups, j))
    || (NothingFits(sky, params, geometry, groups, x) && i == |groups|
        && forall j :: 0 <= j < |groups| ==> !StillEmpty(candidates, groups, j))
  }

  // ----- The run of one partition -------------------------------------------

  /** The declared members whose geometry is known in this call, in declaration order. */
  ghost function DeclaredIds(ids: seq<EntityId>, geometry: map<EntityId, Geometry>): seq<EntityId> {
    if ids == [] then []
    else
      var last := ids[|ids| - 1];
      DeclaredIds(ids[..|ids| - 1], geometry) + (if last in geometry then [last] else [])
  }

  /** One session more: at the end of group `i`, which may be a new one. */
  ghost function Joined(groups: seq<seq<EntityId>>, i: nat, id: EntityId): seq<seq<EntityId>>
    requires i <= |groups|
  {
    if i == |groups| then groups + [[id]] else groups[i := groups[i] + [id]]
  }

  /** A run over the members `ms`: it starts from the existing framings with their declared members, and
      places one member after the other by the rule. `stages[k]` holds the sessions of each group before
      member `k` is placed, `choices[k]` is where it goes. */
  ghost predicate Places(inputs: Inputs, candidates: seq<ExistingFraming>, ms: seq<Member>,
                         stages: seq<seq<seq<EntityId>>>, choices: seq<nat>) {
    && |choices| == |ms| && |stages| == |ms| + 1
    && |stages[0]| == |candidates|
    && (forall i :: 0 <= i < |candidates| ==>
          stages[0][i] == DeclaredIds(candidates[i].memberSessionIds, inputs.geometry))
    && (forall k :: 0 <= k < |ms| ==> PlacesOne(inputs, candidates, ms[k], stages[k], choices[k], stages[k + 1]))
  }

  ghost predicate PlacesOne(inputs: Inputs, candidates: seq<ExistingFraming>, m: Member, before: seq<seq<EntityId>>,
                            i: nat, after: seq<seq<EntityId>>) {
    && i <= |before|
    && Goes(inputs.sky, inputs.params, inputs.geometry, candidates, before, m.geometry, i)
    && after == Joined(before, i, m.sessionId)
  }

  /** The assignment of a member that went to group `i`. */
  ghost function Placement(candidates: seq<ExistingFraming>, offset: nat, i: nat): Assignment {
    if i < |candidates| then JoinExisting(candidates[i].id) else NewFraming(offset + i - |candidates|)
  }

  // ----- Accumulators say the same ------------------------------------------

  ghost function IdsOf(groups: seq<Group>): seq<seq<EntityId>> {
    seq(|groups|, i requires 0 <= i < |groups| => groups[i].sessionIds)
  }

  /** What the accumulators of a partition keep. */
  ghost predicate Kept(candidates: seq<ExistingFraming>, geometry: map<EntityId, Geometry>, groups: seq<Group>) {
    && Layout(groups, candidates) && AllExact(groups, geometry)
    && forall i :: 0 <= i < |candidates| ==> groups[i].declaredEmpty == (candidates[i].memberSessionIds == [])
  }

  lemma FitsIsInTolerance(sky: Sky, params: ToleranceParams, geometry: map<EntityId, Geometry>, g: Group, x: Geometry)
    requires Exact(g, geometry)
    ensures InTolerance(sky, params, g, x) <==> Fits(sky, params, geometry, g.sessionIds, x)
    ensures g.sessionIds != [] ==> Distance(sky, g, x) == Gap(sky, geometry, g.sessionIds, x)
  {}

  lemma StillEmptyIsWaiting(candidates: seq<ExistingFraming>, geometry: map<EntityId, Geometry>, groups: seq<Group>,
                            i: nat)
    requires Kept(candidates, geometry, groups) && i < |groups|
    ensures WaitingEmpty(groups[i]) <==> StillEmpty(candidates, IdsOf(groups), i)
  {
    assert Exact(groups[i], geometry);
  }

  /** The choice of the accumulators is the choice of the rule. */
  lemma ChosenGoes(sky: Sky, params: ToleranceParams, geometry: map<EntityId, Geometry>,
                   candidates: seq<ExistingFraming>, groups: seq<Group>, x: Geometry)
    requires Kept(candidates, geometry, groups)
    ensures Goes(sky, params, geometry, candidates, IdsOf(groups), x, Chosen(sky, params, groups, x))
  {
    hide InTolerance, Distance, Fits, Gap, WaitingEmpty, StillEmpty, Exact, Chosen;
    var i := Chosen(sky, params, groups, x);
    StepFollowsRule(sky, params, groups, x, i);
    var ids := IdsOf(groups);
    forall j | 0 <= j < |groups|
      ensures InTolerance(sky, params, groups[j], x) <==> Fits(sky, params, geometry, ids[j], x)
      ensures WaitingEmpty(groups[j]) <==> StillEmpty(candidates, ids, j)
    {
      FitsIsInTolerance(sky, params, geometry, groups[j], x);
      StillEmptyIsWaiting(candidates, geometry, groups, j);
    }
    forall j | 0 <= j < |groups| && Fits(sky, params, geometry, ids[j], x)
      ensures Covered(ids[j], geometry) && ids[j] != []
      ensures Distance(sky, groups[j], x) == Gap(sky, geometry, ids[j], x)
    {
      FitsHasMembers(sky, params, geometry, ids[j], x);
      FitsIsInTolerance(sky, params, geometry, groups[j], x);
    }
  }

  lemma FitsHasMembers(sky: Sky, params: ToleranceParams, geometry: map<EntityId, Geometry>, ids: seq<EntityId>,
                       x: Geometry)
    requires Fits(sky, params, geometry, ids, x)
    ensures Covered(ids, geometry) && ids != []
  {}

  lemma {:induction false} SeedMemberIds(g: Group, ids: seq<EntityId>, geometry: map<EntityId, Geometry>)
    ensures var r := PushedAll(g, SeedMembers(ids, geometry));
            r.sessionIds == g.sessionIds + DeclaredIds(ids, geometry) && r.declaredEmpty == g.declaredEmpty
  {
    if ids != [] {
      var init, last := ids[..|ids| - 1], ids[|ids| - 1];
      SeedMemberIds(g, init, geometry);
      var ms := SeedMembers(init, geometry);
      if last in geometry {
        assert (ms + [Member(last, geometry[last])])[..|ms|] == ms;
      } else {
        assert ms + [] == ms && DeclaredIds(init, geometry) + [] == DeclaredIds(init, geometry);
      }
    }
  }

  /** The accumulators of the existing framings start with their declared members. */
  lemma SeedsKept(candidates: seq<ExistingFraming>, geometry: map<EntityId, Geometry>)
    ensures Kept(candidates, geometry, SeededGroups(candidates, geometry))
    ensures forall i :: 0 <= i < |candidates| ==>
              SeededGroups(candidates, geometry)[i].sessionIds == DeclaredIds(candidates[i].memberSessionIds, geometry)
  {
    SeededExact(candidates, geometry);
    hide AllExact, PushedAll, SeedMembers;
    forall i | 0 <= i < |candidates|
      ensures var g := Seeded(candidates[i], geometry);
              && g.sessionIds == DeclaredIds(candidates[i].memberSessionIds, geometry)
              && g.declaredEmpty == (candidates[i].memberSessionIds == [])
    {
      SeedMemberIds(EmptyGroup(Some(candidates[i].id), candidates[i].memberSessionIds == []),
                    candidates[i].memberSessionIds, geometry);
    }
  }

  /** One step of the accumulators is one step of the run. */
  lemma StepPlaces(inputs: Inputs, candidates: seq<ExistingFraming>, offset: nat, p: Progress, m: Member)
    requires Kept(candidates, inputs.geometry, p.groups)
    requires m.sessionId in inputs.geometry && inputs.geometry[m.sessionId] == m.geometry
    ensures var q := StepMember(inputs.sky, inputs.params, |candidates|, offset, p, m);
            var i := Chosen(inputs.sky, inputs.params, p.groups, m.geometry);
            && Kept(candidates, inputs.geometry, q.groups)
            && PlacesOne(inputs, candidates, m, IdsOf(p.groups), i, IdsOf(q.groups))
            && q.resolved == p.resolved[m.sessionId := Placement(candidates, offset, i)]
  {
    hide Goes, Chosen, Exact;
    var q := StepMember(inputs.sky, inputs.params, |candidates|, offset, p, m);
    var i := Chosen(inputs.sky, inputs.params, p.groups, m.geometry);
    ChosenGoes(inputs.sky, inputs.params, inputs.geometry, candidates, p.groups, m.geometry);
    StepExact(inputs.sky, inputs.params, |candidates|, offset, p, inputs.geometry, m);
    StepDeclares(inputs.sky, inputs.params, |candidates|, offset, p, m);
    StepShape(inputs.sky, inputs.params, |candidates|, offset, p, m);
    hide StepMember, AllExact;
    var none: seq<EntityId> := [];
    assert none + [m.sessionId] == [m.sessionId];
    assert IdsOf(q.groups) == Joined(IdsOf(p.groups), i, m.sessionId);
  }

  lemma StepDeclares(sky: Sky, params: ToleranceParams, cc: nat, offset: nat, p: Progress, m: Member)
    requires NewGroupsLast(p.groups, cc)
    ensures var q := StepMember(sky, params, cc, offset, p, m);
            forall k :: 0 <= k < |p.groups| && k < |q.groups| ==> q.groups[k].declaredEmpty == p.groups[k].declaredEmpty
  {
    hide Chosen;
  }

  /** What the run of a partition leaves behind in the accumulators and the assignments. */
  ghost predicate Leaves(inputs: Inputs, candidates: seq<ExistingFraming>, offset: nat, start: Progress,
                         ms: seq<Member>, p: Progress, stages: seq<seq<seq<EntityId>>>, choices: seq<nat>) {
    && Places(inputs, candidates, ms, stages, choices)
    && Kept(candidates, inputs.geometry, p.groups)
    && IdsOf(p.groups) == stages[|ms|]
    && p.resolved == Assigned(start.resolved, candidates, offset, ms, choices)
  }

  /** The assignments after the members went where `choices` says. */
  ghost function Assigned(base: map<EntityId, Assignment>, candidates: seq<ExistingFraming>, offset: nat,
                          ms: seq<Member>, choices: seq<nat>): map<EntityId, Assignment>
    requires |choices| == |ms|
  {
    if ms == [] then base
    else
      var n := |ms| - 1;
      Assigned(base, candidates, offset, ms[..n], choices[..n])[
        ms[n].sessionId := Placement(candidates, offset, choices[n])]
  }

  lemma PlacesExtend(inputs: Inputs, candidates: seq<ExistingFraming>, ms: seq<Member>,
                     stages: seq<seq<seq<EntityId>>>, choices: seq<nat>, m: Member, i: nat,
                     after: seq<seq<EntityId>>)
    requires Places(inputs, candidates, ms, stages, choices)
    requires PlacesOne(inputs, candidates, m, stages[|ms|], i, after)
    ensures Places(inputs, candidates, ms + [m], stages + [after], choices + [i])
  {
    hide PlacesOne;
    var ms', stages', choices' := ms + [m], stages + [after], choices + [i];
    assert stages'[0] == stages[0];
    forall k | 0 <= k < |ms'|
      ensures PlacesOne(inputs, candidates, ms'[k], stages'[k], choices'[k], stages'[k + 1])
    {
      if k < |ms| {
        assert ms'[k] == ms[k] && choices'[k] == choices[k];
        assert stages'[k] == stages[k] && stages'[k + 1] == stages[k + 1];
      }
    }
  }

  lemma AssignedExtend(base: map<EntityId, Assignment>, candidates: seq<ExistingFraming>, offset: nat,
                       ms: seq<Member>, choices: seq<nat>, m: Member, i: nat)
    requires |choices| == |ms|
    ensures Assigned(base, candidates, offset, ms + [m], choices + [i])
         == Assigned(base, candidates, offset, ms, choices)[m.sessionId := Placement(candidates, offset, i)]
  {
    assert (ms + [m])[..|ms|] == ms && (choices + [i])[..|ms|] == choices;
  }

  lemma {:induction false} StepsPlace(inputs: Inputs, candidates: seq<ExistingFraming>, offset: nat, start: Progress,
                                      ms: seq<Member>) returns (stages: seq<seq<seq<EntityId>>>, choices: seq<nat>)
    requires start.groups == SeededGroups(candidates, inputs.geometry)
    requires NewGroupsLast(start.groups, |candidates|)
    requires FromGeometry(ms, inputs.geometry)
    ensures Leaves(inputs, candidates, offset, start, ms,
                   StepMembers(inputs.sky, inputs.params, |candidates|, offset, start, ms), stages, choices)
  {
    if ms == [] {
      SeedsKept(candidates, inputs.geometry);
      hide Kept;
      stages, choices := [IdsOf(start.groups)], [];
    } else {
      hide Kept, Places, PlacesOne, StepMember, Assigned;
      var init, m := ms[..|ms| - 1], ms[|ms| - 1];
      assert ms == init + [m];
      stages, choices := StepsPlace(inputs, candidates, offset, start, init);
      var p := StepMembers(inputs.sky, inputs.params, |candidates|, offset, start, init);
      var q := StepMember(inputs.sky, inputs.params, |candidates|, offset, p, m);
      var i := Chosen(inputs.sky, inputs.params, p.groups, m.geometry);
      StepPlaces(inputs, candidates, offset, p, m);
      PlacesLength(inputs, candidates, init, stages, choices);
      PlacesExtend(inputs, candidates, init, stages, choices, m, i, IdsOf(q.groups));
      AssignedExtend(start.resolved, candidates, offset, init, choices, m, i);
      stages, choices := stages + [IdsOf(q.groups)], choices + [i];
    }
  }

  lemma PlacesLength(inputs: Inputs, candidates: seq<ExistingFraming>, ms: seq<Member>,
                     stages: seq<seq<seq<EntityId>>>, choices: seq<nat>)
    requires Places(inputs, candidates, ms, stages, choices)
    ensures |choices| == |ms| && |stages| == |ms| + 1
  {}

  // ----- One partition ------------------------------------------------------

  /** The groups behind the existing framings become new framings, in order. */
  ghost predicate Emits(inputs: Inputs, key: PartitionKey, cc: nat, groups: seq<seq<EntityId>>,
                        before: seq<NewFramingGroup>, after: seq<NewFramingGroup>) {
    && cc <= |groups| && |after| == |before| + |groups| - cc && before <= after
    && forall i :: cc <= i < |groups| ==> EmitsOne(inputs, key, groups[i], after[|before| + i - cc])
  }

  /** A new framing: the partition's target and optic train, the group's sessions, and the representative and
      tolerances computed from scratch over them. */
  ghost predicate EmitsOne(inputs: Inputs, key: PartitionKey, ids: seq<EntityId>, f: NewFramingGroup) {
    && f.targetId == key.0 && f.opticTrainKey == key.1 && f.sessionIds == ids
    && (ids != [] ==> Batch(inputs.sky, inputs.params, inputs.geometry, f))
  }

  ghost predicate RunOf(inputs: Inputs, key: PartitionKey, ms: seq<Member>, t: Totals, u: Totals,
                        stages: seq<seq<seq<EntityId>>>, choices: seq<nat>) {
    var candidates := CandidatesFor(inputs.existing, key);
    && Places(inputs, candidates, ms, stages, choices)
    && u.resolved == Assigned(t.resolved, candidates, |t.newFramings|, ms, choices)
    && Emits(inputs, key, |candidates|, stages[|ms|], t.newFramings, u.newFramings)
  }

  /** A pass over one partition is a run by the rule: nothing but the members, the existing framings of the
      partition and the geometry decides who goes where and what is emitted. */
  lemma PartitionIsARun(inputs: Inputs, key: PartitionKey, ms: seq<Member>, t: Totals)
    returns (stages: seq<seq<seq<EntityId>>>, choices: seq<nat>)
    requires FromGeometry(ms, inputs.geometry)
    ensures RunOf(inputs, key, ms, t, PartitionStep(inputs, key, ms, t), stages, choices)
  {
    hide StepMembers, CandidatesFor, Places, Assigned, Batch, SeededGroups;
    var candidates := CandidatesFor(inputs.existing, key);
    var start := Progress(SeededGroups(candidates, inputs.geometry), t.resolved);
    stages, choices := StepsPlace(inputs, candidates, |t.newFramings|, start, ms);
    PlacesLength(inputs, candidates, ms, stages, choices);
    var p := PartitionRun(inputs, key, ms, t);
    EmittedGroups(inputs, key, candidates, p.groups, t.newFramings);
  }

  lemma EmittedGroups(inputs: Inputs, key: PartitionKey, candidates: seq<ExistingFraming>, groups: seq<Group>,
                      before: seq<NewFramingGroup>)
    requires Kept(candidates, inputs.geometry, groups)
    ensures Emits(inputs, key, |candidates|, IdsOf(groups), before,
                  before + EmittedAll(inputs.sky, inputs.params, key, groups[|candidates|..]))
  {
    hide Batch;
    var cc := |candidates|;
    var added := EmittedAll(inputs.sky, inputs.params, key, groups[cc..]);
    forall i | cc <= i < |groups|
      ensures EmitsOne(inputs, key, IdsOf(groups)[i], (before + added)[|before| + i - cc])
    {
      assert Exact(groups[i], inputs.geometry) && groups[cc..][i - cc] == groups[i];
      if groups[i].sessionIds != [] {
        ExactEmitsBatch(inputs.sky, inputs.params, key, inputs.geometry, groups[i]);
      }
    }
  }

  /** A member that fits some group is placed with sessions it fits, and opens no new group. */
  lemma FittingMemberOpensNothing(inputs: Inputs, candidates: seq<ExistingFraming>, ms: seq<Member>,
                                  stages: seq<seq<seq<EntityId>>>, choices: seq<nat>, k: nat, j: nat)
    requires Places(inputs, candidates, ms, stages, choices) && k < |ms| && j < |stages[k]|
    requires Fits(inputs.sky, inputs.params, inputs.geometry, stages[k][j], ms[k].geometry)
    ensures choices[k] < |stages[k]|
    ensures Fits(inputs.sky, inputs.params, inputs.geometry, stages[k][choices[k]], ms[k].geometry)
  {
    hide Fits;
    assert PlacesOne(inputs, candidates, ms[k], stages[k], choices[k], stages[k + 1]);
  }

  // ----- Who shares a new framing -------------------------------------------

  /** Each session but the first was within both tolerances of those before it. */
  ghost predicate InTurn(inputs: Inputs, ids: seq<EntityId>) {
    && Covered(ids, inputs.geometry)
    && forall j :: 1 <= j < |ids| ==>
         Fits(inputs.sky, inputs.params, inputs.geometry, ids[..j], inputs.geometry[ids[j]])
  }

  lemma InTurnExtend(inputs: Inputs, ids: seq<EntityId>, m: Member)
    requires InTurn(inputs, ids) && m.sessionId in inputs.geometry && inputs.geometry[m.sessionId] == m.geometry
    requires ids != [] ==> Fits(inputs.sky, inputs.params, inputs.geometry, ids, m.geometry)
    ensures InTurn(inputs, ids + [m.sessionId])
  {
    hide Fits;
    var more := ids + [m.sessionId];
    forall j | 1 <= j < |more|
      ensures Fits(inputs.sky, inputs.params, inputs.geometry, more[..j], inputs.geometry[more[j]])
    {
      if j < |ids| {
        assert more[..j] == ids[..j];
      } else {
        assert more[..j] == ids;
      }
    }
  }

  lemma {:induction false} StageInTurn(inputs: Inputs, candidates: seq<ExistingFraming>, ms: seq<Member>,
                                       stages: seq<seq<seq<EntityId>>>, choices: seq<nat>, k: nat, i: nat)
    requires FromGeometry(ms, inputs.geometry) && Places(inputs, candidates, ms, stages, choices)
    requires k <= |ms| && |candidates| <= i < |stages[k]|
    ensures InTurn(inputs, stages[k][i])
    decreases k
  {
    hide Fits, InTurn;
    if k > 0 {
      var m, before, c := ms[k - 1], stages[k - 1], choices[k - 1];
      assert PlacesOne(inputs, candidates, m, before, c, stages[k - 1 + 1]);
      assert m in ms;
      var none: seq<EntityId> := [];
      if i < |before| {
        StageInTurn(inputs, candidates, ms, stages, choices, k - 1, i);
        if i == c {
          InTurnExtend(inputs, before[i], m);
        }
      } else {
        NobodyInTurn(inputs);
        InTurnExtend(inputs, none, m);
        assert none + [m.sessionId] == [m.sessionId];
      }
    }
  }

  lemma NobodyInTurn(inputs: Inputs)
    ensures InTurn(inputs, [])
  {}

  ghost predicate AllInTurn(inputs: Inputs, t: Totals) {
    forall i :: 0 <= i < |t.newFramings| ==> InTurn(inputs, t.newFramings[i].sessionIds)
  }

  lemma PartitionInTurn(inputs: Inputs, key: PartitionKey, ms: seq<Member>, t: Totals)
    requires FromGeometry(ms, inputs.geometry) && AllInTurn(inputs, t)
    ensures AllInTurn(inputs, PartitionStep(inputs, key, ms, t))
  {
    hide InTurn, PartitionStep, Places, CandidatesFor, Assigned, Batch;
    var stages, choices := PartitionIsARun(inputs, key, ms, t);
    var candidates := CandidatesFor(inputs.existing, key);
    var u := PartitionStep(inputs, key, ms, t);
    PlacesLength(inputs, candidates, ms, stages, choices);
    forall n | 0 <= n < |u.newFramings| ensures InTurn(inputs, u.newFramings[n].sessionIds) {
      if n < |t.newFramings| {
        assert u.newFramings[n] == t.newFramings[n];
      } else {
        var i := n - |t.newFramings| + |candidates|;
        StageInTurn(inputs, candidates, ms, stages, choices, |ms|, i);
        assert EmitsOne(inputs, key, stages[|ms|][i], u.newFramings[|t.newFramings| + i - |candidates|]);
      }
    }
  }

  lemma {:induction false} PartitionsInTurn(inputs: Inputs, sorted: seq<Candidate>, keys: seq<PartitionKey>, t: Totals)
    requires AllInTurn(inputs, t) && DistinctCandidates(sorted) && FromSessions(inputs, sorted)
    ensures AllInTurn(inputs, PartitionSteps(inputs, sorted, keys, t))
  {
    hide AllInTurn, PartitionStep, MembersAt;
    if keys != [] {
      var key := keys[|keys| - 1];
      PartitionsInTurn(inputs, sorted, keys[..|keys| - 1], t);
      MembersFromGeometry(inputs, sorted, key);
      PartitionInTurn(inputs, key, MembersAt(sorted, key), PartitionSteps(inputs, sorted, keys[..|keys| - 1], t));
    }
  }

  ghost predicate FromSessions(inputs: Inputs, sorted: seq<Candidate>) {
    forall c :: c in sorted ==>
      c.1.sessionId in inputs.geometry && inputs.geometry[c.1.sessionId] == c.1.geometry
  }

  lemma MembersFromGeometry(inputs: Inputs, sorted: seq<Candidate>, key: PartitionKey)
    requires DistinctCandidates(sorted) && FromSessions(inputs, sorted)
    ensures FromGeometry(MembersAt(sorted, key), inputs.geometry)
  {
    MembersAtMeans(sorted, key);
    forall m | m in MembersAt(sorted, key)
      ensures m.sessionId in inputs.geometry && inputs.geometry[m.sessionId] == m.geometry
    {
      assert (key, m) in sorted;
    }
  }

  lemma CandidatesFromSessions(sky: Sky, params: ToleranceParams, existing: seq<ExistingFraming>,
                               sessions: seq<SessionGeometry>)
    requires DistinctIds(sessions)
    ensures FromSessions(InputsOf(sky, params, existing, sessions), SortedCandidates(sessions, FramingOf(existing)))
  {
    hide SortedCandidates, FramingOf, GeometryById;
    var framingOf := FramingOf(existing);
    var sorted := SortedCandidates(sessions, framingOf);
    SortedMeans(sessions, framingOf);
    forall c | c in sorted
      ensures c.1.sessionId in GeometryById(sessions) && GeometryById(sessions)[c.1.sessionId] == c.1.geometry
    {
      assert Comes(sessions, framingOf, c);
      var s :| s in sessions && Yields(s, framingOf, c);
      CandidateOfSession(sessions, framingOf, s, c);
      GeometryValues(sessions, s);
    }
  }

  /** In each new framing, every session but the first was within both tolerances of the sessions listed
      before it: near enough to their mean pointing and to their mean rotation. */
  lemma MembersFitTheirFraming(sky: Sky, params: ToleranceParams, existing: seq<ExistingFraming>,
                               sessions: seq<SessionGeometry>, i: nat, j: nat)
    requires DistinctIds(sessions) && i < |Derived(sky, params, existing, sessions).newFramings|
    requires 1 <= j < |Derived(sky, params, existing, sessions).newFramings[i].sessionIds|
    ensures var ids := Derived(sky, params, existing, sessions).newFramings[i].sessionIds;
            var geometry := GeometryById(sessions);
            ids[j] in geometry && Fits(sky, params, geometry, ids[..j], geometry[ids[j]])
  {
    hide PartitionSteps, KeyList, SortedCandidates, Resolved, FramingOf, GeometryById, Fits;
    var framingOf := FramingOf(existing);
    var inputs := InputsOf(sky, params, existing, sessions);
    SortedDistinct(sessions, framingOf);
    CandidatesFromSessions(sky, params, existing, sessions);
    PartitionsInTurn(inputs, SortedCandidates(sessions, framingOf), KeyList(SortedCandidates(sessions, framingOf)),
                     Totals([], Resolved(sessions, framingOf)));
    assert InTurn(inputs, Derived(sky, params, existing, sessions).newFramings[i].sessionIds);
  }

  // ----- The whole pass -----------------------------------------------------

  /** The pass visits the partitions one after the other, each by a run of the rule. */
  ghost predicate PassOf(inputs: Inputs, sorted: seq<Candidate>, keys: seq<PartitionKey>, totals: seq<Totals>) {
    && |totals| == |keys| + 1
    && forall k :: 0 <= k < |keys| ==>
         PartitionPass(inputs, keys[k], MembersAt(sorted, keys[k]), totals[k], totals[k + 1])
  }

  ghost predicate PartitionPass(inputs: Inputs, key: PartitionKey, ms: seq<Member>, t: Totals, u: Totals) {
    exists stages, choices :: RunOf(inputs, key, ms, t, u, stages, choices)
  }

  lemma {:induction false} PartitionsPass(inputs: Inputs, sorted: seq<Candidate>, keys: seq<PartitionKey>, t: Totals)
    returns (totals: seq<Totals>)
    requires DistinctCandidates(sorted) && FromSessions(inputs, sorted)
    ensures PassOf(inputs, sorted, keys, totals)
    ensures totals[0] == t && totals[|keys|] == PartitionSteps(inputs, sorted, keys, t)
  {
    hide PartitionStep, MembersAt, PartitionPass;
    if keys == [] {
      totals := [t];
    } else {
      var n := |keys| - 1;
      var before := PartitionsPass(inputs, sorted, keys[..n], t);
      var ms := MembersAt(sorted, keys[n]);
      MembersFromGeometry(inputs, sorted, keys[n]);
      var after := PartitionStep(inputs, keys[n], ms, before[n]);
      OnePass(inputs, keys[n], ms, before[n]);
      totals := before + [after];
      forall k | 0 <= k < |keys|
        ensures PartitionPass(inputs, keys[k], MembersAt(sorted, keys[k]), totals[k], totals[k + 1])
      {
        if k < n {
          assert keys[k] == keys[..n][k] && totals[k] == before[k] && totals[k + 1] == before[k + 1];
        }
      }
    }
  }

  lemma OnePass(inputs: Inputs, key: PartitionKey, ms: seq<Member>, t: Totals)
    requires FromGeometry(ms, inputs.geometry)
    ensures PartitionPass(inputs, key, ms, t, PartitionStep(inputs, key, ms, t))
  {
    hide RunOf, PartitionStep;
    var stages, choices := PartitionIsARun(inputs, key, ms, t);
  }

  /** The result of a pass is that of the rule, partition by partition in the order of target and optic
      train, and within each in the order of session ids, from the assignments decided beforehand. */
  lemma DerivationIsByTheRule(sky: Sky, params: ToleranceParams, existing: seq<ExistingFraming>,
                              sessions: seq<SessionGeometry>) returns (totals: seq<Totals>)
    requires DistinctIds(sessions)
    ensures var framingOf := FramingOf(existing);
            var sorted := SortedCandidates(sessions, framingOf);
            && PassOf(InputsOf(sky, params, existing, sessions), sorted, KeyList(sorted), totals)
            && totals[0] == Totals([], Resolved(sessions, framingOf))
            && totals[|KeyList(sorted)|] == Derived(sky, params, existing, sessions)
  {
    hide PartitionSteps, KeyList, SortedCandidates, Resolved, FramingOf, GeometryById, PassOf;
    var framingOf := FramingOf(existing);
    var sorted := SortedCandidates(sessions, framingOf);
    SortedDistinct(sessions, framingOf);
    CandidatesFromSessions(sky, params, existing, sessions);
    totals := PartitionsPass(InputsOf(sky, params, existing, sessions), sorted, KeyList(sorted),
                             Totals([], Resolved(sessions, framingOf)));
    PassLength(InputsOf(sky, params, existing, sessions), sorted, KeyList(sorted), totals);
  }

  lemma PassLength(inputs: Inputs, sorted: seq<Candidate>, keys: seq<PartitionKey>, totals: seq<Totals>)
    requires PassOf(inputs, sorted, keys, totals)
    ensures |totals| == |keys| + 1
  {}

  // ----- Joining an existing framing ----------------------------------------

  ghost predicate Declares(existing: seq<ExistingFraming>, id: EntityId) {
    exists f :: f in existing && id in f.memberSessionIds
  }

  lemma UndeclaredIsNotKnown(existing: seq<ExistingFraming>, s: SessionGeometry)
    ensures Classify(s, FramingOf(existing)).Known? <==> Declares(existing, s.sessionId)
  {
    hide FramingOf;
    FramingOfDeclared(existing, s.sessionId);
  }

  /** A session that no framing declares joins only a suggested framing of its own target and optic train. */
  lemma JoinedFramingIsItsOwn(sky: Sky, params: ToleranceParams, existing: seq<ExistingFraming>,
                              sessions: seq<SessionGeometry>, s: SessionGeometry, framing: EntityId)
    requires DistinctIds(sessions) && s in sessions && !Declares(existing, s.sessionId)
    requires IsAssigned(sky, params, existing, sessions, s, JoinExisting(framing))
    ensures exists f :: f in existing && f.id == framing && f.clustering == Suggested
              && f.targetId.Some? && f.targetId == s.targetId && s.opticTrainKey == Some(f.opticTrainKey)
  {
    hide Derived, SortedCandidates, Resolved, FramingOf, Classify, Comes, IsCandidate, Declares;
    var framingOf := FramingOf(existing);
    var sorted := SortedCandidates(sessions, framingOf);
    var t := Derived(sky, params, existing, sessions);
    var id := s.sessionId;
    UndeclaredIsNotKnown(existing, s);
    DerivedSettled(sky, params, existing, sessions);
    ResolvedValues(sessions, framingOf, s);
    SessionIsCandidateOrEarly(sessions, framingOf, s);
    var key := Classify(s, framingOf).key;
    var c := (key, Member(id, Classify(s, framingOf).geometry));
    ClusterableKey(s, framingOf);
    assert c in sorted && c.0 in KeysOf(sorted);
    assert Clustered(t, existing, c);
    assert JoinsCandidate(t, existing, key, id);
    var f :| f in existing && IsCandidate(f, key) && t.resolved[id] == JoinExisting(f.id);
    CandidateIsOwn(f, key);
  }

  lemma ClusterableKey(s: SessionGeometry, framingOf: map<EntityId, EntityId>)
    requires Classify(s, framingOf).Clusterable?
    ensures var c := Classify(s, framingOf);
            s.targetId == Some(c.key.0) && s.opticTrainKey == Some(c.key.1) && Measures(s, c.geometry)
  {}

  lemma CandidateIsOwn(f: ExistingFraming, key: PartitionKey)
    ensures IsCandidate(f, key) <==> f.clustering == Suggested && f.targetId == Some(key.0) && f.opticTrainKey == key.1
  {}

  ghost predicate IsAssigned(sky: Sky, params: ToleranceParams, existing: seq<ExistingFraming>,
                             sessions: seq<SessionGeometry>, s: SessionGeometry, a: Assignment) {
    var t := Derived(sky, params, existing, sessions);
    s.sessionId in t.resolved && t.resolved[s.sessionId] == a
  }

  /** The framings a partition may join, in the order they are given: the suggested ones of its target and
      optic train. */
  lemma {:induction false} CandidatesAreSuggested(a: seq<ExistingFraming>, b: seq<ExistingFraming>, key: PartitionKey)
    ensures forall f :: f in CandidatesFor(a, key) <==>
              f in a && f.clustering == Suggested && f.targetId == Some(key.0) && f.opticTrainKey == key.1
    ensures CandidatesFor(a + b, key) == CandidatesFor(a, key) + CandidatesFor(b, key)
  {
    hide IsCandidate;
    CandidatesForMeans(a, key);
    forall f | f in a ensures IsCandidate(f, key) <==>
      f.clustering == Suggested && f.targetId == Some(key.0) && f.opticTrainKey == key.1
    {
      CandidateIsOwn(f, key);
    }
    if b == [] {
      assert a + b == a && CandidatesFor(a, key) + [] == CandidatesFor(a, key);
    } else {
      var init, last := b[..|b| - 1], b[|b| - 1];
      CandidatesAreSuggested(a, init, key);
      assert (a + b)[..|a + b| - 1] == a + init && (a + b)[|a + b| - 1] == last;
      var tail := if IsCandidate(last, key) then [last] else [];
      assert (CandidatesFor(a, key) + CandidatesFor(init, key)) + tail
          == CandidatesFor(a, key) + (CandidatesFor(init, key) + tail);
    }
  }

  // ----- What a session's readings say --------------------------------------

  /** All readings of the session are there and finite, and they are `g`. */
  predicate Measures(s: SessionGeometry, g: Geometry) {
    && s.pointing == Some((Finite(g.pointing.ra), Finite(g.pointing.dec)))
    && s.rotation == Some(Finite(g.rotation))
    && s.fovDiagonal == match g.fov case None => None case Some(d) => Some(Finite(d))
  }

  predicate HasBadReading(s: SessionGeometry) {
    || (s.pointing.Some? && (s.pointing.value.0.NotFinite? || s.pointing.value.1.NotFinite?))
    || (s.rotation.Some? && s.rotation.value.NotFinite?)
    || (s.fovDiagonal.Some? && s.fovDiagonal.value.NotFinite?)
  }

  /** Why a session cannot be clustered: the first thing it lacks. */
  predicate Lacks(s: SessionGeometry, reason: UnassignedReason) {
    match reason
    case MissingTarget => s.targetId.None?
    case MissingOpticTrain => s.targetId.Some? && s.opticTrainKey.None?
    case MissingPointing => s.targetId.Some? && s.opticTrainKey.Some? && s.pointing.None?
    case MissingRotation => s.targetId.Some? && s.opticTrainKey.Some? && s.pointing.Some? && s.rotation.None?
    case UnusableGeometry =>
      s.targetId.Some? && s.opticTrainKey.Some? && s.pointing.Some? && s.rotation.Some? && HasBadReading(s)
  }

  lemma ExcludedLacks(s: SessionGeometry, framingOf: map<EntityId, EntityId>, reason: UnassignedReason)
    requires !Classify(s, framingOf).Known?
    ensures Classify(s, framingOf) == Excluded(reason) <==> Lacks(s, reason)
  {}

  /** A session stays unassigned if and only if no framing declares it and it lacks something, and the reason
      given is the first thing it lacks. */
  lemma UnassignedForItsReason(sky: Sky, params: ToleranceParams, existing: seq<ExistingFraming>,
                               sessions: seq<SessionGeometry>, s: SessionGeometry, reason: UnassignedReason)
    requires DistinctIds(sessions) && s in sessions
    ensures IsAssigned(sky, params, existing, sessions, s, Unassigned(reason))
       <==> !Declares(existing, s.sessionId) && Lacks(s, reason)
  {
    hide Derived, SortedCandidates, Resolved, FramingOf, Classify, Comes, IsCandidate, Declares, Lacks;
    var framingOf := FramingOf(existing);
    var sorted := SortedCandidates(sessions, framingOf);
    var t := Derived(sky, params, existing, sessions);
    UndeclaredIsNotKnown(existing, s);
    DerivedSettled(sky, params, existing, sessions);
    ResolvedValues(sessions, framingOf, s);
    SessionIsCandidateOrEarly(sessions, framingOf, s);
    if !Classify(s, framingOf).Known? {
      ExcludedLacks(s, framingOf, reason);
    }
    if Classify(s, framingOf).Clusterable? {
      var c := (Classify(s, framingOf).key, Member(s.sessionId, Classify(s, framingOf).geometry));
      assert c in sorted && c.0 in KeysOf(sorted);
      assert Clustered(t, existing, c);
    }
  }

  /** The geometry a pass works with: of each session with a target, an optic train and finite readings,
      exactly its readings. */
  lemma GeometryIsMeasured(sessions: seq<SessionGeometry>, s: SessionGeometry, g: Geometry)
    requires DistinctIds(sessions) && s in sessions
    ensures (s.sessionId in GeometryById(sessions) && GeometryById(sessions)[s.sessionId] == g)
       <==> s.targetId.Some? && s.opticTrainKey.Some? && Measures(s, g)
  {
    GeometryValues(sessions, s);
    hide GeometryById;
  }

  /** The members of a partition: the undeclared sessions of its target and optic train with finite readings,
      in the order of their ids. */
  lemma PartitionHoldsItsSessions(sessions: seq<SessionGeometry>, existing: seq<ExistingFraming>, key: PartitionKey)
    requires DistinctIds(sessions)
    ensures var ms := MembersAt(SortedCandidates(sessions, FramingOf(existing)), key);
            && MembersAscend(ms)
            && (forall m :: m in ms <==> exists s :: s in sessions && BelongsTo(s, existing, key, m))
  {
    hide SortedCandidates, FramingOf, MembersAt, Classify, Declares, Measures;
    var framingOf := FramingOf(existing);
    var sorted := SortedCandidates(sessions, framingOf);
    SortedDistinct(sessions, framingOf);
    SortedById(sessions, framingOf);
    MembersInOrder(sorted, key);
    MembersAtMeans(sorted, key);
    SortedMeans(sessions, framingOf);
    var ms := MembersAt(sorted, key);
    forall m ensures m in ms <==> exists s :: s in sessions && BelongsTo(s, existing, key, m) {
      if m in ms {
        assert Comes(sessions, framingOf, (key, m));
        var s :| s in sessions && Yields(s, framingOf, (key, m));
        YieldsMeans(existing, s, key, m);
      }
      if s :| s in sessions && BelongsTo(s, existing, key, m) {
        YieldsMeans(existing, s, key, m);
        assert Comes(sessions, framingOf, (key, m));
      }
    }
  }

  ghost predicate BelongsTo(s: SessionGeometry, existing: seq<ExistingFraming>, key: PartitionKey, m: Member) {
    && s.sessionId == m.sessionId && !Declares(existing, s.sessionId)
    && s.targetId == Some(key.0) && s.opticTrainKey == Some(key.1) && Measures(s, m.geometry)
  }

  lemma YieldsMeans(existing: seq<ExistingFraming>, s: SessionGeometry, key: PartitionKey, m: Member)
    ensures Yields(s, FramingOf(existing), (key, m)) <==> BelongsTo(s, existing, key, m)
  {
    hide FramingOf, Declares;
    UndeclaredIsNotKnown(existing, s);
  }

  ghost predicate IdsAscend(sorted: seq<Candidate>) {
    forall i, j :: 0 <= i < j < |sorted| ==> sorted[i].1.sessionId < sorted[j].1.sessionId
  }

  ghost predicate MembersAscend(ms: seq<Member>) {
    forall i, j :: 0 <= i < j < |ms| ==> ms[i].sessionId < ms[j].sessionId
  }

  lemma SortedById(sessions: seq<SessionGeometry>, framingOf: map<EntityId, EntityId>)
    requires DistinctIds(sessions)
    ensures IdsAscend(SortedCandidates(sessions, framingOf))
  {
    ByIdIsPreorder();
    SortSorted(ById, Candidates(sessions, framingOf));
    SortedDistinct(sessions, framingOf);
    var sorted := SortedCandidates(sessions, framingOf);
    forall i, j | 0 <= i < j < |sorted| ensures sorted[i].1.sessionId < sorted[j].1.sessionId {
      assert ById(sorted[i], sorted[j]);
    }
  }

  lemma MembersAtLast(sorted: seq<Candidate>, key: PartitionKey)
    requires sorted != []
    ensures var last := sorted[|sorted| - 1];
            MembersAt(sorted, key) == MembersAt(sorted[..|sorted| - 1], key) + (if last.0 == key then [last.1] else [])
  {}

  lemma {:induction false} MembersInOrder(sorted: seq<Candidate>, key: PartitionKey)
    requires IdsAscend(sorted) && DistinctCandidates(sorted)
    ensures MembersAscend(MembersAt(sorted, key))
  {
    if sorted != [] {
      var init, last := sorted[..|sorted| - 1], sorted[|sorted| - 1];
      MembersInOrder(init, key);
      MembersAtMeans(init, key);
      var ms := MembersAt(init, key);
      MembersAtLast(sorted, key);
      hide MembersAt;
      forall i | 0 <= i < |ms| ensures ms[i].sessionId < last.1.sessionId {
        assert ms[i] in ms && (key, ms[i]) in init;
        var k :| 0 <= k < |init| && init[k] == (key, ms[i]);
        assert sorted[k] == init[k] && sorted[|init|] == last;
      }
      var all := MembersAt(sorted, key);
      forall i, j | 0 <= i < j < |all| ensures all[i].sessionId < all[j].sessionId {
        if j < |ms| {
          assert all[i] == ms[i] && all[j] == ms[j];
          assert ms[i].sessionId < ms[j].sessionId;
        } else {
          assert all[i] == ms[i] && all[j] == last.1;
        }
      }
    }
  }

  /** The partitions are visited in ascending order of target and optic train, each once. */
  lemma PartitionsInOrder(sorted: seq<Candidate>)
    ensures forall k :: k in KeyList(sorted) <==> exists c :: c in sorted && c.0 == k
    ensures forall i, j :: 0 <= i < j < |KeyList(sorted)| ==>
              var a, b := KeyList(sorted)[i], KeyList(sorted)[j];
              a.0 < b.0 || (a.0 == b.0 && a.1 != b.1 && StringLe(a.1, b.1))
  {
    KeyListMeans(sorted);
    KeyOrderIsTotal();
    AscendingSorted(PairLe(IdLe, StringLe), KeysOf(sorted));
    var keys := KeyList(sorted);
    assert SortedBy(PairLe(IdLe, StringLe), keys);
    hide KeyList, StringLe;
    forall i, j | 0 <= i < j < |keys|
      ensures keys[i].0 < keys[j].0
           || (keys[i].0 == keys[j].0 && keys[i].1 != keys[j].1 && StringLe(keys[i].1, keys[j].1))
    {
      assert PairLe(IdLe, StringLe)(keys[i], keys[j]) && keys[i] != keys[j];
    }
  }

  /** A declared session joins the last framing that declares it, whatever its readings. */
  lemma LastDeclarationWins(sky: Sky, params: ToleranceParams, existing: seq<ExistingFraming>,
                            sessions: seq<SessionGeometry>, s: SessionGeometry, i: nat)
    requires DistinctIds(sessions) && s in sessions && i < |existing|
    requires s.sessionId in existing[i].memberSessionIds
    requires forall j :: i < j < |existing| ==> s.sessionId !in existing[j].memberSessionIds
    ensures IsAssigned(sky, params, existing, sessions, s, JoinExisting(existing[i].id))
  {
    hide Derived, SortedCandidates, Resolved, FramingOf, IsCandidate;
    var framingOf := FramingOf(existing);
    LastFraming(existing, s.sessionId, i);
    DerivedSettled(sky, params, existing, sessions);
    ResolvedValues(sessions, framingOf, s);
  }

  lemma {:induction false} LastFraming(existing: seq<ExistingFraming>, id: EntityId, i: nat)
    requires i < |existing| && id in existing[i].memberSessionIds
    requires forall j :: i < j < |existing| ==> id !in existing[j].memberSessionIds
    ensures id in FramingOf(existing) && FramingOf(existing)[id] == existing[i].id
  {
    var n := |existing| - 1;
    var init, last := existing[..n], existing[n];
    MembersOfMeans(last.id, last.memberSessionIds, FramingOf(init), id);
    if i < n {
      LastFraming(init, id, i);
    }
  }
}
