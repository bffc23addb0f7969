/** `derive_clustering` and its stages as they run: accumulators updated in place, loops over
    sessions, members and partitions. */
module Clustering {
  import opened Options
  import opened Framings
  import opened Orders
  import FramingTheorems

  /** The running accumulator of one group. */
  class GroupAccumulator {
    const existingId: Option<EntityId>
    const declaredEmpty: bool
    var ras: seq<real>
    var sumDec: real
    var rotations: seq<real>
    var count: nat
    var seedUsedFallback: bool
    var sessionIds: seq<EntityId>

    function Value(): Group
      reads this
    {
      Group(existingId, declaredEmpty, ras, sumDec, rotations, count, seedUsedFallback, sessionIds)
    }

    constructor (existingId: Option<EntityId>, declaredEmpty: bool)
      ensures Value() == EmptyGroup(existingId, declaredEmpty)
    {
      this.existingId, this.declaredEmpty := existingId, declaredEmpty;
      ras, sumDec, rotations, count, seedUsedFallback, sessionIds := [], 0.0, [], 0, false, [];
    }

    method Push(m: Member)
      modifies this
      ensures Value() == Pushed(old(Value()), m)
    {
      if count == 0 {
        seedUsedFallback := m.geometry.fov.None?;
      }
      ras := ras + [m.geometry.pointing.ra];
      sumDec := sumDec + m.geometry.pointing.dec;
      rotations := rotations + [m.geometry.rotation];
      count := count + 1;
      sessionIds := sessionIds + [m.sessionId];
    }
  }

  function Values(groups: seq<GroupAccumulator>): (values: seq<Group>)
    reads groups
    ensures |values| == |groups|
    ensures forall i :: 0 <= i < |groups| ==> values[i] == groups[i].Value()
  {
    if groups == [] then [] else Values(groups[..|groups| - 1]) + [groups[|groups| - 1].Value()]
  }

  ghost predicate Separate(groups: seq<GroupAccumulator>) {
    forall i, j :: 0 <= i < j < |groups| ==> groups[i] != groups[j]
  }

  /** Seeds one accumulator per candidate framing from its members' actual geometry. */
  method SeedGroups(candidates: seq<ExistingFraming>, geometry: map<EntityId, Geometry>)
    returns (groups: seq<GroupAccumulator>)
    ensures fresh(groups) && Separate(groups)
    ensures Values(groups) == SeededGroups(candidates, geometry)
  {
    groups := [];
    for i := 0 to |candidates|
      invariant fresh(groups) && Separate(groups) && |groups| == i
      invariant forall k :: 0 <= k < i ==> groups[k].Value() == Seeded(candidates[k], geometry)
    {
      var group := SeedGroup(candidates[i], geometry);
      groups := groups + [group];
    }
  }

  method SeedGroup(framing: ExistingFraming, geometry: map<EntityId, Geometry>) returns (group: GroupAccumulator)
    ensures fresh(group) && group.Value() == Seeded(framing, geometry)
  {
    hide PushedAll, SeedMembers, Pushed;
    var ids := framing.memberSessionIds;
    group := new GroupAccumulator(Some(framing.id), ids == []);
    ghost var start := group.Value();
    NothingSeeded(start, geometry);
    assert ids[..0] == [];
    for i := 0 to |ids|
      invariant fresh(group)
      invariant group.Value() == PushedAll(start, SeedMembers(ids[..i], geometry))
    {
      SeedMembersExtend(ids, geometry, i);
      if ids[i] in geometry {
        var m := Member(ids[i], geometry[ids[i]]);
        PushedAllExtend(start, SeedMembers(ids[..i], geometry), m);
        group.Push(m);
      }
    }
    assert ids[..|ids|] == ids;
  }

  lemma NothingSeeded(g: Group, geometry: map<EntityId, Geometry>)
    ensures PushedAll(g, SeedMembers([], geometry)) == g
  {}

  lemma SeedMembersExtend(ids: seq<EntityId>, geometry: map<EntityId, Geometry>, i: nat)
    requires i < |ids|
    ensures SeedMembers(ids[..i + 1], geometry)
         == SeedMembers(ids[..i], geometry) + (if ids[i] in geometry then [Member(ids[i], geometry[ids[i]])] else [])
    ensures ids[i] !in geometry ==> SeedMembers(ids[..i + 1], geometry) == SeedMembers(ids[..i], geometry)
  {
    assert ids[..i + 1][..i] == ids[..i];
  }

  lemma PushedAllExtend(g: Group, ms: seq<Member>, m: Member)
    ensures PushedAll(g, ms + [m]) == Pushed(PushedAll(g, ms), m)
  {
    assert (ms + [m])[..|ms|] == ms;
  }

  /** The accumulator a member joins; a new one at the end when none matches. */
  method ChooseGroup(sky: Sky, params: ToleranceParams, groups0: seq<GroupAccumulator>, m: Member)
    returns (groups: seq<GroupAccumulator>, index: nat)
    requires Separate(groups0)
    ensures index == Chosen(sky, params, Values(groups0), m.geometry) < |groups|
    ensures Separate(groups) && groups0 <= groups && forall g :: g in groups ==> g in groups0 || fresh(g)
    ensures Values(groups) == Opened(sky, params, Values(groups0), m.geometry)
  {
    groups := groups0;
    match BestMatchingGroup(sky, params, Values(groups), m.geometry) {
      case Some(i) =>
        index := i;
      case None =>
        var group := new GroupAccumulator(None, false);
        groups := groups + [group];
        index := |groups| - 1;
    }
  }

  /** Pushing into one accumulator changes that one value. */
  method PushInto(groups: seq<GroupAccumulator>, index: nat, m: Member)
    requires Separate(groups) && index < |groups|
    modifies groups[index]
    ensures Values(groups) == old(Values(groups))[index := Pushed(old(Values(groups))[index], m)]
  {
    ghost var before := Values(groups);
    groups[index].Push(m);
    assert forall i :: 0 <= i < |groups| && i != index ==> groups[i].Value() == before[i];
  }

  /** One round of the member loop: choose, push, record the assignment. */
  method PlaceMember(sky: Sky, params: ToleranceParams, candidateCount: nat, offset: nat,
                     groups0: seq<GroupAccumulator>, resolved0: map<EntityId, Assignment>, m: Member)
    returns (groups: seq<GroupAccumulator>, resolved: map<EntityId, Assignment>)
    requires Separate(groups0) && NewGroupsLast(Values(groups0), candidateCount)
    modifies groups0
    ensures Separate(groups) && groups0 <= groups && forall g :: g in groups ==> g in groups0 || fresh(g)
    ensures Progress(Values(groups), resolved)
         == StepMember(sky, params, candidateCount, offset, Progress(old(Values(groups0)), resolved0), m)
  {
    hide BestMatchingGroup, Chosen, Opened, Pushed;
    var index;
    groups, index := ChooseGroup(sky, params, groups0, m);
    assert groups[index] in groups;
    PushInto(groups, index, m);
    resolved := resolved0[m.sessionId := AssignmentAt(groups[index].Value(), index, candidateCount, offset)];
  }

  lemma StepMembersExtend(sky: Sky, params: ToleranceParams, candidateCount: nat, offset: nat, p: Progress,
                          ms: seq<Member>, i: nat)
    requires i < |ms| && NewGroupsLast(p.groups, candidateCount)
    ensures StepMembers(sky, params, candidateCount, offset, p, ms[..i + 1])
         == StepMember(sky, params, candidateCount, offset,
                       StepMembers(sky, params, candidateCount, offset, p, ms[..i]), ms[i])
  {
    assert ms[..i + 1][..i] == ms[..i];
  }

  lemma NoSteps(sky: Sky, params: ToleranceParams, candidateCount: nat, offset: nat, p: Progress)
    requires NewGroupsLast(p.groups, candidateCount)
    ensures StepMembers(sky, params, candidateCount, offset, p, []) == p
  {}

  /** The new groups of a partition, rendered in order. */
  method EmitGroups(sky: Sky, params: ToleranceParams, key: PartitionKey, newFramings0: seq<NewFramingGroup>,
                    groups: seq<Group>)
    returns (newFramings: seq<NewFramingGroup>)
    ensures newFramings == newFramings0 + EmittedAll(sky, params, key, groups)
  {
    newFramings := newFramings0;
    for i := 0 to |groups|
      invariant newFramings == newFramings0 + EmittedAll(sky, params, key, groups[..i])
    {
      newFramings := newFramings + [Emitted(sky, params, key, groups[i])];
    }
    assert groups[..|groups|] == groups;
  }

  /** Seeds the candidate framings, then places the members in order. */
  method PlaceMembers(inputs: Inputs, candidates: seq<ExistingFraming>, members: seq<Member>, t: Totals)
    returns (values: seq<Group>, resolved: map<EntityId, Assignment>)
    ensures Progress(values, resolved)
         == StepMembers(inputs.sky, inputs.params, |candidates|, |t.newFramings|,
                        Progress(SeededGroups(candidates, inputs.geometry), t.resolved), members)
  {
    hide StepMember, StepMembers, SeededGroups, Values, Separate;
    var groups := SeedGroups(candidates, inputs.geometry);
    resolved := t.resolved;
    var offset := |t.newFramings|;
    ghost var start := Progress(SeededGroups(candidates, inputs.geometry), resolved);
    assert members[..0] == [];
    NoSteps(inputs.sky, inputs.params, |candidates|, offset, start);
    for i := 0 to |members|
      invariant Separate(groups) && forall g :: g in groups ==> fresh(g)
      invariant Progress(Values(groups), resolved)
             == StepMembers(inputs.sky, inputs.params, |candidates|, offset, start, members[..i])
    {
      StepMembersExtend(inputs.sky, inputs.params, |candidates|, offset, start, members, i);
      assert forall k :: 0 <= k < |groups| ==> groups[k] in groups;
      groups, resolved := PlaceMember(inputs.sky, inputs.params, |candidates|, offset, groups, resolved, members[i]);
    }
    assert members[..|members|] == members;
    values := Values(groups);
  }

  /** `cluster_partition`, with the vector and the map it extends as results. */
  method ClusterPartition(inputs: Inputs, key: PartitionKey, members: seq<Member>, t: Totals) returns (r: Totals)
    ensures r == PartitionStep(inputs, key, members, t)
  {
    hide StepMembers, SeededGroups, CandidatesFor;
    var candidates := CandidatesFor(inputs.existing, key);
    var values, resolved := PlaceMembers(inputs, candidates, members, t);
    var newFramings := EmitGroups(inputs.sky, inputs.params, key, t.newFramings, values[|candidates|..]);
    r := Totals(newFramings, resolved);
  }

  // ----- Splitting ----------------------------------------------------------

  /** The eager pass over the sessions: known members and exclusions are resolved, usable geometry is
      recorded, the rest is left to cluster. */
  method Sift(sessions: seq<SessionGeometry>, framingOf: map<EntityId, EntityId>)
    returns (resolved: map<EntityId, Assignment>, geometry: map<EntityId, Geometry>, clusterable: seq<Candidate>)
    ensures resolved == Resolved(sessions, framingOf)
    ensures geometry == GeometryById(sessions)
    ensures clusterable == Candidates(sessions, framingOf)
  {
    hide Resolved, GeometryById, Candidates, Classify, SeedGeometry;
    resolved, geometry, clusterable := map[], map[], [];
    NothingSifted(framingOf);
    assert sessions[..0] == [];
    for i := 0 to |sessions|
      invariant resolved == Resolved(sessions[..i], framingOf)
      invariant geometry == GeometryById(sessions[..i])
      invariant clusterable == Candidates(sessions[..i], framingOf)
    {
      var session := sessions[i];
      SiftOne(sessions, framingOf, i);
      match SeedGeometry(session) {
        case Some(g) => geometry := geometry[session.sessionId := g];
        case None =>
      }
      match Classify(session, framingOf) {
        case Known(f) =>
          resolved := resolved[session.sessionId := JoinExisting(f)];
        case Excluded(reason) =>
          resolved := resolved[session.sessionId := Unassigned(reason)];
        case Clusterable(key, g) =>
          clusterable := clusterable + [(key, Member(session.sessionId, g))];
      }
    }
    assert sessions[..|sessions|] == sessions;
  }

  lemma NothingSifted(framingOf: map<EntityId, EntityId>)
    ensures Resolved([], framingOf) == map[] && GeometryById([]) == map[] && Candidates([], framingOf) == []
  {}

  /** What one more session adds. */
  lemma SiftOne(sessions: seq<SessionGeometry>, framingOf: map<EntityId, EntityId>, i: nat)
    requires i < |sessions|
    ensures var s := sessions[i];
            var resolved, clusterable := Resolved(sessions[..i], framingOf), Candidates(sessions[..i], framingOf);
            && GeometryById(sessions[..i + 1]) ==
               (match SeedGeometry(s)
                case Some(g) => GeometryById(sessions[..i])[s.sessionId := g]
                case None => GeometryById(sessions[..i]))
            && match Classify(s, framingOf)
               case Known(f) =>
                 && Resolved(sessions[..i + 1], framingOf) == resolved[s.sessionId := JoinExisting(f)]
                 && Candidates(sessions[..i + 1], framingOf) == clusterable
               case Excluded(reason) =>
                 && Resolved(sessions[..i + 1], framingOf) == resolved[s.sessionId := Unassigned(reason)]
                 && Candidates(sessions[..i + 1], framingOf) == clusterable
               case Clusterable(key, g) =>
                 && Resolved(sessions[..i + 1], framingOf) == resolved
                 && Candidates(sessions[..i + 1], framingOf) == clusterable + [(key, Member(s.sessionId, g))]
  {
    hide Classify, SeedGeometry;
    assert sessions[..i + 1][..i] == sessions[..i];
  }

  ghost predicate PartitionsOf(sorted: seq<Candidate>, partitions: map<PartitionKey, seq<Member>>) {
    && partitions.Keys == KeysOf(sorted)
    && forall key :: key in partitions ==> partitions[key] == MembersAt(sorted, key)
  }

  lemma {:induction false} MembersAtAbsent(sorted: seq<Candidate>, key: PartitionKey)
    requires key !in KeysOf(sorted)
    ensures MembersAt(sorted, key) == []
  {
    if sorted != [] {
      assert sorted[|sorted| - 1] in sorted;
      assert KeysOf(sorted[..|sorted| - 1]) <= KeysOf(sorted);
      MembersAtAbsent(sorted[..|sorted| - 1], key);
    }
  }

  lemma PartitionsStep(sorted: seq<Candidate>, i: nat, partitions: map<PartitionKey, seq<Member>>)
    requires i < |sorted| && PartitionsOf(sorted[..i], partitions)
    ensures var (key, m) := sorted[i];
            var before := if key in partitions then partitions[key] else [];
            PartitionsOf(sorted[..i + 1], partitions[key := before + [m]])
  {
    var (key, m) := sorted[i];
    assert sorted[..i + 1][..i] == sorted[..i];
    assert sorted[..i + 1] == sorted[..i] + [sorted[i]];
    if key !in partitions {
      MembersAtAbsent(sorted[..i], key);
    }
    assert KeysOf(sorted[..i + 1]) == KeysOf(sorted[..i]) + {key};
  }

  /** Groups the sorted sessions by target and optic train. */
  method Partition(sorted: seq<Candidate>) returns (partitions: map<PartitionKey, seq<Member>>)
    ensures PartitionsOf(sorted, partitions)
  {
    partitions := map[];
    for i := 0 to |sorted|
      invariant PartitionsOf(sorted[..i], partitions)
    {
      PartitionsStep(sorted, i, partitions);
      var (key, m) := sorted[i];
      var before := if key in partitions then partitions[key] else [];
      partitions := partitions[key := before + [m]];
    }
    assert sorted[..|sorted|] == sorted;
  }

  // ----- The whole pass -----------------------------------------------------

  datatype Derivation = Completed(result: ClusteringResult) | Panicked

  method OrderedKeys(keys: set<PartitionKey>) returns (r: seq<PartitionKey>)
    ensures forall k :: k in r ==> k in keys
    ensures Preorder(PairLe(IdLe, StringLe)) && Antisymmetric(PairLe(IdLe, StringLe))
    ensures r == Ascending(PairLe(IdLe, StringLe), keys)
  {
    KeyOrderIsTotal();
    r := Ascending(PairLe(IdLe, StringLe), keys);
    AscendingElements(PairLe(IdLe, StringLe), keys);
  }

  /** Partitions in key order, each extending the totals. */
  method ClusterPartitions(inputs: Inputs, sorted: seq<Candidate>, resolved: map<EntityId, Assignment>)
    returns (t: Totals)
    ensures t == PartitionSteps(inputs, sorted, KeyList(sorted), Totals([], resolved))
  {
    hide PartitionStep, Ascending, Preorder, Antisymmetric, MembersAt;
    var partitions := Partition(sorted);
    var keys := OrderedKeys(partitions.Keys);
    t := Totals([], resolved);
    assert keys[..0] == [];
    for i := 0 to |keys|
      invariant t == PartitionSteps(inputs, sorted, keys[..i], Totals([], resolved))
    {
      assert keys[..i + 1][..i] == keys[..i];
      t := ClusterPartition(inputs, keys[i], partitions[keys[i]], t);
    }
    assert keys[..|keys|] == keys;
  }

  /** Takes each session's assignment out of the map; a missing entry is the panic of `expect`. */
  method Collect(sessions: seq<SessionGeometry>, resolved0: map<EntityId, Assignment>)
    returns (found: bool, assignments: seq<(EntityId, Assignment)>)
    requires forall s :: s in sessions ==> s.sessionId in resolved0
    ensures found <==> DistinctIds(sessions)
    ensures found ==> assignments == AssignmentList(sessions, resolved0)
  {
    var resolved := resolved0;
    assignments := [];
    for i := 0 to |sessions|
      invariant DistinctIds(sessions[..i])
      invariant assignments == AssignmentList(sessions[..i], resolved0)
      invariant forall id :: id in resolved <==>
                  id in resolved0 && forall k :: 0 <= k < i ==> sessions[k].sessionId != id
      invariant forall id :: id in resolved ==> resolved[id] == resolved0[id]
    {
      var session := sessions[i];
      assert session in sessions;
      if session.sessionId !in resolved {
        return false, assignments;
      }
      assignments := assignments + [(session.sessionId, resolved[session.sessionId])];
      resolved := resolved - {session.sessionId};
    }
    assert sessions[..|sessions|] == sessions;
    return true, assignments;
  }

  ghost function AssignmentList(sessions: seq<SessionGeometry>, resolved: map<EntityId, Assignment>):
    (r: seq<(EntityId, Assignment)>)
    requires forall s :: s in sessions ==> s.sessionId in resolved
    ensures |r| == |sessions|
  {
    seq(|sessions|, i requires 0 <= i < |sessions| =>
      assert sessions[i] in sessions; (sessions[i].sessionId, resolved[sessions[i].sessionId]))
  }

  /** `derive_clustering`. It panics exactly when two sessions share an id; otherwise it returns one
      assignment per session, in input order, and the new framings. */
  method DeriveClustering(sky: Sky, params: ToleranceParams, existing: seq<ExistingFraming>,
                          sessions: seq<SessionGeometry>)
    returns (outcome: Derivation)
    ensures outcome.Panicked? <==> !DistinctIds(sessions)
    ensures outcome.Completed? ==>
              var t := Derived(sky, params, existing, sessions);
              && outcome.result.newFramings == t.newFramings
              && |outcome.result.assignments| == |sessions|
              && forall i :: 0 <= i < |sessions| ==>
                   sessions[i].sessionId in t.resolved
                   && outcome.result.assignments[i] == (sessions[i].sessionId, t.resolved[sessions[i].sessionId])
  {
    hide FramingOf, Resolved, GeometryById, PartitionSteps, KeyList;
    var framingOf := FramingOf(existing);
    var resolved, geometry, clusterable := Sift(sessions, framingOf);
    var sorted := Sort(ById, clusterable);
    var t := ClusterPartitions(Inputs(sky, params, existing, geometry), sorted, resolved);
    forall s | s in sessions ensures s.sessionId in t.resolved {
      FramingTheorems.EverySessionIsResolved(sky, params, existing, sessions, s);
    }
    var found, assignments := Collect(sessions, t.resolved);
    if !found {
      return Panicked;
    }
    return Completed(ClusteringResult(assignments, t.newFramings));
  }
}
