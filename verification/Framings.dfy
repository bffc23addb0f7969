/** Framing clustering: the data and the meaning of each stage as a function. */
module Framings {
  import opened Options
  import opened Orders

  /** Ids compare as 128-bit numbers. */
  type EntityId = int

  /** A floating-point reading; arithmetic on finite ones is arithmetic on reals. */
  datatype Reading = Finite(value: real) | NotFinite

  datatype SessionGeometry = SessionGeometry(
    sessionId: EntityId,
    targetId: Option<EntityId>,
    opticTrainKey: Option<string>,
    pointing: Option<(Reading, Reading)>,
    rotation: Option<Reading>,
    fovDiagonal: Option<Reading>)

  datatype FramingOrigin = Suggested | UserAdjusted

  datatype ExistingFraming = ExistingFraming(
    id: EntityId,
    targetId: Option<EntityId>,
    opticTrainKey: string,
    clustering: FramingOrigin,
    memberSessionIds: seq<EntityId>)

  datatype ToleranceParams = ToleranceParams(
    pointingFractionOfFov: real, pointingFallback: real, rotationTolerance: real)

  datatype UnassignedReason = MissingTarget | MissingOpticTrain | MissingPointing | MissingRotation | UnusableGeometry

  datatype Assignment = JoinExisting(framing: EntityId) | NewFraming(index: nat) | Unassigned(reason: UnassignedReason)

  datatype Pointing = Pointing(ra: real, dec: real)

  /** Usable geometry of one session. */
  datatype Geometry = Geometry(pointing: Pointing, rotation: real, fov: Option<real>)

  datatype Member = Member(sessionId: EntityId, geometry: Geometry)

  datatype NewFramingGroup = NewFramingGroup(
    targetId: EntityId,
    opticTrainKey: string,
    representative: Pointing,
    representativeRotation: real,
    pointingTolerance: real,
    rotationTolerance: real,
    toleranceIsFallback: bool,
    sessionIds: seq<EntityId>)

  datatype ClusteringResult = ClusteringResult(
    assignments: seq<(EntityId, Assignment)>,
    newFramings: seq<NewFramingGroup>)

  /** The spherical functions of the sky library, as parameters. A circular mean is a function of
      the angles pushed so far. */
  datatype Sky = Sky(
    separation: (Pointing, Pointing) -> real,
    axialDistance: (real, real) -> real,
    circularMean: seq<real> -> real,
    axialMean: seq<real> -> real)

  // ----- One session --------------------------------------------------------

  function FiniteGeometry(pointing: (Reading, Reading), rotation: Reading, fov: Option<Reading>): Option<Geometry> {
    if pointing.0.Finite? && pointing.1.Finite? && rotation.Finite? && (fov.Some? ==> fov.value.Finite?)
    then Some(Geometry(Pointing(pointing.0.value, pointing.1.value), rotation.value,
                       if fov.Some? then Some(fov.value.value) else None))
    else None
  }

  /** The geometry recorded for seeding: complete, finite, with a target and an optic train. */
  function SeedGeometry(s: SessionGeometry): Option<Geometry> {
    if s.pointing.Some? && s.rotation.Some? && s.targetId.Some? && s.opticTrainKey.Some?
    then FiniteGeometry(s.pointing.value, s.rotation.value, s.fovDiagonal)
    else None
  }

  /** Target and optic train: tolerances apply only within one such key. */
  type PartitionKey = (EntityId, string)

  datatype Class =
    | Known(framing: EntityId)
    | Excluded(reason: UnassignedReason)
    | Clusterable(key: PartitionKey, geometry: Geometry)

  function Classify(s: SessionGeometry, framingOf: map<EntityId, EntityId>): Class {
    if s.sessionId in framingOf then Known(framingOf[s.sessionId])
    else if s.targetId.None? then Excluded(MissingTarget)
    else if s.opticTrainKey.None? then Excluded(MissingOpticTrain)
    else if s.pointing.None? then Excluded(MissingPointing)
    else if s.rotation.None? then Excluded(MissingRotation)
    else match FiniteGeometry(s.pointing.value, s.rotation.value, s.fovDiagonal)
      case None => Excluded(UnusableGeometry)
      case Some(g) => Clusterable((s.targetId.value, s.opticTrainKey.value), g)
  }

  // ----- Splitting the sessions ---------------------------------------------

  /** Declared membership; a later declaration of the same session wins. */
  function MembersOf(framing: EntityId, ids: seq<EntityId>, m: map<EntityId, EntityId>): map<EntityId, EntityId> {
    if ids == [] then m else MembersOf(framing, ids[..|ids| - 1], m)[ids[|ids| - 1] := framing]
  }

  function FramingOf(existing: seq<ExistingFraming>): map<EntityId, EntityId> {
    if existing == [] then map[]
    else
      var last := existing[|existing| - 1];
      MembersOf(last.id, last.memberSessionIds, FramingOf(existing[..|existing| - 1]))
  }

  /** Assignments decided before clustering. */
  function Resolved(sessions: seq<SessionGeometry>, framingOf: map<EntityId, EntityId>): map<EntityId, Assignment> {
    if sessions == [] then map[]
    else
      var s := sessions[|sessions| - 1];
      var m := Resolved(sessions[..|sessions| - 1], framingOf);
      match Classify(s, framingOf)
      case Known(f) => m[s.sessionId := JoinExisting(f)]
      case Excluded(reason) => m[s.sessionId := Unassigned(reason)]
      case Clusterable(_, _) => m
  }

  function GeometryById(sessions: seq<SessionGeometry>): map<EntityId, Geometry> {
    if sessions == [] then map[]
    else
      var s := sessions[|sessions| - 1];
      var m := GeometryById(sessions[..|sessions| - 1]);
      match SeedGeometry(s)
      case Some(g) => m[s.sessionId := g]
      case None => m
  }

  type Candidate = (PartitionKey, Member)

  function Candidates(sessions: seq<SessionGeometry>, framingOf: map<EntityId, EntityId>): seq<Candidate> {
    if sessions == [] then []
    else
      var s := sessions[|sessions| - 1];
      Candidates(sessions[..|sessions| - 1], framingOf) +
      (match Classify(s, framingOf)
       case Clusterable(key, g) => [(key, Member(s.sessionId, g))]
       case _ => [])
  }

  predicate ById(a: Candidate, b: Candidate) {
    a.1.sessionId <= b.1.sessionId
  }

  /** `sort_by_key` on the session id. */
  function SortedCandidates(sessions: seq<SessionGeometry>, framingOf: map<EntityId, EntityId>): seq<Candidate> {
    Sort(ById, Candidates(sessions, framingOf))
  }

  /** One partition, in id order. */
  function MembersAt(sorted: seq<Candidate>, key: PartitionKey): seq<Member> {
    if sorted == [] then []
    else
      var last := sorted[|sorted| - 1];
      MembersAt(sorted[..|sorted| - 1], key) + (if last.0 == key then [last.1] else [])
  }

  function KeysOf(sorted: seq<Candidate>): set<PartitionKey> {
    set c | c in sorted :: c.0
  }

  predicate IdLe(a: EntityId, b: EntityId) { a <= b }

  lemma KeyOrderIsTotal()
    ensures Preorder(PairLe(IdLe, StringLe)) && Antisymmetric(PairLe(IdLe, StringLe))
  {
    StringLeIsTotalOrder();
    PairLeIsTotalOrder(IdLe, StringLe);
  }

  /** Partitions are visited in key order. */
  function KeyList(sorted: seq<Candidate>): seq<PartitionKey> {
    KeyOrderIsTotal();
    Ascending(PairLe(IdLe, StringLe), KeysOf(sorted))
  }

  // ----- One group ----------------------------------------------------------

  datatype Group = Group(
    existingId: Option<EntityId>,
    declaredEmpty: bool,
    ras: seq<real>,
    sumDec: real,
    rotations: seq<real>,
    count: nat,
    seedUsedFallback: bool,
    sessionIds: seq<EntityId>)

  function EmptyGroup(existingId: Option<EntityId>, declaredEmpty: bool): Group {
    Group(existingId, declaredEmpty, [], 0.0, [], 0, false, [])
  }

  function Pushed(g: Group, m: Member): Group {
    Group(g.existingId, g.declaredEmpty,
          g.ras + [m.geometry.pointing.ra],
          g.sumDec + m.geometry.pointing.dec,
          g.rotations + [m.geometry.rotation],
          g.count + 1,
          if g.count == 0 then m.geometry.fov.None? else g.seedUsedFallback,
          g.sessionIds + [m.sessionId])
  }

  function RepresentativePointing(sky: Sky, g: Group): Pointing {
    var count := if g.count > 1 then g.count as real else 1.0;
    Pointing(sky.circularMean(g.ras), g.sumDec / count)
  }

  function RepresentativeRotation(sky: Sky, g: Group): real {
    sky.axialMean(g.rotations)
  }

  function PointingTolerance(params: ToleranceParams, g: Geometry): real {
    match g.fov
    case None => params.pointingFallback
    case Some(diagonal) => params.pointingFractionOfFov * diagonal
  }

  const EPSILON: real := 0.000000001

  function Distance(sky: Sky, g: Group, x: Geometry): real {
    sky.separation(x.pointing, RepresentativePointing(sky, g))
  }

  /** A seeded group whose representative lies within both tolerances. */
  predicate InTolerance(sky: Sky, params: ToleranceParams, g: Group, x: Geometry) {
    && g.count > 0
    && Distance(sky, g, x) <= PointingTolerance(params, x)
    && sky.axialDistance(x.rotation, RepresentativeRotation(sky, g)) <= params.rotationTolerance + EPSILON
  }

  /** `min_by` over the groups in tolerance: the first of the nearest. */
  function Nearest(sky: Sky, params: ToleranceParams, groups: seq<Group>, x: Geometry): (r: Option<nat>)
    ensures r.None? ==> forall j :: 0 <= j < |groups| ==> !InTolerance(sky, params, groups[j], x)
    ensures r.Some? ==>
              && r.value < |groups| && InTolerance(sky, params, groups[r.value], x)
              && forall j :: 0 <= j < |groups| && InTolerance(sky, params, groups[j], x) ==>
                   Distance(sky, groups[r.value], x) < Distance(sky, groups[j], x)
                   || (Distance(sky, groups[r.value], x) == Distance(sky, groups[j], x) && r.value <= j)
  {
    if groups == [] then None
    else
      var last := |groups| - 1;
      var best := Nearest(sky, params, groups[..last], x);
      if !InTolerance(sky, params, groups[last], x) then best
      else if best.Some? && Distance(sky, groups[best.value], x) <= Distance(sky, groups[last], x) then best
      else Some(last)
  }

  predicate WaitingEmpty(g: Group) {
    g.existingId.Some? && g.count == 0 && g.declaredEmpty
  }

  function FirstWaiting(groups: seq<Group>): (r: Option<nat>)
    ensures r.None? ==> forall j :: 0 <= j < |groups| ==> !WaitingEmpty(groups[j])
    ensures r.Some? ==> r.value < |groups| && WaitingEmpty(groups[r.value])
                        && forall j :: 0 <= j < r.value ==> !WaitingEmpty(groups[j])
  {
    if groups == [] then None
    else
      var r := FirstWaiting(groups[..|groups| - 1]);
      if r.Some? then r
      else if WaitingEmpty(groups[|groups| - 1]) then Some(|groups| - 1)
      else None
  }

  /** `best_matching_group`. */
  function BestMatchingGroup(sky: Sky, params: ToleranceParams, groups: seq<Group>, x: Geometry): (r: Option<nat>)
    ensures r.Some? ==> r.value < |groups|
  {
    var near := Nearest(sky, params, groups, x);
    if near.Some? then near else FirstWaiting(groups)
  }

  // ----- One partition ------------------------------------------------------

  predicate IsCandidate(f: ExistingFraming, key: PartitionKey) {
    f.clustering == Suggested && f.targetId == Some(key.0) && f.opticTrainKey == key.1
  }

  function CandidatesFor(existing: seq<ExistingFraming>, key: PartitionKey): seq<ExistingFraming> {
    if existing == [] then []
    else
      var last := existing[|existing| - 1];
      CandidatesFor(existing[..|existing| - 1], key) + (if IsCandidate(last, key) then [last] else [])
  }

  /** The declared members whose geometry is known in this call, in declaration order. */
  function SeedMembers(ids: seq<EntityId>, geometry: map<EntityId, Geometry>): seq<Member> {
    if ids == [] then []
    else
      var last := ids[|ids| - 1];
      SeedMembers(ids[..|ids| - 1], geometry) + (if last in geometry then [Member(last, geometry[last])] else [])
  }

  function PushedAll(g: Group, ms: seq<Member>): (r: Group)
    ensures r.existingId == g.existingId
  {
    if ms == [] then g else Pushed(PushedAll(g, ms[..|ms| - 1]), ms[|ms| - 1])
  }

  function Seeded(f: ExistingFraming, geometry: map<EntityId, Geometry>): (r: Group)
    ensures r.existingId == Some(f.id)
  {
    PushedAll(EmptyGroup(Some(f.id), f.memberSessionIds == []), SeedMembers(f.memberSessionIds, geometry))
  }

  function SeededGroups(candidates: seq<ExistingFraming>, geometry: map<EntityId, Geometry>): (groups: seq<Group>)
    ensures |groups| == |candidates|
    ensures forall i :: 0 <= i < |candidates| ==> groups[i].existingId == Some(candidates[i].id)
  {
    seq(|candidates|, i requires 0 <= i < |candidates| => Seeded(candidates[i], geometry))
  }

  /** What one partition pass has built: its groups, and the assignments so far. */
  datatype Progress = Progress(groups: seq<Group>, resolved: map<EntityId, Assignment>)

  /** Where a group shows in the result: `candidateCount` groups stand for existing framings, and the
      partition's new groups follow the `offset` new framings of earlier partitions. */
  function AssignmentAt(g: Group, index: nat, candidateCount: nat, offset: nat): Assignment
    requires g.existingId.None? ==> candidateCount <= index
  {
    match g.existingId
    case Some(id) => JoinExisting(id)
    case None => NewFraming(offset + (index - candidateCount))
  }

  /** Groups without a framing come after the candidates' groups, so the subtraction above is safe. */
  predicate NewGroupsLast(groups: seq<Group>, candidateCount: nat) {
    && candidateCount <= |groups|
    && forall i :: 0 <= i < |groups| && groups[i].existingId.None? ==> candidateCount <= i
  }

  /** The group a member joins; a fresh one when none matches. */
  function Chosen(sky: Sky, params: ToleranceParams, groups: seq<Group>, x: Geometry): nat {
    match BestMatchingGroup(sky, params, groups, x)
    case Some(i) => i
    case None => |groups|
  }

  function Opened(sky: Sky, params: ToleranceParams, groups: seq<Group>, x: Geometry): (r: seq<Group>)
    ensures Chosen(sky, params, groups, x) < |r|
  {
    if BestMatchingGroup(sky, params, groups, x).Some? then groups else groups + [EmptyGroup(None, false)]
  }

  function StepMember(sky: Sky, params: ToleranceParams, candidateCount: nat, offset: nat, p: Progress,
                      m: Member): (r: Progress)
    requires NewGroupsLast(p.groups, candidateCount)
    ensures NewGroupsLast(r.groups, candidateCount)
  {
    var i := Chosen(sky, params, p.groups, m.geometry);
    var groups := Opened(sky, params, p.groups, m.geometry);
    var joined := groups[i := Pushed(groups[i], m)];
    Progress(joined, p.resolved[m.sessionId := AssignmentAt(joined[i], i, candidateCount, offset)])
  }

  function StepMembers(sky: Sky, params: ToleranceParams, candidateCount: nat, offset: nat, p: Progress,
                       ms: seq<Member>): (r: Progress)
    requires NewGroupsLast(p.groups, candidateCount)
    ensures NewGroupsLast(r.groups, candidateCount)
  {
    if ms == [] then p
    else StepMember(sky, params, candidateCount, offset,
                    StepMembers(sky, params, candidateCount, offset, p, ms[..|ms| - 1]), ms[|ms| - 1])
  }

  function Emitted(sky: Sky, params: ToleranceParams, key: PartitionKey, g: Group): NewFramingGroup {
    NewFramingGroup(key.0, key.1, RepresentativePointing(sky, g), RepresentativeRotation(sky, g),
                    if g.seedUsedFallback then params.pointingFallback else params.pointingFractionOfFov,
                    params.rotationTolerance, g.seedUsedFallback, g.sessionIds)
  }

  function EmittedAll(sky: Sky, params: ToleranceParams, key: PartitionKey,
                      groups: seq<Group>): (r: seq<NewFramingGroup>)
    ensures |r| == |groups|
    ensures forall i :: 0 <= i < |groups| ==> r[i] == Emitted(sky, params, key, groups[i])
  {
    seq(|groups|, i requires 0 <= i < |groups| => Emitted(sky, params, key, groups[i]))
  }

  // ----- The whole pass -----------------------------------------------------

  datatype Totals = Totals(newFramings: seq<NewFramingGroup>, resolved: map<EntityId, Assignment>)

  /** Everything a partition pass looks at, apart from the totals it extends. */
  datatype Inputs = Inputs(
    sky: Sky, params: ToleranceParams, existing: seq<ExistingFraming>, geometry: map<EntityId, Geometry>)

  function PartitionRun(inputs: Inputs, key: PartitionKey, ms: seq<Member>, t: Totals): (r: Progress)
    ensures NewGroupsLast(r.groups, |CandidatesFor(inputs.existing, key)|)
  {
    var candidates := CandidatesFor(inputs.existing, key);
    StepMembers(inputs.sky, inputs.params, |candidates|, |t.newFramings|,
                Progress(SeededGroups(candidates, inputs.geometry), t.resolved), ms)
  }

  /** `cluster_partition`. */
  function PartitionStep(inputs: Inputs, key: PartitionKey, ms: seq<Member>, t: Totals): Totals {
    var p := PartitionRun(inputs, key, ms, t);
    var added := p.groups[|CandidatesFor(inputs.existing, key)|..];
    Totals(t.newFramings + EmittedAll(inputs.sky, inputs.params, key, added), p.resolved)
  }

  function PartitionSteps(inputs: Inputs, sorted: seq<Candidate>, keys: seq<PartitionKey>, t: Totals): Totals {
    if keys == [] then t
    else
      var key := keys[|keys| - 1];
      PartitionStep(inputs, key, MembersAt(sorted, key), PartitionSteps(inputs, sorted, keys[..|keys| - 1], t))
  }

  function InputsOf(sky: Sky, params: ToleranceParams, existing: seq<ExistingFraming>,
                    sessions: seq<SessionGeometry>): Inputs {
    Inputs(sky, params, existing, GeometryById(sessions))
  }

  /** The new framings and the assignment of every session. */
  function Derived(sky: Sky, params: ToleranceParams, existing: seq<ExistingFraming>,
                   sessions: seq<SessionGeometry>): Totals {
    var framingOf := FramingOf(existing);
    var sorted := SortedCandidates(sessions, framingOf);
    PartitionSteps(InputsOf(sky, params, existing, sessions), sorted, KeyList(sorted),
                   Totals([], Resolved(sessions, framingOf)))
  }

  ghost predicate DistinctIds(sessions: seq<SessionGeometry>) {
    forall i, j :: 0 <= i < j < |sessions| ==> sessions[i].sessionId != sessions[j].sessionId
  }
}
