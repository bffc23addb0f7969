/** Manual relation reviews and current panel heads: the validators put together. */
module Reviews {
  import opened RelationTypes
  import opened Graphs
  import opened Mosaic
  import opened Fingerprint
  import Bridges
  import Lineage

  // ----- Current panel heads ------------------------------------------------

  datatype PanelGroupRevision = PanelGroupRevision(sessionIds: set<Id>, representativeSessionId: Id)

  datatype Fault = NoFault | Fault(error: RelationError)

  /** `PanelGroupRevision::validate`. */
  function RevisionFault(revision: PanelGroupRevision): Fault {
    if revision.sessionIds == {} then Fault(EmptyPanelMembership)
    else if revision.representativeSessionId !in revision.sessionIds then Fault(RepresentativeNotMember)
    else NoFault
  }

  ghost predicate Coexist(revision: PanelGroupRevision, supersessions: seq<(Id, Id)>) {
    exists s :: s in supersessions && s.0 in revision.sessionIds && s.1 in revision.sessionIds
  }

  /** What is wrong with head `k`, given the heads before it. */
  ghost function HeadFault(revisions: seq<PanelGroupRevision>, supersessions: seq<(Id, Id)>, k: nat): Fault
    requires k < |revisions|
  {
    if RevisionFault(revisions[k]).Fault? then RevisionFault(revisions[k])
    else if exists i :: 0 <= i < k && revisions[i].sessionIds * revisions[k].sessionIds != {} then
      Fault(DuplicateCurrentPanelMembership)
    else if Coexist(revisions[k], supersessions) then Fault(PredecessorAndReplacementCoexist)
    else NoFault
  }

  ghost function Members(revisions: seq<PanelGroupRevision>): set<Id> {
    if revisions == [] then {} else Members(revisions[..|revisions| - 1]) + revisions[|revisions| - 1].sessionIds
  }

  lemma {:induction false} MembersMeans(revisions: seq<PanelGroupRevision>)
    ensures forall x :: x in Members(revisions) <==> exists i :: 0 <= i < |revisions| && x in revisions[i].sessionIds
  {
    if revisions != [] {
      var n := |revisions| - 1;
      MembersMeans(revisions[..n]);
      forall x ensures x in Members(revisions) <==> exists i :: 0 <= i < |revisions| && x in revisions[i].sessionIds {
        if x in Members(revisions[..n]) {
          var i :| 0 <= i < n && x in revisions[..n][i].sessionIds;
          assert x in revisions[i].sessionIds;
        }
        if i :| 0 <= i < |revisions| && x in revisions[i].sessionIds {
          assert i < n ==> x in revisions[..n][i].sessionIds;
        }
      }
    }
  }

  /** Adds one head's sessions to the seen set, stopping at the first one already there. */
  method InsertSessions(seen0: set<Id>, sessions: set<Id>) returns (unseen: bool, seen: set<Id>)
    ensures unseen <==> seen0 !! sessions
    ensures unseen ==> seen == seen0 + sessions
  {
    seen := seen0;
    var rest := sessions;
    while rest != {}
      invariant rest <= sessions
      invariant seen == seen0 + (sessions - rest)
      invariant seen0 !! sessions - rest
    {
      var session :| session in rest;
      if session in seen {
        assert session in sessions;
        return false, seen;
      }
      seen := seen + {session};
      rest := rest - {session};
    }
    return true, seen;
  }

  /** `validate_current_panel_membership`: the verdict is the fault of the first faulty head. */
  method ValidateCurrentPanelMembership(revisions: seq<PanelGroupRevision>, supersessions: seq<(Id, Id)>)
    returns (verdict: Verdict)
    ensures verdict.Accepted? <==> forall k :: 0 <= k < |revisions| ==>
              HeadFault(revisions, supersessions, k) == NoFault
    ensures verdict.Rejected? ==> exists k :: 0 <= k < |revisions|
                                     && HeadFault(revisions, supersessions, k) == Fault(verdict.error)
                                     && forall i :: 0 <= i < k ==> HeadFault(revisions, supersessions, i) == NoFault
  {
    var current: set<Id> := {};
    for k := 0 to |revisions|
      invariant current == Members(revisions[..k])
      invariant forall i :: 0 <= i < k ==> HeadFault(revisions, supersessions, i) == NoFault
    {
      var revision := revisions[k];
      if RevisionFault(revision).Fault? {
        assert HeadFault(revisions, supersessions, k) == RevisionFault(revision);
        return Rejected(RevisionFault(revision).error);
      }
      MembersMeans(revisions[..k]);
      SharedWithEarlier(revisions, k);
      var unseen, seen := InsertSessions(current, revision.sessionIds);
      if !unseen {
        assert HeadFault(revisions, supersessions, k) == Fault(DuplicateCurrentPanelMembership);
        return Rejected(DuplicateCurrentPanelMembership);
      }
      current := seen;
      if exists s :: s in supersessions && s.0 in revision.sessionIds && s.1 in revision.sessionIds {
        assert HeadFault(revisions, supersessions, k) == Fault(PredecessorAndReplacementCoexist);
        return Rejected(PredecessorAndReplacementCoexist);
      }
      assert revisions[..k + 1][..k] == revisions[..k];
    }
    return Accepted;
  }

  lemma SharedWithEarlier(revisions: seq<PanelGroupRevision>, k: nat)
    requires k < |revisions|
    ensures Members(revisions[..k]) !! revisions[k].sessionIds
       <==> !exists i :: 0 <= i < k && revisions[i].sessionIds * revisions[k].sessionIds != {}
  {
    MembersMeans(revisions[..k]);
    if i :| 0 <= i < k && revisions[i].sessionIds * revisions[k].sessionIds != {} {
      var x :| x in revisions[i].sessionIds * revisions[k].sessionIds;
      assert x in revisions[..k][i].sessionIds;
      assert x in Members(revisions[..k]);
    }
    if x :| x in Members(revisions[..k]) && x in revisions[k].sessionIds {
      var i :| 0 <= i < k && x in revisions[..k][i].sessionIds;
      assert x in revisions[i].sessionIds * revisions[k].sessionIds;
    }
  }

  /** Accepted heads partition their sessions, and keep no superseded session beside its successor. */
  lemma AcceptedHeadsAreSound(revisions: seq<PanelGroupRevision>, supersessions: seq<(Id, Id)>, i: nat, j: nat, x: Id)
    requires forall k :: 0 <= k < |revisions| ==> HeadFault(revisions, supersessions, k) == NoFault
    requires i < |revisions| && j < |revisions| && x in revisions[i].sessionIds && x in revisions[j].sessionIds
    ensures i == j
    ensures forall s :: s in supersessions && s.0 == x ==> s.1 !in revisions[i].sessionIds
    ensures revisions[i].representativeSessionId in revisions[i].sessionIds
  {
    assert HeadFault(revisions, supersessions, i) == NoFault && HeadFault(revisions, supersessions, j) == NoFault;
    assert x in revisions[i].sessionIds * revisions[j].sessionIds;
    assert x in revisions[j].sessionIds * revisions[i].sessionIds;
  }

  /** Head `k` is fine by itself and beside the heads before it. */
  ghost predicate SoundHead(revisions: seq<PanelGroupRevision>, supersessions: seq<(Id, Id)>, k: nat)
    requires k < |revisions|
  {
    var head := revisions[k];
    && head.sessionIds != {} && head.representativeSessionId in head.sessionIds
    && (forall i :: 0 <= i < k ==> revisions[i].sessionIds !! head.sessionIds)
    && forall s :: s in supersessions ==> !(s.0 in head.sessionIds && s.1 in head.sessionIds)
  }

  /** The faults of a head, each for its own reason and in this order; without one the head is not empty,
      holds its representative, shares no session with an earlier head, and keeps no superseded session
      beside its successor. */
  lemma HeadFaultMeans(revisions: seq<PanelGroupRevision>, supersessions: seq<(Id, Id)>, k: nat)
    requires k < |revisions|
    ensures var head, fault := revisions[k], HeadFault(revisions, supersessions, k);
            && (fault == NoFault <==> SoundHead(revisions, supersessions, k))
            && (fault == Fault(EmptyPanelMembership) <==> head.sessionIds == {})
            && (fault == Fault(RepresentativeNotMember) <==>
                  head.sessionIds != {} && head.representativeSessionId !in head.sessionIds)
            && (fault == Fault(DuplicateCurrentPanelMembership) <==>
                  head.representativeSessionId in head.sessionIds
                  && exists i :: 0 <= i < k && !(revisions[i].sessionIds !! head.sessionIds))
            && (fault == Fault(PredecessorAndReplacementCoexist) <==>
                  && head.representativeSessionId in head.sessionIds
                  && (forall i :: 0 <= i < k ==> revisions[i].sessionIds !! head.sessionIds)
                  && exists s :: s in supersessions && s.0 in head.sessionIds && s.1 in head.sessionIds)
  {
    var head := revisions[k];
    forall i | 0 <= i < k
      ensures revisions[i].sessionIds * head.sessionIds != {} <==> !(revisions[i].sessionIds !! head.sessionIds)
    {
      if !(revisions[i].sessionIds !! head.sessionIds) {
        var x :| x in revisions[i].sessionIds && x in head.sessionIds;
        assert x in revisions[i].sessionIds * head.sessionIds;
      }
    }
  }

  // ----- Manual relation reviews --------------------------------------------

  datatype ManualRelation = ManualRelation(
    kind: RelationKind,
    reviewReason: string,
    targetScope: TargetScope,
    sourceRevisionIds: set<Id>,
    subjectIds: set<Id>,
    membershipIds: set<Id>,
    edges: seq<MosaicEdge>,
    lineage: seq<(Id, Id)>)

  /** The kind-specific part of the review contract. */
  ghost function ShapeVerdict(r: ManualRelation): Verdict {
    match r.kind
    case PanelAdd | PanelReplace =>
      if |r.sourceRevisionIds| != 1 || r.membershipIds == {} then Rejected(KindShapeMismatch) else Accepted
    case PanelSplit | PanelMerge =>
      if r.membershipIds == {} || r.lineage == [] then Rejected(KindShapeMismatch) else Accepted
    case MosaicCreate =>
      MosaicVerdict(r.membershipIds, r.edges)
    case MosaicEdgeKind =>
      if |r.subjectIds| != 2 || |r.edges| != 1 then Rejected(KindShapeMismatch)
      else if r.edges[0].left == r.edges[0].right then Rejected(InvalidMosaicEdge)
      else if {r.edges[0].left, r.edges[0].right} != r.subjectIds then Rejected(MosaicEdgeOutsideReviewedSubjects)
      else Accepted
    case MosaicSplit | MosaicMerge =>
      if r.membershipIds == {} || r.edges == [] || r.lineage == [] then Rejected(KindShapeMismatch)
      else MosaicVerdict(r.membershipIds, r.edges)
  }

  /** The review contract, with walks and cycles in place of the two searches. */
  ghost function ReviewVerdict(r: ManualRelation, trim: string -> string): Verdict {
    if trim(r.reviewReason) == "" then Rejected(MissingReviewReason)
    else if r.sourceRevisionIds == {} || r.subjectIds == {} then Rejected(EmptyProposalInputs)
    else if r.membershipIds == {} && r.edges == [] && r.lineage == [] then Rejected(RelationFreeProposal)
    else if r.targetScope.NewReviewedCrossTarget? && |r.targetScope.canonicalTargetIds| < 2 then
      Rejected(CrossTargetNeedsTwoTargets)
    else if ShapeVerdict(r).Rejected? then ShapeVerdict(r)
    else if !Acyclic(Lineage.Arcs(r.lineage)) then Rejected(LineageCycle)
    else Accepted
  }

  /** The members are at least two, every edge joins two of them, and every two are joined by a walk. */
  ghost predicate IsMosaic(panels: set<Id>, edges: seq<MosaicEdge>) {
    && |panels| >= 2
    && (forall e :: e in edges ==> e.left != e.right && e.left in panels && e.right in panels)
    && forall a, b :: a in panels && b in panels ==> Reach(Links(edges), a, b)
  }

  /** What a review of each kind must bring. */
  ghost predicate Brings(r: ManualRelation) {
    match r.kind
    case PanelAdd => |r.sourceRevisionIds| == 1 && r.membershipIds != {}
    case PanelReplace => |r.sourceRevisionIds| == 1 && r.membershipIds != {}
    case PanelSplit => r.membershipIds != {} && r.lineage != []
    case PanelMerge => r.membershipIds != {} && r.lineage != []
    case MosaicCreate => IsMosaic(r.membershipIds, r.edges)
    case MosaicEdgeKind =>
      && |r.subjectIds| == 2 && |r.edges| == 1
      && r.edges[0].left != r.edges[0].right && r.subjectIds == {r.edges[0].left, r.edges[0].right}
    case MosaicSplit => r.edges != [] && r.lineage != [] && IsMosaic(r.membershipIds, r.edges)
    case MosaicMerge => r.edges != [] && r.lineage != [] && IsMosaic(r.membershipIds, r.edges)
  }

  lemma AcceptedMosaicMeans(panels: set<Id>, edges: seq<MosaicEdge>)
    ensures MosaicVerdict(panels, edges) == Accepted <==> IsMosaic(panels, edges)
    ensures IsMosaic(panels, edges) ==> panels != {}
  {}

  /** A review is accepted if and only if it gives a reason, names its inputs, relates something, reviews at
      least two targets for a new cross-target scope, brings what its kind asks for, and has no cycle. */
  lemma AcceptedReviewMeans(r: ManualRelation, trim: string -> string)
    ensures ReviewVerdict(r, trim) == Accepted
       <==> WellFormed(r, trim) && Brings(r) && Acyclic(Lineage.Arcs(r.lineage))
  {
    AcceptedMosaicMeans(r.membershipIds, r.edges);
    hide MosaicVerdict, IsMosaic, Acyclic;
  }

  /** A reason, inputs, something related, and two targets for a new cross-target scope. */
  ghost predicate WellFormed(r: ManualRelation, trim: string -> string) {
    && trim(r.reviewReason) != ""
    && r.sourceRevisionIds != {} && r.subjectIds != {}
    && (r.membershipIds != {} || r.edges != [] || r.lineage != [])
    && (r.targetScope.NewReviewedCrossTarget? ==> |r.targetScope.canonicalTargetIds| >= 2)
  }

  /** A review that is not well formed is rejected for the first thing it misses. */
  lemma MalformedReviewMeans(r: ManualRelation, trim: string -> string)
    ensures var v := ReviewVerdict(r, trim);
            var named := r.sourceRevisionIds != {} && r.subjectIds != {};
            var relates := r.membershipIds != {} || r.edges != [] || r.lineage != [];
            && (trim(r.reviewReason) == "" ==> v == Rejected(MissingReviewReason))
            && (trim(r.reviewReason) != "" && !named ==> v == Rejected(EmptyProposalInputs))
            && (trim(r.reviewReason) != "" && named && !relates ==> v == Rejected(RelationFreeProposal))
            && (trim(r.reviewReason) != "" && named && relates && !WellFormed(r, trim) ==>
                  v == Rejected(CrossTargetNeedsTwoTargets))
  {}

  /** A well-formed review is rejected for a wrong shape, a bad edge, or a cycle, in this order. */
  lemma RejectedReviewMeans(r: ManualRelation, trim: string -> string)
    requires WellFormed(r, trim)
    ensures MissesShape(r) ==> ReviewVerdict(r, trim) == Rejected(KindShapeMismatch)
    ensures !MissesShape(r) && r.kind.MosaicEdgeKind? && r.edges[0].left == r.edges[0].right ==>
              ReviewVerdict(r, trim) == Rejected(InvalidMosaicEdge)
    ensures !MissesShape(r) && r.kind.MosaicEdgeKind? && r.edges[0].left != r.edges[0].right && !Brings(r) ==>
              ReviewVerdict(r, trim) == Rejected(MosaicEdgeOutsideReviewedSubjects)
    ensures Brings(r) && !Acyclic(Lineage.Arcs(r.lineage)) ==> ReviewVerdict(r, trim) == Rejected(LineageCycle)
  {
    AcceptedMosaicMeans(r.membershipIds, r.edges);
    hide MosaicVerdict, IsMosaic, Acyclic;
  }

  /** Something a review of its kind must bring is not there at all. */
  ghost predicate MissesShape(r: ManualRelation) {
    match r.kind
    case MosaicCreate => false
    case MosaicEdgeKind => |r.subjectIds| != 2 || |r.edges| != 1
    case MosaicSplit => r.membershipIds == {} || r.edges == [] || r.lineage == []
    case MosaicMerge => r.membershipIds == {} || r.edges == [] || r.lineage == []
    case _ => !Brings(r)
  }

  method ValidateShape(r: ManualRelation) returns (verdict: Verdict)
    ensures verdict == ShapeVerdict(r)
  {
    match r.kind
    case PanelAdd | PanelReplace =>
      return if |r.sourceRevisionIds| != 1 || r.membershipIds == {} then Rejected(KindShapeMismatch) else Accepted;
    case PanelSplit | PanelMerge =>
      return if r.membershipIds == {} || r.lineage == [] then Rejected(KindShapeMismatch) else Accepted;
    case MosaicCreate =>
      verdict := ValidateMosaicConnectivity(r.membershipIds, r.edges);
    case MosaicEdgeKind =>
      if |r.subjectIds| != 2 || |r.edges| != 1 {
        return Rejected(KindShapeMismatch);
      }
      var edge := r.edges[0];
      if edge.left == edge.right {
        return Rejected(InvalidMosaicEdge);
      }
      return if {edge.left, edge.right} != r.subjectIds then Rejected(MosaicEdgeOutsideReviewedSubjects) else Accepted;
    case MosaicSplit | MosaicMerge =>
      if r.membershipIds == {} || r.edges == [] || r.lineage == [] {
        return Rejected(KindShapeMismatch);
      }
      verdict := ValidateMosaicConnectivity(r.membershipIds, r.edges);
  }

  /** `ManualRelation::validate`. */
  method ValidateReview(r: ManualRelation, trim: string -> string) returns (verdict: Verdict)
    ensures verdict == ReviewVerdict(r, trim)
  {
    if trim(r.reviewReason) == "" {
      return Rejected(MissingReviewReason);
    }
    if r.sourceRevisionIds == {} || r.subjectIds == {} {
      return Rejected(EmptyProposalInputs);
    }
    if r.membershipIds == {} && r.edges == [] && r.lineage == [] {
      return Rejected(RelationFreeProposal);
    }
    if r.targetScope.NewReviewedCrossTarget? && |r.targetScope.canonicalTargetIds| < 2 {
      return Rejected(CrossTargetNeedsTwoTargets);
    }
    verdict := ValidateShape(r);
    if verdict.Accepted? {
      ghost var order, cycle;
      verdict, order, cycle := Lineage.ValidateAcyclicLineage(r.lineage);
    }
  }

  /** A merge review over a bridging adjacency between two accepted mosaics can always be accepted:
      the union of members, the joint edges with the bridge, and a lineage from both mosaics to a
      new one. */
  lemma MergeReviewAccepts(r: ManualRelation, trim: string -> string,
                           panels1: set<Id>, edges1: seq<MosaicEdge>, mosaic1: Id,
                           panels2: set<Id>, edges2: seq<MosaicEdge>, mosaic2: Id,
                           bridge: MosaicEdge, merged: Id)
    requires MosaicVerdict(panels1, edges1) == Accepted && MosaicVerdict(panels2, edges2) == Accepted
    requires bridge.left in panels1 && bridge.right in panels2
    requires Bridges.JoinsClasses(bridge.left, bridge.right, edges1 + edges2)
    requires merged != mosaic1 && merged != mosaic2
    requires r.kind == MosaicMerge
    requires !(r.targetScope.NewReviewedCrossTarget? && |r.targetScope.canonicalTargetIds| < 2)
    requires trim(r.reviewReason) != "" && r.sourceRevisionIds != {} && r.subjectIds != {}
    requires r.membershipIds == panels1 + panels2 && r.edges == edges1 + edges2 + [bridge]
    requires r.lineage == [(mosaic1, merged), (mosaic2, merged)]
    ensures ReviewVerdict(r, trim) == Accepted
  {
    ReachSelf(Links(edges1 + edges2), bridge.left);
    UnionAccepted(panels1, edges1, panels2, edges2, bridge);
    TwoParentsAcyclic(r.lineage, mosaic1, mosaic2, merged);
  }

  lemma TwoParentsAcyclic(lineage: seq<(Id, Id)>, a: Id, b: Id, merged: Id)
    requires merged != a && merged != b && lineage == [(a, merged), (b, merged)]
    ensures Acyclic(Lineage.Arcs(lineage))
  {
    var g := Lineage.Arcs(lineage);
    forall p: seq<Id> ensures !Cycle(g, p) {
      if |p| >= 2 && Walk(g, p) {
        assert (p[0], p[1]) in g && (p[|p| - 2], p[|p| - 1]) in g;
        assert p[0] != merged && p[|p| - 1] == merged;
      }
    }
  }

  /** Apart from the single reviewed edge of a `MosaicEdge` review, presentation does not matter:
      the verdict, error included, survives reordering, flipping and repeating edges and
      reordering and repeating lineage pairs. */
  lemma ReviewIgnoresPresentation(r: ManualRelation, edges: seq<MosaicEdge>, lineage: seq<(Id, Id)>,
                                  trim: string -> string)
    requires r.kind != MosaicEdgeKind
    requires Links(edges) == Links(r.edges) && Lineage.Arcs(lineage) == Lineage.Arcs(r.lineage)
    ensures ReviewVerdict(r.(edges := edges, lineage := lineage), trim) == ReviewVerdict(r, trim)
  {
    VerdictDependsOnLinks(r.membershipIds, r.edges, edges);
    assert edges == [] <==> r.edges == [] by {
      if edges != [] {
        assert (edges[0].left, edges[0].right) in Links(edges);
      }
      if r.edges != [] {
        assert (r.edges[0].left, r.edges[0].right) in Links(r.edges);
      }
    }
    assert lineage == [] <==> r.lineage == [] by {
      if lineage != [] {
        assert lineage[0] in Lineage.Arcs(lineage);
      }
      if r.lineage != [] {
        assert r.lineage[0] in Lineage.Arcs(r.lineage);
      }
    }
  }
}
