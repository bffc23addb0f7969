/** Shared vocabulary of the relation kernel. */
module RelationTypes {

  /** Identifiers and texts. One `char` stands for one UTF-8 byte, so that a length
      is a byte length and the order of strings is Rust's order of `str`. */
  type Id = string

  datatype RelationError =
    | EmptyPanelMembership
    | RepresentativeNotMember
    | MosaicNeedsTwoPanels
    | InvalidMosaicEdge
    | DisconnectedMosaic
    | LineageCycle
    | MissingReviewReason
    | EmptyProposalInputs
    | RelationFreeProposal
    | CrossTargetNeedsTwoTargets
    | KindShapeMismatch
    | DuplicateCurrentPanelMembership
    | PredecessorAndReplacementCoexist
    | MosaicEdgeOutsideReviewedSubjects

  datatype Verdict = Accepted | Rejected(error: RelationError)

  /** An accepted adjacency between two panel revisions, with its evidence. */
  datatype MosaicEdge = MosaicEdge(id: Id, left: Id, right: Id, evidence: Id)
}
