/** The canonical text behind a proposal fingerprint, and its unique decodability. */
module Fingerprint {
  import opened RelationTypes
  import opened Graphs
  import opened Orders
  import opened Decimals
  import Lineage

  datatype RelationKind =
    | PanelAdd | PanelReplace | PanelSplit | PanelMerge
    | MosaicCreate | MosaicEdgeKind | MosaicSplit | MosaicMerge

  datatype TargetScope =
    | SameTarget(canonicalTargetId: Id)
    | ExistingCrossTarget(associationId: Id)
    | NewReviewedCrossTarget(canonicalTargetIds: set<Id>)

  datatype ProposalBasis = ProposalBasis(
    kind: RelationKind,
    targetScope: TargetScope,
    sourceRevisionIds: set<Id>,
    subjectIds: set<Id>,
    membershipIds: set<Id>,
    edges: seq<MosaicEdge>,
    lineage: seq<(Id, Id)>)

  // ----- The encoding -------------------------------------------------------

  /** `push_canonical_field`: byte length, colon, value, semicolon. */
  function Field(value: Id): string {
    Decimal(|value|) + ":" + value + ";"
  }

  function Fields(values: seq<Id>): string {
    if values == [] then "" else Field(values[0]) + Fields(values[1..])
  }

  function SortedIds(ids: set<Id>): seq<Id> {
    StringLeIsTotalOrder();
    Ascending(StringLe, ids)
  }

  /** `push_sorted_strings`: element count, then the fields in brackets. */
  function SetText(ids: set<Id>): string {
    Decimal(|ids|) + "[" + Fields(SortedIds(ids)) + "]"
  }

  function KindName(kind: RelationKind): string {
    match kind
    case PanelAdd => "panel_add"
    case PanelReplace => "panel_replace"
    case PanelSplit => "panel_split"
    case PanelMerge => "panel_merge"
    case MosaicCreate => "mosaic_create"
    case MosaicEdgeKind => "mosaic_edge"
    case MosaicSplit => "mosaic_split"
    case MosaicMerge => "mosaic_merge"
  }

  function ScopeText(scope: TargetScope): string {
    match scope
    case SameTarget(id) => Field("same_target") + Field(id)
    case ExistingCrossTarget(id) => Field("existing_cross_target") + Field(id)
    case NewReviewedCrossTarget(ids) => Field("new_reviewed_cross_target") + SetText(ids)
  }

  /** `canonical_undirected_record`, paired up so that the order of pairs of pairs is the
      lexicographic order of the four components. */
  type EdgeRecord = ((Id, Id), (Id, Id))

  function Record(e: MosaicEdge): EdgeRecord {
    if StringLe(e.left, e.right)
    then ((e.left, e.right), (e.id, e.evidence))
    else ((e.right, e.left), (e.id, e.evidence))
  }

  function Records(edges: seq<MosaicEdge>): set<EdgeRecord> {
    set e | e in edges :: Record(e)
  }

  lemma OrdersAreTotal()
    ensures Preorder(PairLe(StringLe, StringLe)) && Antisymmetric(PairLe(StringLe, StringLe))
    ensures Preorder(PairLe(PairLe(StringLe, StringLe), PairLe(StringLe, StringLe)))
    ensures Antisymmetric(PairLe(PairLe(StringLe, StringLe), PairLe(StringLe, StringLe)))
  {
    StringLeIsTotalOrder();
    PairLeIsTotalOrder(StringLe, StringLe);
    PairLeIsTotalOrder(PairLe(StringLe, StringLe), PairLe(StringLe, StringLe));
  }

  function SortedRecords(edges: seq<MosaicEdge>): seq<EdgeRecord> {
    OrdersAreTotal();
    Ascending(PairLe(PairLe(StringLe, StringLe), PairLe(StringLe, StringLe)), Records(edges))
  }

  function SortedLineage(lineage: seq<(Id, Id)>): seq<(Id, Id)> {
    Sort(PairLe(StringLe, StringLe), lineage)
  }

  function RecordText(record: EdgeRecord): string {
    Field(record.0.0) + (Field(record.0.1) + (Field(record.1.0) + Field(record.1.1)))
  }

  function RecordTexts(records: seq<EdgeRecord>): string {
    if records == [] then "" else RecordText(records[0]) + RecordTexts(records[1..])
  }

  function LineageTexts(lineage: seq<(Id, Id)>): string {
    if lineage == [] then ""
    else (Field(lineage[0].0) + Field(lineage[0].1)) + LineageTexts(lineage[1..])
  }

  /** The text that `fingerprint` hashes. */
  function Canonical(basis: ProposalBasis, evidenceRevision: Id, settingsRevision: nat): string {
    Field("proposal_basis_v1") + (Field(KindName(basis.kind)) + (ScopeText(basis.targetScope)
    + (Field("source_revisions") + (SetText(basis.sourceRevisionIds)
    + (Field("subjects") + (SetText(basis.subjectIds)
    + (Field("memberships") + (SetText(basis.membershipIds)
    + EdgesTail(basis, evidenceRevision, settingsRevision)))))))))
  }

  function EdgesTail(basis: ProposalBasis, evidenceRevision: Id, settingsRevision: nat): string {
    Field("edges") + (Field(Decimal(|Records(basis.edges)|)) + (RecordTexts(SortedRecords(basis.edges))
    + (Field("lineage") + (Field(Decimal(|basis.lineage|)) + (LineageTexts(SortedLineage(basis.lineage))
    + (Field(evidenceRevision) + Field(Decimal(settingsRevision))))))))
  }

  // ----- Cancellation: each piece announces where it ends --------------------

  lemma NumberCancels(m: nat, c: char, x: string, n: nat, d: char, y: string)
    requires !IsDigit(c) && !IsDigit(d)
    requires Decimal(m) + [c] + x == Decimal(n) + [d] + y
    ensures m == n && c == d && x == y
  {
    DecimalReadsBack(m);
    DecimalReadsBack(n);
    var p, q := Decimal(m), Decimal(n);
    var s, t := p + [c] + x, q + [d] + y;
    assert s[|p|] == c && t[|q|] == d;
    assert |p| == |q|;
    assert s[..|p|] == p && t[..|p|] == q;
    assert s[|p| + 1..] == x && t[|p| + 1..] == y;
    DecimalInjective(m, n);
  }

  lemma FieldCancels(a: Id, x: string, b: Id, y: string)
    requires Field(a) + x == Field(b) + y
    ensures a == b && x == y
  {
    var u, v := a + ";" + x, b + ";" + y;
    assert Field(a) + x == Decimal(|a|) + [':'] + u;
    assert Field(b) + y == Decimal(|b|) + [':'] + v;
    NumberCancels(|a|, ':', u, |b|, ':', v);
    assert u[..|a|] == a && v[..|a|] == b;
    assert u[|a| + 1..] == x && v[|a| + 1..] == y;
  }

  lemma {:induction false} FieldsCancel(a: seq<Id>, x: string, b: seq<Id>, y: string)
    requires |a| == |b| && Fields(a) + x == Fields(b) + y
    ensures a == b && x == y
  {
    if a == [] {
      assert Fields(a) + x == x && Fields(b) + y == y;
    } else {
      var u, v := Fields(a[1..]) + x, Fields(b[1..]) + y;
      assert Fields(a) + x == Field(a[0]) + u && Fields(b) + y == Field(b[0]) + v;
      FieldCancels(a[0], u, b[0], v);
      FieldsCancel(a[1..], x, b[1..], y);
      assert a == [a[0]] + a[1..] && b == [b[0]] + b[1..];
    }
  }

  lemma SetTextSplits(a: set<Id>, x: string)
    ensures SetText(a) + x == Decimal(|a|) + ['['] + (Fields(SortedIds(a)) + ("]" + x))
  {
    Assoc(Decimal(|a|) + "[" + Fields(SortedIds(a)), "]", x);
    Assoc(Decimal(|a|) + "[", Fields(SortedIds(a)), "]" + x);
  }

  lemma SetCancels(a: set<Id>, x: string, b: set<Id>, y: string)
    requires SetText(a) + x == SetText(b) + y
    ensures a == b && x == y
  {
    var u, v := Fields(SortedIds(a)) + ("]" + x), Fields(SortedIds(b)) + ("]" + y);
    SetTextSplits(a, x);
    SetTextSplits(b, y);
    NumberCancels(|a|, '[', u, |b|, '[', v);
    SortedIdsListing(a);
    SortedIdsListing(b);
    FieldsCancel(SortedIds(a), "]" + x, SortedIds(b), "]" + y);
    assert a == b by {
      assert forall e :: e in a <==> e in b;
    }
    assert ("]" + x)[1..] == x && ("]" + y)[1..] == y;
  }

  lemma SortedIdsListing(ids: set<Id>)
    ensures |SortedIds(ids)| == |ids|
    ensures forall x :: x in SortedIds(ids) <==> x in ids
  {
    StringLeIsTotalOrder();
    AscendingElements(StringLe, ids);
  }

  lemma {:induction false} RecordsCancel(a: seq<EdgeRecord>, x: string, b: seq<EdgeRecord>, y: string)
    requires |a| == |b| && RecordTexts(a) + x == RecordTexts(b) + y
    ensures a == b && x == y
  {
    hide Field;
    if a == [] {
      assert RecordTexts(a) + x == x && RecordTexts(b) + y == y;
    } else {
      hide RecordTexts;
      RecordSplits(a, x);
      RecordSplits(b, y);
      RecordCancels(a[0], RecordTexts(a[1..]) + x, b[0], RecordTexts(b[1..]) + y);
      RecordsCancel(a[1..], x, b[1..], y);
      assert a == [a[0]] + a[1..] && b == [b[0]] + b[1..];
    }
  }

  /** The four fields of a record, in front of `rest`. */
  function RecordBefore(record: EdgeRecord, rest: string): string {
    var ((l, r), (i, e)) := record;
    Field(l) + (Field(r) + (Field(i) + (Field(e) + rest)))
  }

  lemma RecordCancels(a: EdgeRecord, x: string, b: EdgeRecord, y: string)
    requires RecordBefore(a, x) == RecordBefore(b, y)
    ensures a == b && x == y
  {
    hide Field;
    var ((l, r), (i, e)) := a;
    var ((l', r'), (i', e')) := b;
    FieldCancels(l, Field(r) + (Field(i) + (Field(e) + x)), l', Field(r') + (Field(i') + (Field(e') + y)));
    FieldCancels(r, Field(i) + (Field(e) + x), r', Field(i') + (Field(e') + y));
    FieldCancels(i, Field(e) + x, i', Field(e') + y);
    FieldCancels(e, x, e', y);
  }

  lemma RecordSplits(a: seq<EdgeRecord>, x: string)
    requires a != []
    ensures RecordTexts(a) + x == RecordBefore(a[0], RecordTexts(a[1..]) + x)
  {
    hide Field;
    var ((l, r), (i, e)) := a[0];
    var f, g, h, k := Field(l), Field(r), Field(i), Field(e);
    var rest := RecordTexts(a[1..]) + x;
    Assoc(RecordText(a[0]), RecordTexts(a[1..]), x);
    Assoc(f, g + (h + k), rest);
    Assoc(g, h + k, rest);
    Assoc(h, k, rest);
  }

  lemma Assoc<T>(a: seq<T>, b: seq<T>, c: seq<T>)
    ensures (a + b) + c == a + (b + c)
  {}

  lemma Chain3<T>(t: seq<T>, a: seq<T>, b: seq<T>, c: seq<T>, d: seq<T>)
    ensures t + a + b + c + d == t + (a + b + c + d)
  {}

  lemma Chain4<T>(a: seq<T>, b: seq<T>, c: seq<T>, d: seq<T>, e: seq<T>)
    ensures a + b + c + d + e == a + (b + (c + (d + e)))
  {}

  lemma LineageSplits(a: seq<(Id, Id)>, x: string)
    requires a != []
    ensures LineageTexts(a) + x == Field(a[0].0) + (Field(a[0].1) + (LineageTexts(a[1..]) + x))
  {
    Assoc(Field(a[0].0) + Field(a[0].1), LineageTexts(a[1..]), x);
    Assoc(Field(a[0].0), Field(a[0].1), LineageTexts(a[1..]) + x);
  }

  lemma {:induction false} LineageCancels(a: seq<(Id, Id)>, x: string, b: seq<(Id, Id)>, y: string)
    requires |a| == |b| && LineageTexts(a) + x == LineageTexts(b) + y
    ensures a == b && x == y
  {
    if a == [] {
      assert LineageTexts(a) + x == x && LineageTexts(b) + y == y;
    } else {
      var u, v := LineageTexts(a[1..]) + x, LineageTexts(b[1..]) + y;
      LineageSplits(a, x);
      LineageSplits(b, y);
      FieldCancels(a[0].0, Field(a[0].1) + u, b[0].0, Field(b[0].1) + v);
      FieldCancels(a[0].1, u, b[0].1, v);
      LineageCancels(a[1..], x, b[1..], y);
      assert a == [a[0]] + a[1..] && b == [b[0]] + b[1..];
    }
  }

  lemma KindNamesDiffer(a: RelationKind, b: RelationKind)
    requires KindName(a) == KindName(b)
    ensures a == b
  {
    assert |KindName(a)| == |KindName(b)|;
    assert KindName(a)[0] == KindName(b)[0] && KindName(a)[6] == KindName(b)[6] && KindName(a)[7] == KindName(b)[7];
  }

  lemma ScopeCancels(a: TargetScope, x: string, b: TargetScope, y: string)
    requires ScopeText(a) + x == ScopeText(b) + y
    ensures a == b && x == y
  {
    var (na, ra) := ScopeParts(a);
    var (nb, rb) := ScopeParts(b);
    Assoc(Field(na), ra, x);
    Assoc(Field(nb), rb, y);
    FieldCancels(na, ra + x, nb, rb + y);
    ScopeNamesDiffer(a, b);
    match a
    case SameTarget(i) => FieldCancels(i, x, b.canonicalTargetId, y);
    case ExistingCrossTarget(i) => FieldCancels(i, x, b.associationId, y);
    case NewReviewedCrossTarget(i) => SetCancels(i, x, b.canonicalTargetIds, y);
  }

  lemma ScopeNamesDiffer(a: TargetScope, b: TargetScope)
    requires ScopeParts(a).0 == ScopeParts(b).0
    ensures a.SameTarget? == b.SameTarget? && a.ExistingCrossTarget? == b.ExistingCrossTarget?
  {
    assert |ScopeParts(a).0| == |ScopeParts(b).0|;
  }

  ghost function ScopeParts(scope: TargetScope): (string, string) {
    match scope
    case SameTarget(id) => ("same_target", Field(id))
    case ExistingCrossTarget(id) => ("existing_cross_target", Field(id))
    case NewReviewedCrossTarget(ids) => ("new_reviewed_cross_target", SetText(ids))
  }

  // ----- Unique decodability ------------------------------------------------

  /** Equal in everything that materially determines a proposal. Edges count as a set of
      undirected records, lineage as a multiset of directed pairs. */
  ghost predicate SameBasis(a: ProposalBasis, b: ProposalBasis) {
    && a.kind == b.kind
    && a.targetScope == b.targetScope
    && a.sourceRevisionIds == b.sourceRevisionIds
    && a.subjectIds == b.subjectIds
    && a.membershipIds == b.membershipIds
    && Records(a.edges) == Records(b.edges)
    && multiset(a.lineage) == multiset(b.lineage)
  }

  lemma TailCancels(a: ProposalBasis, ea: Id, sa: nat, b: ProposalBasis, eb: Id, sb: nat)
    requires EdgesTail(a, ea, sa) == EdgesTail(b, eb, sb)
    ensures Records(a.edges) == Records(b.edges) && multiset(a.lineage) == multiset(b.lineage) && ea == eb && sa == sb
  {
    var endA, endB := Field(ea) + Field(Decimal(sa)), Field(eb) + Field(Decimal(sb));
    var linA := Field(Decimal(|a.lineage|)) + (LineageTexts(SortedLineage(a.lineage)) + endA);
    var linB := Field(Decimal(|b.lineage|)) + (LineageTexts(SortedLineage(b.lineage)) + endB);
    var recA := RecordTexts(SortedRecords(a.edges)) + (Field("lineage") + linA);
    var recB := RecordTexts(SortedRecords(b.edges)) + (Field("lineage") + linB);
    var nA, nB := |Records(a.edges)|, |Records(b.edges)|;
    FieldCancels("edges", Field(Decimal(nA)) + recA, "edges", Field(Decimal(nB)) + recB);
    FieldCancels(Decimal(nA), recA, Decimal(nB), recB);
    DecimalInjective(nA, nB);
    RecordListing(a.edges);
    RecordListing(b.edges);
    RecordsCancel(SortedRecords(a.edges), Field("lineage") + linA, SortedRecords(b.edges), Field("lineage") + linB);
    assert forall r :: r in Records(a.edges) <==> r in Records(b.edges);
    FieldCancels("lineage", linA, "lineage", linB);
    FieldCancels(Decimal(|a.lineage|), LineageTexts(SortedLineage(a.lineage)) + endA,
                 Decimal(|b.lineage|), LineageTexts(SortedLineage(b.lineage)) + endB);
    DecimalInjective(|a.lineage|, |b.lineage|);
    SameElements(a.lineage, SortedLineage(a.lineage));
    SameElements(b.lineage, SortedLineage(b.lineage));
    LineageCancels(SortedLineage(a.lineage), endA, SortedLineage(b.lineage), endB);
    FieldCancels(ea, Field(Decimal(sa)), eb, Field(Decimal(sb)));
    assert Field(Decimal(sa)) + "" == Field(Decimal(sb)) + "";
    FieldCancels(Decimal(sa), "", Decimal(sb), "");
    DecimalInjective(sa, sb);
  }

  lemma RecordListing(edges: seq<MosaicEdge>)
    ensures |SortedRecords(edges)| == |Records(edges)|
    ensures forall r :: r in SortedRecords(edges) <==> r in Records(edges)
  {
    OrdersAreTotal();
    AscendingElements(PairLe(PairLe(StringLe, StringLe), PairLe(StringLe, StringLe)), Records(edges));
  }

  lemma EqualTextsHaveSameBasis(a: ProposalBasis, ea: Id, sa: nat, b: ProposalBasis, eb: Id, sb: nat)
    requires Canonical(a, ea, sa) == Canonical(b, eb, sb)
    ensures SameBasis(a, b) && ea == eb && sa == sb
  {
    var memA := SetText(a.membershipIds) + EdgesTail(a, ea, sa);
    var memB := SetText(b.membershipIds) + EdgesTail(b, eb, sb);
    var subA := SetText(a.subjectIds) + (Field("memberships") + memA);
    var subB := SetText(b.subjectIds) + (Field("memberships") + memB);
    var srcA := SetText(a.sourceRevisionIds) + (Field("subjects") + subA);
    var srcB := SetText(b.sourceRevisionIds) + (Field("subjects") + subB);
    var scpA := ScopeText(a.targetScope) + (Field("source_revisions") + srcA);
    var scpB := ScopeText(b.targetScope) + (Field("source_revisions") + srcB);
    FieldCancels("proposal_basis_v1", Field(KindName(a.kind)) + scpA,
                 "proposal_basis_v1", Field(KindName(b.kind)) + scpB);
    FieldCancels(KindName(a.kind), scpA, KindName(b.kind), scpB);
    KindNamesDiffer(a.kind, b.kind);
    ScopeCancels(a.targetScope, Field("source_revisions") + srcA, b.targetScope, Field("source_revisions") + srcB);
    FieldCancels("source_revisions", srcA, "source_revisions", srcB);
    SetCancels(a.sourceRevisionIds, Field("subjects") + subA, b.sourceRevisionIds, Field("subjects") + subB);
    FieldCancels("subjects", subA, "subjects", subB);
    SetCancels(a.subjectIds, Field("memberships") + memA, b.subjectIds, Field("memberships") + memB);
    FieldCancels("memberships", memA, "memberships", memB);
    SetCancels(a.membershipIds, EdgesTail(a, ea, sa), b.membershipIds, EdgesTail(b, eb, sb));
    TailCancels(a, ea, sa, b, eb, sb);
  }

  /** Two canonical texts are equal exactly when the material inputs are. */
  lemma CanonicalIsUniquelyDecodable(a: ProposalBasis, ea: Id, sa: nat, b: ProposalBasis, eb: Id, sb: nat)
    ensures Canonical(a, ea, sa) == Canonical(b, eb, sb) <==> SameBasis(a, b) && ea == eb && sa == sb
  {
    if Canonical(a, ea, sa) == Canonical(b, eb, sb) {
      EqualTextsHaveSameBasis(a, ea, sa, b, eb, sb);
    }
    if SameBasis(a, b) && ea == eb && sa == sb {
      OrdersAreTotal();
      SortPermutation(PairLe(StringLe, StringLe), a.lineage, b.lineage);
      SameElements(a.lineage, b.lineage);
    }
  }

  /** Flipping, repeating and reordering edges does not show. */
  lemma EdgePresentationDoesNotShow(a: ProposalBasis, edges: seq<MosaicEdge>, ev: Id, settings: nat)
    requires forall e :: e in a.edges ==> e in edges || e.(left := e.right, right := e.left) in edges
    requires forall e :: e in edges ==> e in a.edges || e.(left := e.right, right := e.left) in a.edges
    ensures Canonical(a, ev, settings) == Canonical(a.(edges := edges), ev, settings)
  {
    StringLeIsTotalOrder();
    assert forall e: MosaicEdge :: Record(e) == Record(e.(left := e.right, right := e.left));
    assert Records(a.edges) == Records(edges);
    CanonicalIsUniquelyDecodable(a, ev, settings, a.(edges := edges), ev, settings);
  }

  lemma OneDirection<N(!new)>(g: set<(N, N)>, p: N, s: N)
    requires Acyclic(g) && (p, s) in g
    ensures (s, p) !in g
  {
    assert (s, p) in g ==> Cycle(g, [p, s, p]);
  }

  /** Turning an accepted, non-empty lineage around always shows. */
  lemma LineageDirectionShows(a: ProposalBasis, turned: seq<(Id, Id)>, ev: Id, settings: nat)
    requires a.lineage != [] && Acyclic(Lineage.Arcs(a.lineage))
    requires |turned| == |a.lineage| && forall i :: 0 <= i < |turned| ==> turned[i] == (a.lineage[i].1, a.lineage[i].0)
    ensures Canonical(a, ev, settings) != Canonical(a.(lineage := turned), ev, settings)
  {
    var (p, s) := a.lineage[0];
    assert (p, s) == a.lineage[0] && (s, p) == turned[0];
    OneDirection(Lineage.Arcs(a.lineage), p, s);
    assert (s, p) in multiset(turned) && (s, p) !in multiset(a.lineage);
    CanonicalIsUniquelyDecodable(a, ev, settings, a.(lineage := turned), ev, settings);
  }

  // ----- Building the text --------------------------------------------------

  /** The growing string that the `push_*` helpers append to. */
  class CanonicalBuffer {
    var text: string

    constructor ()
      ensures text == ""
    {
      text := "";
    }

    method PushField(value: Id)
      modifies this
      ensures text == old(text) + Field(value)
    {
      text := text + Decimal(|value|) + ":" + value + ";";
    }

    method PushSortedStrings(values: set<Id>)
      modifies this
      ensures text == old(text) + SetText(values)
    {
      text := text + Decimal(|values|) + "[";
      var sorted := SortedIds(values);
      ghost var start := text;
      for i := 0 to |sorted|
        invariant text == start + Fields(sorted[..i])
      {
        PushField(sorted[i]);
        FieldsExtend(sorted, i);
        Assoc(start, Fields(sorted[..i]), Field(sorted[i]));
      }
      assert sorted[..|sorted|] == sorted;
      text := text + "]";
      Chain3(old(text), Decimal(|values|), "[", Fields(sorted), "]");
    }

    method PushTargetScope(scope: TargetScope)
      modifies this
      ensures text == old(text) + ScopeText(scope)
    {
      match scope
      case SameTarget(id) =>
        PushField("same_target");
        PushField(id);
        Assoc(old(text), Field("same_target"), Field(id));
      case ExistingCrossTarget(id) =>
        PushField("existing_cross_target");
        PushField(id);
        Assoc(old(text), Field("existing_cross_target"), Field(id));
      case NewReviewedCrossTarget(ids) =>
        PushField("new_reviewed_cross_target");
        PushSortedStrings(ids);
        Assoc(old(text), Field("new_reviewed_cross_target"), SetText(ids));
    }

    method PushRecord(record: EdgeRecord)
      modifies this
      ensures text == old(text) + RecordText(record)
    {
      PushField(record.0.0);
      PushField(record.0.1);
      PushField(record.1.0);
      PushField(record.1.1);
      Chain4(old(text), Field(record.0.0), Field(record.0.1), Field(record.1.0), Field(record.1.1));
    }

    method PushRecords(records: seq<EdgeRecord>)
      modifies this
      ensures text == old(text) + RecordTexts(records)
    {
      for i := 0 to |records|
        invariant text == old(text) + RecordTexts(records[..i])
      {
        PushRecord(records[i]);
        RecordTextsExtend(records, i);
        Assoc(old(text), RecordTexts(records[..i]), RecordText(records[i]));
      }
      assert records[..|records|] == records;
    }

    method PushLineage(pairs: seq<(Id, Id)>)
      modifies this
      ensures text == old(text) + LineageTexts(pairs)
    {
      ghost var text0 := text;
      for i := 0 to |pairs|
        invariant text == text0 + LineageTexts(pairs[..i])
      {
        PushField(pairs[i].0);
        PushField(pairs[i].1);
        LineageTextsExtend(pairs, i);
        Assoc(text0 + LineageTexts(pairs[..i]), Field(pairs[i].0), Field(pairs[i].1));
        Assoc(text0, LineageTexts(pairs[..i]), Field(pairs[i].0) + Field(pairs[i].1));
      }
      assert pairs[..|pairs|] == pairs;
    }
  }

  lemma {:induction false} FieldsExtend(s: seq<Id>, i: nat)
    requires i < |s|
    ensures Fields(s[..i + 1]) == Fields(s[..i]) + Field(s[i])
  {
    hide Field;
    if i > 0 {
      FieldsExtend(s[1..], i - 1);
      assert s[..i + 1][1..] == s[1..][..i] && s[..i][1..] == s[1..][..i - 1];
      assert Fields(s[..i + 1]) == Field(s[0]) + (Fields(s[1..][..i - 1]) + Field(s[i]));
      Assoc(Field(s[0]), Fields(s[1..][..i - 1]), Field(s[i]));
    } else {
      assert s[..1][1..] == [];
    }
  }

  lemma {:induction false} RecordTextsExtend(s: seq<EdgeRecord>, i: nat)
    requires i < |s|
    ensures RecordTexts(s[..i + 1]) == RecordTexts(s[..i]) + RecordText(s[i])
  {
    if i > 0 {
      RecordTextsExtend(s[1..], i - 1);
      assert s[..i + 1][1..] == s[1..][..i] && s[..i][1..] == s[1..][..i - 1];
      Assoc(RecordText(s[0]), RecordTexts(s[1..][..i - 1]), RecordText(s[i]));
    } else {
      assert s[..1][1..] == [];
      assert RecordText(s[0]) + "" == RecordText(s[0]) == "" + RecordText(s[0]);
    }
  }

  lemma {:induction false} LineageTextsExtend(s: seq<(Id, Id)>, i: nat)
    requires i < |s|
    ensures LineageTexts(s[..i + 1]) == LineageTexts(s[..i]) + (Field(s[i].0) + Field(s[i].1))
  {
    var last := Field(s[i].0) + Field(s[i].1);
    if i > 0 {
      LineageTextsExtend(s[1..], i - 1);
      assert s[..i + 1][1..] == s[1..][..i] && s[..i][1..] == s[1..][..i - 1];
      Assoc(Field(s[0].0) + Field(s[0].1), LineageTexts(s[1..][..i - 1]), last);
    } else {
      assert s[..1][1..] == [];
      assert last + "" == last == "" + last;
    }
  }

  /** `ProposalBasis::fingerprint`; `uuidV5` is the name-based UUID of the canonical text. */
  method FingerprintOf(basis: ProposalBasis, evidenceRevision: Id, settingsRevision: nat, uuidV5: string -> string)
    returns (fingerprint: string)
    ensures fingerprint == uuidV5(Canonical(basis, evidenceRevision, settingsRevision))
  {
    var canonical := new CanonicalBuffer();
    canonical.PushField("proposal_basis_v1");
    canonical.PushField(KindName(basis.kind));
    canonical.PushTargetScope(basis.targetScope);
    canonical.PushField("source_revisions");
    canonical.PushSortedStrings(basis.sourceRevisionIds);
    canonical.PushField("subjects");
    canonical.PushSortedStrings(basis.subjectIds);
    canonical.PushField("memberships");
    canonical.PushSortedStrings(basis.membershipIds);
    PushEdgesTail(canonical, basis, evidenceRevision, settingsRevision);
    Chain9(Field("proposal_basis_v1"), Field(KindName(basis.kind)), ScopeText(basis.targetScope),
           Field("source_revisions"), SetText(basis.sourceRevisionIds), Field("subjects"), SetText(basis.subjectIds),
           Field("memberships"), SetText(basis.membershipIds), EdgesTail(basis, evidenceRevision, settingsRevision));
    fingerprint := uuidV5(canonical.text);
  }

  method PushEdgesTail(canonical: CanonicalBuffer, basis: ProposalBasis, evidenceRevision: Id, settingsRevision: nat)
    modifies canonical
    ensures canonical.text == old(canonical.text) + EdgesTail(basis, evidenceRevision, settingsRevision)
  {
    var records := SortedRecords(basis.edges);
    RecordListing(basis.edges);
    canonical.PushField("edges");
    canonical.PushField(Decimal(|records|));
    canonical.PushRecords(records);
    var lineage := SortedLineage(basis.lineage);
    SameElements(basis.lineage, lineage);
    canonical.PushField("lineage");
    canonical.PushField(Decimal(|lineage|));
    canonical.PushLineage(lineage);
    canonical.PushField(evidenceRevision);
    canonical.PushField(Decimal(settingsRevision));
    Chain8(old(canonical.text), Field("edges"), Field(Decimal(|records|)), RecordTexts(records), Field("lineage"),
           Field(Decimal(|lineage|)), LineageTexts(lineage), Field(evidenceRevision), Field(Decimal(settingsRevision)));
  }

  lemma Chain8<T>(t: seq<T>, a: seq<T>, b: seq<T>, c: seq<T>, d: seq<T>, e: seq<T>, f: seq<T>, g: seq<T>, h: seq<T>)
    ensures t + a + b + c + d + e + f + g + h == t + (a + (b + (c + (d + (e + (f + (g + h)))))))
  {
    Chain4(t, a, b, c, d);
    Chain4(t + a + b + c + d, e, f, g, h);
    var x := e + (f + (g + h));
    Assoc(t, a + (b + (c + d)), x);
    Chain4(a, b, c, d, x);
    Chain4([], a, b, c, d);
    assert [] + a + b + c + d == a + b + c + d;
    assert [] + (a + (b + (c + d))) == a + (b + (c + d));
  }

  lemma Chain9<T>(a: seq<T>, b: seq<T>, c: seq<T>, d: seq<T>, e: seq<T>, f: seq<T>, g: seq<T>, h: seq<T>, i: seq<T>,
                  j: seq<T>)
    ensures [] + a + b + c + d + e + f + g + h + i + j == a + (b + (c + (d + (e + (f + (g + (h + (i + j))))))))
  {
    assert [] + a == a;
    Chain8(a, b, c, d, e, f, g, h, i);
    var y := b + (c + (d + (e + (f + (g + (h + i))))));
    Assoc(a, y, j);
    Assoc(b, c + (d + (e + (f + (g + (h + i))))), j);
    Assoc(c, d + (e + (f + (g + (h + i)))), j);
    Assoc(d, e + (f + (g + (h + i))), j);
    Assoc(e, f + (g + (h + i)), j);
    Assoc(f, g + (h + i), j);
    Assoc(g, h + i, j);
    Assoc(h, i, j);
  }

  // ----- The text spelled out -----------------------------------------------

  /** A decimal numeral without a leading zero that reads as `n`. */
  ghost predicate Numeral(d: string, n: nat) {
    d != "" && AllDigits(d) && DecimalValue(d) == n && (|d| > 1 ==> d[0] != '0')
  }

  lemma {:induction false} DecimalIsNumeral(n: nat)
    ensures Numeral(Decimal(n), n) && (n > 0 ==> Decimal(n)[0] != '0')
  {
    DecimalReadsBack(n);
    if n >= 10 {
      DecimalIsNumeral(n / 10);
    }
  }

  /** A field is its length, a colon, the value and a semicolon; a set is its size and the fields of its
      members in ascending order between brackets. */
  lemma TextsMean(value: Id, ids: set<Id>)
    ensures exists d :: Numeral(d, |value|) && Field(value) == d + ":" + value + ";"
    ensures exists d :: Numeral(d, |ids|) && SetText(ids) == d + "[" + Fields(SortedIds(ids)) + "]"
  {
    DecimalIsNumeral(|value|);
    DecimalIsNumeral(|ids|);
    hide Numeral;
  }

  /** Sets are listed in ascending order, each member once. */
  lemma SortedIdsAscend(ids: set<Id>)
    ensures forall x :: x in SortedIds(ids) <==> x in ids
    ensures forall i, j :: 0 <= i < j < |SortedIds(ids)| ==>
              SortedIds(ids)[i] != SortedIds(ids)[j] && StringLe(SortedIds(ids)[i], SortedIds(ids)[j])
  {
    StringLeIsTotalOrder();
    AscendingElements(StringLe, ids);
    AscendingSorted(StringLe, ids);
  }

  /** The names of the kinds, in snake case. */
  lemma KindNames()
    ensures KindName(PanelAdd) == "panel_add" && KindName(PanelReplace) == "panel_replace"
    ensures KindName(PanelSplit) == "panel_split" && KindName(PanelMerge) == "panel_merge"
    ensures KindName(MosaicCreate) == "mosaic_create" && KindName(MosaicEdgeKind) == "mosaic_edge"
    ensures KindName(MosaicSplit) == "mosaic_split" && KindName(MosaicMerge) == "mosaic_merge"
  {}

  lemma OneId(x: Id)
    ensures SortedIds({x}) == [x]
  {
    SortedIdsListing({x});
    var r := SortedIds({x});
    assert |r| == 1 && r[0] in r;
  }

  lemma TwoIds(x: Id, y: Id)
    requires x != y && StringLe(x, y)
    ensures SortedIds({x, y}) == [x, y]
  {
    StringLeIsTotalOrder();
    SortedIdsListing({x, y});
    SortedIdsAscend({x, y});
    hide SortedIds, StringLe;
    var r := SortedIds({x, y});
    assert |r| == |{x, y}| == 2;
    assert r[0] in r && r[1] in r;
    assert r[0] != r[1] && StringLe(r[0], r[1]);
  }

  lemma SmallSets(x: Id, y: Id, z: Id)
    requires x != y && StringLe(x, y)
    ensures SetText({}) == "0[]"
    ensures SetText({z}) == "1[" + Field(z) + "]"
    ensures SetText({x, y}) == "2[" + (Field(x) + Field(y)) + "]"
  {
    hide Field, SortedIds, StringLe;
    var none: set<Id> := {};
    SortedIdsListing(none);
    assert SortedIds(none) == [];
    OneId(z);
    TwoIds(x, y);
    assert [x, y][1..] == [y] && [y][1..] == [] && [z][1..] == [];
    assert |{z}| == 1 && |{x, y}| == 2;
    assert Fields([z]) == Field(z) && Fields([y]) == Field(y);
    assert Fields([x, y]) == Field(x) + Field(y);
  }

  lemma OneEdge(e: MosaicEdge, l: Id, r: Id)
    requires {e.left, e.right} == {l, r} && l != r && StringLe(l, r)
    ensures |Records([e])| == 1
    ensures RecordTexts(SortedRecords([e])) == Field(l) + (Field(r) + (Field(e.id) + Field(e.evidence)))
  {
    hide Field;
    StringLeIsTotalOrder();
    RecordListing([e]);
    var record := ((l, r), (e.id, e.evidence));
    assert Record(e) == record;
    assert Records([e]) == {record} by {
      assert e in [e];
    }
    hide StringLe, SortedRecords;
    var rs := SortedRecords([e]);
    assert |rs| == 1 && rs[0] in rs;
    assert rs == [record] && rs[1..] == [];
    assert RecordTexts(rs) == RecordText(record) + "";
  }

  lemma OnePair(p: Id, s: Id)
    ensures LineageTexts(SortedLineage([(p, s)])) == Field(p) + Field(s)
  {
    hide Field;
    var pair := (p, s);
    assert [pair][1..] == [];
    assert SortedLineage([pair]) == [pair];
  }

  /** The text of a small basis, field by field: it fixes the headings and the order of the parts. */
  lemma SmallCanonicalText(kind: RelationKind, target: Id, source: Id, x: Id, y: Id, e: MosaicEdge,
                           p: Id, s: Id, ev: Id)
    requires x != y && StringLe(x, y) && {e.left, e.right} == {x, y}
    ensures Canonical(ProposalBasis(kind, SameTarget(target), {source}, {x, y}, {}, [e], [(p, s)]), ev, 7)
         == Field("proposal_basis_v1") + (Field(KindName(kind))
            + ((Field("same_target") + Field(target))
            + (Field("source_revisions") + (("1[" + Field(source) + "]")
            + (Field("subjects") + (("2[" + (Field(x) + Field(y)) + "]")
            + (Field("memberships") + ("0[]"
            + (Field("edges") + (Field("1") + ((Field(x) + (Field(y) + (Field(e.id) + Field(e.evidence))))
            + (Field("lineage") + (Field("1") + ((Field(p) + Field(s)) + (Field(ev) + Field("7"))))))))))))))))
  {
    SmallSets(x, y, source);
    OneEdge(e, x, y);
    OnePair(p, s);
    assert Decimal(1) == "1" && Decimal(7) == "7";
    hide Field, SetText, Records, RecordTexts, SortedRecords, LineageTexts, SortedLineage, StringLe, KindName, Decimal;
  }
}
