/** The lab sample view model (`LabSample`): a raw sample with its orders,
    test allocations and statuses, plus the department, specimen-source
    and rejection-reason reference lists, reshaped into what the laboratory
    screens display. Every getter is a function of the constructor inputs. */
module LabSampleView {
  import opened Values
  import opened Text
  import opened Collections
  import opened Statuses
  import opened Allocations

  /** A member test of a panel concept. */
  datatype SetMember = SetMember(uuid: string, display: string)

  /** A coded answer of a concept. */
  datatype Answer = Answer(uuid: string, display: string)

  /** A department or specimen-source entry, as the keying helpers return it
      for one test-order concept; its `setMembers` field may be missing. */
  datatype KeyedConcept = KeyedConcept(setMembers: Option<seq<SetMember>>, answers: seq<Answer>)

  /** The concept an order asks for. */
  datatype Concept = Concept(uuid: string, display: string)

  datatype RawOrder = RawOrder(concept: Concept, testAllocations: seq<Allocation>)

  datatype Identifier = Identifier(id: string)

  /** A patient; `identifiers` may be missing. */
  datatype Patient = Patient(identifiers: Option<seq<Identifier>>)

  /** The raw sample as fetched. `conceptUid` is the key the sample-wide
      department and specimen-source lookups use. */
  datatype Sample = Sample(
    uuid: string,
    sampleLabel: string,
    conceptUid: Option<string>,
    patient: Option<Patient>,
    creator: User,
    dateCreated: int,
    voided: bool,
    statuses: seq<Status>,
    orders: seq<RawOrder>)

  /** An entry of the coded sample-rejection reasons. */
  datatype CodedReason = CodedReason(uuid: string, display: string)

  /** The constructor arguments of `LabSample`. */
  datatype LabSample = LabSample(
    sample: Sample,
    departments: seq<Json>,
    specimenSources: seq<Json>,
    codedSampleRejectionReasons: seq<CodedReason>)

  /** The imported helpers this model does not look inside, and the clock-
      and locale-dependent date formatting, supplied by the caller. */
  datatype Helpers = Helpers(
    mergeTestAllocations: seq<Allocation> -> seq<Allocation>,
    formatters: Formatters,
    getAuthorizationDetailsByOrder: RawOrder -> Json,
    formatUserChangedStatus: Option<Status> -> Json,
    keyDepartmentsByTestOrder: seq<Json> -> map<string, KeyedConcept>,
    keySampleTypesByTestOrder: seq<Json> -> map<string, KeyedConcept>,
    formatStatusDate: int -> string)

  datatype DerivedConcept = DerivedConcept(
    uuid: string,
    display: string,
    setMembers: seq<SetMember>,
    keyedAnswers: map<string, Answer>)

  datatype CollectedBy = CollectedBy(display: string, name: string, uid: string)

  /** An order as the view shows it. */
  datatype DerivedOrder = DerivedOrder(
    concept: DerivedConcept,
    authorizationInfo: Json,
    searchingText: string,
    firstSignOff: bool,
    secondSignOff: bool,
    collected: bool,
    collectedBy: CollectedBy,
    accepted: bool,
    acceptedBy: Json,
    allocationStatuses: seq<Status>,
    testAllocations: seq<DerivedAllocation>,
    allocationsGroupedByParameterUuid: map<string, seq<DerivedAllocation>>)

  /** A released or restricted status with its display date. */
  datatype DatedStatus = DatedStatus(status: Status, date: string)

  datatype RejectionReason = RejectionReason(uuid: string, display: Option<string>)

  /** `rejectedBy`: the rejecting user's fields with the name cut before
      " (", overlaid by the rejection status's own fields. */
  datatype RejectedBy = RejectedBy(
    uuid: string,
    display: string,
    name: string,
    status: string,
    category: string,
    timestamp: int,
    user: User)

  /** What `toJSon` assembles. */
  datatype SampleView = SampleView(
    uuid: string,
    id: string,
    sampleLabel: string,
    orders: seq<DerivedOrder>,
    ordersWithResults: seq<DerivedOrder>,
    statuses: seq<Status>,
    patient: Option<Patient>,
    voided: bool,
    dateCreated: int,
    creator: User,
    registeredBy: User,
    mrn: Option<string>,
    department: Option<KeyedConcept>,
    specimen: Option<KeyedConcept>,
    collected: bool,
    integrationStatus: Option<Status>,
    releasedStatuses: seq<DatedStatus>,
    restrictedStatuses: seq<DatedStatus>,
    reasonsForRejection: seq<RejectionReason>)

  // ---------------------------------------------------------------------
  // Orders

  /** `keyed[key]`, undefined when absent. */
  function Lookup(keyed: map<string, KeyedConcept>, key: string): Option<KeyedConcept>
  {
    if key in keyed then Some(keyed[key]) else None
  }

  /** `entry?.setMembers`, with a missing entry or field read as no members. */
  function MembersOf(entry: Option<KeyedConcept>): seq<SetMember>
  {
    if entry.Some? && entry.value.setMembers.Some? then entry.value.setMembers.value else []
  }

  function MemberDisplay(m: SetMember): string
  {
    Lower(m.display)
  }

  /** `searchingText`: the lower-cased order display, a space, and the
      lower-cased displays of the specimen source's set members joined with
      spaces. */
  function SearchingText(display: string, source: Option<KeyedConcept>): string
  {
    Lower(display) + " " + Join(MapSeq(MembersOf(source), MemberDisplay), " ")
  }

  function NormaliseMember(m: SetMember): SetMember
  {
    m.(display := NormaliseDisplay(m.display))
  }

  /** The department entry has a `setMembers` list and it is empty. A
      missing entry or a missing field fails the `length == 0` test. */
  predicate HasEmptyMembers(department: Option<KeyedConcept>)
  {
    department.Some? && department.value.setMembers.Some? && |department.value.setMembers.value| == 0
  }

  /** The order concept's `setMembers`: none when the department entry has an
      empty member list; otherwise the specimen source's set members (none
      when that entry or its field is missing), each display normalised. */
  function OrderSetMembers(department: Option<KeyedConcept>, source: Option<KeyedConcept>): seq<SetMember>
  {
    if HasEmptyMembers(department) then []
    else MapSeq(MembersOf(source), NormaliseMember)
  }

  function AnswerKey(a: Answer): string
  {
    a.uuid
  }

  /** `keyBy(source?.answers, "uuid")`. */
  function KeyedAnswers(source: Option<KeyedConcept>): map<string, Answer>
  {
    if source.Some? then KeyBy(source.value.answers, AnswerKey) else map[]
  }

  predicate IsAcceptance(s: Status)
  {
    s.status == "ACCEPTED"
  }

  /** `accepted`: some sample status is ACCEPTED. */
  function Accepted(statuses: seq<Status>): bool
  {
    |Filter(statuses, IsAcceptance)| > 0
  }

  function StatusesOf(a: Allocation): seq<Status>
  {
    a.statuses
  }

  /** `allocationStatuses`: the allocations' statuses, flattened. */
  function AllocationStatuses(allocations: seq<Allocation>): seq<Status>
  {
    Flatten(MapSeq(allocations, StatusesOf))
  }

  /** One order of `orders`. */
  function DeriveOrder(
    sample: Sample, order: RawOrder,
    keyedDepartments: map<string, KeyedConcept>, keyedSources: map<string, KeyedConcept>,
    h: Helpers): DerivedOrder
  {
    var source := Lookup(keyedSources, order.concept.uuid);
    var department := Lookup(keyedDepartments, order.concept.uuid);
    DerivedOrder(
      concept := DerivedConcept(
        uuid := order.concept.uuid,
        display := NormaliseDisplay(order.concept.display),
        setMembers := OrderSetMembers(department, source),
        keyedAnswers := KeyedAnswers(source)),
      authorizationInfo := h.getAuthorizationDetailsByOrder(order),
      searchingText := SearchingText(order.concept.display, source),
      firstSignOff := false,
      secondSignOff := false,
      collected := true,
      collectedBy := CollectedBy(
        display := TruncateName(sample.creator.display),
        name := TruncateName(sample.creator.display),
        uid := sample.creator.uuid),
      accepted := Accepted(sample.statuses),
      acceptedBy := h.formatUserChangedStatus(FirstWhere(sample.statuses, IsAcceptance)),
      allocationStatuses := AllocationStatuses(order.testAllocations),
      testAllocations := TestAllocations(h.mergeTestAllocations(order.testAllocations), h.formatters),
      allocationsGroupedByParameterUuid := GroupedByParameter(order.testAllocations, h.formatters))
  }

  /** `orders`: every raw order, derived, in order; the department and
      specimen-source tables are keyed once for all of them. */
  function Orders(ls: LabSample, h: Helpers): seq<DerivedOrder>
  {
    var keyedDepartments := h.keyDepartmentsByTestOrder(ls.departments);
    var keyedSources := h.keySampleTypesByTestOrder(ls.specimenSources);
    MapSeq(ls.sample.orders, o => DeriveOrder(ls.sample, o, keyedDepartments, keyedSources, h))
  }

  /** `allocation?.results?.length > 0` on a derived (formatted) allocation. */
  predicate HasFormattedResults(d: DerivedAllocation)
  {
    |d.results| > 0
  }

  predicate HasResultedAllocation(o: DerivedOrder)
  {
    |Filter(o.testAllocations, HasFormattedResults)| > 0
  }

  /** `ordersWithResults`. */
  function OrdersWithResults(ls: LabSample, h: Helpers): seq<DerivedOrder>
  {
    Filter(Orders(ls, h), HasResultedAllocation)
  }

  // ---------------------------------------------------------------------
  // Sample-level getters

  /** The outcome of `this.sample?.patient?.identifiers[0]?.id`: a value, or
      the TypeError raised by indexing a missing `identifiers`. */
  datatype MrnOutcome = MrnValue(mrn: Option<string>) | MrnTypeError

  /** `mrn` as written: `identifiers[0]` is not guarded by `?.`. */
  function MrnAsWritten(patient: Option<Patient>): MrnOutcome
  {
    match patient
    case None => MrnValue(None)
    case Some(p) =>
      match p.identifiers
      case None => MrnTypeError
      case Some(ids) => MrnValue(if |ids| > 0 then Some(ids[0].id) else None)
  }

  /** `mrn` as evidently intended, with `identifiers?.[0]?.id`. */
  function Mrn(patient: Option<Patient>): (r: Option<string>)
    ensures r.Some? <==>
      patient.Some? && patient.value.identifiers.Some? && |patient.value.identifiers.value| > 0
    ensures r.Some? ==> r.value == patient.value.identifiers.value[0].id
  {
    if patient.Some? && patient.value.identifiers.Some? && |patient.value.identifiers.value| > 0
    then Some(patient.value.identifiers.value[0].id)
    else None
  }

  /** A patient record without an identifier list makes the getter as
      written raise; wherever it does not raise it agrees with `Mrn`. */
  lemma MrnAsWrittenRaises()
    ensures MrnAsWritten(Some(Patient(None))) == MrnTypeError
    ensures forall p :: MrnAsWritten(p) != MrnTypeError ==> MrnAsWritten(p) == MrnValue(Mrn(p))
  {
  }

  /** The property key JavaScript uses for `obj[uid]`: a missing uid is
      turned into the string "undefined". */
  function PropertyKey(uid: Option<string>): string
  {
    if uid.Some? then uid.value else "undefined"
  }

  /** `keyed[this.sample?.concept?.uid]`. */
  function SampleLookup(keyed: map<string, KeyedConcept>, uid: Option<string>): Option<KeyedConcept>
  {
    Lookup(keyed, PropertyKey(uid))
  }

  /** `department`: the department entry keyed by the sample's own concept
      `uid` (not an order concept's `uuid`). */
  function Department(ls: LabSample, h: Helpers): Option<KeyedConcept>
  {
    SampleLookup(h.keyDepartmentsByTestOrder(ls.departments), ls.sample.conceptUid)
  }

  /** `specimenSource`, keyed like `Department`. */
  function SpecimenSource(ls: LabSample, h: Helpers): Option<KeyedConcept>
  {
    SampleLookup(h.keySampleTypesByTestOrder(ls.specimenSources), ls.sample.conceptUid)
  }

  predicate IsIntegration(s: Status)
  {
    s.category == "RESULTS_INTEGRATION"
  }

  /** `integrationStatus`: the first status of category RESULTS_INTEGRATION. */
  function IntegrationStatus(statuses: seq<Status>): Option<Status>
  {
    FirstWhere(statuses, IsIntegration)
  }

  predicate IsRelease(s: Status)
  {
    s.status == "RELEASED"
  }

  predicate IsRestriction(s: Status)
  {
    s.status == "RESTRICTED"
  }

  /** The statuses that `keep` selects, each with its display date. */
  function DatedStatuses(statuses: seq<Status>, keep: Status -> bool, formatDate: int -> string): seq<DatedStatus>
  {
    MapSeq(Filter(statuses, keep), (s: Status) => DatedStatus(s, formatDate(s.timestamp)))
  }

  function ReleasedStatuses(statuses: seq<Status>, h: Helpers): seq<DatedStatus>
  {
    DatedStatuses(statuses, IsRelease, h.formatStatusDate)
  }

  function RestrictedStatuses(statuses: seq<Status>, h: Helpers): seq<DatedStatus>
  {
    DatedStatuses(statuses, IsRestriction, h.formatStatusDate)
  }

  /** A sample rejection: the category contains "REJECTED". */
  predicate IsRejection(s: Status)
  {
    IndexOf(s.category, "REJECTED") > -1
  }

  /** The display of the first coded reason whose uuid is `code`. */
  function ReasonDisplay(reasons: seq<CodedReason>, code: string): Option<string>
  {
    var found := FirstWhere(reasons, (r: CodedReason) => r.uuid == code);
    if found.Some? then Some(found.value.display) else None
  }

  function ReasonFor(reasons: seq<CodedReason>, s: Status): RejectionReason
  {
    RejectionReason(uuid := s.status, display := ReasonDisplay(reasons, s.status))
  }

  /** `reasonsForRejection`. */
  function ReasonsForRejection(statuses: seq<Status>, reasons: seq<CodedReason>): seq<RejectionReason>
  {
    var rejections := Filter(statuses, IsRejection);
    if |rejections| > 0 then MapSeq(rejections, s => ReasonFor(reasons, s)) else []
  }

  /** `rejected`. */
  function Rejected(statuses: seq<Status>): bool
  {
    |Filter(statuses, IsRejection)| > 0
  }

  /** `rejectedBy`. */
  function RejectedByOf(statuses: seq<Status>): Option<RejectedBy>
  {
    var rejections := Filter(statuses, IsRejection);
    if |rejections| > 0 then
      var s := rejections[0];
      Some(RejectedBy(
        uuid := s.user.uuid,
        display := s.user.display,
        name := TruncateName(s.user.name),
        status := s.status,
        category := s.category,
        timestamp := s.timestamp,
        user := s.user))
    else None
  }

  /** `toJSon`. */
  function ToJSon(ls: LabSample, h: Helpers): SampleView
  {
    var s := ls.sample;
    SampleView(
      uuid := s.uuid,
      id := s.uuid,
      sampleLabel := s.sampleLabel,
      orders := Orders(ls, h),
      ordersWithResults := OrdersWithResults(ls, h),
      statuses := s.statuses,
      patient := s.patient,
      voided := s.voided,
      dateCreated := s.dateCreated,
      creator := s.creator,
      registeredBy := s.creator,
      mrn := Mrn(s.patient),
      department := Department(ls, h),
      specimen := SpecimenSource(ls, h),
      collected := true,
      integrationStatus := IntegrationStatus(s.statuses),
      releasedStatuses := ReleasedStatuses(s.statuses, h),
      restrictedStatuses := RestrictedStatuses(s.statuses, h),
      reasonsForRejection := ReasonsForRejection(s.statuses, ls.codedSampleRejectionReasons))
  }

  // ---------------------------------------------------------------------
  // Properties of the orders

  /** The order's set members: none when the department entry has an empty
      member list; otherwise (also when the department entry or its member
      list is missing) one per specimen-source member, same uuid, in order,
      with its display normalised like the order's own (the member's display
      when that holds no colon, else the text after its first colon up to
      the next one). No member display holds a colon. */
  lemma OrderSetMembersSpec(department: Option<KeyedConcept>, source: Option<KeyedConcept>)
    ensures HasEmptyMembers(department) ==> OrderSetMembers(department, source) == []
    ensures !HasEmptyMembers(department) ==>
      var r, members := OrderSetMembers(department, source), MembersOf(source);
      && |r| == |members|
      && forall i :: 0 <= i < |r| ==>
           && r[i].uuid == members[i].uuid
           && r[i].display == NormaliseDisplay(members[i].display)
           && (IndexOf(members[i].display, ":") == -1 ==> r[i].display == members[i].display)
    ensures forall i :: 0 <= i < |OrderSetMembers(department, source)| ==>
      IndexOf(OrderSetMembers(department, source)[i].display, ":") == -1
  {
    if !HasEmptyMembers(department) {
      var r, members := OrderSetMembers(department, source), MembersOf(source);
      forall i | 0 <= i < |r|
        ensures IndexOf(r[i].display, ":") == -1
        ensures IndexOf(members[i].display, ":") == -1 ==> r[i].display == members[i].display
      {
        NormaliseDisplaySpec(members[i].display);
      }
    }
  }

  /** A department entry without a `setMembers` field does not empty the
      order's members: the specimen source's members are kept. */
  lemma MissingDepartmentMembersKeepsSource(source: Option<KeyedConcept>)
    ensures |OrderSetMembers(Some(KeyedConcept(None, [])), source)| == |MembersOf(source)|
  {
  }

  /** `keyedAnswers` has one entry per answer uuid of the specimen source
      (none without one), and each entry is the last answer carrying that
      uuid. */
  lemma KeyedAnswersSpec(source: Option<KeyedConcept>)
    ensures source.None? ==> KeyedAnswers(source) == map[]
    ensures source.Some? ==>
      var m, answers := KeyedAnswers(source), source.value.answers;
      && m.Keys == KeySet(answers, AnswerKey)
      && forall k :: k in m ==>
           var w := WithKey(answers, AnswerKey, k);
           |w| > 0 && m[k] == w[|w| - 1] && m[k].uuid == k && m[k] in answers
  {
    if source.Some? {
      var m, answers := KeyedAnswers(source), source.value.answers;
      KeyBySpec(answers, AnswerKey);
      forall k | k in m
        ensures m[k].uuid == k && m[k] in answers
      {
        var w := WithKey(answers, AnswerKey, k);
        WithKeyElements(answers, AnswerKey, k, |w| - 1);
      }
    }
  }

  /** The search text is lower-case, starts with the lower-cased order
      display and a space, keeps every character of the display that is not
      an upper-case letter, and is just that when there are no specimen-source
      members. */
  lemma SearchingTextSpec(display: string, source: Option<KeyedConcept>)
    ensures IsLower(SearchingText(display, source))
    ensures |SearchingText(display, source)| > |display|
    ensures SearchingText(display, source)[..|display| + 1] == Lower(display) + " "
    ensures forall i :: 0 <= i < |display| && !IsUpper(display[i]) ==>
      SearchingText(display, source)[i] == display[i]
    ensures |MembersOf(source)| == 0 ==> SearchingText(display, source) == Lower(display) + " "
  {
    var members := MembersOf(source);
    var pieces := MapSeq(members, MemberDisplay);
    forall k | 0 <= k < |pieces|
      ensures IsLower(pieces[k])
    {
      LowerSpec(members[k].display);
    }
    JoinLower(pieces, " ");
    LowerSpec(display);
    ConcatLower(Lower(display), " ");
    ConcatLower(Lower(display) + " ", Join(pieces, " "));
    var r := SearchingText(display, source);
    assert r == (Lower(display) + " ") + Join(pieces, " ");
    assert r[..|display| + 1] == Lower(display) + " ";
  }

  /** After the display prefix, the search text holds the lower-cased
      specimen-source member displays, in member order, each at its place in
      the space-separated join, each but the last followed by a space, and
      the last one ending the text. */
  lemma SearchingTextHoldsMembers(display: string, source: Option<KeyedConcept>, k: int)
    requires 0 <= k < |MembersOf(source)|
    ensures var at := |display| + 1 + JoinOffset(MapSeq(MembersOf(source), MemberDisplay), " ", k);
      && OccursAt(SearchingText(display, source), Lower(MembersOf(source)[k].display), at)
      && (k + 1 < |MembersOf(source)| ==>
            OccursAt(SearchingText(display, source), " ", at + |MembersOf(source)[k].display|))
      && (k + 1 == |MembersOf(source)| ==>
            |SearchingText(display, source)| == at + |MembersOf(source)[k].display|)
  {
    var members := MembersOf(source);
    var pieces := MapSeq(members, MemberDisplay);
    var prefix := Lower(display) + " ";
    var joined := Join(pieces, " ");
    assert SearchingText(display, source) == prefix + joined;
    LowerSpec(display);
    LowerSpec(members[k].display);
    JoinPieceAt(pieces, " ", k);
    var off := JoinOffset(pieces, " ", k);
    OccursShifted(prefix, joined, pieces[k], off);
    if k + 1 < |members| {
      OccursShifted(prefix, joined, " ", off + |pieces[k]|);
    }
  }

  /** `accepted` holds exactly when some sample status is ACCEPTED, which is
      exactly when there is a first such status for `acceptedBy` to show. */
  lemma AcceptedSpec(statuses: seq<Status>)
    ensures Accepted(statuses) <==> exists i :: 0 <= i < |statuses| && statuses[i].status == "ACCEPTED"
    ensures Accepted(statuses) <==> FirstWhere(statuses, IsAcceptance).Some?
    ensures FirstWhere(statuses, IsAcceptance).Some? ==>
      exists i :: 0 <= i < |statuses| && statuses[i] == FirstWhere(statuses, IsAcceptance).value
        && statuses[i].status == "ACCEPTED"
        && forall j :: 0 <= j < i ==> statuses[j].status != "ACCEPTED"
  {
    FirstWhereSpec(statuses, IsAcceptance);
    var r := Filter(statuses, IsAcceptance);
    if |r| > 0 {
      assert r[0] in statuses && IsAcceptance(r[0]);
    }
  }

  /** `allocationStatuses` holds exactly the statuses of the allocations,
      and none when there are no allocations. */
  lemma AllocationStatusesSpec(allocations: seq<Allocation>)
    ensures AllocationStatuses([]) == []
    ensures forall x :: x in AllocationStatuses(allocations) <==>
      exists i :: 0 <= i < |allocations| && x in allocations[i].statuses
  {
    var ss := MapSeq(allocations, StatusesOf);
    forall x
      ensures x in Flatten(ss) <==> exists i :: 0 <= i < |allocations| && x in allocations[i].statuses
    {
      FlattenMembers(ss, x);
    }
  }

  /** One more allocation appends all of its statuses, every occurrence, in
      their order, after those of the earlier allocations. */
  lemma AllocationStatusesAppend(allocations: seq<Allocation>, last: Allocation)
    ensures AllocationStatuses(allocations + [last]) == AllocationStatuses(allocations) + last.statuses
  {
    MapAppend(allocations, last, StatusesOf);
    FlattenAppend(MapSeq(allocations, StatusesOf), last.statuses);
  }

  /** One derived order: the concept keeps its uuid and gets a colon-free
      display; the order-level sign-off flags are off and `collected` is on;
      the collector is the sample's creator, named without the " (...)"
      suffix; the search text is lower-case; `accepted` reflects the sample
      statuses; `allocationStatuses` gathers the allocations' statuses; the
      listed test allocations carry distinct parameters, one per concept of
      the merged allocations; the grouped ones are keyed by the concepts of
      the allocations that have results. */
  lemma DeriveOrderSpec(
    sample: Sample, order: RawOrder,
    keyedDepartments: map<string, KeyedConcept>, keyedSources: map<string, KeyedConcept>,
    h: Helpers)
    ensures var d := DeriveOrder(sample, order, keyedDepartments, keyedSources, h);
      && d.concept.uuid == order.concept.uuid
      && IndexOf(d.concept.display, ":") == -1
      && (IndexOf(order.concept.display, ":") == -1 ==> d.concept.display == order.concept.display)
      && d.collected && !d.firstSignOff && !d.secondSignOff
      && d.collectedBy.display == d.collectedBy.name
      && IndexOf(d.collectedBy.name, " (") == -1
      && (IndexOf(sample.creator.display, " (") == -1 ==> d.collectedBy.name == sample.creator.display)
      && d.collectedBy.uid == sample.creator.uuid
      && IsLower(d.searchingText)
      && (d.accepted <==> exists i :: 0 <= i < |sample.statuses| && sample.statuses[i].status == "ACCEPTED")
      && (forall x :: x in d.allocationStatuses <==>
           exists i :: 0 <= i < |order.testAllocations| && x in order.testAllocations[i].statuses)
      && (forall i, j :: 0 <= i < j < |d.testAllocations| ==>
           d.testAllocations[i].parameterUuid != d.testAllocations[j].parameterUuid)
      && KeySet(d.testAllocations, ParameterKey)
           == KeySet(h.mergeTestAllocations(order.testAllocations), ConceptKey)
      && d.allocationsGroupedByParameterUuid.Keys
           == KeySet(Filter(order.testAllocations, HasResults), ConceptKey)
  {
    var source := Lookup(keyedSources, order.concept.uuid);
    NormaliseDisplaySpec(order.concept.display);
    TruncateNameSpec(sample.creator.display);
    SearchingTextSpec(order.concept.display, source);
    AcceptedSpec(sample.statuses);
    AllocationStatusesSpec(order.testAllocations);
    TestAllocationsSpec(h.mergeTestAllocations(order.testAllocations), h.formatters);
    GroupedByParameterSpec(order.testAllocations, h.formatters);
  }

  /** `orders` derives one order per raw order, at the same position, for
      the same concept. */
  lemma OrdersSpec(ls: LabSample, h: Helpers)
    ensures |Orders(ls, h)| == |ls.sample.orders|
    ensures forall i :: 0 <= i < |ls.sample.orders| ==>
      Orders(ls, h)[i].concept.uuid == ls.sample.orders[i].concept.uuid
  {
  }

  /** An order has results exactly when one of its listed allocations holds
      formatted results. */
  lemma HasResultedAllocationSpec(o: DerivedOrder)
    ensures HasResultedAllocation(o) <==>
      exists j :: 0 <= j < |o.testAllocations| && |o.testAllocations[j].results| > 0
  {
    var r := Filter(o.testAllocations, HasFormattedResults);
    if |r| > 0 {
      assert r[0] in o.testAllocations && HasFormattedResults(r[0]);
    }
  }

  /** `ordersWithResults` keeps exactly the orders that have an allocation
      with results, each once per occurrence, in their order in `orders`. */
  lemma OrdersWithResultsSpec(ls: LabSample, h: Helpers)
    ensures |OrdersWithResults(ls, h)| <= |Orders(ls, h)|
    ensures exists idx :: SelectsInOrder(Orders(ls, h), HasResultedAllocation, OrdersWithResults(ls, h), idx)
    ensures forall o :: o in OrdersWithResults(ls, h) <==>
      o in Orders(ls, h) && exists j :: 0 <= j < |o.testAllocations| && |o.testAllocations[j].results| > 0
  {
    var all := Orders(ls, h);
    var r := OrdersWithResults(ls, h);
    FilterSelectsInOrder(all, HasResultedAllocation);
    forall o
      ensures o in r <==>
        o in all && exists j :: 0 <= j < |o.testAllocations| && |o.testAllocations[j].results| > 0
    {
      HasResultedAllocationSpec(o);
    }
  }

  // ---------------------------------------------------------------------
  // Properties of the sample-level getters

  /** The sample-wide `department` and `specimen` are looked up by the
      sample's concept `uid`, the orders' entries by their concept `uuid`.
      When the two keys agree, the sample-wide entries are the ones that
      decide that order's set members, answers and search text. */
  lemma SampleLookupMatchesOrder(ls: LabSample, h: Helpers, k: int)
    requires 0 <= k < |ls.sample.orders|
    ensures ls.sample.conceptUid == Some(ls.sample.orders[k].concept.uuid) ==>
      var o, c := Orders(ls, h)[k], ls.sample.orders[k].concept;
      && o.concept.setMembers == OrderSetMembers(Department(ls, h), SpecimenSource(ls, h))
      && o.concept.keyedAnswers == KeyedAnswers(SpecimenSource(ls, h))
      && o.searchingText == SearchingText(c.display, SpecimenSource(ls, h))
  {
  }

  /** The sample-wide lookups can miss an entry that an order finds: with
      the sample's concept uid differing from its order's concept uuid, the
      sample has no department although the departments are keyed under
      that order's concept. */
  lemma SampleLookupCanDiffer()
    ensures exists ls: LabSample, h: Helpers, k ::
      && 0 <= k < |ls.sample.orders|
      && Department(ls, h).None?
      && Lookup(h.keyDepartmentsByTestOrder(ls.departments), ls.sample.orders[k].concept.uuid).Some?
  {
    var nobody := User("", "", "");
    var order := RawOrder(Concept("c", ""), []);
    var sample := Sample("s", "", Some("x"), None, nobody, 0, false, [], [order]);
    var ls := LabSample(sample, [], [], []);
    var entry := KeyedConcept(None, []);
    var keyed := (js: seq<Json>) => map["c" := entry];
    var h := Helpers(
      (m: seq<Allocation>) => m,
      Formatters((r: seq<Json>) => r, (s: seq<Status>) => JNull),
      (o: RawOrder) => JNull,
      (s: Option<Status>) => JNull,
      keyed, keyed,
      (t: int) => "");
    assert Department(ls, h).None?;
    assert Lookup(h.keyDepartmentsByTestOrder(ls.departments), ls.sample.orders[0].concept.uuid).Some?;
  }

  /** `integrationStatus` is missing exactly when no status is of category
      RESULTS_INTEGRATION, and otherwise it is the first one that is. */
  lemma IntegrationStatusSpec(statuses: seq<Status>)
    ensures IntegrationStatus(statuses).None? <==>
      forall i :: 0 <= i < |statuses| ==> statuses[i].category != "RESULTS_INTEGRATION"
    ensures IntegrationStatus(statuses).Some? ==>
      exists i :: 0 <= i < |statuses| && statuses[i] == IntegrationStatus(statuses).value
        && statuses[i].category == "RESULTS_INTEGRATION"
        && forall j :: 0 <= j < i ==> statuses[j].category != "RESULTS_INTEGRATION"
  {
    FirstWhereSpec(statuses, IsIntegration);
  }

  /** The dated statuses are the statuses `keep` selects, each dated from
      its own timestamp. They are built status by status: no statuses give
      none, and one more status adds its dated entry at the end exactly
      when it is selected, so order and repeats are kept. */
  lemma DatedStatusesSpec(statuses: seq<Status>, x: Status, keep: Status -> bool, formatDate: int -> string)
    ensures DatedStatuses([], keep, formatDate) == []
    ensures DatedStatuses(statuses + [x], keep, formatDate)
      == DatedStatuses(statuses, keep, formatDate) + (if keep(x) then [DatedStatus(x, formatDate(x.timestamp))] else [])
    ensures forall i :: 0 <= i < |DatedStatuses(statuses, keep, formatDate)| ==>
      var d := DatedStatuses(statuses, keep, formatDate)[i];
      d.status in statuses && keep(d.status) && d.date == formatDate(d.status.timestamp)
    ensures forall i :: 0 <= i < |statuses| && keep(statuses[i]) ==>
      DatedStatus(statuses[i], formatDate(statuses[i].timestamp)) in DatedStatuses(statuses, keep, formatDate)
  {
    FilterAppend(statuses, x, keep);
    MapAppend(Filter(statuses, keep), x, (s: Status) => DatedStatus(s, formatDate(s.timestamp)));
    assert Filter(statuses + [x], keep) == Filter(statuses, keep) + (if keep(x) then [x] else []);
    if !keep(x) {
      assert Filter(statuses, keep) + [] == Filter(statuses, keep);
    }
  }

  /** `releasedStatuses` shows every RELEASED status, and only those, with
      its date, in order and with repeats. */
  lemma ReleasedStatusesSpec(statuses: seq<Status>, x: Status, h: Helpers)
    ensures ReleasedStatuses(statuses + [x], h)
      == ReleasedStatuses(statuses, h) + (if x.status == "RELEASED" then [DatedStatus(x, h.formatStatusDate(x.timestamp))] else [])
    ensures forall i :: 0 <= i < |ReleasedStatuses(statuses, h)| ==>
      var d := ReleasedStatuses(statuses, h)[i];
      d.status in statuses && d.status.status == "RELEASED" && d.date == h.formatStatusDate(d.status.timestamp)
    ensures forall i :: 0 <= i < |statuses| && statuses[i].status == "RELEASED" ==>
      DatedStatus(statuses[i], h.formatStatusDate(statuses[i].timestamp)) in ReleasedStatuses(statuses, h)
  {
    DatedStatusesSpec(statuses, x, IsRelease, h.formatStatusDate);
  }

  /** `restrictedStatuses` shows every RESTRICTED status, and only those,
      with its date, in order and with repeats. */
  lemma RestrictedStatusesSpec(statuses: seq<Status>, x: Status, h: Helpers)
    ensures RestrictedStatuses(statuses + [x], h)
      == RestrictedStatuses(statuses, h) + (if x.status == "RESTRICTED" then [DatedStatus(x, h.formatStatusDate(x.timestamp))] else [])
    ensures forall i :: 0 <= i < |RestrictedStatuses(statuses, h)| ==>
      var d := RestrictedStatuses(statuses, h)[i];
      d.status in statuses && d.status.status == "RESTRICTED" && d.date == h.formatStatusDate(d.status.timestamp)
    ensures forall i :: 0 <= i < |statuses| && statuses[i].status == "RESTRICTED" ==>
      DatedStatus(statuses[i], h.formatStatusDate(statuses[i].timestamp)) in RestrictedStatuses(statuses, h)
  {
    DatedStatusesSpec(statuses, x, IsRestriction, h.formatStatusDate);
  }

  /** A rejection reason's display is missing exactly when no coded reason
      has its uuid, and otherwise it is the display of the first one that
      has. */
  lemma ReasonDisplaySpec(reasons: seq<CodedReason>, code: string)
    ensures ReasonDisplay(reasons, code).None? <==>
      forall i :: 0 <= i < |reasons| ==> reasons[i].uuid != code
    ensures ReasonDisplay(reasons, code).Some? ==>
      exists i :: 0 <= i < |reasons| && reasons[i].uuid == code
        && reasons[i].display == ReasonDisplay(reasons, code).value
        && forall j :: 0 <= j < i ==> reasons[j].uuid != code
  {
    FirstWhereSpec(reasons, (r: CodedReason) => r.uuid == code);
  }

  /** The sample is rejected exactly when some status's category contains
      "REJECTED"; there is then one reason per such status, in status order,
      identified by the status code and showing the looked-up display, and
      otherwise none. */
  lemma ReasonsForRejectionSpec(statuses: seq<Status>, reasons: seq<CodedReason>)
    ensures Rejected(statuses) <==>
      exists i :: 0 <= i < |statuses| && IndexOf(statuses[i].category, "REJECTED") >= 0
    ensures Rejected(statuses) <==> |ReasonsForRejection(statuses, reasons)| > 0
    ensures var f := Filter(statuses, IsRejection);
      && |ReasonsForRejection(statuses, reasons)| == |f|
      && forall i :: 0 <= i < |f| ==>
           ReasonsForRejection(statuses, reasons)[i]
             == RejectionReason(f[i].status, ReasonDisplay(reasons, f[i].status))
    ensures forall i :: 0 <= i < |ReasonsForRejection(statuses, reasons)| ==>
      var r := ReasonsForRejection(statuses, reasons)[i];
      && (exists j :: 0 <= j < |statuses| && IndexOf(statuses[j].category, "REJECTED") >= 0
            && statuses[j].status == r.uuid)
      && r.display == ReasonDisplay(reasons, r.uuid)
  {
  }

  /** The reasons are built status by status: one more status adds its
      reason at the end exactly when its category contains "REJECTED". */
  lemma ReasonsForRejectionAppend(statuses: seq<Status>, x: Status, reasons: seq<CodedReason>)
    ensures ReasonsForRejection(statuses + [x], reasons)
      == ReasonsForRejection(statuses, reasons)
         + (if IndexOf(x.category, "REJECTED") >= 0 then [RejectionReason(x.status, ReasonDisplay(reasons, x.status))] else [])
  {
    FilterAppend(statuses, x, IsRejection);
    MapAppend(Filter(statuses, IsRejection), x, (s: Status) => ReasonFor(reasons, s));
    if !IsRejection(x) {
      assert Filter(statuses + [x], IsRejection) == Filter(statuses, IsRejection);
    }
  }

  /** `rejectedBy` is missing exactly when the sample is not rejected, and
      otherwise it describes the first rejection status: its user, with the
      name cut before " (", and its own status, category and timestamp. */
  lemma RejectedBySpec(statuses: seq<Status>)
    ensures RejectedByOf(statuses).None? <==> !Rejected(statuses)
    ensures RejectedByOf(statuses).Some? ==>
      var rb := RejectedByOf(statuses).value;
      && IndexOf(rb.name, " (") == -1
      && exists i :: 0 <= i < |statuses| && IsRejection(statuses[i])
           && (forall j :: 0 <= j < i ==> !IsRejection(statuses[j]))
           && rb.user == statuses[i].user && rb.uuid == statuses[i].user.uuid
           && rb.display == statuses[i].user.display
           && rb.name == TruncateName(statuses[i].user.name)
           && rb.status == statuses[i].status && rb.category == statuses[i].category
           && rb.timestamp == statuses[i].timestamp
  {
    FirstWhereSpec(statuses, IsRejection);
    var f := Filter(statuses, IsRejection);
    if |f| > 0 {
      TruncateNameSpec(f[0].user.name);
      assert FirstWhere(statuses, IsRejection) == Some(f[0]);
    }
  }

  /** `toJSon`: `id` repeats the uuid, `registeredBy` repeats the creator,
      `collected` is on, the MRN never raises, the orders with results are
      among the orders, and reasons for rejection are listed exactly when
      the sample is rejected. */
  lemma ToJSonSpec(ls: LabSample, h: Helpers)
    ensures var v := ToJSon(ls, h);
      && v.id == v.uuid == ls.sample.uuid
      && v.registeredBy == v.creator == ls.sample.creator
      && v.collected
      && v.mrn == Mrn(ls.sample.patient)
      && |v.orders| == |ls.sample.orders|
      && (forall o :: o in v.ordersWithResults ==> o in v.orders)
      && (|v.reasonsForRejection| > 0 <==> Rejected(ls.sample.statuses))
  {
  }
}
