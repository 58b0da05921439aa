/** Test allocations and what the view model derives from each one: the
    sign-off flags, the rejection flag and status and the authorization
    info, all read off the allocation's statuses sorted most recent first;
    then the two views of an order's allocations, `testAllocations` (one per
    parameter, first one wins) and `allocationsGroupedByParameterUuid` (every
    allocation that has results, grouped by parameter). */
module Allocations {
  import opened Values
  import opened Collections
  import opened Statuses

  /** A test allocation: one parameter (test) of an order, with its own
      status history and results. Its parameter is its concept's uuid. */
  datatype Allocation = Allocation(
    uuid: string,
    conceptUuid: string,
    statuses: seq<Status>,
    results: seq<Json>)

  /** The two helpers the enrichment calls and this model does not look
      inside: `formatResults` and `getResultsCommentsStatuses`. */
  datatype Formatters = Formatters(
    formatResults: seq<Json> -> seq<Json>,
    getResultsCommentsStatuses: seq<Status> -> Json)

  /** An allocation as the view shows it. `None` stands for `null`. */
  datatype DerivedAllocation = DerivedAllocation(
    allocationUuid: string,
    parameterUuid: string,
    authorizationInfo: Option<Status>,
    firstSignOff: bool,
    secondSignOff: bool,
    rejected: bool,
    rejectionStatus: Option<Status>,
    results: seq<Json>,
    statuses: seq<Status>,
    resultsCommentsStatuses: Json)

  /** An approval, recorded either as the status or as its category. */
  predicate IsApproved(s: Status)
  {
    s.status == "APPROVED" || s.category == "APPROVED"
  }

  /** First sign-off: the latest status is APPROVED or AUTHORIZED. Only the
      `status` field is consulted. */
  function FirstSignOff(statuses: seq<Status>): bool
  {
    var sorted := OrderByTimestampDesc(statuses);
    |statuses| > 0 && (sorted[0].status == "APPROVED" || sorted[0].status == "AUTHORIZED")
  }

  /** Second sign-off: the two latest statuses are both APPROVED (a missing
      second status compares unequal). */
  function SecondSignOff(statuses: seq<Status>): bool
  {
    var sorted := OrderByTimestampDesc(statuses);
    |statuses| > 0 && sorted[0].status == "APPROVED"
      && |sorted| > 1 && sorted[1].status == "APPROVED"
  }

  /** The allocation is rejected when its latest status is REJECTED, as
      status or as category. */
  function IsRejected(statuses: seq<Status>): bool
  {
    var sorted := OrderByTimestampDesc(statuses);
    |statuses| > 0 && (sorted[0].status == "REJECTED" || sorted[0].category == "REJECTED")
  }

  /** The latest status when its `status` field is REJECTED, else null. */
  function RejectionStatus(statuses: seq<Status>): Option<Status>
  {
    var sorted := OrderByTimestampDesc(statuses);
    if |statuses| > 0 && sorted[0].status == "REJECTED" then Some(sorted[0]) else None
  }

  /** `authorizationInfo` in `testAllocations`: sort the approvals, most
      recent first, and take the first if it is an approval. */
  function LatestApproval(statuses: seq<Status>): Option<Status>
  {
    var sorted := OrderByTimestampDesc(Filter(statuses, IsApproved));
    if |sorted| > 0 && IsApproved(sorted[0]) then Some(sorted[0]) else None
  }

  /** `authorizationInfo` in `allocationsGroupedByParameterUuid`: the latest
      status, if it is an approval. */
  function LatestIfApproval(statuses: seq<Status>): Option<Status>
  {
    var sorted := OrderByTimestampDesc(statuses);
    if |sorted| > 0 && IsApproved(sorted[0]) then Some(sorted[0]) else None
  }

  /** The fields both views derive the same way from an allocation. */
  function Enrich(a: Allocation, authorizationInfo: Option<Status>, fmt: Formatters): DerivedAllocation
  {
    DerivedAllocation(
      allocationUuid := a.uuid,
      parameterUuid := a.conceptUuid,
      authorizationInfo := authorizationInfo,
      firstSignOff := FirstSignOff(a.statuses),
      secondSignOff := SecondSignOff(a.statuses),
      rejected := IsRejected(a.statuses),
      rejectionStatus := RejectionStatus(a.statuses),
      results := fmt.formatResults(a.results),
      statuses := a.statuses,
      resultsCommentsStatuses := fmt.getResultsCommentsStatuses(a.statuses))
  }

  /** An allocation as listed in `testAllocations`. */
  function ListedAllocation(a: Allocation, fmt: Formatters): DerivedAllocation
  {
    Enrich(a, LatestApproval(a.statuses), fmt)
  }

  /** An allocation as listed in `allocationsGroupedByParameterUuid`. */
  function GroupedAllocation(a: Allocation, fmt: Formatters): DerivedAllocation
  {
    Enrich(a, LatestIfApproval(a.statuses), fmt)
  }

  function ConceptKey(a: Allocation): string
  {
    a.conceptUuid
  }

  function ParameterKey(d: DerivedAllocation): string
  {
    d.parameterUuid
  }

  /** `allocation?.results?.length > 0`. */
  predicate HasResults(a: Allocation)
  {
    |a.results| > 0
  }

  /** `testAllocations`: enrich every merged allocation, then keep one per
      parameter (lodash `uniqBy`). */
  function TestAllocations(merged: seq<Allocation>, fmt: Formatters): seq<DerivedAllocation>
  {
    UniqBy(MapSeq(merged, a => ListedAllocation(a, fmt)), ParameterKey)
  }

  /** `allocationsGroupedByParameterUuid`: the allocations with results
      (the source maps the others to `undefined` and filters those out),
      enriched, then grouped by parameter (lodash `groupBy`). */
  function GroupedByParameter(allocations: seq<Allocation>, fmt: Formatters): map<string, seq<DerivedAllocation>>
  {
    GroupBy(MapSeq(Filter(allocations, HasResults), a => GroupedAllocation(a, fmt)), ParameterKey)
  }

  // ---------------------------------------------------------------------
  // Properties

  /** An allocation without statuses gets no sign-off, is not rejected and
      has neither a rejection status nor authorization info, in both views. */
  lemma NoStatusesNoFlags(a: Allocation, fmt: Formatters)
    requires a.statuses == []
    ensures var d := ListedAllocation(a, fmt);
      !d.firstSignOff && !d.secondSignOff && !d.rejected
      && d.rejectionStatus == None && d.authorizationInfo == None
    ensures var d := GroupedAllocation(a, fmt);
      !d.firstSignOff && !d.secondSignOff && !d.rejected
      && d.rejectionStatus == None && d.authorizationInfo == None
  {
  }

  /** First sign-off holds exactly when the latest status is APPROVED or
      AUTHORIZED; second sign-off exactly when there are two statuses or
      more, the latest is APPROVED and so is the latest of the others. So a
      second sign-off is always a first sign-off too. */
  lemma SignOffSpec(statuses: seq<Status>)
    ensures FirstSignOff(statuses) <==>
      exists x :: IsLatest(statuses, x) && (x.status == "APPROVED" || x.status == "AUTHORIZED")
    ensures SecondSignOff(statuses) <==>
      |statuses| >= 2 && exists x, y ::
        && IsLatest(statuses, x) && x.status == "APPROVED"
        && IsLatest(RemoveAt(statuses, FirstMaxIndex(statuses)), y) && y.status == "APPROVED"
    ensures SecondSignOff(statuses) ==> FirstSignOff(statuses)
  {
    if |statuses| > 0 {
      var sorted := OrderByTimestampDesc(statuses);
      HeadIsLatest(statuses);
      forall x | IsLatest(statuses, x)
        ensures x == sorted[0]
      {
        LatestIsUnique(statuses, x, sorted[0]);
      }
      if |statuses| >= 2 {
        var rest := RemoveAt(statuses, FirstMaxIndex(statuses));
        SecondIsLatestOfRest(statuses);
        forall y | IsLatest(rest, y)
          ensures y == sorted[1]
        {
          LatestIsUnique(rest, y, sorted[1]);
        }
      }
    } else {
      assert forall x :: !IsLatest(statuses, x);
    }
  }

  /** A rejection status is exactly the latest status when its `status` is
      REJECTED, and it makes the allocation rejected. */
  lemma RejectionSpec(statuses: seq<Status>)
    ensures forall x :: RejectionStatus(statuses) == Some(x) <==>
      IsLatest(statuses, x) && x.status == "REJECTED"
    ensures RejectionStatus(statuses).Some? ==> IsRejected(statuses)
    ensures IsRejected(statuses) <==>
      exists x :: IsLatest(statuses, x) && (x.status == "REJECTED" || x.category == "REJECTED")
  {
  }

  /** The converse fails: an allocation whose latest status has category
      REJECTED but another `status` is rejected without a rejection status. */
  lemma RejectedWithoutRejectionStatus()
    ensures exists statuses :: IsRejected(statuses) && RejectionStatus(statuses) == None
  {
    var s := Status("SAMPLE_REJECTED_REASON", "REJECTED", 5, User("u", "n", "d"));
    assert OrderByTimestampDesc([s]) == [s];
    assert IsRejected([s]) && RejectionStatus([s]) == None;
  }

  /** `authorizationInfo` in `testAllocations` is null exactly when no status
      is an approval, and otherwise it is the latest approval. */
  lemma LatestApprovalSpec(statuses: seq<Status>)
    ensures LatestApproval(statuses).None? <==> forall i :: 0 <= i < |statuses| ==> !IsApproved(statuses[i])
    ensures forall x :: LatestApproval(statuses) == Some(x) <==>
      IsApproved(x) && IsLatest(Filter(statuses, IsApproved), x)
  {
    var approvals := Filter(statuses, IsApproved);
    if |approvals| > 0 {
      var sorted := OrderByTimestampDesc(approvals);
      HeadIsLatest(approvals);
      OrderByIsPermutation(approvals);
      assert sorted[0] in multiset(approvals);
      assert IsApproved(sorted[0]);
      forall x | IsLatest(approvals, x)
        ensures x == sorted[0]
      {
        LatestIsUnique(approvals, x, sorted[0]);
      }
    } else {
      assert forall x :: !IsLatest(approvals, x);
    }
  }

  /** `authorizationInfo` in `allocationsGroupedByParameterUuid` is the
      latest status when that is an approval, and null otherwise. */
  lemma LatestIfApprovalSpec(statuses: seq<Status>)
    ensures forall x :: LatestIfApproval(statuses) == Some(x) <==>
      IsApproved(x) && IsLatest(statuses, x)
  {
  }

  /** Where the grouped view finds authorization info, the listed view finds
      the same status: the latest status, when it is an approval, is also
      the latest approval. */
  lemma AuthorizationViewsAgree(statuses: seq<Status>)
    ensures LatestIfApproval(statuses).Some? ==> LatestApproval(statuses) == LatestIfApproval(statuses)
  {
    if LatestIfApproval(statuses).Some? {
      var x := LatestIfApproval(statuses).value;
      LatestIfApprovalSpec(statuses);
      LatestSurvivesFilter(statuses, IsApproved, x);
      LatestApprovalSpec(statuses);
    }
  }

  /** The converse fails: an older approval followed by a newer status of
      another kind gives authorization info in `testAllocations` and none in
      the grouped view. */
  lemma AuthorizationViewsDiffer()
    ensures exists statuses :: LatestApproval(statuses).Some? && LatestIfApproval(statuses).None?
  {
    var u := User("u", "n", "d");
    var approved := Status("APPROVED", "", 1, u);
    var later := Status("RESULT_REMARKS", "", 2, u);
    var statuses := [approved, later];
    assert Filter(statuses, IsApproved) == [approved] by {
      assert statuses[1..] == [later];
      assert Filter([later], IsApproved) == [];
    }
    assert OrderByTimestampDesc([approved]) == [approved];
    assert FirstMaxIndex(statuses) == 1 by {
      assert FirstMaxIndex(statuses[1..]) == 0;
    }
    assert OrderByTimestampDesc(statuses)[0] == later;
    assert LatestApproval(statuses) == Some(approved);
    assert LatestIfApproval(statuses) == None;
  }

  /** `testAllocations`: the parameters are pairwise distinct, they are
      exactly the parameters of the merged allocations, and the entry for a
      parameter is the enrichment of the FIRST merged allocation with that
      parameter. */
  lemma TestAllocationsSpec(merged: seq<Allocation>, fmt: Formatters)
    ensures var r := TestAllocations(merged, fmt);
      && (forall i, j :: 0 <= i < j < |r| ==> r[i].parameterUuid != r[j].parameterUuid)
      && KeySet(r, ParameterKey) == KeySet(merged, ConceptKey)
      && forall i :: 0 <= i < |r| ==>
        var first := FirstWithKey(merged, ConceptKey, r[i].parameterUuid);
        first.Some? && r[i] == ListedAllocation(first.value, fmt)
  {
    var f := (a: Allocation) => ListedAllocation(a, fmt);
    var enriched := MapSeq(merged, f);
    var r := UniqBy(enriched, ParameterKey);
    assert r == TestAllocations(merged, fmt);
    UniqBySpec(enriched, ParameterKey);
    WithKeyMap(merged, f, ConceptKey, ParameterKey, "");
    forall i | 0 <= i < |r|
      ensures var first := FirstWithKey(merged, ConceptKey, r[i].parameterUuid);
        first.Some? && r[i] == ListedAllocation(first.value, fmt)
    {
      var k := r[i].parameterUuid;
      WithKeyMap(merged, f, ConceptKey, ParameterKey, k);
      assert FirstWithKey(enriched, ParameterKey, k) == Some(r[i]);
    }
  }

  /** The listed allocations follow the merged order: one more merged
      allocation is listed at the end exactly when its concept is new. */
  lemma TestAllocationsAppend(merged: seq<Allocation>, a: Allocation, fmt: Formatters)
    ensures TestAllocations(merged + [a], fmt)
      == TestAllocations(merged, fmt)
         + (if a.conceptUuid in KeySet(merged, ConceptKey) then [] else [ListedAllocation(a, fmt)])
  {
    var f := (b: Allocation) => ListedAllocation(b, fmt);
    MapAppend(merged, a, f);
    WithKeyMap(merged, f, ConceptKey, ParameterKey, "");
    UniqByAppend(MapSeq(merged, f), f(a), ParameterKey);
  }

  /** `allocationsGroupedByParameterUuid`: the keys are exactly the
      parameters of the allocations that have results; under each key stand
      all those allocations with that parameter, each exactly once and in
      input order, enriched; so every grouped allocation has results and
      sits under its own parameter. */
  lemma GroupedByParameterSpec(allocations: seq<Allocation>, fmt: Formatters)
    ensures var m, withResults := GroupedByParameter(allocations, fmt), Filter(allocations, HasResults);
      && m.Keys == KeySet(withResults, ConceptKey)
      && forall k :: k in m ==>
        var w := WithKey(withResults, ConceptKey, k);
        && |m[k]| == |w|
        && forall i :: 0 <= i < |w| ==>
          m[k][i] == GroupedAllocation(w[i], fmt) && HasResults(w[i]) && w[i].conceptUuid == k
  {
    var withResults := Filter(allocations, HasResults);
    var f := (a: Allocation) => GroupedAllocation(a, fmt);
    var enriched := MapSeq(withResults, f);
    var m := GroupBy(enriched, ParameterKey);
    assert m == GroupedByParameter(allocations, fmt);
    GroupBySpec(enriched, ParameterKey);
    WithKeyMap(withResults, f, ConceptKey, ParameterKey, "");
    forall k | k in m
      ensures var w := WithKey(withResults, ConceptKey, k);
        && |m[k]| == |w|
        && forall i :: 0 <= i < |w| ==>
          m[k][i] == GroupedAllocation(w[i], fmt) && HasResults(w[i]) && w[i].conceptUuid == k
    {
      WithKeyMap(withResults, f, ConceptKey, ParameterKey, k);
      var w := WithKey(withResults, ConceptKey, k);
      forall i | 0 <= i < |w|
        ensures HasResults(w[i]) && w[i].conceptUuid == k
      {
        WithKeyElements(withResults, ConceptKey, k, i);
      }
    }
  }
}
