# Lab sample view model, in Dafny

This project models `LabSample`, the laboratory module's view model over a
sample. It is built from four constructor inputs: a raw sample (its orders,
their test allocations, and the sample's statuses), the department list, the
specimen-source list and the coded sample-rejection reasons. Its getters
reshape these into what the laboratory screens show:

- the derived orders. Each carries a normalised concept, a lower-case search
  text, a collector and an acceptance state. It also carries two views of its
  test allocations:
  - a deduplicated list, enriched with sign-off, rejection and authorization
    flags;
  - a grouping by parameter of the allocations that have results.
- the orders that have results;
- the MRN;
- the integration, released and restricted statuses;
- the rejection reasons, the rejected flag and who rejected the sample;
- the flat `toJSon` view.

Every getter is pure, so the model is a set of functions over sequences and
maps, with lemmas stating what each getter promises. The files:

- `values.dfy`: `Option`, and `Json` for values the model only passes along.
- `text.dfy`: JavaScript `indexOf`, `split` and `join` on strings, and ASCII
  `toLowerCase`. Also the two display normalisations built from them:
  - the text after the first colon;
  - a name cut before " (".
- `collections.dfy`: the lodash operations used: `filter`, `map`, `flatten`,
  `uniqBy`, `groupBy`, `keyBy`, and "first element matching".
- `statuses.dfy`: statuses, and lodash's stable
  `orderBy(statuses, ["timestamp"], ["desc"])`. It is proved to be a
  permutation that is sorted, stable, and the only sorted stable arrangement.
  The "latest status" it yields is characterised here too.
- `allocations.dfy`: allocation enrichment (sign-offs, rejection, the two
  authorization-info rules), deduplication by parameter, and grouping by
  parameter.
- `lab_sample.dfy`: the orders, the sample-level getters and `toJSon`.

The imported helpers are passed in as total functions, because their bodies
are not part of this model:

- `mergeTestAllocations`, `formatResults`, `getResultsCommentsStatuses`,
  `getAuthorizationDetailsByOrder` and `formatUserChangedStatus` (in
  lab-samples.helpers);
- `keyDepartmentsByTestOrder` and `keySampleTypesByTestOrder` (in
  sample-types.helper).

These become the `Helpers` and `Formatters` records. The clock- and
locale-dependent date text of released and restricted statuses is passed in
the same way, as `formatStatusDate`.

Conventions of the model:

- A status's `status` or `category` that is absent is modelled as the empty
  string. Every comparison of one of these fields with a constant (`===
  "RELEASED"`, `indexOf("REJECTED")`) gives the same answer for `undefined`
  and for "". The places where the two differ are listed under "## Left out".
- A sample without a concept `uid` is looked up under the key "undefined",
  which is the property key JavaScript makes of `undefined` (lines 307 and 315).
- The sample's `label` is the field `sampleLabel`, because `label` is a Dafny
  keyword.
- A raw order's `order.concept` is flattened into `RawOrder.concept`.
- A keyed concept's `setMembers` is an `Option`. At lines 99-100 a department
  entry whose member list is missing does not count as empty (`undefined?.length
  == 0` is false), so the specimen source's members are kept.

Where the code and its design description differ, the model follows the code:

- `testAllocations` is deduplicated with lodash `uniqBy`, which keeps the
  FIRST allocation per parameter. The design description says the last one
  wins. `Allocations.TestAllocationsSpec` states first-wins.
- The listed allocations' `authorizationInfo` (lines 142-157) is the most
  recent APPROVED status among the approvals. The design description says it
  is the most recent status, and only if that one is an approval. That is
  what the grouped view does (lines 200-213).
  - `Allocations.AuthorizationViewsAgree` proves the two rules agree whenever
    the grouped rule yields a status.
  - `Allocations.AuthorizationViewsDiffer` gives an input where they differ.
- The design description says no field access may raise. `mrn` as written
  does raise (see Findings).

## Model

| member | source | states |
|---|---|---|
| Text.IndexOf | ui/src/app/modules/laboratory/resources/models/sample.model.ts:95 | `indexOf` returns -1 exactly when the substring occurs nowhere; otherwise it returns the first position where it occurs. |
| Text.JoinSplit | ui/src/app/modules/laboratory/resources/models/sample.model.ts:96 | Joining the pieces of a `split` with the separator gives back the original string. |
| Text.SplitPiecesFree | ui/src/app/modules/laboratory/resources/models/sample.model.ts:96 | No piece of a `split` contains the separator. |
| Text.NormaliseDisplaySpec | ui/src/app/modules/laboratory/resources/models/sample.model.ts:94-97 | A display without a colon is kept. Otherwise the result is the exact text from just after the first colon up to the next colon or the end, untrimmed, and it holds no colon. |
| Text.TruncateNameSpec | ui/src/app/modules/laboratory/resources/models/sample.model.ts:125-126 | `split(" (")[0]` is the whole name when the name holds no " (". Otherwise it is the text before the first " (". It never holds " (". |
| Text.LowerSpec | ui/src/app/modules/laboratory/resources/models/sample.model.ts:81 | Lower-casing keeps the length and every non-capital character. Each capital becomes the lower-case letter at the same place in the alphabet, so no capital is left. |
| Text.JoinLower | ui/src/app/modules/laboratory/resources/models/sample.model.ts:86-87 | Lower-case pieces joined with a space give a lower-case string. |
| Text.JoinPieceAt | ui/src/app/modules/laboratory/resources/models/sample.model.ts:86-87 | Each piece of a `join` occurs in the joined string at its offset: after the earlier pieces and a separator after each. A separator follows every piece but the last, and the last piece ends the joined string. |
| Collections.FilterSelectsInOrder | ui/src/app/modules/laboratory/resources/models/sample.model.ts:319-321 | `filter` returns exactly the matching elements, in input order and with repeats: there is a strictly increasing list of matching input positions, covering every match, whose elements form the result. |
| Collections.FilterAppend | ui/src/app/modules/laboratory/resources/models/sample.model.ts:365-369 | Filtering a list with one more element gives the filter of the list, followed by that element exactly when it matches. |
| Collections.FirstWhereSpec | ui/src/app/modules/laboratory/resources/models/sample.model.ts:374-376 | The first element of a `filter` is undefined exactly when nothing matches. Otherwise it is the element at the earliest matching position. |
| Collections.MapSeq | ui/src/app/modules/laboratory/resources/models/sample.model.ts:71 | `map` gives one result per element, at the same position. |
| Collections.MapAppend | ui/src/app/modules/laboratory/resources/models/sample.model.ts:71 | Mapping a list with one more element appends that element's image. |
| Collections.FlattenMembers | ui/src/app/modules/laboratory/resources/models/sample.model.ts:72-76 | An element is in the flattened list exactly when it is in one of the inner lists. |
| Collections.FlattenAppend | ui/src/app/modules/laboratory/resources/models/sample.model.ts:72-76 | Flattening a list of lists with one more inner list appends that list whole, every element and in order. |
| Collections.UniqBySpec | ui/src/app/modules/laboratory/resources/models/sample.model.ts:140-197 | After `uniqBy` the keys are pairwise distinct and are exactly the input's keys. Each kept element is the first input element with its key. |
| Collections.UniqByAppend | ui/src/app/modules/laboratory/resources/models/sample.model.ts:140-141 | `uniqBy` keeps first occurrences in input order: one more element is appended exactly when no earlier element has its key. |
| Collections.GroupBySpec | ui/src/app/modules/laboratory/resources/models/sample.model.ts:198-254 | The `groupBy` keys are exactly the input keys. Each group is every input element with that key, in input order. |
| Collections.KeyBySpec | ui/src/app/modules/laboratory/resources/models/sample.model.ts:115-118 | The `keyBy` keys are exactly the input keys. Each key holds the last input element with that key. |
| Statuses.OrderByIsPermutation | ui/src/app/modules/laboratory/resources/models/sample.model.ts:160 | Sorting statuses by timestamp, descending, is a permutation of them. |
| Statuses.OrderByIsSorted | ui/src/app/modules/laboratory/resources/models/sample.model.ts:160 | The sorted statuses have non-increasing timestamps. |
| Statuses.OrderByIsStable | ui/src/app/modules/laboratory/resources/models/sample.model.ts:160 | Statuses with equal timestamps keep their input order. |
| Statuses.StableSortIsUnique | ui/src/app/modules/laboratory/resources/models/sample.model.ts:160 | Any arrangement that is sorted descending and stable equals the modelled sort, so lodash's result is determined. |
| Statuses.HeadIsLatest | ui/src/app/modules/laboratory/resources/models/sample.model.ts:160 | Element `[0]` of the sort is the latest status: no status is newer, and ties go to the earliest in input order. |
| Statuses.SecondIsLatestOfRest | ui/src/app/modules/laboratory/resources/models/sample.model.ts:170 | Element `[1]` of the sort is the latest status once element `[0]` is removed. |
| Statuses.LatestIsUnique | ui/src/app/modules/laboratory/resources/models/sample.model.ts:160 | A list has at most one latest status. |
| Statuses.LatestSurvivesFilter | ui/src/app/modules/laboratory/resources/models/sample.model.ts:142-149 | A latest status that passes a filter is also the latest status of the filtered list. |
| Allocations.NoStatusesNoFlags | ui/src/app/modules/laboratory/resources/models/sample.model.ts:158-187 | An allocation with no statuses has no sign-offs, is not rejected, and has no rejection status and no authorization info, in both views. |
| Allocations.SignOffSpec | ui/src/app/modules/laboratory/resources/models/sample.model.ts:158-173 | First sign-off holds iff the latest status is APPROVED or AUTHORIZED. Second sign-off holds iff there are at least two statuses, the latest is APPROVED and the latest of the rest is APPROVED. Second sign-off implies first. |
| Allocations.RejectionSpec | ui/src/app/modules/laboratory/resources/models/sample.model.ts:174-187 | `rejected` holds iff the latest status has status or category REJECTED. `rejectionStatus` is that latest status exactly when its status is REJECTED, and it implies `rejected`. |
| Allocations.RejectedWithoutRejectionStatus | ui/src/app/modules/laboratory/resources/models/sample.model.ts:174-187 | There is a status list (category REJECTED, status something else) that is rejected but has no rejection status. |
| Allocations.LatestApprovalSpec | ui/src/app/modules/laboratory/resources/models/sample.model.ts:142-157 | In the listed view, authorization info is missing iff no status is an approval. Otherwise it is the latest of the approvals. |
| Allocations.LatestIfApprovalSpec | ui/src/app/modules/laboratory/resources/models/sample.model.ts:200-213 | In the grouped view, authorization info is the latest status, and only if that status is an approval. |
| Allocations.AuthorizationViewsAgree | ui/src/app/modules/laboratory/resources/models/sample.model.ts:142-157 | Whenever the grouped rule yields a status, the listed rule yields the same one. |
| Allocations.AuthorizationViewsDiffer | ui/src/app/modules/laboratory/resources/models/sample.model.ts:200-213 | There is a status list for which the listed rule yields an approval and the grouped rule yields none. |
| Allocations.TestAllocationsSpec | ui/src/app/modules/laboratory/resources/models/sample.model.ts:140-197 | The listed allocations have pairwise distinct parameters. There is one per concept of the merged allocations. Each is the enrichment of the first merged allocation with that concept. |
| Allocations.TestAllocationsAppend | ui/src/app/modules/laboratory/resources/models/sample.model.ts:140-141 | The listed allocations follow the merged order: one more merged allocation is listed at the end exactly when its concept is new. |
| Allocations.GroupedByParameterSpec | ui/src/app/modules/laboratory/resources/models/sample.model.ts:198-254 | The grouping is keyed by exactly the concepts of the allocations that have results. Each group holds, in order, the enrichments of those allocations with that concept, all with results. |
| LabSampleView.OrderSetMembersSpec | ui/src/app/modules/laboratory/resources/models/sample.model.ts:98-114 | The set members are empty when the department entry has a member list and it is empty. Otherwise, including when the department entry or its member list is missing, there is one per specimen-source member (none without a specimen source), with the same uuid, in order. Its display is normalised like the order's own: the member's display when it holds no colon, otherwise the text after the first colon up to the next one. No member display holds a colon. |
| LabSampleView.MissingDepartmentMembersKeepsSource | ui/src/app/modules/laboratory/resources/models/sample.model.ts:98-104 | A department entry without a member list does not empty the set members: there is still one per specimen-source member. |
| LabSampleView.KeyedAnswersSpec | ui/src/app/modules/laboratory/resources/models/sample.model.ts:115-118 | `keyedAnswers` has one entry per answer uuid of the specimen source. Each entry is the last answer with that uuid. Without a specimen source it is empty. |
| LabSampleView.SearchingTextSpec | ui/src/app/modules/laboratory/resources/models/sample.model.ts:80-87 | The search text is lower-case and starts with the lower-cased order display and a space. Without set members it is only that. |
| LabSampleView.SearchingTextHoldsMembers | ui/src/app/modules/laboratory/resources/models/sample.model.ts:80-87 | With set members, the lower-cased display of member `k` occurs in the search text right after the order display, a space and the earlier members each followed by a space. A space follows every member but the last, and the last member ends the search text. |
| LabSampleView.AcceptedSpec | ui/src/app/modules/laboratory/resources/models/sample.model.ts:129-138 | `accepted` holds iff some sample status is ACCEPTED, which is iff there is a first ACCEPTED status for `acceptedBy`. |
| LabSampleView.AllocationStatusesSpec | ui/src/app/modules/laboratory/resources/models/sample.model.ts:72-76 | `allocationStatuses` is empty without allocations, and holds exactly the statuses of the order's allocations. |
| LabSampleView.AllocationStatusesAppend | ui/src/app/modules/laboratory/resources/models/sample.model.ts:72-76 | One more allocation appends all of its statuses, every occurrence in their order, after those of the earlier allocations. |
| LabSampleView.DeriveOrderSpec | ui/src/app/modules/laboratory/resources/models/sample.model.ts:70-258 | Facts about each derived order: <br>- concept: the uuid is kept and the display is colon-free; <br>- flags: the order-level sign-offs are off and `collected` is on; <br>- collector: the creator, with the name cut before " ("; <br>- search text: lower-case; <br>- `accepted`: follows the sample statuses; <br>- `allocationStatuses`: the allocations' statuses; <br>- listed allocations: distinct parameters, one per merged concept; <br>- groups: keyed by the concepts that have results. |
| LabSampleView.OrdersSpec | ui/src/app/modules/laboratory/resources/models/sample.model.ts:70-71 | There is one derived order per raw order, at the same position, for the same concept. |
| LabSampleView.HasResultedAllocationSpec | ui/src/app/modules/laboratory/resources/models/sample.model.ts:264-268 | An order has results iff one of its listed allocations holds formatted results. |
| LabSampleView.OrdersWithResultsSpec | ui/src/app/modules/laboratory/resources/models/sample.model.ts:260-271 | An order is in `ordersWithResults` iff it is in `orders` and has an allocation with results. The kept orders appear in their order in `orders`, each occurrence once. |
| LabSampleView.Mrn | ui/src/app/modules/laboratory/resources/models/sample.model.ts:281-283 | The MRN is present iff the patient has a non-empty identifier list. It is then the first identifier's id. It never raises. |
| LabSampleView.MrnAsWrittenRaises | ui/src/app/modules/laboratory/resources/models/sample.model.ts:281-283 | As written, a patient without `identifiers` raises a TypeError. Wherever it does not raise, it agrees with `Mrn`. |
| LabSampleView.SampleLookupMatchesOrder | ui/src/app/modules/laboratory/resources/models/sample.model.ts:305-316 | `department` and `specimen` are looked up by the sample's concept uid, an order's entries by its concept uuid. When the two keys agree, the sample-wide entries are the ones that decide that order's set members, keyed answers and search text. |
| LabSampleView.SampleLookupCanDiffer | ui/src/app/modules/laboratory/resources/models/sample.model.ts:305-316 | The two lookups can disagree: there is a sample whose concept uid differs from its order's concept uuid, so that it has no department although the departments hold an entry under that order's concept uuid. |
| LabSampleView.IntegrationStatusSpec | ui/src/app/modules/laboratory/resources/models/sample.model.ts:318-322 | `integrationStatus` is missing iff no status has category RESULTS_INTEGRATION. Otherwise it is the first one that does. |
| LabSampleView.DatedStatusesSpec | ui/src/app/modules/laboratory/resources/models/sample.model.ts:324-363 | No statuses give no dated statuses, and one more status appends its dated entry exactly when it is selected, so order and repeats are kept. Each dated status is a selected sample status dated from its own timestamp, and every selected status appears. |
| LabSampleView.ReleasedStatusesSpec | ui/src/app/modules/laboratory/resources/models/sample.model.ts:324-343 | `releasedStatuses` shows every RELEASED status and only those, each with its date. One more status appends its entry exactly when it is RELEASED, so order and repeats are kept. |
| LabSampleView.RestrictedStatusesSpec | ui/src/app/modules/laboratory/resources/models/sample.model.ts:344-363 | `restrictedStatuses` shows every RESTRICTED status and only those, each with its date. One more status appends its entry exactly when it is RESTRICTED, so order and repeats are kept. |
| LabSampleView.ReasonDisplaySpec | ui/src/app/modules/laboratory/resources/models/sample.model.ts:374-376 | A reason's display is missing iff no coded reason has its uuid. Otherwise it is the display of the first coded reason that does. |
| LabSampleView.ReasonsForRejectionSpec | ui/src/app/modules/laboratory/resources/models/sample.model.ts:365-388 | `rejected` holds iff some status category contains "REJECTED", which is iff there are reasons. Reason `i` belongs to the `i`-th such status, in status order: its uuid is that status's code and its display is the looked-up one. |
| LabSampleView.ReasonsForRejectionAppend | ui/src/app/modules/laboratory/resources/models/sample.model.ts:365-380 | One more status appends its reason exactly when its category contains "REJECTED". |
| LabSampleView.RejectedBySpec | ui/src/app/modules/laboratory/resources/models/sample.model.ts:390-404 | `rejectedBy` is missing iff the sample is not rejected. Otherwise it describes the first rejection status: its user, with the name cut before " (", and its own status, category and timestamp, which take precedence. |
| LabSampleView.ToJSonSpec | ui/src/app/modules/laboratory/resources/models/sample.model.ts:406-428 | Facts about the `toJSon` view, which uses the corrected MRN: <br>- `id` and `uuid` are the sample uuid; <br>- `registeredBy` and `creator` are the creator; <br>- `collected` is on and the MRN does not raise; <br>- there is one order per raw order, and the orders with results are among them; <br>- there are reasons for rejection exactly when the sample is rejected. |

## Left out

- The date text of released and restricted statuses depends on the clock, the locale and the time zone. It is the parameter `formatStatusDate`.
- The `console.log` calls in `department` and `specimenSource` are not modelled.
- The bodies of the imported helpers are not part of this model. They are parameters, so every property holds for any helper.
- Object spreads (`...order`, `...allocation`, `...member`, `...status`, and the specimen-source entry spread into the order concept) are not modelled. Only the fields the getters name explicitly are modelled.
- `toLowerCase` is modelled for ASCII letters only.
- Timestamps are always-present integers. Sorting statuses whose timestamps are missing or not numbers is not modelled.
- An order without `testAllocations` makes the getter raise at line 73. The model always has a list of allocations there.
- An absent concept display or creator display gives JavaScript `undefined` values (or "undefined" inside the search text). The model always has a string there.
- `rejectedBy` spreads the whole rejection status over the user. Status fields other than status, category, timestamp and user are not modelled, so a status field that would override a user field (such as a uuid) is not captured.
- The key order of the objects that `groupBy` and `keyBy` build is not modelled. They are maps.
- LabSampleView.ToJSon: uses the corrected `Mrn`. For a patient without `identifiers` the program's `toJSon` raises at line 419, through the `mrn` getter at line 282; the model gives no MRN instead (see Findings).
- The order concept's `uuid` is always a string. An order concept without a `uuid` would be looked up under "undefined" at lines 84-85, 92, 99, 103 and 116; that case is not modelled.
- An allocation's `statuses` is always a list. An allocation without a `statuses` field puts `undefined` into `allocationStatuses` (lines 72-76, kept by `flatten`); the model cannot express that element.
- A status without a `status` field matches a coded reason without a `uuid` at line 375 (`undefined === undefined`), and never one whose uuid is "". Under the empty-string convention the model does the reverse.
- A status without a `status` field is written out as `undefined`: as the reason's `uuid` (line 373) and in the `rejectedBy` spread (line 401). The model writes "".
- The pass-through getters `uuid`, `label`, `statuses`, `patient`, `voided`, `dateCreated` and `creator` appear only as fields of `ToJSon`.

## Findings

| source | as written | input that shows it | evidently intended | confidence | as-written member | corrected member |
|---|---|---|---|---|---|---|
| ui/src/app/modules/laboratory/resources/models/sample.model.ts:282 | `identifiers[0]` is indexed without `?.`, so a patient record without `identifiers` raises a TypeError and the whole `toJSon` call fails | a sample whose patient has no `identifiers` field | `identifiers?.[0]?.id`: the MRN is missing, like every other absent nested field | not executed | LabSampleView.MrnAsWrittenRaises | LabSampleView.Mrn |
