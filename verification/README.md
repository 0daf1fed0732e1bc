# CourseBoard in Dafny

CourseBoard is an API in front of a golf ERP. This project models the parts of
it that hold state machines, caches, rankings and encoders, and proves what they
are for. `dafny verify dfyconfig.toml` verifies everything.

**Common import** (`Orders`, `ReportTables`, `FacilityDigest`, `SourceIdentity`,
`CourseMappings`, `ReportCommit`, `ImportProtocol`, `ImportRuns`,
`ImportProgress`, `ImportOwner`). A job validates source rows page by page,
becomes ready, has its rows staged and finishes by replacing the business rows
of its facilities, once, and only if nobody changed what the operator previewed.
`ImportProtocol` gives every request as one transaction over all jobs and
tenants; `ImportRuns` proves safety over every interleaving of requests with
outside edits, `ImportProgress` that an undisturbed import commits and what it
writes; `ImportOwner` is the handler itself, a class that updates its tables in place,
row by row and page by page, with its rollbacks, proved equal to those
transactions; `ReportCommit` is the repository's paged deletion and upsert.

**Authorization** (`PolicyCache`, `BatchDecisions`, `RouteTable`). The cache is
a class; runs of overlapping checks and invalidations are events, because a
check waits for the inner checker between its two turns at the lock.

**Caddies** (`SmartAssign`, `AssignmentRuns`). Scoring, the in-place sort of the
recommendations, and whole runs of recommending, assigning and cancelling.

**Tenant list** (`TenantDiscovery`). The two profile decoders, the per-platform
checks, the filter and the merge.

**Printers and readers** (`TextEscapes`, `YamlQuote`). HTML escaping,
percent-encoding and YAML quoting, each with the reader that undoes it.

**Client and proxy** (`ProtectedFetch`, `FieldAllowlist`). The authenticated
request of the desktop client as a class driven by an arbitrary world, and the
proxy's allowlist against an order-free table.

Some expectations a reader may bring to the code do not hold, and the project
gives the exact condition under which they do:

- Two facilities can share a bucket when an operator maps one to a course id
  spelled `unlinked:` plus the other's key, which needs an active course with
  that id in the catalog (`CourseMappings.DisguisedBucketExample`, exact
  condition in `CourseMappings.BucketsDistinctExactlyWhen`). A page can then
  break as a whole instead of rejecting one row (exact condition in
  `ImportRuns.PageFailsExactlyWhen`).
- A finish after a commit does not always answer the stored receipt: when its
  first look-up ran before the commit and it saw no business rows, the running
  job and the legacy list come first (exact condition in
  `ImportRuns.ReceiptReplays`).
- An invalidation does not stop a policy check already in flight from putting
  its answer back (`PolicyCache.InFlightCheckOutlivesInvalidation`, exact
  condition in `PolicyCache.InvalidationTakesEffectExactlyWhen`).
- Assignments made from a stale list can double-book
  (`AssignmentRuns.StaleListDoubleBooks`); an assignment is safe if and only if
  the caddie is free when it is added (`AssignmentRuns.BookingSafeExactlyWhenFree`).
- The demonstration does not report every clash of its two reservations as
  blocked: the assignment it adds is always dated 2026-06-01, whatever the
  reservation's date (`AssignmentRuns.OtherDayClashGoesThrough`, exact condition
  in `AssignmentRuns.RunHeadlessDemo`).
- An inactive caddie on shift can be listed before an available one
  (`SmartAssign.InactiveCanComeFirst`, exact condition in
  `SmartAssign.InactiveComesFirstExactlyWhen`).

Where comments in the code and the code disagree, the model follows the code:
the manifest quoting escapes every control character although a leftover comment
speaks of the quote and the backslash only (`src/feature_delivery/catalog.rs:306-338`),
and the export surface of the proxy also admits POST on `{id}/render`, which its
comment does not list (`src/field_proxy.rs:312-326`).

Requests are whole values here: what the caller's identity, platform and
permission checks say, the active course catalog, whether business rows were
seen, the running Field job, the legacy list and the clock are parameters of a
request; the answers of token source, server, policy store and platforms are
parameters of the models that ask them.

## Model

| member | source | states |
|---|---|---|
| `Orders.PageAdvances` | `src/common_import_owner.rs:597-613` | one keyset page followed by moving the cursor to its last key visits the same keys in the same order as no paging; an empty page means nothing is left |
| `ReportTables.SnapshotCovers` | `src/common_import_owner.rs:600` | a facility snapshot holds exactly the rows whose facility key or bucket matches |
| `FacilityDigest.FacilityHash` | `src/common_import_owner.rs:591-615` | the paged digest loop consumes the whole footprint once, in id order, whatever the page boundaries, and ends |
| `FacilityDigest.FeedPage` | `src/common_import_owner.rs:605-612` | one page of rows is fed in order behind what was fed before |
| `FacilityDigest.BigEndianRoundTrip` | `src/common_import_owner.rs:610` | the 8-byte big-endian length reads back |
| `FacilityDigest.UnframeFrames` | `src/common_import_owner.rs:608-611` | the length framing is uniquely decodable |
| `FacilityDigest.FedIsFrames` | `src/common_import_owner.rs:605-612` | what the digest is fed is the framed concatenation of the rows |
| `FacilityDigest.DigestInputsAgreeIffRowsAgree` | `src/common_import_owner.rs:591-615` | two digest inputs are equal exactly when the two row lists are, for any injective rendering of a row |
| `SourceIdentity.IdentityInjective` | `src/common_import_owner.rs:508-525` | the colon-joined identity is injective although facility keys may contain colons |
| `SourceIdentity.KeysAreSpaceless` | `src/course/usecase/reservation_report_import.rs:396-414` | the non-empty keys that facility names normalize to are exactly the texts without whitespace |
| `SourceIdentity.NormalizedExactlyWhen` | `src/course/usecase/reservation_report_import.rs:396-414` | a name normalizes to a key if and only if, without its whitespace, it is the key followed by digits and a hole word in any case, or it is the key and has no such ending |
| `CourseMappings.Mappings` | `src/common_import_owner.rs:58-86` | the mapping validator accepts, in any hash-map order, exactly the maps whose normalized keys and non-empty course ids are all distinct and in bounds |
| `CourseMappings.LookupIgnoresOrder` | `src/common_import_owner.rs:497-500` | the course a facility is linked to does not depend on hash-map order |
| `CourseMappings.BucketsDistinctExactlyWhen` | `src/common_import_owner.rs:497-503` | distinct facilities get distinct buckets if and only if no mapped course id is `unlinked:` followed by the key of another facility the mapping leaves unlinked |
| `CourseMappings.PlainCatalogKeepsBucketsApart` | `src/common_import_owner.rs:501-503` | in particular when no mapped course id starts with `unlinked:` |
| `CourseMappings.DisguisedBucketExample` | `src/common_import_owner.rs:58-115` | a mapping under which two facilities share one bucket, accepted by the validator, and by the handler when the catalog has an active course `unlinked:B` |
| `ReportCommit.SeedCommonLegacy` | `src/course/infrastructure/common_import_repository.rs:9-28` | the legacy loop inserts each entry whose slot is still free |
| `ReportCommit.SeedAt` | `src/course/infrastructure/common_import_repository.rs:9-28` | seeding leaves in each slot the stored row, else the first legacy row for it |
| `ReportCommit.DeleteStale` | `src/course/infrastructure/common_import_repository.rs:36-52` | the paged deletion removes exactly the rows of imported facilities outside the imported slots |
| `ReportCommit.SettlePage` | `src/course/infrastructure/common_import_repository.rs:56-130` | a page is compared with the rows its slots held before the page, counted, and keeps the timestamp of an unchanged row |
| `ReportCommit.InsertPage` | `src/course/infrastructure/common_import_repository.rs:131-147` | the page is upserted by slot |
| `ReportCommit.WritePage` | `src/course/infrastructure/common_import_repository.rs:56-149` | one page of the upsert loop, settled and written, continues the one-at-a-time writes and moves the cursor on |
| `ReportCommit.CommitCommonImport` | `src/course/infrastructure/common_import_repository.rs:29-151` | the two paged loops together equal writing the rows one at a time |
| `ReportCommit.CommitAt` | `src/course/infrastructure/common_import_repository.rs:9-151` | slot by slot: an imported slot holds the imported row, any other row of an imported facility is gone, everything else is the stored row or the first legacy one |
| `ReportCommit.CommittedRowHolds` | `src/course/infrastructure/common_import_repository.rs:102-130` | the row a commit leaves for a report holds its bucket, course, key, name, date, day part, groups, caddies, source system and sha, with the time of the commit unless all of that was already there |
| `ReportCommit.CommitCounts` | `src/course/infrastructure/common_import_repository.rs:121-128` | created, unchanged and updated count every imported row exactly once, created exactly where the slot was empty, unchanged exactly where the row there held the report in every column |
| `ReportCommit.CommitReplacesFacilities` | `src/course/infrastructure/common_import_repository.rs:36-52` | after a commit every row of an imported facility holds, column by column, one of the imported reports |
| `ReportCommit.CommitIsIdempotent` | `src/course/infrastructure/common_import_repository.rs:118-130` | committing the same import again changes nothing and counts every row as unchanged |
| `ReportCommit.CommitStaysInFootprint` | `src/course/infrastructure/common_import_repository.rs:29-151` | no stored row outside the footprint of the imported rows is changed or removed |
| `ReportCommit.CommitAddsImportedRows` | `src/course/infrastructure/common_import_repository.rs:9-151` | every row a commit adds or rewrites holds an imported report column by column, or is a legacy row |
| `ReportCommit.CommitSparesUnrelated` | `src/course/infrastructure/common_import_repository.rs:9-151` | a facility keeps its snapshot when no imported row has its key or its bucket, no legacy row is in its footprint, and none of its own rows lies in an imported facility's footprint |
| `ImportProtocol.NormalizedIsProduced` | `src/common_import_owner.rs:484-506` | from parsed cells, a normalized row has a non-empty facility key without whitespace, and exactly that facility's course and bucket |
| `ImportProtocol.NormalizedReads` | `src/common_import_owner.rs:442-507` | a row normalizes to a report if and only if the report carries the row cell by cell: trimmed name, its key, linked course, bucket, date, day part, groups and caddies |
| `ImportProtocol.ValidatePageKeeps` | `src/common_import_owner.rs:283-335` | a page only adds rows and facilities: what was stored first never changes, and the job stays sound |
| `ImportProtocol.OperateKeeps` | `src/common_import_owner.rs:273-437` | each operation keeps the job sound, its owner pinned and the business table keyed |
| `ImportProtocol.HandleKeepsSound` | `src/common_import_owner.rs:198-440` | every request, accepted or refused, keeps the tables sound |
| `ImportRuns.ResubmitPage` | `src/common_import_owner.rs:283-335` | a page validated once is answered the same way by any later validating state of its job, and stores nothing |
| `ImportRuns.ValidateFailsExactlyOnCollision` | `src/common_import_owner.rs:299-305` | validation of a row fails as a whole if and only if its slot is held by another facility of the job |
| `ImportRuns.DistinctBucketsNeverCollide` | `src/common_import_owner.rs:299-305` | with distinct buckets that never happens |
| `ImportRuns.PagesValidate` | `src/common_import_owner.rs:274-335` | with distinct buckets every page is answered |
| `ImportRuns.SharedBucketBreaksPage` | `src/common_import_owner.rs:299-305` | any page, in any validating state of a job, that gives two facilities sharing a bucket the same date and day part fails as a whole |
| `ImportRuns.PageFailsExactlyWhen` | `src/common_import_owner.rs:283-335` | a page fails as a whole if and only if one of its rows reads into a slot held by another facility's stored row, or two of its rows, of different facilities, read into one slot |
| `ImportRuns.AcceptedExactlyWhen` | `src/common_import_owner.rs:297-329` | a row of an answered page is accepted as a report if and only if it reads as that report and the job stores that report under this row number; it warns exactly when caddies exceed groups, and a readable row that is refused is called a duplicate |
| `ImportRuns.AcceptedOncePerReading` | `src/common_import_owner.rs:306-317` | two accepted rows for one facility, date and day part have one row number and one report |
| `ImportRuns.FirstRowIsAccepted` | `src/common_import_owner.rs:297-329` | the first row of its facility, date and day part, in the job and the page, is accepted |
| `ImportRuns.OnlyAdmittedCallsChange` | `src/common_import_owner.rs:198-273` | a call that changes anything passed every check in front of its transaction, keeps the page limits, came from the owner of its job and touches no other job |
| `ImportRuns.OnlyFullValidationBecomesReady` | `src/common_import_owner.rs:336-361` | a job becomes ready only by its own call naming the number of its rows, of which there are some, with a row for every mapped facility |
| `ImportRuns.OnlyTheConfirmedRowIsStaged` | `src/common_import_owner.rs:362-386` | a row becomes staged only by a call naming its number and exact report, while the job is ready and the running Field job agrees |
| `ImportRuns.RepeatChangesNothing` | `src/common_import_owner.rs:336-386` | ready and stage, answered once, are answered the same the second time and change nothing |
| `ImportRuns.RunIsSound` | `src/common_import_owner.rs:198-440` | every state of every run, with outside edits in between, is sound |
| `ImportRuns.OneRowPerReading` | `src/common_import_owner.rs:297-305` | in every state of a run a job holds at most one row per facility, date and day part |
| `ImportRuns.RunLeads` | `src/common_import_owner.rs:265-438` | over any stretch of a run a job's owner is pinned, its status only advances, stored rows and snapshots stay, the row set is frozen from ready on, and a committed job is final |
| `ImportRuns.OnlyFinishCommits` | `src/common_import_owner.rs:387-435` | a job becomes committed only by its own finish, from ready, with every row staged, the total right and every snapshot current; the receipt names that job and owner |
| `ImportRuns.CommitsOnceFromReady` | `src/common_import_owner.rs:387-435` | in every interleaving a job commits at most once, and its record never changes again |
| `ImportRuns.CommitsTheFrozenRows` | `src/common_import_owner.rs:336-403` | the rows that commit are those frozen when the job became ready, all of them staged |
| `ImportRuns.SnapshotWasTaken` | `src/common_import_owner.rs:290-296` | every stored snapshot was taken of the real rows at the one step that first validated the facility |
| `ImportRuns.CommitSeesWhatValidationSaw` | `src/common_import_owner.rs:401-422` | at a commit each facility's rows are exactly those its own first validation saw |
| `ImportRuns.StalePreviewConflicts` | `src/common_import_owner.rs:404-422` | once a previewed facility differs, finish is refused with every table untouched, as a conflict when nothing else is wrong |
| `ImportRuns.RowBucketIsFacilityBucket` | `src/common_import_owner.rs:497-503` | each facility has one bucket for the whole job |
| `ImportRuns.TouchedWasPreviewed` | `src/common_import_owner.rs:600` | a stored row the commit may touch is listed in one of the compared snapshots |
| `ImportRuns.CommitReplacesOnlyThePreview` | `src/common_import_owner.rs:423-433` | a commit changes or removes only previewed rows, adds only legacy rows and rows holding an imported report column by column, and leaves other tenants alone |
| `ImportRuns.OnlyCommitsWriteReports` | `src/common_import_owner.rs:265-438` | no request but a committing finish writes business rows |
| `ImportRuns.ErrorsRollBack` | `src/common_import_owner.rs:265-271` | a refused request leaves every table as it was |
| `ImportRuns.ReceiptReplays` | `src/common_import_owner.rs:240-271` | after a commit no finish changes anything, and one answers the stored receipt if and only if its owner is the pinned one, its permissions pass and, when the early look-up came too soon, so do the catalog and, if no business rows were seen, the running job and the legacy list; any other owner is refused |
| `ImportRuns.ResubmittedPageChangesNothing` | `src/common_import_owner.rs:274-335` | over whole runs, resubmitting an accepted page returns the same answer and changes no table while the job is validating |
| `ImportProgress.PagesKeep` | `src/common_import_owner.rs:283-335` | however many pages are validated with nothing in between, the job is sound and every snapshot it took still holds |
| `ImportProgress.StageAll` | `src/common_import_owner.rs:362-386` | from ready, staging the rows one call after the other stages them all and changes nothing else |
| `ImportProgress.UndisturbedImportCommits` | `src/common_import_owner.rs:274-435` | from any state a fresh job whose pages are all answered can be validated page by page, made ready, staged and finished without a refusal, and commits exactly the rows validated |
| `ImportProgress.UndisturbedImportWritesAcceptedRows` | `src/common_import_owner.rs:274-435` | the same run leaves, for every source row that was accepted, a business row carrying its trimmed name, key, linked course, bucket, date, day part, groups and caddies, with the job sha |
| `ImportOwner.Owner.Open` | `src/common_import_owner.rs:266-271` | the job row is created once and the owner check compares all four pinned parts |
| `ImportOwner.Owner.ValidateOne` | `src/common_import_owner.rs:285-329` | the per-row statements come to the row's specification |
| `ImportOwner.Owner.ValidateAll` | `src/common_import_owner.rs:283-335` | the page loop comes to the page's specification, stopping at the first failure |
| `ImportOwner.Owner.Validate` | `src/common_import_owner.rs:274-335` | validate, in place and with rollback, is its transaction |
| `ImportOwner.Owner.Ready` | `src/common_import_owner.rs:336-361` | ready, in place and with rollback, is its transaction |
| `ImportOwner.Owner.StageRow` | `src/common_import_owner.rs:362-386` | stage, in place and with rollback, is its transaction |
| `ImportOwner.Owner.FinishJob` | `src/common_import_owner.rs:387-435` | finish, in place and with rollback, is its transaction |
| `ImportOwner.Owner.Submit` | `src/common_import_owner.rs:198-440` | the whole handler, early receipt included, is the request specification the runs are made of |
| `ImportOwner.MappingsPresent` | `src/common_import_owner.rs:349-357` | ready refuses exactly when a mapped facility has no row |
| `ImportOwner.CountStaged` | `src/common_import_owner.rs:399-403` | the staged sum equals the row count exactly when every row is staged |
| `ImportOwner.FacilitiesCurrent` | `src/common_import_owner.rs:404-422` | the keyset loop compares every facility and answers yes exactly when all snapshots are current |
| `PolicyCache.CachingPolicyChecker.InvalidateTenant` | `src/course_authz.rs:1564-1567` | afterwards no look-up for the tenant is answered from the cache, in any window, and every other look-up is answered as before: a key stays exactly if it was there for another tenant, with its stamp |
| `PolicyCache.CachingPolicyChecker.Allowance` | `src/course_authz.rs:1569-1582` | answers within the window, and drops an entry past the grace window |
| `PolicyCache.CachingPolicyChecker.Remember` | `src/course_authz.rs:1584-1590` | clears at capacity, then stores the allowance |
| `PolicyCache.CachingPolicyChecker.Check` | `src/course_authz.rs:1595-1640` | one check is its two events of the run model: the look-up and the inner answer |
| `PolicyCache.EntriesAreBacked` | `src/course_authz.rs:1584-1622` | in every run each entry comes from an inner yes to exactly its key, stamped with that moment |
| `PolicyCache.AllowedIsBacked` | `src/course_authz.rs:1594-1640` | every yes is an inner yes for the same bearer, tenant, platform and action: given now, under 60 seconds ago, or under 30 minutes ago for a read whose inner call now fails as unreachable |
| `PolicyCache.ServedForAMinute` | `src/course_authz.rs:1595-1610` | under 60 seconds after an inner yes that no invalidation or clearing took away, the next check of the key is told yes without asking |
| `PolicyCache.ServedInAnOutage` | `src/course_authz.rs:1627-1636` | under 30 minutes after such a yes, a read whose inner call fails at the provider is told yes |
| `PolicyCache.AnswerStands` | `src/course_authz.rs:1612-1640` | any other inner answer is what the caller is told, and a write is never served in an outage |
| `PolicyCache.CapacityHolds` | `src/course_authz.rs:1584-1590` | the cache never exceeds 4096 entries |
| `PolicyCache.InvalidationIsExact` | `src/course_authz.rs:1564-1567` | an invalidation removes the tenant's keys and nothing else |
| `PolicyCache.EntriesBackedSince` | `src/course_authz.rs:1555-1567` | after an invalidation every entry of the tenant was granted after it |
| `PolicyCache.InvalidationTakesEffect` | `src/course_authz.rs:1555-1567` | if no check of the tenant was in flight, every later entry comes from an inner call that began after the invalidation |
| `PolicyCache.InvalidationTakesEffectExactlyWhen` | `src/course_authz.rs:1555-1567` | whatever follows an invalidation, all the cache holds for the tenant comes from calls begun afterwards, if and only if no check of the tenant was in flight |
| `PolicyCache.InFlightCheckOutlivesInvalidation` | `src/course_authz.rs:1612-1622` | a check in flight across an invalidation always can put its answer back, and the next check is served from it |
| `BatchDecisions.CountRequests` | `src/course_authz.rs:1239-1244` | the counts are how often each action was requested |
| `BatchDecisions.StrictBatchDecisions` | `src/course_authz.rs:1234-1263` | the keys are the requested actions and each decision is the order-free verdict |
| `BatchDecisions.DecidedExactlyWhen` | `src/course_authz.rs:1246-1261` | an action is decided b if and only if it was requested once and exactly one outcome names it, without error, with b |
| `BatchDecisions.DecisionsIgnoreOrder` | `src/course_authz.rs:1246-1261` | permuting outcomes or requests changes no decision |
| `RouteTable.PatternMatches` | `src/course_authz.rs:857-872` | the two-iterator loop equals the recursive segment matching |
| `RouteTable.MatchesExactlyWhen` | `src/course_authz.rs:857-872` | a pattern matches if and only if, up to a position where it gives way to a wildcard or both end, every segment is equal or a parameter |
| `RouteTable.RepeatedSlashesDoNotMatter` | `src/course_authz.rs:858-859` | repeated, leading and trailing slashes change no segment |
| `RouteTable.JoinedSegments` | `src/course_authz.rs:858-859` | splitting undoes joining |
| `RouteTable.CleanPathMatchesTheSame` | `src/course_authz.rs:857-872` | a path matches as its clean spelling does |
| `RouteTable.Classify` | `src/course_authz.rs:900-935` | for any table classify returns the standing of the very entry matching_route returns, HEAD as GET; otherwise the prefix rules, refusing unclassified protected paths |
| `RouteTable.MatchingRouteIsFirst` | `src/course_authz.rs:884-898` | matching_route returns the first entry whose verb is the request verb, HEAD as GET, or any, and whose pattern agrees with the path position by position; none only when no entry does |
| `SmartAssign.EarliestOfferIsEarliest` | `src/smart_assign.rs:197-222` | a shift is chosen if and only if one is offered, and no offer is earlier |
| `SmartAssign.CoversExactlyWhen` | `src/smart_assign.rs:244-260` | a shift covers a timed request if and only if every moment of the request lies within the shift |
| `SmartAssign.OverlapsExactlyWhen` | `src/smart_assign.rs:262-278` | an assignment overlaps a timed request if and only if they have a moment in common |
| `SmartAssign.OpenTimesAreAnyTime` | `src/smart_assign.rs:244-278` | a request without a start or an end is covered by every shift and overlaps every assignment |
| `SmartAssign.ShiftStartIsEarliest` | `src/smart_assign.rs:197-222` | the shift chosen starts no later than any other offered, and has the least id among those starting with it |
| `SmartAssign.OnShiftExactlyWhen` | `src/smart_assign.rs:197-260` | a shift is found for a timed request if and only if a shift of the caddie on that date, not marked unavailable, contains every moment of it |
| `SmartAssign.StatusExactlyWhen` | `src/smart_assign.rs:160-168` | recommended if and only if active, free and on a shift containing the whole request; available, busy and inactive likewise |
| `SmartAssign.BusyMeans` | `src/smart_assign.rs:224-242` | busy means some assignment of the caddie that date, not cancelled, overlaps |
| `SmartAssign.ShiftIgnoresOrder` | `src/smart_assign.rs:197-222` | whether a shift is found and when it starts do not depend on the order of the shifts, ties included |
| `SmartAssign.ScoreProfile` | `src/smart_assign.rs:91-183` | the accumulating pass returns the reference: the score is the worth of the reasons it lists, in their order |
| `SmartAssign.ScoreBands` | `src/smart_assign.rs:91-183` | where each status can score; an inactive profile reaches 145 only with a covering shift and no overlap |
| `SmartAssign.InsertLast` | `src/smart_assign.rs:87` | one element moves down the sorted front of the array to the place the stable insertion gives it, the rest untouched |
| `SmartAssign.SortRecommendations` | `src/smart_assign.rs:87` | the in-place sort equals the stable functional sort |
| `SmartAssign.RankedAscends` | `src/smart_assign.rs:185-195` | the result is in comparison order |
| `SmartAssign.RankedPermutes` | `src/smart_assign.rs:87` | the result is a permutation |
| `SmartAssign.RecommendCaddies` | `src/smart_assign.rs:75-89` | the list is the sorted list of every profile's reference score |
| `SmartAssign.RecommendsEachProfile` | `src/smart_assign.rs:75-89` | every entry is one profile's score and every profile has its entry |
| `SmartAssign.FreeCaddiesComeFirst` | `src/smart_assign.rs:75-222` | recommended entries form a prefix, no busy caddie precedes an available one, and an inactive one that does is on shift and free |
| `SmartAssign.ScoreIs` | `src/smart_assign.rs:103-155` | the score in closed form, from activity, shift, overlap, course, customer and seniority |
| `SmartAssign.ScoredScoreIs` | `src/smart_assign.rs:91-183` | the score and tie break of an entry spelled out from the fields of the profile and the request |
| `SmartAssign.TiesGoByShiftCodeAndId` | `src/smart_assign.rs:185-195` | the list goes by score, among equal scores by shift start, then caddie code, then id |
| `SmartAssign.InactiveComesFirstExactlyWhen` | `src/smart_assign.rs:75-222` | position by position, an inactive entry precedes an available one if and only if it is on shift, free and better by more than 20 in course, customer and seniority, or by exactly 20 with the tie break in its favour |
| `SmartAssign.InactiveCanComeFirst` | `src/smart_assign.rs:149-157` | a list in which an inactive caddie precedes an available one |
| `SmartAssign.ScoredIgnoresOrder` | `src/smart_assign.rs:91-183` | a score does not depend on the order of shifts or assignments |
| `SmartAssign.RankingIgnoresOrder` | `src/smart_assign.rs:75-222` | with ids naming profiles, the list is the same for every reordering of profiles, shifts and assignments |
| `AssignmentRuns.BookingSafeExactlyWhenFree` | `src/smart_assign.rs:224-278` | adding a fully specified booking keeps the day free of double bookings if and only if the caddie has no overlapping live assignment |
| `AssignmentRuns.ClashExactlyWhen` | `src/smart_assign.rs:262-278` | two assignments that take some time clash if and only if they share a moment |
| `AssignmentRuns.OfferedExactlyWhen` | `src/admin_ui.rs:690-693` | the Assign button is there if and only if every field of the request is filled in and the caddie has an active profile and no overlapping assignment |
| `AssignmentRuns.CancellationFrees` | `src/smart_assign.rs:224-242` | cancelling an assignment or a reservation frees the caddie of exactly what was cancelled |
| `AssignmentRuns.OfferedMeansFree` | `src/admin_ui.rs:690-693` | a row with the Assign button belongs to a caddie without an overlapping assignment, and the request is fully specified |
| `AssignmentRuns.RunNeverDoubleBooks` | `src/smart_assign.rs:224-278` | no run of assignments from fresh lists and cancellations books a caddie twice |
| `AssignmentRuns.AssignedStaysBusy` | `src/demo_seed.rs:146-198` | after an assignment, and until it is cancelled, the caddie is never offered for an overlapping request |
| `AssignmentRuns.StaleListDoubleBooks` | `src/admin_ui.rs:690-712` | two assignments taken from the same list can double-book |
| `AssignmentRuns.RunHeadlessDemo` | `src/demo_seed.rs:146-286` | the demonstration panics exactly when the seed lacks two reservations or a recommended caddie; it reports the clash blocked if and only if the row found for the caddie is active and the second reservation overlaps an assignment of the seed, or lies on 2026-06-01 and overlaps the first one's times; with ids naming profiles that row is always active |
| `AssignmentRuns.OtherDayClashGoesThrough` | `src/demo_seed.rs:266-286` | a seed whose two reservations clash on 2026-06-02 and whose assigned caddie is not found busy, because the added assignment is always dated 2026-06-01 |
| `TenantDiscovery.DecodePlatformProfile` | `src/profile_proxy.rs:817-861` | succeeds exactly on valid answers (every tenant valid, ids unique, at most 500) and keeps, in order, the switchable tenants with a valid platform; the kept ids are unique |
| `TenantDiscovery.ValidProfileExactlyWhen` | `src/profile_proxy.rs:817-836` | a valid answer in its own terms: a user with id and name, at most 500 tenants, each named and under an id of its own of the form tn_ and 26 lower-case letters or digits |
| `TenantDiscovery.EligibleExactly` | `src/profile_proxy.rs:837-859` | the platform list holds exactly the switchable tenants on a platform with a valid id, with their own id, name and platform |
| `TenantDiscovery.EligibleInOrder` | `src/profile_proxy.rs:837-859` | and in the order of the answer |
| `TenantDiscovery.DecodeAndFilterProfile` | `src/profile_proxy.rs:932-998` | succeeds exactly on valid answers with a listed default, keeps the enabled tenants in order, and defaults to the only one |
| `TenantDiscovery.EnabledExactly` | `src/profile_proxy.rs:956-978` | the extension list holds exactly the tenants whose extension has the golf key and is switched on, with their own id and name |
| `TenantDiscovery.EnabledInOrder` | `src/profile_proxy.rs:956-978` | and in the order of the answer |
| `TenantDiscovery.PlatformOrder` | `src/profile_proxy.rs:374-379` | the platforms in first-seen order, each once |
| `TenantDiscovery.AskPlatform` | `src/profile_proxy.rs:387-406` | one platform's answers united, restricted to the requested ids, stopping at its first failing action |
| `TenantDiscovery.AllowedTenantIds` | `src/profile_proxy.rs:367-414` | succeeds exactly when every check answers; an id is allowed exactly when some platform asked about it names it for some action; a failure is the first in platform order |
| `TenantDiscovery.KeepAllowedInOrder` | `src/profile_proxy.rs:525-535` | the filter keeps the original order |
| `TenantDiscovery.KeptExactlyWhenOwnPlatformNames` | `src/profile_proxy.rs:367-414` | a tenant is listed if and only if its own platform's answer to some action names it |
| `TenantDiscovery.SharedIdIsAdmittedByTheOther` | `src/profile_proxy.rs:834-840` | without unique ids another platform's answer could admit a tenant |
| `TenantDiscovery.FilterByPolicy` | `src/profile_proxy.rs:327-362` | the policy list: the tenants their own platforms allow, in order, with the single-tenant default; any failed check refuses it |
| `TenantDiscovery.MergedIs` | `src/profile_proxy.rs:540-546` | merging keeps the list as a prefix, adds no duplicate id, and loses and invents nobody |
| `TenantDiscovery.ProfileResponse.AddTenants` | `src/profile_proxy.rs:540-553` | appends the missing tenants in place; the default stays, or becomes the only tenant of a list that was empty, and is always a listed tenant |
| `TextEscapes.EscapeIsOnePass` | `src/admin_ui.rs:1314-1321` | the five sequential replacements equal one single-pass per-character map |
| `TextEscapes.EscapeConcat` | `src/admin_ui.rs:1314-1321` | a text is escaped part by part |
| `TextEscapes.EscapeChar` | `src/admin_ui.rs:1314-1321` | the five special characters are written as their entities, any other as itself |
| `TextEscapes.EscapedIsInert` | `src/admin_ui.rs:1314-1321` | the output has no raw angle bracket or quote |
| `TextEscapes.EscapeRoundTrip` | `src/admin_ui.rs:1314-1321` | a text is the escaped value if and only if it unescapes to the value |
| `TextEscapes.EscapeUrlComponent` | `src/admin_ui.rs:1297-1308` | the byte loop writes the percent-encoding |
| `TextEscapes.EncodeConcat` | `src/admin_ui.rs:1297-1308` | a value is encoded part by part |
| `TextEscapes.EncodeWrites` | `src/admin_ui.rs:1297-1308` | an unreserved byte is written as itself, any other as % and its two upper-case digits, the high one first |
| `TextEscapes.EncodedShape` | `src/admin_ui.rs:1297-1308` | only unreserved characters and %HH triplets (sections 2.1 and 2.3 of RFC 3986) occur |
| `TextEscapes.PercentRoundTrip` | `src/admin_ui.rs:1297-1308` | every byte string reads back |
| `TextEscapes.QueryRoundTrip` | `src/admin_ui.rs:1280-1295` | the redirect query carries every field through, whatever bytes it holds |
| `YamlQuote.Quote` | `src/feature_delivery/catalog.rs:322-338` | the character loop writes the quoted scalar |
| `YamlQuote.QuotedConcat` | `src/feature_delivery/catalog.rs:322-338` | a text is quoted part by part |
| `YamlQuote.QuotedChar` | `src/feature_delivery/catalog.rs:322-338` | each character is written as its short escape, as four hexadecimal digits when it is another control character, else as itself |
| `YamlQuote.QuoteRoundTrip` | `src/feature_delivery/catalog.rs:322-338` | a YAML 1.2 reader (sections 5.7 and 7.3.1) gets the original text back and stops exactly at the closing quote, whatever follows |
| `YamlQuote.QuotedIsPrintable` | `src/feature_delivery/catalog.rs:319-338` | the quoted scalar contains no raw control character |
| `YamlQuote.List` | `src/feature_delivery/catalog.rs:295-304` | the list block is appended, nothing for an empty list |
| `YamlQuote.ItemsRoundTrip` | `src/feature_delivery/catalog.rs:295-304` | the list reads back item by item in front of any text that does not continue it |
| `YamlQuote.Annotations` | `src/feature_delivery/catalog.rs:309-317` | the annotations block is appended, nothing for an empty map |
| `YamlQuote.NotesRoundTrip` | `src/feature_delivery/catalog.rs:309-338` | the annotations read back entry by entry: no key or value can break out of its line |
| `ProtectedFetch.Client.AccessToken` | `desktop/src/api.ts:246-261` | the token or the ending is that of the reference run, with one forced refresh at most |
| `ProtectedFetch.Client.Send` | `desktop/src/api.ts:263-316` | a send, its one retry and its callback are those of the reference run |
| `ProtectedFetch.Client.Request` | `desktop/src/api.ts:263-316` | a whole request does exactly what the reference run says, for every behaviour of token source, server and context changes |
| `ProtectedFetch.EveryRequestIsDisciplined` | `desktop/src/api.ts:246-316` | at most two sends, each with the token just obtained and the second only after a 401; exactly the callback owed, so at most one; nothing unless the captured context is current, and nothing at all without one; a returned reply is the last one |
| `ProtectedFetch.AnsweredAtOnce` | `desktop/src/api.ts:272-316` | with a token and no context change, a reply other than 401 is returned after one send, with the callback it calls for |
| `ProtectedFetch.RefusedThenRetried` | `desktop/src/api.ts:289-316` | a first 401 with a usable forced token is followed by exactly one more send, with that token, and the second reply decides the ending |
| `ProtectedFetch.RefusedForGood` | `desktop/src/api.ts:289-300` | a first 401 is returned with a sign-out when the forced token cannot be had |
| `ProtectedFetch.NoTokenEndsSession` | `desktop/src/api.ts:246-261` | without any token the session ends after a forced try |
| `ProtectedFetch.ReturnsFirstReplyExactlyWhen` | `desktop/src/api.ts:263-316` | the first reply is what the request returns if and only if it arrives and is not a 401, or is one and no forced token can be had |
| `ProtectedFetch.SignOutIsJustified` | `desktop/src/api.ts:210-316` | every sign-out follows a forced try for a token that just failed, or a reply that names the expiry |
| `ProtectedFetch.RetriedRefusalIsNotExpiry` | `desktop/src/api.ts:210-223` | a 401 that survives the refresh is not treated as session expiry |
| `FieldAllowlist.AllowedRouteIsTabled` | `src/field_proxy.rs:201-301` | for every method and path the ordered early returns decide what an order-free table of surfaces and segments says |
| `FieldAllowlist.SurfacesAreApart` | `src/field_proxy.rs:201-219` | no path lies on two surfaces of the table |
| `FieldAllowlist.StaffCalls` | `src/field_proxy.rs:234-245` | one staff member only by PATCH or DELETE, deeper staff paths only by POST |
| `FieldAllowlist.BelowIsTail` | `src/field_proxy.rs:314-326` | stripping a prefix and splitting the rest agrees with splitting the whole path |
| `FieldAllowlist.SafeExactlyWhen` | `src/field_proxy.rs:303-311` | a path is safe if and only if it starts with a slash, has no backslash, doubles or ends in no slash, and names neither . nor .. |
| `FieldAllowlist.PermissionChangesAreAllowed` | `src/field_proxy.rs:346-353` | for a safe path, the calls that change permissions are exactly the allowed non-GET calls on the IAM surface |

## Left out

- SQL, HTTP, JSON and Excel, CSV, base64 and zip decoding: tables are maps, requests and objects are datatypes, and the `source` operation of the import, which reads a workbook and stores nothing, is not part of this model.
- Isolation inside one database: each transaction is one step; the look-ups of a receipt and of business rows made before it may be stale, the other reads before it are parameters.
- SHA-256: a stored digest is kept as the value it was computed from, so two digests are equal exactly when their inputs are; the framing in front of it is modelled in bytes.
- Order of the commit's pages: the pages go by the identity text where the repository goes by its hash, so which new row gets which auto-increment id, and nothing else, can differ; gaps in the ids are not modelled.
- MySQL collation: keys compare character by character, case and width included.
- ImportProtocol.NormalizedIsProduced: the choice of source columns by alias and the parsing of the date, day part and counts are parameters of a row; when both the facility name and another cell are at fault the message may be the other cell's.
- Import options other than the course mappings are one text; comparing two requests' options by that text stands for comparing their hash.
- FacilityDigest.DigestInputsAgreeIffRowsAgree: the JSON text of a row is any injective rendering shorter than 2^64 bytes.
- PolicyCache.CapacityHolds: the inner checker's answer and the clock are parameters; batch checks do not use the cache.
- RouteTable.Classify: proved for arbitrary tables; the entries of the fixed route and feature tables are not listed.
- SmartAssign.ScoreProfile: ratings are real numbers and the profile's free-form JSON is reduced to the six entries the scoring reads.
- AssignmentRuns.RunNeverDoubleBooks: Field, which stores the assignments, is taken to store what it is asked to and to list all of them; names, phones, notes and tenants of profiles and assignments are left out.
- The dispatch board and its sort, HTML pages, forms and redirects other than their query text.
- TenantDiscovery.ProfileResponse.AddTenants: the platform ids looked up per tenant, the time limit of the fee discovery and the background comparison of the two sources are left out; e-mail and onboarding fields pass through unread.
- YamlQuote.QuoteRoundTrip: the reader refuses line folding and escaped line breaks, which the printer never writes; the rest of the manifest is fixed text.
- ProtectedFetch.Client.Request: headers, credentials and the URL are left out, except that building the URL may fail; what callers do with the reply is left out.
- FieldAllowlist.AllowedRouteIsTabled: forwarding itself, its headers and the service account are left out.
- The OAuth token cache, cancellation-fee collections, Stripe, SMS, migrations, video, Tauri and the React screens.
