/** The owner protocol of a common import as one transaction per request:
    validate, ready, stage, finish, and what every transaction keeps. */
module ImportProtocol {
  import opened Wrappers
  import opened SourceIdentity
  import opened CourseMappings
  import opened ReportTables
  import opened ReportCommit

  // ----- the tables -----

  datatype Status = Validating | Ready | Committed

  /** Every other import option, taken as one text. */
  datatype Options = Options(courseMappings: map<string, string>, other: string)

  datatype OwnerIdentity = OwnerIdentity(subject: string, actor: string, source: string, options: Options)

  /** A facility of the import: where its rows go and what was there when its
      first row was validated. */
  datatype Facility = Facility(bucket: string, before: seq<ReportRow>)

  datatype Receipt = Receipt(summary: Summary, jobId: string, actor: string, subject: string, source: string)

  datatype Job = Job(
    owner: OwnerIdentity,
    status: Status,
    rows: ImportRows,
    facilities: map<string, Facility>,
    receipt: Option<Receipt>)

  datatype JobKey = JobKey(tenant: string, id: string)

  datatype Database = Database(jobs: map<JobKey, Job>, reports: map<string, ReportTable>) {
    function Table(tenant: string): ReportTable {
      if tenant in reports then reports[tenant] else EMPTY_TABLE
    }
  }

  function NewJob(owner: OwnerIdentity): Job {
    Job(owner, Validating, map[], map[], None)
  }

  // ----- requests -----

  datatype Error = BadRequest | Forbidden | Conflict | Provider

  datatype DayPart = Morning | Afternoon

  function PartName(part: DayPart): string {
    match part
    case Morning => "morning"
    case Afternoon => "afternoon"
  }

  type PlainText = s: string | ColonFree(s)

  /** One source row after its cells were parsed. */
  datatype Cells = Cells(name: string, date: PlainText, dayPart: DayPart, groups: nat, caddies: nat)

  datatype PageRow = PageRow(number: nat, cells: Result<Cells, string>)

  datatype Operation =
    | Validate(headers: nat, page: seq<PageRow>)
    | MakeReady(total: nat)
    | Stage(number: nat, report: ReportObject)
    | Finish(total: nat, now: int)

  datatype Request = Request(key: JobKey, owner: OwnerIdentity)

  datatype Reply =
    | Accepted(number: nat, report: ReportObject, warned: bool)
    | Rejected(number: nat, message: string)

  datatype Response = PageReply(replies: seq<Reply>) | Done | ReceiptReply(receipt: Option<Receipt>)

  // ----- the surroundings of a request -----

  /** What a request meets outside its transaction: the verdict of the
      identity, platform and permission checks; the active course catalog;
      whether the unlocked look-up of business rows found any; if it found none,
      the Field job's first refusal and the legacy list; the Field job's refusal
      inside the transaction; and whether the unlocked receipt look-up ran too
      early to see a commit. The two unlocked look-ups may be out of date. */
  datatype Environment = Environment(
    gate: Option<Error>,
    catalog: Result<set<string>, Error>,
    sawRows: Result<bool, Error>,
    firstCheck: Option<Error>,
    legacy: Result<seq<ReportRow>, Error>,
    check: Option<Error>,
    lookedTooEarly: bool) {

    /** What a finish does before its transaction: with no business rows in
        sight it asks for the running job and reads the legacy list. */
    function SeedReads(): Result<seq<ReportRow>, Error> {
      var found :- sawRows;
      if found then Success([])
      else if firstCheck.Some? then Failure(firstCheck.value)
      else legacy
    }

    function LegacyRows(): seq<ReportRow> {
      if SeedReads().Success? then SeedReads().value else []
    }
  }

  // ----- validate -----

  const MAX_ROWS := 500
  const MAX_HEADERS := 256
  const DUPLICATE := "duplicate facility, date and day part"

  /** A parsed row as the report object the import will store. */
  function Normalized(options: Options, row: PageRow): Result<ReportObject, string>
    requires Acceptable(options.courseMappings)
  {
    if row.number == 0 then Failure("source row number is required")
    else
      var cells :- row.cells;
      var name := Trim(cells.name);
      var key := NormalizeCourseKey(name);
      if |key| > KEY_LIMIT || |name| > KEY_LIMIT then Failure("facility name exceeds 255 characters")
      else if Trim(key) == "" || name == "" then Failure("source course is required")
      else
        Success(ReportObject(key, name, BucketOf(options.courseMappings, key), Linked(options.courseMappings, key),
                             cells.date, PartName(cells.dayPart), cells.groups, cells.caddies))
  }

  function IdentityOf(report: ReportObject): string {
    Identity(report.sourceKey, report.date, report.dayPart)
  }

  /** `INSERT ... ON DUPLICATE KEY UPDATE identity_hash=identity_hash`: nothing
      happens when the identity or the slot is taken. */
  function InsertRow(rows: ImportRows, id: string, row: ImportRow): ImportRows {
    if id in rows || SlotOf(row.report) in SlotsOf(rows) then rows else rows[id := row]
  }

  function WithFacility(facilities: map<string, Facility>, table: ReportTable, report: ReportObject)
    : map<string, Facility>
  {
    if report.sourceKey in facilities then facilities
    else
      var before := FacilitySnapshot(table, report.sourceKey, report.bucket);
      facilities[report.sourceKey := Facility(report.bucket, before)]
  }

  function ValidateRow(job: Job, table: ReportTable, row: PageRow): Result<(Job, Reply), Error>
    requires Acceptable(job.owner.options.courseMappings)
  {
    match Normalized(job.owner.options, row)
    case Failure(message) => Success((job, Rejected(row.number, message)))
    case Success(report) =>
      var id := IdentityOf(report);
      var rows := InsertRow(job.rows, id, ImportRow(row.number, report, false));
      var stored := job.(rows := rows, facilities := WithFacility(job.facilities, table, report));
      if id !in rows then Failure(Provider)
      else if rows[id].number != row.number || rows[id].report != report then
        Success((stored, Rejected(row.number, DUPLICATE)))
      else
        Success((stored, Accepted(row.number, report, report.caddies > report.groups)))
  }

  function ValidatePage(job: Job, table: ReportTable, page: seq<PageRow>): (result: Result<(Job, seq<Reply>), Error>)
    requires Acceptable(job.owner.options.courseMappings)
    ensures result.Success? ==> result.value.0.owner == job.owner && |result.value.1| == |page|
  {
    if page == [] then Success((job, []))
    else
      var (before, replies) :- ValidatePage(job, table, page[..|page| - 1]);
      var (after, reply) :- ValidateRow(before, table, page[|page| - 1]);
      Success((after, replies + [reply]))
  }

  // ----- ready, stage, finish -----

  /** Every mapped facility occurs among the validated rows. */
  predicate MappingsUsed(job: Job) {
    forall raw :: raw in job.owner.options.courseMappings ==> Key(raw) in SourcesOf(job.rows)
  }

  predicate AllStaged(rows: ImportRows) {
    forall id :: id in rows ==> rows[id].staged
  }

  predicate Current(table: ReportTable, facilities: map<string, Facility>) {
    forall key :: key in facilities ==> FacilitySnapshot(table, key, facilities[key].bucket) == facilities[key].before
  }

  /** The transaction body: the new job, the new business rows if they are
      written, and the answer. */
  function Operate(request: Request, job: Job, table: ReportTable, op: Operation, env: Environment)
    : Result<(Job, Option<ReportTable>, Response), Error>
    requires table.Valid() && Acceptable(job.owner.options.courseMappings)
  {
    match op
    case Validate(headers, page) =>
      if job.status != Validating then Failure(Conflict)
      else if |page| > MAX_ROWS || headers > MAX_HEADERS then Failure(BadRequest)
      else
        var (validated, replies) :- ValidatePage(job, table, page);
        Success((validated, None, PageReply(replies)))
    case MakeReady(total) =>
      if job.status == Committed then Failure(Conflict)
      else if total == 0 then Failure(BadRequest)
      else if |job.rows| != total then Failure(Conflict)
      else if !MappingsUsed(job) then Failure(BadRequest)
      else Success((job.(status := Ready), None, Done))
    case Stage(number, report) =>
      if job.status == Committed then Success((job, None, Done))
      else if env.check.Some? then Failure(env.check.value)
      else if job.status != Ready then Failure(Conflict)
      else
        var id := IdentityOf(report);
        if id !in job.rows || job.rows[id].report != report || job.rows[id].number != number then Failure(Conflict)
        else Success((job.(rows := job.rows[id := job.rows[id].(staged := true)]), None, Done))
    case Finish(total, now) =>
      if job.status == Committed then Success((job, None, ReceiptReply(job.receipt)))
      else if total == 0 then Failure(BadRequest)
      else if env.check.Some? then Failure(env.check.value)
      else if job.status != Ready || |job.rows| != total || !AllStaged(job.rows) then Failure(Conflict)
      else if !Current(table, job.facilities) then Failure(Conflict)
      else
        var (replaced, summary) := Commit(table, env.LegacyRows(), job.rows, job.owner.source, now);
        var owner := request.owner;
        var receipt := Receipt(summary, request.key.id, owner.actor, owner.subject, owner.source);
        Success((job.(status := Committed, receipt := Some(receipt)), Some(replaced), ReceiptReply(Some(receipt))))
  }

  /** Insert the job row if it is new, lock it, check who owns it, operate, and
      commit; any error rolls everything back. */
  function Locked(db: Database, request: Request, op: Operation, env: Environment): (Result<Response, Error>, Database)
    requires Sound(db) && Acceptable(request.owner.options.courseMappings)
  {
    var job := if request.key in db.jobs then db.jobs[request.key] else NewJob(request.owner);
    if job.owner != request.owner then (Failure(Forbidden), db)
    else
      TableIsValid(db, request.key.tenant);
      match Operate(request, job, db.Table(request.key.tenant), op, env)
      case Failure(error) => (Failure(error), db)
      case Success((after, replaced, response)) =>
        var reports := if replaced.Some? then db.reports[request.key.tenant := replaced.value] else db.reports;
        (Success(response), Database(db.jobs[request.key := after], reports))
  }

  // ----- the request before its transaction -----

  ghost function Handle(db: Database, request: Request, op: Operation, env: Environment)
    : (Result<Response, Error>, Database)
    requires Sound(db)
  {
    if env.gate.Some? then (Failure(env.gate.value), db)
    else if op.Finish? && !env.lookedTooEarly && request.key in db.jobs && db.jobs[request.key].status == Committed then
      var job := db.jobs[request.key];
      (if job.owner != request.owner then Failure(Forbidden) else Success(ReceiptReply(job.receipt)), db)
    else if env.catalog.Failure? then (Failure(env.catalog.error), db)
    else if !Acceptable(request.owner.options.courseMappings) then (Failure(BadRequest), db)
    else if !Linkable(request.owner.options.courseMappings, env.catalog.value) then (Failure(BadRequest), db)
    else if op.Finish? && env.SeedReads().Failure? then (Failure(env.SeedReads().error), db)
    else Locked(db, request, op, env)
  }

  // ----- what every transaction keeps -----

  /** The object is one that `Normalized` makes under the job's options. */
  ghost predicate Produced(options: Options, report: ReportObject) {
    && Acceptable(options.courseMappings)
    && IsFacilityKey(report.sourceKey)
    && ColonFree(report.date) && ColonFree(report.dayPart)
    && report.courseId == Linked(options.courseMappings, report.sourceKey)
    && report.bucket == BucketOf(options.courseMappings, report.sourceKey)
  }

  ghost predicate RowsSound(options: Options, rows: ImportRows, facilities: map<string, Facility>) {
    && DistinctSlots(rows)
    && (forall id :: id in rows ==>
          && id == IdentityOf(rows[id].report)
          && Produced(options, rows[id].report)
          && rows[id].report.sourceKey in facilities)
  }

  ghost predicate FacilitiesSound(options: Options, facilities: map<string, Facility>) {
    && Acceptable(options.courseMappings)
    && forall key :: key in facilities ==>
         IsFacilityKey(key) && facilities[key].bucket == BucketOf(options.courseMappings, key)
  }

  ghost predicate StatusSound(job: Job) {
    && (job.status == Committed <==> job.receipt.Some?)
    && (job.status == Committed ==> AllStaged(job.rows) && job.rows != map[])
    && (job.status == Validating ==> forall id :: id in job.rows ==> !job.rows[id].staged)
  }

  ghost predicate JobSound(job: Job) {
    && FacilitiesSound(job.owner.options, job.facilities)
    && RowsSound(job.owner.options, job.rows, job.facilities)
    && StatusSound(job)
  }

  ghost predicate Sound(db: Database) {
    && (forall key :: key in db.jobs ==> JobSound(db.jobs[key]))
    && (forall tenant :: tenant in db.reports ==> db.reports[tenant].Valid())
  }

  lemma TableIsValid(db: Database, tenant: string)
    requires Sound(db)
    ensures db.Table(tenant).Valid()
  {
  }

  /** Validation only adds: what was stored first never changes. */
  ghost predicate Grows(before: Job, after: Job) {
    && after.owner == before.owner && after.status == before.status && after.receipt == before.receipt
    && (forall id :: id in before.rows ==> id in after.rows && after.rows[id] == before.rows[id])
    && (forall key :: key in before.facilities ==>
          key in after.facilities && after.facilities[key] == before.facilities[key])
  }

  lemma NormalizedIsProduced(options: Options, row: PageRow)
    requires Acceptable(options.courseMappings)
    ensures Normalized(options, row).Success? ==> Produced(options, Normalized(options, row).value)
  {
    hide NormalizeCourseKey, BucketOf, Linked;
    if Normalized(options, row).Success? {
      var name := Trim(row.cells.value.name);
      assert Trim("") == "";
      assert NormalizeCourseKey(name) != "";
      NormalizedIsSpaceless(name);
    }
  }

  /** The report holds the row's cells, cell by cell, under the facility its name
      spells. */
  predicate Reads(options: Options, row: PageRow, report: ReportObject)
    requires Acceptable(options.courseMappings)
  {
    && row.number > 0 && row.cells.Success?
    && var cells := row.cells.value;
    && report.sourceName == Trim(cells.name) != ""
    && report.sourceKey == NormalizeCourseKey(Trim(cells.name)) != ""
    && |report.sourceName| <= 255 && |report.sourceKey| <= 255
    && report.courseId == Linked(options.courseMappings, report.sourceKey)
    && report.bucket == report.courseId.GetOr("unlinked:" + report.sourceKey)
    && report.date == cells.date
    && report.dayPart == (if cells.dayPart.Morning? then "morning" else "afternoon")
    && report.groups == cells.groups
    && report.caddies == cells.caddies
  }

  /** A row normalizes to exactly the report that reads it. */
  lemma NormalizedReads(options: Options, row: PageRow, report: ReportObject)
    requires Acceptable(options.courseMappings)
    ensures Normalized(options, row) == Success(report) <==> Reads(options, row, report)
  {
    hide NormalizeCourseKey, Linked, Trim;
    if row.cells.Success? {
      var name := Trim(row.cells.value.name);
      NormalizedIsSpaceless(name);
      SpacelessIsTrimmed(NormalizeCourseKey(name));
    }
  }

  lemma GrowsOnward(a: Job, b: Job, c: Job)
    requires Grows(a, b) && Grows(b, c)
    ensures Grows(a, c)
  {
  }

  lemma InsertKeepsSlots(rows: ImportRows, id: string, row: ImportRow)
    requires DistinctSlots(rows)
    ensures DistinctSlots(InsertRow(rows, id, row))
  {
    var inserted := InsertRow(rows, id, row);
    if inserted != rows {
      forall i | i in rows ensures SlotOf(rows[i].report) != SlotOf(row.report) {
        assert SlotOf(rows[i].report) in SlotsOf(rows);
      }
    }
  }

  lemma InsertKeepsRows(options: Options, rows: ImportRows, facilities: map<string, Facility>, table: ReportTable,
                        number: nat, report: ReportObject)
    requires RowsSound(options, rows, facilities) && FacilitiesSound(options, facilities) && Produced(options, report)
    ensures var inserted := InsertRow(rows, IdentityOf(report), ImportRow(number, report, false));
            var listed := WithFacility(facilities, table, report);
            RowsSound(options, inserted, listed) && FacilitiesSound(options, listed)
  {
    hide Acceptable, BucketOf, Linked, IsFacilityKey, FacilitySnapshot, IdentityOf, DistinctSlots, SlotsOf;
    InsertKeepsSlots(rows, IdentityOf(report), ImportRow(number, report, false));
  }

  lemma ValidateRowKeeps(job: Job, table: ReportTable, row: PageRow)
    requires JobSound(job) && job.status == Validating
    requires ValidateRow(job, table, row).Success?
    ensures var after := ValidateRow(job, table, row).value.0;
            Grows(job, after) && JobSound(after)
  {
    hide Normalized, RowsSound, FacilitiesSound, Produced, IdentityOf, FacilitySnapshot;
    JobAcceptable(job);
    NormalizedIsProduced(job.owner.options, row);
    if Normalized(job.owner.options, row).Success? {
      InsertKeepsRows(job.owner.options, job.rows, job.facilities, table, row.number,
        Normalized(job.owner.options, row).value);
    }
  }

  lemma {:induction false} ValidatePageKeeps(job: Job, table: ReportTable, page: seq<PageRow>)
    requires JobSound(job) && job.status == Validating
    requires ValidatePage(job, table, page).Success?
    ensures var after := ValidatePage(job, table, page).value.0;
            Grows(job, after) && JobSound(after)
  {
    hide JobSound, ValidateRow, Grows;
    JobAcceptable(job);
    if page == [] {
      GrowsFromSelf(job);
    } else {
      var front := page[..|page| - 1];
      ValidatePageKeeps(job, table, front);
      var (before, replies) := ValidatePage(job, table, front).value;
      GrowsStatus(job, before);
      ValidateRowKeeps(before, table, page[|page| - 1]);
      GrowsOnward(job, before, ValidateRow(before, table, page[|page| - 1]).value.0);
    }
  }

  lemma GrowsFromSelf(job: Job)
    ensures Grows(job, job)
  {
  }

  lemma GrowsStatus(before: Job, after: Job)
    requires Grows(before, after)
    ensures after.status == before.status
  {
  }

  lemma OperateKeeps(request: Request, job: Job, table: ReportTable, op: Operation, env: Environment)
    requires table.Valid() && JobSound(job)
    requires Operate(request, job, table, op, env).Success?
    ensures var (after, replaced, response) := Operate(request, job, table, op, env).value;
            && JobSound(after) && after.owner == job.owner
            && (replaced.Some? ==> replaced.value.Valid())
  {
    hide ValidatePage, Commit, FacilitiesSound, RowsSound, Produced, IdentityOf, FacilitySnapshot, Acceptable;
    JobAcceptable(job);
    match op
    case Validate(headers, page) =>
      ValidatePageKeeps(job, table, page);
    case MakeReady(total) =>
    case Stage(number, report) =>
      if job.status == Ready {
        StageKeepsRows(job, IdentityOf(report));
      }
    case Finish(total, now) =>
      CommitValid(table, env.LegacyRows(), job.rows, job.owner.source, now);
  }

  lemma StageKeepsRows(job: Job, id: string)
    requires RowsSound(job.owner.options, job.rows, job.facilities) && id in job.rows
    ensures RowsSound(job.owner.options, job.rows[id := job.rows[id].(staged := true)], job.facilities)
  {
    hide Produced, IdentityOf;
  }

  lemma CommitValid(table: ReportTable, legacy: seq<ReportRow>, rows: ImportRows, sha: string, now: int)
    requires table.Valid()
    ensures Commit(table, legacy, rows, sha, now).0.Valid()
  {
  }

  lemma NewJobSound(owner: OwnerIdentity)
    requires Acceptable(owner.options.courseMappings)
    ensures JobSound(NewJob(owner))
  {
  }

  lemma JobAcceptable(job: Job)
    requires JobSound(job)
    ensures Acceptable(job.owner.options.courseMappings)
  {
  }

  /** Every transaction, accepted or refused, keeps the tables sound. */
  lemma HandleKeepsSound(db: Database, request: Request, op: Operation, env: Environment)
    requires Sound(db)
    ensures Sound(Handle(db, request, op, env).1)
  {
    hide Operate, JobSound, Acceptable, Linkable;
    if Acceptable(request.owner.options.courseMappings) {
      var job := if request.key in db.jobs then db.jobs[request.key] else NewJob(request.owner);
      NewJobSound(request.owner);
      assert JobSound(job);
      var table := db.Table(request.key.tenant);
      TableIsValid(db, request.key.tenant);
      JobAcceptable(job);
      if job.owner == request.owner && Operate(request, job, table, op, env).Success? {
        OperateKeeps(request, job, table, op, env);
      }
    }
  }
}
