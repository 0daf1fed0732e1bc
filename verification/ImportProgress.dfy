/** The other side of safety: an import nobody interferes with goes through. */
module ImportProgress {
  import opened Wrappers
  import opened SourceIdentity
  import opened CourseMappings
  import opened ReportTables
  import opened ReportCommit
  import opened ImportProtocol
  import opened ImportRuns

  /** Calls that follow one another with nothing in between. */
  ghost predicate Path(states: seq<Database>, events: seq<Event>) {
    && |states| == |events| + 1
    && forall i :: 0 <= i < |events| ==> Step(states[i], events[i], states[i + 1])
  }

  lemma PathThen(states: seq<Database>, events: seq<Event>, event: Event, next: Database)
    requires Path(states, events) && Step(states[|events|], event, next)
    ensures Path(states + [next], events + [event])
  {
    hide Step;
    var s, e := states + [next], events + [event];
    forall i | 0 <= i < |e| ensures Step(s[i], e[i], s[i + 1]) {
      if i < |events| {
        assert s[i] == states[i] && s[i + 1] == states[i + 1] && e[i] == events[i];
      }
    }
  }

  /** Everything outside the tables is in order. */
  ghost predicate Welcome(request: Request, env: Environment) {
    && Admitted(request, Finish(0, 0), env) && env.check.None?
    && Acceptable(request.owner.options.courseMappings)
  }

  /** The job of the request, owned by its owner. */
  ghost predicate Owns(db: Database, request: Request) {
    request.key in db.jobs && db.jobs[request.key].owner == request.owner
  }

  function Unstaged(rows: ImportRows): set<string> {
    set id | id in rows && !rows[id].staged
  }

  function StagedRows(rows: ImportRows): ImportRows {
    map id | id in rows :: rows[id].(staged := true)
  }

  lemma AfterStaging(rows: ImportRows, id: string)
    requires id in Unstaged(rows)
    ensures var next := rows[id := rows[id].(staged := true)];
            Unstaged(next) == Unstaged(rows) - {id} && StagedRows(next) == StagedRows(rows)
  {
  }

  lemma NothingUnstaged(rows: ImportRows)
    requires Unstaged(rows) == {}
    ensures rows == StagedRows(rows)
  {
    forall id | id in rows ensures rows[id].staged {
      assert id !in Unstaged(rows);
    }
  }

  lemma StageOne(db: Database, request: Request, env: Environment, id: string)
    requires Sound(db) && Welcome(request, env) && Owns(db, request)
    requires db.jobs[request.key].status == Ready && id in Unstaged(db.jobs[request.key].rows)
    ensures var job := db.jobs[request.key];
            var op := Stage(job.rows[id].number, job.rows[id].report);
            Step(db, Call(request, op, env),
                 db.(jobs := db.jobs[request.key := job.(rows := job.rows[id := job.rows[id].(staged := true)])]))
  {
    hide Acceptable, Linkable, Produced, IdentityOf, FacilitiesSound, DistinctSlots, StatusSound;
    var job := db.jobs[request.key];
    assert JobSound(job) && id == IdentityOf(job.rows[id].report);
    TableIsValid(db, request.key.tenant);
  }

  /** From ready, staging the rows one after the other stages them all. */
  lemma {:induction false} StageAll(db: Database, request: Request, env: Environment, states: seq<Database>,
                                    events: seq<Event>)
    returns (states': seq<Database>, events': seq<Event>)
    requires Path(states, events) && states[|events|] == db
    requires Sound(db) && Welcome(request, env) && Owns(db, request) && db.jobs[request.key].status == Ready
    ensures Path(states', events') && |states'| == |events'| + 1 && states <= states' && Sound(states'[|events'|])
    ensures var job := db.jobs[request.key];
            states'[|events'|] == db.(jobs := db.jobs[request.key := job.(rows := StagedRows(job.rows))])
    decreases Unstaged(db.jobs[request.key].rows)
  {
    hide Path, Step, Sound, Welcome;
    var job := db.jobs[request.key];
    if Unstaged(job.rows) == {} {
      NothingUnstaged(job.rows);
      assert db.jobs[request.key := job] == db.jobs;
      states', events' := states, events;
      PathLength(states, events);
    } else {
      var id :| id in Unstaged(job.rows);
      var event := Call(request, Stage(job.rows[id].number, job.rows[id].report), env);
      var next := db.(jobs := db.jobs[request.key := job.(rows := job.rows[id := job.rows[id].(staged := true)])]);
      StageOne(db, request, env, id);
      StepKeepsSound(db, event, next);
      PathLength(states, events);
      PathThen(states, events, event, next);
      AfterStaging(job.rows, id);
      states', events' := StageAll(next, request, env, states + [next], events + [event]);
      var done := next.jobs[request.key];
      assert next.jobs[request.key := done.(rows := StagedRows(done.rows))]
          == db.jobs[request.key := job.(rows := StagedRows(job.rows))];
    }
  }

  lemma PathLength(states: seq<Database>, events: seq<Event>)
    requires Path(states, events)
    ensures |states| == |events| + 1
  {
  }

  // ----- validating page after page -----

  datatype SourcePage = SourcePage(headers: nat, rows: seq<PageRow>)

  /** The job the pages leave behind, if every one of them is answered. */
  function ValidatePages(job: Job, table: ReportTable, pages: seq<SourcePage>): (result: Result<Job, Error>)
    requires Acceptable(job.owner.options.courseMappings)
    ensures result.Success? ==> result.value.owner == job.owner
  {
    if pages == [] then Success(job)
    else
      var before :- ValidatePages(job, table, pages[..|pages| - 1]);
      var (after, replies) :- ValidatePage(before, table, pages[|pages| - 1].rows);
      Success(after)
  }

  predicate PageFits(page: SourcePage) {
    |page.rows| <= MAX_ROWS && page.headers <= MAX_HEADERS
  }

  /** The pages, validated for a fresh job, are answered and leave that job. */
  ghost predicate Leaves(db: Database, request: Request, pages: seq<SourcePage>, job: Job) {
    && request.key !in db.jobs && Acceptable(request.owner.options.courseMappings)
    && (forall i :: 0 <= i < |pages| ==> PageFits(pages[i]))
    && ValidatePages(NewJob(request.owner), db.Table(request.key.tenant), pages) == Success(job)
  }

  lemma LeavesBefore(db: Database, request: Request, pages: seq<SourcePage>, job: Job) returns (before: Job)
    requires Leaves(db, request, pages, job) && pages != []
    ensures Leaves(db, request, pages[..|pages| - 1], before) && PageFits(pages[|pages| - 1])
    ensures Acceptable(before.owner.options.courseMappings)
    ensures var last := ValidatePage(before, db.Table(request.key.tenant), pages[|pages| - 1].rows);
            last.Success? && last.value.0 == job
  {
    hide Acceptable, ValidatePage;
    before := ValidatePages(NewJob(request.owner), db.Table(request.key.tenant), pages[..|pages| - 1]).value;
  }

  /** However many pages there are, the job is sound and every snapshot it took
      still holds. */
  lemma {:induction false} PagesKeep(db: Database, request: Request, pages: seq<SourcePage>, job: Job)
    requires Sound(db) && Leaves(db, request, pages, job)
    ensures JobSound(job) && job.status == Validating && job.owner == request.owner
    ensures Current(db.Table(request.key.tenant), job.facilities)
    decreases |pages|
  {
    hide Acceptable, ValidatePage, JobSound, FacilitySnapshot, Grows, Sound;
    var table := db.Table(request.key.tenant);
    if pages == [] {
      NewJobSound(request.owner);
    } else {
      var before := LeavesBefore(db, request, pages, job);
      PagesKeep(db, request, pages[..|pages| - 1], before);
      var last := pages[|pages| - 1].rows;
      ValidatePageKeeps(before, table, last);
      GrowsStatus(before, job);
      forall key | key in job.facilities
        ensures FacilitySnapshot(table, key, job.facilities[key].bucket) == job.facilities[key].before
      {
        if key in before.facilities {
          GrownFacility(before, job, key);
        } else {
          PageSnapshots(before, table, last, key);
        }
      }
    }
  }

  lemma GrownFacility(before: Job, after: Job, key: string)
    requires Grows(before, after) && key in before.facilities
    ensures key in after.facilities && after.facilities[key] == before.facilities[key]
  {
  }

  /** One more page of a job that is new or still validating. */
  lemma ValidateNext(db: Database, request: Request, env: Environment, page: SourcePage, job: Job, after: Job)
    requires Sound(db) && Welcome(request, env) && PageFits(page)
    requires job == if request.key in db.jobs then db.jobs[request.key] else NewJob(request.owner)
    requires job.owner == request.owner && job.status == Validating
    requires Acceptable(job.owner.options.courseMappings)
    requires var validated := ValidatePage(job, db.Table(request.key.tenant), page.rows);
             validated.Success? && validated.value.0 == after
    ensures Step(db, Call(request, Validate(page.headers, page.rows), env), db.(jobs := db.jobs[request.key := after]))
  {
    hide Acceptable, Linkable, ValidatePage, JobSound;
    TableIsValid(db, request.key.tenant);
  }

  /** The calls that validate the pages one after the other. */
  lemma {:induction false} ValidateCalls(db: Database, request: Request, env: Environment, pages: seq<SourcePage>,
                                         job: Job)
    returns (states: seq<Database>, events: seq<Event>)
    requires Sound(db) && Welcome(request, env) && Leaves(db, request, pages, job) && pages != []
    ensures Path(states, events) && |states| == |events| + 1 && states[0] == db
    ensures states[|events|] == db.(jobs := db.jobs[request.key := job])
    ensures Sound(states[|events|])
    decreases |pages|
  {
    hide Path, Step, Sound, Welcome, Acceptable, ValidatePage, JobSound, PageFits, Current;
    var n := |pages| - 1;
    var before := LeavesBefore(db, request, pages, job);
    PagesKeep(db, request, pages[..n], before);
    var start: Database;
    if n == 0 {
      states, events, start := [db], [], db;
      OneCall(db);
    } else {
      states, events := ValidateCalls(db, request, env, pages[..n], before);
      start := states[|events|];
      SameTable(start, db, request.key.tenant);
    }
    assert before == if request.key in start.jobs then start.jobs[request.key] else NewJob(request.owner);
    ValidateNext(start, request, env, pages[n], before, job);
    var event := Call(request, Validate(pages[n].headers, pages[n].rows), env);
    var next := start.(jobs := start.jobs[request.key := job]);
    StepKeepsSound(start, event, next);
    PathThen(states, events, event, next);
    assert next.jobs == db.jobs[request.key := job];
    assert (states + [next])[0] == states[0];
    states, events := states + [next], events + [event];
  }

  // ----- what the accepted rows become -----

  /** The reply to row `i` of page `k`. */
  function ReplyTo(job: Job, table: ReportTable, pages: seq<SourcePage>, k: nat, i: nat): Option<Reply>
    requires Acceptable(job.owner.options.courseMappings) && k < |pages|
  {
    var before := ValidatePages(job, table, pages[..k]);
    if before.Failure? then None
    else
      var page := ValidatePage(before.value, table, pages[k].rows);
      if page.Failure? || i >= |page.value.1| then None else Some(page.value.1[i])
  }

  predicate Accepts(db: Database, request: Request, pages: seq<SourcePage>, k: nat, i: nat)
    requires Acceptable(request.owner.options.courseMappings)
  {
    && k < |pages| && i < |pages[k].rows|
    && var reply := ReplyTo(NewJob(request.owner), db.Table(request.key.tenant), pages, k, i);
       reply.Some? && reply.value.Accepted?
  }

  /** The accepted row stays stored, cell by cell, whatever pages follow. */
  lemma {:induction false} AcceptedRowIsStored(db: Database, request: Request, pages: seq<SourcePage>, job: Job, k: nat,
                                               i: nat) returns (report: ReportObject)
    requires Sound(db) && Leaves(db, request, pages, job) && Accepts(db, request, pages, k, i)
    ensures Reads(request.owner.options, pages[k].rows[i], report)
    ensures StoredAs(job, pages[k].rows[i].number, report) && IdentityOf(report) in job.rows
    decreases |pages|
  {
    hide Acceptable, ValidatePage, JobSound, Sound, Reads, StoredAs, IdentityOf, Grows, PageFits;
    var table := db.Table(request.key.tenant);
    var n := |pages| - 1;
    var front, last := pages[..n], pages[n].rows;
    var before := LeavesBefore(db, request, pages, job);
    PagesKeep(db, request, front, before);
    PagesKeep(db, request, pages, job);
    ValidatePageKeeps(before, table, last);
    if k < n {
      assert front[..k] == pages[..k] && front[k] == pages[k];
      report := AcceptedRowIsStored(db, request, front, before, k, i);
      StoredOnward(before, job, pages[k].rows[i].number, report);
    } else {
      report := ValidatePage(before, table, last).value.1[i].report;
      AcceptedExactlyWhen(before, table, last, i, report);
    }
    StoredUnderItsIdentity(job, pages[k].rows[i].number, report);
  }

  /** The business row carries the source row, column by column. */
  predicate Carries(row: ReportRow, cells: Cells, owner: OwnerIdentity)
    requires Acceptable(owner.options.courseMappings)
  {
    && row.sourceName == Trim(cells.name)
    && row.sourceKey == NormalizeCourseKey(Trim(cells.name))
    && row.courseId == Linked(owner.options.courseMappings, row.sourceKey)
    && row.bucket == row.courseId.GetOr("unlinked:" + row.sourceKey)
    && row.date == cells.date
    && row.dayPart == (if cells.dayPart.Morning? then "morning" else "afternoon")
    && row.groups == cells.groups
    && row.caddies == cells.caddies
    && row.sourceSystem == "daily_reservation_status_xlsx"
    && row.sha == owner.source
  }

  predicate Written(table: ReportTable, row: PageRow, owner: OwnerIdentity)
    requires Acceptable(owner.options.courseMappings)
  {
    row.cells.Success? && exists id :: id in table.rows && Carries(table.rows[id], row.cells.value, owner)
  }

  lemma HeldReadingIsWritten(table: ReportTable, row: PageRow, owner: OwnerIdentity, report: ReportObject)
    requires table.Valid() && Acceptable(owner.options.courseMappings) && Reads(owner.options, row, report)
    requires var held := RowAt(table, SlotOf(report)); held.Some? && Holds(held.value, report, owner.source)
    ensures Written(table, row, owner)
  {
    hide Acceptable, Linked, Trim, NormalizeCourseKey;
    var id := FindSlot(table, SlotOf(report)).value;
    assert Carries(table.rows[id], row.cells.value, owner);
  }

  /** Every accepted source row is in the business table after the commit. */
  lemma AcceptedRowIsWritten(db: Database, request: Request, pages: seq<SourcePage>, job: Job, legacy: seq<ReportRow>,
                             now: int, k: nat, i: nat)
    requires Sound(db) && Leaves(db, request, pages, job) && Accepts(db, request, pages, k, i)
    requires db.Table(request.key.tenant).Valid()
    ensures Written(Commit(db.Table(request.key.tenant), legacy, StagedRows(job.rows), request.owner.source, now).0,
                    pages[k].rows[i], request.owner)
  {
    hide Acceptable, Sound, Reads, IdentityOf, Commit, Written, ReplyTo, RowAt, PriorRow, Holds, Produced,
         FacilitiesSound, StatusSound, ValidatePages;
    var report := AcceptedRowIsStored(db, request, pages, job, k, i);
    PagesKeep(db, request, pages, job);
    StoredUnderItsIdentity(job, pages[k].rows[i].number, report);
    var table, rows := db.Table(request.key.tenant), StagedRows(job.rows);
    CommittedRowHolds(table, legacy, rows, request.owner.source, now, IdentityOf(report));
    var after := Commit(table, legacy, rows, request.owner.source, now).0;
    HeldReadingIsWritten(after, pages[k].rows[i], request.owner, report);
  }

  /** The table carries every source row that was accepted. */
  ghost predicate AllWritten(db: Database, request: Request, pages: seq<SourcePage>, table: ReportTable)
    requires Acceptable(request.owner.options.courseMappings)
  {
    forall k, i :: 0 <= k < |pages| && 0 <= i < |pages[k].rows| && Accepts(db, request, pages, k, i) ==>
      Written(table, pages[k].rows[i], request.owner)
  }

  lemma AcceptedRowsAreWritten(db: Database, request: Request, pages: seq<SourcePage>, job: Job, legacy: seq<ReportRow>,
                               now: int)
    requires Sound(db) && Leaves(db, request, pages, job) && db.Table(request.key.tenant).Valid()
    ensures Acceptable(request.owner.options.courseMappings)
    ensures AllWritten(db, request, pages,
                       Commit(db.Table(request.key.tenant), legacy, StagedRows(job.rows), request.owner.source, now).0)
  {
    LeavesAcceptable(db, request, pages, job);
    hide Leaves, Acceptable, Commit, Written, Accepts, Sound;
    var table := Commit(db.Table(request.key.tenant), legacy, StagedRows(job.rows), request.owner.source, now).0;
    forall k, i | 0 <= k < |pages| && 0 <= i < |pages[k].rows| && Accepts(db, request, pages, k, i)
      ensures Written(table, pages[k].rows[i], request.owner)
    {
      AcceptedRowIsWritten(db, request, pages, job, legacy, now, k, i);
    }
  }

  // ----- ready and finish -----

  lemma ReadyNow(db: Database, request: Request, env: Environment)
    requires Sound(db) && Welcome(request, env) && Owns(db, request)
    requires var job := db.jobs[request.key]; job.status == Validating && job.rows != map[] && MappingsUsed(job)
    ensures var job := db.jobs[request.key];
            Step(db, Call(request, MakeReady(|job.rows|), env),
              db.(jobs := db.jobs[request.key := job.(status := Ready)]))
  {
    hide Acceptable, Linkable, JobSound, MappingsUsed;
    TableIsValid(db, request.key.tenant);
    var job := db.jobs[request.key];
    var id :| id in job.rows;
    assert |job.rows| > 0;
  }

  lemma FinishNow(db: Database, request: Request, env: Environment, now: int)
    requires Sound(db) && Welcome(request, env) && Owns(db, request)
    requires var job := db.jobs[request.key];
             job.status == Ready && job.rows != map[] && AllStaged(job.rows)
               && Current(db.Table(request.key.tenant), job.facilities)
    ensures var job := db.jobs[request.key];
            var next := Handle(db, request, Finish(|job.rows|, now), env).1;
            && Step(db, Call(request, Finish(|job.rows|, now), env), next)
            && CommittedIn(next, request.key)
  {
    hide Acceptable, Linkable, JobSound, AllStaged, Current, Commit;
    TableIsValid(db, request.key.tenant);
    var job := db.jobs[request.key];
    var id :| id in job.rows;
    assert |job.rows| > 0;
  }

  /** Validate, then ready: the job is ready and nothing else changed. */
  lemma ReachReady(db: Database, request: Request, env: Environment, pages: seq<SourcePage>, job: Job)
    returns (states: seq<Database>, events: seq<Event>)
    requires Sound(db) && Welcome(request, env) && Leaves(db, request, pages, job)
    requires pages != [] && job.rows != map[] && MappingsUsed(job)
    ensures Path(states, events) && |states| == |events| + 1 && states[0] == db && Sound(states[|events|])
    ensures states[|events|] == db.(jobs := db.jobs[request.key := job.(status := Ready)])
  {
    hide *;
    PagesKeep(db, request, pages, job);
    states, events := ValidateCalls(db, request, env, pages, job);
    var d1 := states[|events|];
    Placed(db, request, job);
    ReadyNow(d1, request, env);
    var event := Call(request, MakeReady(|job.rows|), env);
    var d2 := d1.(jobs := d1.jobs[request.key := job.(status := Ready)]);
    StepKeepsSound(d1, event, d2);
    PathThen(states, events, event, d2);
    assert (states + [d2])[0] == states[0];
    states, events := states + [d2], events + [event];
    assert d2.jobs == db.jobs[request.key := job.(status := Ready)];
  }

  lemma Placed(db: Database, request: Request, job: Job)
    requires job.owner == request.owner
    ensures Owns(db.(jobs := db.jobs[request.key := job]), request)
  {
  }

  lemma NoPagesNoRows(db: Database, request: Request, job: Job)
    requires Leaves(db, request, [], job)
    ensures job.rows == map[]
  {
  }

  /** From any state, a fresh job whose pages are all answered, mention every
      mapped facility and store at least one row can be validated page by page,
      made ready, staged and finished: without interference it commits exactly
      the rows validated. */
  lemma UndisturbedImportCommits(db: Database, request: Request, env: Environment, pages: seq<SourcePage>, job: Job,
                                 now: int)
    returns (states: seq<Database>, events: seq<Event>)
    requires Sound(db) && Welcome(request, env) && Leaves(db, request, pages, job)
    requires job.rows != map[] && MappingsUsed(job)
    ensures Path(states, events) && |states| == |events| + 1 && states[0] == db
    ensures CommittedIn(states[|events|], request.key)
    ensures var last := states[|events|];
            && last.jobs[request.key].rows == StagedRows(job.rows)
            && db.Table(request.key.tenant).Valid()
            && last.Table(request.key.tenant)
               == Commit(db.Table(request.key.tenant), env.LegacyRows(), StagedRows(job.rows),
                         request.owner.source, now).0
  {
    hide *;
    if pages == [] {
      NoPagesNoRows(db, request, job);
    }
    states, events := ReachReady(db, request, env, pages, job);
    PagesKeep(db, request, pages, job);
    var ready := job.(status := Ready);
    Placed(db, request, ready);
    var d2 := states[|events|];
    states, events := StageAll(d2, request, env, states, events);
    var staged := ready.(rows := StagedRows(job.rows));
    var d3 := db.(jobs := db.jobs[request.key := staged]);
    assert states[|events|].jobs == d3.jobs;
    Placed(db, request, staged);
    SameTable(db, d3, request.key.tenant);
    StagedIsStaged(job.rows);
    var next := FinishLeaves(d3, request, env, now);
    var event := Call(request, Finish(|staged.rows|, now), env);
    PathThen(states, events, event, next);
    assert (states + [next])[0] == states[0];
    states, events := states + [next], events + [event];
  }

  /** The same run leaves every accepted source row in the business table, column
      by column. */
  lemma UndisturbedImportWritesAcceptedRows(db: Database, request: Request, env: Environment, pages: seq<SourcePage>,
                                            job: Job, now: int)
    returns (states: seq<Database>, events: seq<Event>)
    requires Sound(db) && Welcome(request, env) && Leaves(db, request, pages, job)
    requires job.rows != map[] && MappingsUsed(job)
    ensures Path(states, events) && |states| == |events| + 1 && states[0] == db
    ensures CommittedIn(states[|events|], request.key)
    ensures Acceptable(request.owner.options.courseMappings)
    ensures AllWritten(db, request, pages, states[|events|].Table(request.key.tenant))
  {
    hide *;
    states, events := UndisturbedImportCommits(db, request, env, pages, job, now);
    AcceptedRowsAreWritten(db, request, pages, job, env.LegacyRows(), now);
  }

  lemma LeavesAcceptable(db: Database, request: Request, pages: seq<SourcePage>, job: Job)
    requires Leaves(db, request, pages, job)
    ensures Acceptable(request.owner.options.courseMappings)
  {
  }

  lemma SameTable(a: Database, b: Database, tenant: string)
    requires a.reports == b.reports
    ensures a.Table(tenant) == b.Table(tenant)
  {
  }

  /** The finish of a fully staged, current job, and what it leaves. */
  lemma FinishLeaves(db: Database, request: Request, env: Environment, now: int) returns (next: Database)
    requires Sound(db) && Welcome(request, env) && Owns(db, request)
    requires var job := db.jobs[request.key];
             job.status == Ready && job.rows != map[] && AllStaged(job.rows)
               && Current(db.Table(request.key.tenant), job.facilities)
    ensures var job := db.jobs[request.key];
            && Step(db, Call(request, Finish(|job.rows|, now), env), next)
            && CommittedIn(next, request.key) && next.jobs[request.key].rows == job.rows
            && db.Table(request.key.tenant).Valid()
            && next.Table(request.key.tenant)
               == Commit(db.Table(request.key.tenant), env.LegacyRows(), job.rows, request.owner.source, now).0
  {
    hide Handle, Sound, Welcome, Step, Current, AllStaged, Commit, CommitStep;
    var job := db.jobs[request.key];
    var event := Call(request, Finish(|job.rows|, now), env);
    next := Handle(db, request, Finish(|job.rows|, now), env).1;
    FinishNow(db, request, env, now);
    NotYet(db, request.key);
    OnlyFinishCommits(db, event, next, request.key);
    CommitLeaves(db, event, next, request.key);
  }

  lemma OneCall(db: Database)
    ensures Path([db], [])
  {
  }

  lemma StagedIsStaged(rows: ImportRows)
    ensures AllStaged(StagedRows(rows)) && (rows != map[] ==> StagedRows(rows) != map[])
  {
    if rows != map[] {
      var id :| id in rows;
      assert id in StagedRows(rows);
    }
  }

  lemma NotYet(db: Database, key: JobKey)
    requires key in db.jobs && db.jobs[key].status == Ready
    ensures !CommittedIn(db, key)
  {
  }

  lemma CommitLeaves(db: Database, event: Event, next: Database, key: JobKey)
    requires Sound(db) && CommitStep(db, event, next, key)
    ensures db.Table(key.tenant).Valid()
    ensures next.jobs[key].rows == db.jobs[key].rows && next.jobs[key].receipt.Some?
    ensures next.Table(key.tenant)
            == Commit(db.Table(key.tenant), event.env.LegacyRows(), db.jobs[key].rows,
                      db.jobs[key].owner.source, event.op.now).0
  {
    hide Commit, AllStaged, Current;
    TableIsValid(db, key.tenant);
  }
}
