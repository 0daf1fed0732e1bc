/** The owner's request handler over its tables: every operation updates the
    tables in place, row by row, and an error restores what the transaction
    found. Each one is proved to be the transaction of `ImportProtocol`. */
module ImportOwner {
  import opened Wrappers
  import opened Orders
  import opened SourceIdentity
  import opened CourseMappings
  import opened ReportTables
  import opened ReportCommit
  import opened FacilityDigest
  import opened ImportProtocol

  const FACILITY_PAGE: nat := 100

  class Owner {
    var jobs: map<JobKey, Job>
    var reports: map<string, ReportTable>

    constructor ()
      ensures Valid() && State() == Database(map[], map[])
    {
      jobs, reports := map[], map[];
    }

    ghost function State(): Database
      reads this
    {
      Database(jobs, reports)
    }

    ghost predicate Valid()
      reads this
    {
      Sound(State())
    }

    function Table(tenant: string): (table: ReportTable)
      requires Valid()
      reads this
      ensures table.Valid() && table == State().Table(tenant)
    {
      hide JobSound, ReportTable.Valid;
      if tenant in reports then reports[tenant] else EMPTY_TABLE
    }

    /** `INSERT ... ON DUPLICATE KEY UPDATE job_id=job_id`, then the owner check. */
    method Open(request: Request) returns (granted: bool)
      modifies this`jobs
      ensures request.key in jobs
      ensures jobs == if request.key in old(jobs) then old(jobs) else old(jobs)[request.key := NewJob(request.owner)]
      ensures granted <==> jobs[request.key].owner == request.owner
    {
      if request.key !in jobs {
        jobs := jobs[request.key := NewJob(request.owner)];
      }
      granted := jobs[request.key].owner == request.owner;
    }

    /** One source row: the facility's snapshot on first sight, the row's insert,
        and the comparison with what is stored. */
    method ValidateOne(key: JobKey, table: ReportTable, row: PageRow) returns (reply: Result<Reply, Error>)
      requires key in jobs && table.Valid() && Acceptable(jobs[key].owner.options.courseMappings)
      modifies this`jobs
      ensures var spec := ValidateRow(old(jobs)[key], table, row);
              && reply.Success? == spec.Success?
              && (spec.Success? ==> reply.value == spec.value.1 && jobs == old(jobs)[key := spec.value.0])
              && (spec.Failure? ==> reply == Failure(spec.error))
    {
      hide Acceptable, ReportTable.Valid, FacilitySnapshot, Normalized, IdentityOf, SlotsOf;
      var parsed := Normalized(jobs[key].owner.options, row);
      if parsed.Failure? {
        assert jobs[key := jobs[key]] == jobs;
        return Success(Rejected(row.number, parsed.error));
      }
      var report := parsed.value;
      if report.sourceKey !in jobs[key].facilities {
        var before := FacilityHash(table, report.sourceKey, report.bucket, Itself());
        FedItself(FacilitySnapshot(table, report.sourceKey, report.bucket));
        var facilities := jobs[key].facilities[report.sourceKey := Facility(report.bucket, before)];
        jobs := jobs[key := jobs[key].(facilities := facilities)];
      }
      var id := IdentityOf(report);
      jobs := jobs[key := jobs[key].(rows := InsertRow(jobs[key].rows, id, ImportRow(row.number, report, false)))];
      if id !in jobs[key].rows {
        return Failure(Provider);
      }
      var stored := jobs[key].rows[id];
      if stored.number != row.number || stored.report != report {
        return Success(Rejected(row.number, DUPLICATE));
      }
      return Success(Accepted(row.number, report, report.caddies > report.groups));
    }

    /** The rows of a page, one after the other. */
    method ValidateAll(key: JobKey, table: ReportTable, page: seq<PageRow>) returns (replies: Result<seq<Reply>, Error>)
      requires key in jobs && table.Valid() && Acceptable(jobs[key].owner.options.courseMappings)
      modifies this`jobs
      ensures var spec := ValidatePage(old(jobs)[key], table, page);
              && replies.Success? == spec.Success?
              && (spec.Success? ==> replies.value == spec.value.1 && jobs == old(jobs)[key := spec.value.0])
              && (spec.Failure? ==> replies == Failure(spec.error))
    {
      hide Acceptable, ReportTable.Valid, ValidateRow;
      var list: seq<Reply> := [];
      ghost var start := jobs[key];
      assert jobs[key := jobs[key]] == jobs;
      for i := 0 to |page|
        invariant key in jobs
        invariant ValidatePage(start, table, page[..i]) == Success((jobs[key], list))
        invariant jobs[key].owner == start.owner
        invariant jobs == old(jobs)[key := jobs[key]]
      {
        assert page[..i + 1][..i] == page[..i];
        var reply := ValidateOne(key, table, page[i]);
        if reply.Failure? {
          PageFails(start, table, page, i + 1);
          return Failure(reply.error);
        }
        list := list + [reply.value];
      }
      assert page[..|page|] == page;
      return Success(list);
    }

    method Validate(request: Request, headers: nat, page: seq<PageRow>, env: Environment)
      returns (result: Result<Response, Error>)
      requires Valid() && Acceptable(request.owner.options.courseMappings)
      modifies this`jobs
      ensures (result, State()) == Locked(old(State()), request, Operation.Validate(headers, page), env)
    {
      hide Acceptable, JobSound, ReportTable.Valid, ValidatePage;
      var saved := jobs;
      var table := Table(request.key.tenant);
      var granted := Open(request);
      if !granted {
        jobs := saved;
        return Failure(Forbidden);
      }
      if jobs[request.key].status != Validating {
        jobs := saved;
        return Failure(Conflict);
      }
      if |page| > MAX_ROWS || headers > MAX_HEADERS {
        jobs := saved;
        return Failure(BadRequest);
      }
      var replies := ValidateAll(request.key, table, page);
      if replies.Failure? {
        jobs := saved;
        return Failure(replies.error);
      }
      assert jobs == saved[request.key := jobs[request.key]];
      return Success(PageReply(replies.value));
    }

    method Ready(request: Request, total: nat, env: Environment) returns (result: Result<Response, Error>)
      requires Valid() && Acceptable(request.owner.options.courseMappings)
      modifies this`jobs
      ensures (result, State()) == Locked(old(State()), request, MakeReady(total), env)
    {
      hide Acceptable, JobSound, ReportTable.Valid, MappingsUsed;
      var saved := jobs;
      var granted := Open(request);
      if !granted {
        jobs := saved;
        return Failure(Forbidden);
      }
      var job := jobs[request.key];
      if job.status == Committed {
        jobs := saved;
        return Failure(Conflict);
      }
      if total == 0 {
        jobs := saved;
        return Failure(BadRequest);
      }
      if |job.rows| != total {
        jobs := saved;
        return Failure(Conflict);
      }
      var used := MappingsPresent(job);
      if !used {
        jobs := saved;
        return Failure(BadRequest);
      }
      jobs := jobs[request.key := job.(status := Status.Ready)];
      return Success(Done);
    }

    method StageRow(request: Request, number: nat, report: ReportObject, env: Environment)
      returns (result: Result<Response, Error>)
      requires Valid() && Acceptable(request.owner.options.courseMappings)
      modifies this`jobs
      ensures (result, State()) == Locked(old(State()), request, Stage(number, report), env)
    {
      hide Acceptable, JobSound, ReportTable.Valid, IdentityOf;
      var saved := jobs;
      var granted := Open(request);
      if !granted {
        jobs := saved;
        return Failure(Forbidden);
      }
      var job := jobs[request.key];
      if job.status == Committed {
        assert jobs[request.key := job] == jobs;
        return Success(Done);
      }
      if env.check.Some? {
        jobs := saved;
        return Failure(env.check.value);
      }
      var id := IdentityOf(report);
      if job.status != Status.Ready || id !in job.rows || job.rows[id].report != report
        || job.rows[id].number != number {
        jobs := saved;
        return Failure(Conflict);
      }
      jobs := jobs[request.key := job.(rows := job.rows[id := job.rows[id].(staged := true)])];
      return Success(Done);
    }

    method FinishJob(request: Request, total: nat, now: int, env: Environment)
      returns (result: Result<Response, Error>)
      requires Valid() && Acceptable(request.owner.options.courseMappings)
      modifies this
      ensures (result, State()) == Locked(old(State()), request, Finish(total, now), env)
    {
      hide Acceptable, ReportTable.Valid, Commit, Current, FacilitiesSound, RowsSound, StatusSound, Produced;
      var saved := jobs;
      var table := Table(request.key.tenant);
      var granted := Open(request);
      if !granted {
        jobs := saved;
        return Failure(Forbidden);
      }
      var job := jobs[request.key];
      if job.status == Committed {
        assert jobs[request.key := job] == jobs;
        return Success(ReceiptReply(job.receipt));
      }
      if total == 0 {
        jobs := saved;
        return Failure(BadRequest);
      }
      if env.check.Some? {
        jobs := saved;
        return Failure(env.check.value);
      }
      var staged := CountStaged(job.rows);
      if job.status != Status.Ready || |job.rows| != total || staged != total {
        jobs := saved;
        return Failure(Conflict);
      }
      KeysNotEmpty(job);
      var current := FacilitiesCurrent(table, job.facilities);
      if !current {
        jobs := saved;
        return Failure(Conflict);
      }
      var legacy := env.LegacyRows();
      var seeded := SeedCommonLegacy(table, legacy);
      var replaced, summary := CommitCommonImport(seeded, job.rows, request.owner.source, now);
      CommitAfterSeed(table, legacy, job.rows, request.owner.source, now);
      var receipt := Receipt(summary, request.key.id, request.owner.actor, request.owner.subject, request.owner.source);
      reports := reports[request.key.tenant := replaced];
      jobs := jobs[request.key := job.(status := Committed, receipt := Some(receipt))];
      return Success(ReceiptReply(Some(receipt)));
    }

    /** The whole handler: the checks in front, the unlocked receipt look-up of a
        finish, the mapping and catalog checks, the reads a finish makes for an
        unseeded tenant, then the locked transaction. */
    method Submit(request: Request, op: Operation, env: Environment) returns (result: Result<Response, Error>)
      requires Valid()
      modifies this
      ensures Valid() && (result, State()) == Handle(old(State()), request, op, env)
    {
      hide Locked, JobSound, ReportTable.Valid, Acceptable;
      HandleKeepsSound(State(), request, op, env);
      if env.gate.Some? {
        return Failure(env.gate.value);
      }
      if op.Finish? && !env.lookedTooEarly && request.key in jobs && jobs[request.key].status == Committed {
        if jobs[request.key].owner != request.owner {
          return Failure(Forbidden);
        }
        return Success(ReceiptReply(jobs[request.key].receipt));
      }
      if env.catalog.Failure? {
        return Failure(env.catalog.error);
      }
      var entries := request.owner.options.courseMappings;
      KeyOrderEnumerates(entries.Keys);
      var accepted := Mappings(entries, InKeyOrder(entries.Keys));
      if accepted.None? || !Linkable(entries, env.catalog.value) {
        return Failure(BadRequest);
      }
      if op.Finish? {
        var seed := env.SeedReads();
        if seed.Failure? {
          return Failure(seed.error);
        }
      }
      match op
      case Validate(headers, page) => result := Validate(request, headers, page, env);
      case MakeReady(total) => result := Ready(request, total, env);
      case Stage(number, report) => result := StageRow(request, number, report, env);
      case Finish(total, now) => result := FinishJob(request, total, now, env);
    }
  }

  /** The keys of a hash map in one of the orders it may be walked in. */
  lemma KeyOrderEnumerates(keys: set<string>)
    ensures Enumerates(InKeyOrder(keys), keys)
  {
    forall i, j | 0 <= i < j < |InKeyOrder(keys)| ensures InKeyOrder(keys)[i] != InKeyOrder(keys)[j] {
      KeysDistinct(keys, i, j);
    }
  }

  /** Count the rows of every mapped facility. */
  method MappingsPresent(job: Job) returns (used: bool)
    ensures used <==> MappingsUsed(job)
  {
    hide SourcesOf, InKeyOrder, NormalizeCourseKey;
    var entries := job.owner.options.courseMappings;
    var raws := InKeyOrder(entries.Keys);
    for i := 0 to |raws|
      invariant forall j :: 0 <= j < i ==> Key(raws[j]) in SourcesOf(job.rows)
    {
      if Key(raws[i]) !in SourcesOf(job.rows) {
        assert raws[i] in raws && raws[i] in entries;
        return false;
      }
    }
    forall raw | raw in entries ensures Key(raw) in SourcesOf(job.rows) {
      assert raw in raws;
    }
    used := true;
  }

  // ----- the loops of finish -----

  function StagedIds(rows: ImportRows): set<string> {
    set id | id in rows && rows[id].staged
  }

  /** `COALESCE(SUM(staged), 0)`; it equals the row count exactly when every row
      is staged. */
  method CountStaged(rows: ImportRows) returns (staged: nat)
    ensures staged == |rows| <==> AllStaged(rows)
  {
    staged := |StagedIds(rows)|;
    if AllStaged(rows) {
      assert StagedIds(rows) == rows.Keys;
    } else {
      var id :| id in rows && !rows[id].staged;
      StrictSubset(StagedIds(rows), rows.Keys, id);
    }
  }

  lemma StrictSubset(a: set<string>, b: set<string>, x: string)
    requires a <= b && x in b && x !in a
    ensures |a| < |b|
  {
    FewerElements(a, b - {x});
  }

  /** The compare loop: keyset pages of 100 facilities, each digest recomputed
      from the business rows before anything is written. */
  method FacilitiesCurrent(table: ReportTable, facilities: map<string, Facility>) returns (current: bool)
    requires table.Valid() && "" !in facilities
    ensures current <==> Current(table, facilities)
  {
    hide FacilitySnapshot, ReportTable.Valid, KeyPage, InKeyOrder;
    var after := "";
    ghost var done: seq<string> := [];
    assert KeysAfter(facilities.Keys, after) == facilities.Keys by { KeysFromStart(facilities.Keys); }
    while true
      invariant done + InKeyOrder(KeysAfter(facilities.Keys, after)) == InKeyOrder(facilities.Keys)
      invariant forall key :: key in done ==> SnapshotHolds(table, facilities, key)
      decreases |InKeyOrder(KeysAfter(facilities.Keys, after))|
    {
      var page := KeyPage(facilities.Keys, after, FACILITY_PAGE);
      KeyPageAdvances(facilities.Keys, after, FACILITY_PAGE);
      if page == [] {
        break;
      }
      ghost var rest := InKeyOrder(KeysAfter(facilities.Keys, page[|page| - 1]));
      PageKeys(facilities, done, page, rest);
      var agree := PageCurrent(table, facilities, page);
      if !agree {
        return false;
      }
      after := page[|page| - 1];
      done := done + page;
    }
    forall key | key in facilities ensures SnapshotHolds(table, facilities, key) {
      assert key in InKeyOrder(facilities.Keys);
    }
    current := true;
  }

  /** One page's facilities, compared in order; the first difference ends it. */
  method PageCurrent(table: ReportTable, facilities: map<string, Facility>, page: seq<string>) returns (agree: bool)
    requires table.Valid() && forall k :: 0 <= k < |page| ==> page[k] in facilities
    ensures agree ==> forall key :: key in page ==> SnapshotHolds(table, facilities, key)
    ensures !agree ==> !Current(table, facilities)
  {
    hide FacilitySnapshot, ReportTable.Valid;
    for k := 0 to |page|
      invariant forall j :: 0 <= j < k ==> SnapshotHolds(table, facilities, page[j])
    {
      var source := page[k];
      var now := FacilityHash(table, source, facilities[source].bucket, Itself());
      FedItself(FacilitySnapshot(table, source, facilities[source].bucket));
      if now != facilities[source].before {
        return false;
      }
    }
    agree := true;
  }

  predicate SnapshotHolds(table: ReportTable, facilities: map<string, Facility>, key: string) {
    key in facilities && FacilitySnapshot(table, key, facilities[key].bucket) == facilities[key].before
  }

  lemma PageKeys(facilities: map<string, Facility>, done: seq<string>, page: seq<string>, rest: seq<string>)
    requires done + (page + rest) == InKeyOrder(facilities.Keys)
    ensures done + page + rest == InKeyOrder(facilities.Keys)
    ensures forall k :: 0 <= k < |page| ==> page[k] in facilities
  {
    forall k | 0 <= k < |page| ensures page[k] in facilities {
      assert page[k] == (done + (page + rest))[|done| + k];
      assert page[k] in InKeyOrder(facilities.Keys);
    }
  }

  /** The empty key, which the keyset cursors would skip, is never stored. */
  lemma KeysNotEmpty(job: Job)
    requires JobSound(job)
    ensures "" !in job.facilities && "" !in job.rows && DistinctSlots(job.rows)
  {
    hide Acceptable, Produced, BucketOf, StatusSound, DistinctSlots;
  }

  lemma CommitAfterSeed(table: ReportTable, legacy: seq<ReportRow>, rows: ImportRows, sha: string, now: int)
    requires table.Valid()
    ensures Commit(Seed(table, legacy), [], rows, sha, now) == Commit(table, legacy, rows, sha, now)
  {
  }

  /** A page stops at its first failing row. */
  lemma {:induction false} PageFails(job: Job, table: ReportTable, page: seq<PageRow>, n: nat)
    requires n <= |page| && Acceptable(job.owner.options.courseMappings)
    requires ValidatePage(job, table, page[..n]).Failure?
    ensures ValidatePage(job, table, page) == ValidatePage(job, table, page[..n])
    decreases |page| - n
  {
    hide Acceptable, ValidateRow;
    if n < |page| {
      assert page[..n + 1][..n] == page[..n];
      PageFails(job, table, page, n + 1);
    } else {
      assert page[..n] == page;
    }
  }
}
