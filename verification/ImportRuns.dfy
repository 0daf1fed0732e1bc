/** Safety of the owner protocol over whole runs: any interleaving of requests
    for any jobs, with the business rows edited from outside in between. */
module ImportRuns {
  import opened Wrappers
  import opened SourceIdentity
  import opened CourseMappings
  import opened ReportTables
  import opened ReportCommit
  import opened ImportProtocol

  // ----- validating the same page again -----

  lemma ResubmitRow(job: Job, table: ReportTable, row: PageRow, later: Job, other: ReportTable)
    requires Acceptable(job.owner.options.courseMappings)
    requires ValidateRow(job, table, row).Success? && Grows(ValidateRow(job, table, row).value.0, later)
    requires later.owner == job.owner
    ensures ValidateRow(later, other, row) == Success((later, ValidateRow(job, table, row).value.1))
  {
    hide Normalized, IdentityOf, FacilitySnapshot, SlotsOf, Acceptable;
  }

  lemma ValidateRowGrows(job: Job, table: ReportTable, row: PageRow)
    requires Acceptable(job.owner.options.courseMappings) && ValidateRow(job, table, row).Success?
    ensures Grows(job, ValidateRow(job, table, row).value.0)
  {
    hide Normalized, IdentityOf, FacilitySnapshot, SlotsOf, Acceptable;
  }

  /** A page validated once is answered the same way by any later state of its
      job that is still validating, whatever the business rows are by then, and
      nothing is stored twice. */
  lemma {:induction false} ResubmitPage(job: Job, table: ReportTable, page: seq<PageRow>, later: Job,
                                        other: ReportTable)
    requires Acceptable(job.owner.options.courseMappings)
    requires ValidatePage(job, table, page).Success? && Grows(ValidatePage(job, table, page).value.0, later)
    requires later.owner == job.owner
    ensures ValidatePage(later, other, page) == Success((later, ValidatePage(job, table, page).value.1))
  {
    hide ValidateRow, Acceptable;
    if page != [] {
      var front, last := page[..|page| - 1], page[|page| - 1];
      var (before, replies) := ValidatePage(job, table, front).value;
      ValidateRowGrows(before, table, last);
      GrowsOnward(before, ValidateRow(before, table, last).value.0, later);
      ResubmitPage(job, table, front, later, other);
      ResubmitRow(before, table, last, later, other);
    }
  }

  // ----- when validation itself breaks down -----

  /** A row breaks its page exactly when it is new but its slot is held by
      another facility. */
  ghost predicate Collides(job: Job, row: PageRow)
    requires Acceptable(job.owner.options.courseMappings)
  {
    var report := Normalized(job.owner.options, row);
    && report.Success?
    && exists id :: id in job.rows && job.rows[id].report.sourceKey != report.value.sourceKey
                    && SlotOf(job.rows[id].report) == SlotOf(report.value)
                    && IdentityOf(report.value) !in job.rows
  }

  lemma ValidateFailsExactlyOnCollision(job: Job, table: ReportTable, row: PageRow)
    requires JobSound(job) && Acceptable(job.owner.options.courseMappings)
    ensures ValidateRow(job, table, row).Failure? <==> Collides(job, row)
    ensures ValidateRow(job, table, row).Failure? ==> ValidateRow(job, table, row).error == Provider
  {
    hide Normalized, Acceptable, Produced, BucketOf, FacilitySnapshot, FacilitiesSound;
    var report := Normalized(job.owner.options, row);
    if report.Success? && IdentityOf(report.value) !in job.rows && SlotOf(report.value) in SlotsOf(job.rows) {
      var id :| id in job.rows && SlotOf(job.rows[id].report) == SlotOf(report.value);
      assert id == IdentityOf(job.rows[id].report);
    }
  }

  /** With one bucket per facility no page ever breaks down. */
  lemma DistinctBucketsNeverCollide(job: Job, row: PageRow)
    requires JobSound(job) && Acceptable(job.owner.options.courseMappings)
    requires DistinctBuckets(job.owner.options.courseMappings)
    ensures !Collides(job, row)
  {
    hide Normalized, Acceptable, BucketOf, Linked, FacilitiesSound, StatusSound, DistinctSlots, IsFacilityKey;
    NormalizedIsProduced(job.owner.options, row);
  }

  lemma {:induction false} PagesValidate(job: Job, table: ReportTable, page: seq<PageRow>)
    requires JobSound(job) && job.status == Validating && Acceptable(job.owner.options.courseMappings)
    requires DistinctBuckets(job.owner.options.courseMappings)
    ensures ValidatePage(job, table, page).Success?
  {
    hide JobSound, ValidateRow, Collides, Acceptable, DistinctBuckets;
    if page != [] {
      var front := page[..|page| - 1];
      PagesValidate(job, table, front);
      ValidatePageKeeps(job, table, front);
      var before := ValidatePage(job, table, front).value.0;
      DistinctBucketsNeverCollide(before, page[|page| - 1]);
      ValidateFailsExactlyOnCollision(before, table, page[|page| - 1]);
    }
  }

  lemma {:induction false} PageFailsAsProvider(job: Job, table: ReportTable, page: seq<PageRow>)
    requires Acceptable(job.owner.options.courseMappings) && ValidatePage(job, table, page).Failure?
    ensures ValidatePage(job, table, page) == Failure(Provider)
  {
    hide Normalized, Acceptable, FacilitySnapshot, IdentityOf, InsertRow;
    var front := page[..|page| - 1];
    if ValidatePage(job, table, front).Failure? {
      PageFailsAsProvider(job, table, front);
    }
  }

  lemma ValidatedRowIsStored(job: Job, table: ReportTable, row: PageRow)
    requires Acceptable(job.owner.options.courseMappings) && ValidateRow(job, table, row).Success?
    ensures var report := Normalized(job.owner.options, row);
            report.Success? ==> IdentityOf(report.value) in ValidateRow(job, table, row).value.0.rows
  {
    hide Normalized, Acceptable, FacilitySnapshot, IdentityOf, InsertRow;
  }

  /** An answered page leaves a row under the identity of each of its readings. */
  lemma {:induction false} AnsweredPageHolds(job: Job, table: ReportTable, page: seq<PageRow>, i: nat)
    requires JobSound(job) && job.status == Validating && Acceptable(job.owner.options.courseMappings)
    requires ValidatePage(job, table, page).Success? && i < |page|
    ensures var report := Normalized(job.owner.options, page[i]);
            report.Success? ==> IdentityOf(report.value) in ValidatePage(job, table, page).value.0.rows
  {
    hide Normalized, Acceptable, JobSound, ValidateRow, IdentityOf;
    var front, last := page[..|page| - 1], page[|page| - 1];
    var before := ValidatePage(job, table, front).value.0;
    ValidatePageKeeps(job, table, front);
    ValidateRowGrows(before, table, last);
    ValidatedRowIsStored(before, table, last);
    if i < |front| {
      AnsweredPageHolds(job, table, front, i);
    }
  }

  /** The row stored under a reading's identity sits in the reading's slot. */
  lemma StoredReadingHasItsSlot(job: Job, row: PageRow)
    requires JobSound(job) && Acceptable(job.owner.options.courseMappings)
    requires Normalized(job.owner.options, row).Success?
    requires IdentityOf(Normalized(job.owner.options, row).value) in job.rows
    ensures var report := Normalized(job.owner.options, row).value;
            var stored := job.rows[IdentityOf(report)].report;
            stored.sourceKey == report.sourceKey && SlotOf(stored) == SlotOf(report)
  {
    hide Normalized, Acceptable, Identity, IsFacilityKey, BucketOf, Linked, FacilitiesSound, StatusSound, DistinctSlots;
    NormalizedIsProduced(job.owner.options, row);
    var report := Normalized(job.owner.options, row).value;
    var stored := job.rows[IdentityOf(report)].report;
    IdentityInjective(stored.sourceKey, stored.date, stored.dayPart, report.sourceKey, report.date, report.dayPart);
  }

  /** Two facilities sharing a bucket break every page, of any length and in any
      state of the job, that gives both the same date and day part. */
  lemma SharedBucketBreaksPage(job: Job, table: ReportTable, page: seq<PageRow>, i: nat, j: nat)
    requires JobSound(job) && job.status == Validating && Acceptable(job.owner.options.courseMappings)
    requires i < |page| && j < |page|
    requires var r, s := Normalized(job.owner.options, page[i]), Normalized(job.owner.options, page[j]);
             r.Success? && s.Success? && r.value.sourceKey != s.value.sourceKey && SlotOf(r.value) == SlotOf(s.value)
    ensures ValidatePage(job, table, page) == Failure(Provider)
  {
    hide Normalized, Acceptable, FacilitiesSound, Produced, StatusSound, IdentityOf, ValidatePage;
    if ValidatePage(job, table, page).Success? {
      var after := ValidatePage(job, table, page).value.0;
      ValidatePageKeeps(job, table, page);
      AnsweredPageHolds(job, table, page, i);
      AnsweredPageHolds(job, table, page, j);
      StoredReadingHasItsSlot(after, page[i]);
      StoredReadingHasItsSlot(after, page[j]);
    } else {
      PageFailsAsProvider(job, table, page);
    }
  }

  // ----- which rows are accepted -----

  /** The job stores the report under that source row number. */
  ghost predicate StoredAs(job: Job, number: nat, report: ReportObject) {
    exists id :: id in job.rows && job.rows[id].number == number && job.rows[id].report == report
  }

  lemma StoredUnderItsIdentity(job: Job, number: nat, report: ReportObject)
    requires JobSound(job)
    ensures StoredAs(job, number, report)
            <==> IdentityOf(report) in job.rows
                 && job.rows[IdentityOf(report)].number == number && job.rows[IdentityOf(report)].report == report
  {
    hide Produced, FacilitiesSound, StatusSound, DistinctSlots, IdentityOf;
  }

  lemma RowAcceptedExactlyWhen(job: Job, table: ReportTable, row: PageRow, reply: Reply, report: ReportObject)
    requires JobSound(job) && job.status == Validating && Acceptable(job.owner.options.courseMappings)
    requires ValidateRow(job, table, row).Success? && ValidateRow(job, table, row).value.1 == reply
    ensures var after := ValidateRow(job, table, row).value.0;
            && JobSound(after)
            && (reply.Accepted? && reply.report == report <==>
                  Reads(job.owner.options, row, report) && StoredAs(after, row.number, report))
            && (reply.Accepted? ==>
                  reply.number == row.number && reply.warned == (reply.report.caddies > reply.report.groups))
            && (reply.Rejected? ==>
                  reply.number == row.number && (Reads(job.owner.options, row, report) ==> reply.message == DUPLICATE))
  {
    hide Acceptable, JobSound, Normalized, Reads, StoredAs, IdentityOf, FacilitySnapshot, SlotsOf;
    var after := ValidateRow(job, table, row).value.0;
    ValidateRowKeeps(job, table, row);
    NormalizedReads(job.owner.options, row, report);
    StoredUnderItsIdentity(after, row.number, report);
  }

  lemma StoredOnward(before: Job, after: Job, number: nat, report: ReportObject)
    requires JobSound(before) && JobSound(after) && Grows(before, after) && IdentityOf(report) in before.rows
    ensures StoredAs(before, number, report) <==> StoredAs(after, number, report)
  {
    hide JobSound, StoredAs, IdentityOf;
    StoredUnderItsIdentity(before, number, report);
    StoredUnderItsIdentity(after, number, report);
  }

  /** A source row is accepted as a report if and only if it reads as that report
      and what the job then stores for the facility, date and day part is this
      row number with this report. The reply names the row, warns exactly when the
      groups with caddies outnumber the groups, and calls a row that reads but is
      refused a duplicate. */
  lemma {:induction false} AcceptedExactlyWhen(job: Job, table: ReportTable, page: seq<PageRow>, i: nat,
                                               report: ReportObject)
    requires JobSound(job) && job.status == Validating && Acceptable(job.owner.options.courseMappings)
    requires ValidatePage(job, table, page).Success? && i < |page|
    ensures var (after, replies) := ValidatePage(job, table, page).value;
            && (replies[i].Accepted? && replies[i].report == report <==>
                  Reads(job.owner.options, page[i], report) && StoredAs(after, page[i].number, report))
            && (replies[i].Accepted? ==>
                  && replies[i].number == page[i].number
                  && replies[i].warned == (replies[i].report.caddies > replies[i].report.groups))
            && (replies[i].Rejected? ==>
                  && replies[i].number == page[i].number
                  && (Reads(job.owner.options, page[i], report) ==> replies[i].message == DUPLICATE))
  {
    hide Acceptable, JobSound, ValidateRow, Reads, StoredAs, IdentityOf, Normalized, Grows;
    var n := |page| - 1;
    var front, last := page[..n], page[n];
    var (before, earlier) := ValidatePage(job, table, front).value;
    ValidatePageKeeps(job, table, front);
    GrowsStatus(job, before);
    var (after, reply) := ValidateRow(before, table, last).value;
    RowAcceptedExactlyWhen(before, table, last, reply, report);
    if i < n {
      AcceptedExactlyWhen(job, table, front, i, report);
      AnsweredPageHolds(job, table, front, i);
      NormalizedReads(job.owner.options, front[i], report);
      ValidateRowGrows(before, table, last);
      if Reads(job.owner.options, front[i], report) {
        StoredOnward(before, after, front[i].number, report);
      }
    }
  }

  predicate SameReading(a: ReportObject, b: ReportObject) {
    a.sourceKey == b.sourceKey && a.date == b.date && a.dayPart == b.dayPart
  }

  /** Two accepted rows for one facility, date and day part are one source row. */
  lemma AcceptedOncePerReading(job: Job, table: ReportTable, page: seq<PageRow>, i: nat, j: nat)
    requires JobSound(job) && job.status == Validating && Acceptable(job.owner.options.courseMappings)
    requires ValidatePage(job, table, page).Success? && i < |page| && j < |page|
    ensures var replies := ValidatePage(job, table, page).value.1;
            replies[i].Accepted? && replies[j].Accepted? && SameReading(replies[i].report, replies[j].report) ==>
              page[i].number == page[j].number && replies[i].report == replies[j].report
  {
    hide Acceptable, JobSound, ValidatePage, Reads, StoredAs, Identity, Grows;
    var (after, replies) := ValidatePage(job, table, page).value;
    if replies[i].Accepted? && replies[j].Accepted? && SameReading(replies[i].report, replies[j].report) {
      ValidatePageKeeps(job, table, page);
      AcceptedExactlyWhen(job, table, page, i, replies[i].report);
      AcceptedExactlyWhen(job, table, page, j, replies[j].report);
      StoredUnderItsIdentity(after, page[i].number, replies[i].report);
      StoredUnderItsIdentity(after, page[j].number, replies[j].report);
    }
  }

  /** Neither the job nor an earlier row of the page has the reading. */
  ghost predicate FirstOfItsReading(job: Job, page: seq<PageRow>, i: nat, report: ReportObject)
    requires i < |page| && Acceptable(job.owner.options.courseMappings)
  {
    && (forall id :: id in job.rows ==> !SameReading(job.rows[id].report, report))
    && (forall k :: 0 <= k < i && Normalized(job.owner.options, page[k]).Success? ==>
          !SameReading(Normalized(job.owner.options, page[k]).value, report))
  }

  lemma FreshRowIsStored(job: Job, table: ReportTable, row: PageRow, report: ReportObject)
    requires JobSound(job) && Acceptable(job.owner.options.courseMappings)
    requires Normalized(job.owner.options, row) == Success(report) && IdentityOf(report) !in job.rows
    requires ValidateRow(job, table, row).Success?
    ensures ValidateRow(job, table, row).value.1 == Accepted(row.number, report, report.caddies > report.groups)
  {
    hide Acceptable, JobSound, Normalized, IdentityOf, FacilitySnapshot, SlotsOf;
  }

  lemma {:induction false} ReplyStays(job: Job, table: ReportTable, page: seq<PageRow>, i: nat)
    requires Acceptable(job.owner.options.courseMappings) && ValidatePage(job, table, page).Success? && i < |page|
    ensures ValidatePage(job, table, page[..i]).Success? && ValidatePage(job, table, page[..i + 1]).Success?
    ensures ValidatePage(job, table, page).value.1[i] == ValidatePage(job, table, page[..i + 1]).value.1[i]
    decreases |page|
  {
    hide Acceptable, ValidateRow;
    var n := |page| - 1;
    assert page[..i + 1][..i] == page[..i];
    if i == n {
      assert page[..i + 1] == page;
    } else {
      ReplyStays(job, table, page[..n], i);
      assert page[..n][..i] == page[..i] && page[..n][..i + 1] == page[..i + 1];
    }
  }

  /** The first row of its reading is accepted. */
  lemma FirstRowIsAccepted(job: Job, table: ReportTable, page: seq<PageRow>, i: nat, report: ReportObject)
    requires JobSound(job) && job.status == Validating && Acceptable(job.owner.options.courseMappings)
    requires ValidatePage(job, table, page).Success? && i < |page|
    requires Reads(job.owner.options, page[i], report) && FirstOfItsReading(job, page, i, report)
    ensures ValidatePage(job, table, page).value.1[i]
            == Accepted(page[i].number, report, report.caddies > report.groups)
  {
    hide Acceptable, JobSound, ValidateRow, Reads, Normalized;
    NormalizedReads(job.owner.options, page[i], report);
    ReplyStays(job, table, page, i);
    var front := page[..i];
    assert page[..i + 1][..i] == front && page[..i + 1][i] == page[i];
    var before := ValidatePage(job, table, front).value.0;
    ValidatePageKeeps(job, table, front);
    NotYetStored(job, table, page, i, report);
    FreshRowIsStored(before, table, page[i], report);
  }

  lemma NotYetStored(job: Job, table: ReportTable, page: seq<PageRow>, i: nat, report: ReportObject)
    requires JobSound(job) && job.status == Validating && Acceptable(job.owner.options.courseMappings)
    requires i < |page| && ValidatePage(job, table, page[..i]).Success?
    requires Reads(job.owner.options, page[i], report) && FirstOfItsReading(job, page, i, report)
    ensures IdentityOf(report) !in ValidatePage(job, table, page[..i]).value.0.rows
  {
    hide Acceptable, ValidatePage, Normalized, Identity, FacilitiesSound, StatusSound, DistinctSlots, Reads,
         IsFacilityKey;
    var front := page[..i];
    var before := ValidatePage(job, table, front).value.0;
    ValidatePageKeeps(job, table, front);
    NormalizedReads(job.owner.options, page[i], report);
    NormalizedIsProduced(job.owner.options, page[i]);
    var id := IdentityOf(report);
    if id in before.rows {
      var stored := before.rows[id].report;
      IdentityInjective(stored.sourceKey, stored.date, stored.dayPart, report.sourceKey, report.date, report.dayPart);
      PageRowComesFrom(job, table, front, id);
    }
  }

  // ----- when a page breaks down -----

  /** A row of the page reads into a slot that another facility's stored row
      holds. */
  ghost predicate SlotTaken(job: Job, page: seq<PageRow>)
    requires Acceptable(job.owner.options.courseMappings)
  {
    exists i, id :: 0 <= i < |page| && id in job.rows && Contends(job, page[i], job.rows[id].report)
  }

  /** Two rows of the page, of different facilities, read into one slot. */
  ghost predicate SlotShared(job: Job, page: seq<PageRow>)
    requires Acceptable(job.owner.options.courseMappings)
  {
    exists i, j :: 0 <= i < |page| && 0 <= j < |page| && RowsContend(job, page[i], page[j])
  }

  /** The row reads as another facility's claim to the report's slot. */
  ghost predicate Contends(job: Job, row: PageRow, report: ReportObject)
    requires Acceptable(job.owner.options.courseMappings)
  {
    var read := Normalized(job.owner.options, row);
    read.Success? && read.value.sourceKey != report.sourceKey && SlotOf(read.value) == SlotOf(report)
  }

  ghost predicate RowsContend(job: Job, a: PageRow, b: PageRow)
    requires Acceptable(job.owner.options.courseMappings)
  {
    var read := Normalized(job.owner.options, b);
    read.Success? && Contends(job, a, read.value)
  }

  lemma StoredRowComesFrom(job: Job, table: ReportTable, row: PageRow, id: string)
    requires Acceptable(job.owner.options.courseMappings) && ValidateRow(job, table, row).Success?
    requires id in ValidateRow(job, table, row).value.0.rows
    ensures var stored := ValidateRow(job, table, row).value.0.rows[id];
            || (id in job.rows && stored == job.rows[id])
            || Normalized(job.owner.options, row) == Success(stored.report)
  {
    hide Normalized, Acceptable, FacilitySnapshot, IdentityOf, SlotsOf;
  }

  /** Every row of an answered page was there before, or is what a row of the
      page reads as. */
  lemma {:induction false} PageRowComesFrom(job: Job, table: ReportTable, page: seq<PageRow>, id: string)
    requires Acceptable(job.owner.options.courseMappings) && ValidatePage(job, table, page).Success?
    requires id in ValidatePage(job, table, page).value.0.rows
    ensures var stored := ValidatePage(job, table, page).value.0.rows[id];
            || (id in job.rows && stored == job.rows[id])
            || exists k :: 0 <= k < |page| && Normalized(job.owner.options, page[k]) == Success(stored.report)
  {
    hide Normalized, Acceptable, ValidateRow;
    if page != [] {
      var front, last := page[..|page| - 1], page[|page| - 1];
      var before := ValidatePage(job, table, front).value.0;
      StoredRowComesFrom(before, table, last, id);
      if id in before.rows {
        PageRowComesFrom(job, table, front, id);
        var stored := before.rows[id];
        if k :| 0 <= k < |front| && Normalized(job.owner.options, front[k]) == Success(stored.report) {
          assert page[k] == front[k];
        }
      }
    }
  }

  lemma SlotTakenOnward(job: Job, front: seq<PageRow>, last: PageRow)
    requires Acceptable(job.owner.options.courseMappings)
    ensures SlotTaken(job, front) ==> SlotTaken(job, front + [last])
    ensures SlotShared(job, front) ==> SlotShared(job, front + [last])
  {
    hide Acceptable, Contends, RowsContend;
    var page := front + [last];
    assert forall i :: 0 <= i < |front| ==> page[i] == front[i];
    if i, id :| 0 <= i < |front| && id in job.rows && Contends(job, front[i], job.rows[id].report) {
      assert Contends(job, page[i], job.rows[id].report);
    }
    if i, j :| 0 <= i < |front| && 0 <= j < |front| && RowsContend(job, front[i], front[j]) {
      assert RowsContend(job, page[i], page[j]);
    }
  }

  /** A row that collides after the front of its page contends with a stored row
      or with the front. */
  lemma CollisionIsContention(job: Job, table: ReportTable, front: seq<PageRow>, last: PageRow)
    requires Acceptable(job.owner.options.courseMappings) && ValidatePage(job, table, front).Success?
    requires Collides(ValidatePage(job, table, front).value.0, last)
    ensures SlotTaken(job, front + [last]) || SlotShared(job, front + [last])
  {
    hide Normalized, Acceptable, ValidatePage, IdentityOf;
    var page := front + [last];
    var before := ValidatePage(job, table, front).value.0;
    var read := Normalized(job.owner.options, last).value;
    var id :| id in before.rows && before.rows[id].report.sourceKey != read.sourceKey
              && SlotOf(before.rows[id].report) == SlotOf(read);
    PageRowComesFrom(job, table, front, id);
    assert page[|front|] == last;
    if id in job.rows && before.rows[id] == job.rows[id] {
      assert Contends(job, page[|front|], job.rows[id].report);
    } else {
      var k :| 0 <= k < |front| && Normalized(job.owner.options, front[k]) == Success(before.rows[id].report);
      assert page[k] == front[k];
      assert RowsContend(job, page[|front|], page[k]);
    }
  }

  lemma {:induction false} FailedPageContends(job: Job, table: ReportTable, page: seq<PageRow>)
    requires JobSound(job) && job.status == Validating && Acceptable(job.owner.options.courseMappings)
    requires ValidatePage(job, table, page).Failure?
    ensures SlotTaken(job, page) || SlotShared(job, page)
  {
    hide Acceptable, JobSound, ValidateRow, Collides, SlotTaken, SlotShared;
    var front, last := page[..|page| - 1], page[|page| - 1];
    assert page == front + [last];
    if ValidatePage(job, table, front).Failure? {
      FailedPageContends(job, table, front);
      SlotTakenOnward(job, front, last);
    } else {
      ValidatePageKeeps(job, table, front);
      ValidateFailsExactlyOnCollision(ValidatePage(job, table, front).value.0, table, last);
      CollisionIsContention(job, table, front, last);
    }
  }

  lemma TakenSlotBreaksPage(job: Job, table: ReportTable, page: seq<PageRow>)
    requires JobSound(job) && job.status == Validating && Acceptable(job.owner.options.courseMappings)
    requires SlotTaken(job, page)
    ensures ValidatePage(job, table, page).Failure?
  {
    hide Normalized, Acceptable, FacilitiesSound, Produced, StatusSound, IdentityOf, ValidatePage;
    var i, id :| 0 <= i < |page| && id in job.rows && Contends(job, page[i], job.rows[id].report);
    if ValidatePage(job, table, page).Success? {
      var after := ValidatePage(job, table, page).value.0;
      ValidatePageKeeps(job, table, page);
      AnsweredPageHolds(job, table, page, i);
      StoredReadingHasItsSlot(after, page[i]);
    }
  }

  /** A page fails as a whole if and only if one of its rows reads into a slot
      held by another facility's stored row, or two of its rows, of different
      facilities, read into one slot. */
  lemma PageFailsExactlyWhen(job: Job, table: ReportTable, page: seq<PageRow>)
    requires JobSound(job) && job.status == Validating && Acceptable(job.owner.options.courseMappings)
    ensures ValidatePage(job, table, page).Failure? <==> SlotTaken(job, page) || SlotShared(job, page)
    ensures ValidatePage(job, table, page).Failure? ==> ValidatePage(job, table, page) == Failure(Provider)
  {
    hide Normalized, Acceptable, JobSound, ValidatePage, SlotTaken;
    if ValidatePage(job, table, page).Failure? {
      FailedPageContends(job, table, page);
      PageFailsAsProvider(job, table, page);
    } else if SlotTaken(job, page) {
      TakenSlotBreaksPage(job, table, page);
    } else if i, j :| 0 <= i < |page| && 0 <= j < |page| && RowsContend(job, page[i], page[j]) {
      SharedBucketBreaksPage(job, table, page, i, j);
    }
  }

  // ----- runs -----

  datatype Event =
    | Call(request: Request, op: Operation, env: Environment)
    | Edit(tenant: string, table: ReportTable)

  /** One event: a request's transaction, or someone else rewriting a tenant's
      business rows. */
  ghost predicate Step(db: Database, event: Event, next: Database) {
    && Sound(db)
    && match event
       case Call(request, op, env) => next == Handle(db, request, op, env).1
       case Edit(tenant, table) => table.Valid() && next == db.(reports := db.reports[tenant := table])
  }

  ghost predicate Run(states: seq<Database>, events: seq<Event>) {
    && |states| == |events| + 1
    && states[0].jobs == map[] && Sound(states[0])
    && forall i :: 0 <= i < |events| ==> Step(states[i], events[i], states[i + 1])
  }

  /** Every event is possible in every state of a run, and leads to a sound state. */
  lemma StepKeepsSound(db: Database, event: Event, next: Database)
    requires Step(db, event, next)
    ensures Sound(next)
  {
    hide JobSound, Handle;
    if event.Call? {
      HandleKeepsSound(db, event.request, event.op, event.env);
    }
  }

  lemma RunIsSound(states: seq<Database>, events: seq<Event>, i: nat)
    requires Run(states, events) && i < |states|
    ensures Sound(states[i])
  {
    hide Sound;
    if i > 0 {
      assert Step(states[i - 1], events[i - 1], states[i]);
      StepKeepsSound(states[i - 1], events[i - 1], states[i]);
    }
  }

  /** At every point of a run a job holds one row for a facility, date and day
      part: the joined identity neither splits nor merges readings. */
  lemma OneRowPerReading(states: seq<Database>, events: seq<Event>, i: nat, key: JobKey, a: string, b: string)
    requires Run(states, events) && i < |states| && key in states[i].jobs
    requires a in states[i].jobs[key].rows && b in states[i].jobs[key].rows
    ensures var r, s := states[i].jobs[key].rows[a].report, states[i].jobs[key].rows[b].report;
            a == b <==> r.sourceKey == s.sourceKey && r.date == s.date && r.dayPart == s.dayPart
  {
    hide Step, Acceptable, FacilitiesSound, StatusSound, DistinctSlots, Identity;
    RunIsSound(states, events, i);
    var job := states[i].jobs[key];
    assert JobSound(job);
    assert a == IdentityOf(job.rows[a].report) && b == IdentityOf(job.rows[b].report);
  }

  // ----- what a call needs -----

  /** The request passes every check and read made before its transaction. A
      finish that sees no business rows also needs the running Field job's word
      and the legacy list. */
  predicate Admitted(request: Request, op: Operation, env: Environment) {
    && env.gate.None? && env.catalog.Success? && Linkable(request.owner.options.courseMappings, env.catalog.value)
    && (op.Finish? ==> env.SeedReads().Success?)
  }

  /** A call that changes anything passed every check in front of its transaction,
      maps facilities to active courses only, stays within the page limits and
      came from the owner of its job; it touches no other job. */
  lemma OnlyAdmittedCallsChange(db: Database, event: Event, next: Database)
    requires Step(db, event, next) && event.Call? && next != db
    ensures Admitted(event.request, event.op, event.env)
    ensures Acceptable(event.request.owner.options.courseMappings)
    ensures var entries := event.request.owner.options.courseMappings;
            forall raw :: raw in entries && Trim(entries[raw]) != "" ==>
              Trim(entries[raw]) in event.env.catalog.value
    ensures event.op.Validate? ==> |event.op.page| <= 500 && event.op.headers <= 256
    ensures event.request.key in db.jobs ==> db.jobs[event.request.key].owner == event.request.owner
    ensures forall key :: key != event.request.key ==>
              (key in next.jobs <==> key in db.jobs) && (key in db.jobs ==> next.jobs[key] == db.jobs[key])
  {
    hide JobSound, Acceptable, ValidatePage, Commit, AllStaged, Current, MappingsUsed, IdentityOf, Trim,
         Environment.SeedReads;
    TableIsValid(db, event.request.key.tenant);
  }

  /** A job becomes ready only by its owner's call that names the number of its
      rows, of which there are some, with a row for every mapped facility. */
  lemma OnlyFullValidationBecomesReady(db: Database, event: Event, next: Database, key: JobKey)
    requires Step(db, event, next)
    requires key in next.jobs && next.jobs[key].status == Ready
    requires !(key in db.jobs && db.jobs[key].status == Ready)
    ensures event.Call? && event.request.key == key && event.op.MakeReady?
    ensures key in db.jobs && db.jobs[key].status == Validating && next.jobs[key].rows == db.jobs[key].rows
    ensures event.op.total == |db.jobs[key].rows| > 0
    ensures forall raw :: raw in db.jobs[key].owner.options.courseMappings ==>
              exists id :: id in db.jobs[key].rows && db.jobs[key].rows[id].report.sourceKey == Key(raw)
  {
    hide JobSound, Acceptable, Linkable, ValidatePage, Commit, AllStaged, Current, IdentityOf, Environment.SeedReads;
    TableIsValid(db, key.tenant);
    if event.Call? && event.op.Validate? {
      ValidateKeepsStatus(db, event, next, key);
    }
  }

  lemma ValidateKeepsStatus(db: Database, event: Event, next: Database, key: JobKey)
    requires Step(db, event, next) && event.Call? && event.op.Validate? && key in next.jobs
    ensures next.jobs[key].status == if key in db.jobs then db.jobs[key].status else Validating
  {
    hide JobSound, Acceptable, Linkable, ValidatePage, Environment.SeedReads;
    TableIsValid(db, key.tenant);
    if next != db && event.request.key == key {
      var job := if key in db.jobs then db.jobs[key] else NewJob(event.request.owner);
      assert key in db.jobs ==> JobSound(db.jobs[key]);
      NewJobSound(event.request.owner);
      ValidatePageKeeps(job, db.Table(key.tenant), event.op.page);
      GrowsStatus(job, next.jobs[key]);
    }
  }

  /** A row becomes staged only by a call naming its number and its exact report
      while the job is ready and the running Field job agrees. */
  lemma OnlyTheConfirmedRowIsStaged(db: Database, event: Event, next: Database, key: JobKey, id: string)
    requires Step(db, event, next) && key in db.jobs && id in db.jobs[key].rows && !db.jobs[key].rows[id].staged
    requires key in next.jobs && id in next.jobs[key].rows && next.jobs[key].rows[id].staged
    ensures event.Call? && event.request.key == key && event.op.Stage? && event.env.check.None?
    ensures db.jobs[key].status == Ready
    ensures event.op.number == db.jobs[key].rows[id].number && event.op.report == db.jobs[key].rows[id].report
  {
    hide JobSound, Acceptable, Linkable, ValidatePage, Commit, AllStaged, Current, MappingsUsed, Identity,
         Environment.SeedReads;
    TableIsValid(db, key.tenant);
    var job := db.jobs[key];
    JobAcceptable(job);
    if event.Call? && event.op.Validate? && event.request.key == key && job.status == Validating {
      ValidatePageKeeps(job, db.Table(key.tenant), event.op.page);
    }
  }

  // ----- how one job moves -----

  function Rank(status: Status): nat {
    match status
    case Validating => 0
    case Ready => 1
    case Committed => 2
  }

  /** The same rows but for their staged flags, which only rise. */
  ghost predicate RowsKept(before: ImportRows, after: ImportRows) {
    forall id :: id in before ==>
                   && id in after
                   && after[id].number == before[id].number
                   && after[id].report == before[id].report
                   && (before[id].staged ==> after[id].staged)
  }

  ghost predicate FacilitiesKept(before: map<string, Facility>, after: map<string, Facility>) {
    forall key :: key in before ==> key in after && after[key] == before[key]
  }

  /** What a job can become: the owner is pinned, the status only advances,
      stored rows and snapshots stay, the row set is frozen from `Ready` on, and
      a committed job is final. */
  ghost predicate Leads(before: Job, after: Job) {
    && after.owner == before.owner
    && Rank(before.status) <= Rank(after.status)
    && RowsKept(before.rows, after.rows)
    && FacilitiesKept(before.facilities, after.facilities)
    && (before.status != Validating ==>
          after.rows.Keys == before.rows.Keys && after.facilities == before.facilities)
    && (before.status == Committed ==> after == before)
  }

  lemma LeadsOnward(a: Job, b: Job, c: Job)
    requires Leads(a, b) && Leads(b, c)
    ensures Leads(a, c)
  {
  }

  lemma GrowsLeads(job: Job, after: Job)
    requires Grows(job, after) && job.status == Validating
    ensures Leads(job, after)
  {
  }

  lemma StatusLeads(job: Job, after: Job)
    requires after == job.(status := after.status, receipt := after.receipt)
    requires Rank(job.status) <= Rank(after.status) && (job.status == Committed ==> after == job)
    ensures Leads(job, after)
  {
  }

  lemma StagingLeads(job: Job, id: string)
    requires job.status == Ready && id in job.rows
    ensures Leads(job, job.(rows := job.rows[id := job.rows[id].(staged := true)]))
  {
  }

  lemma OperateLeads(request: Request, job: Job, table: ReportTable, op: Operation, env: Environment)
    requires table.Valid() && JobSound(job) && Acceptable(job.owner.options.courseMappings)
    requires Operate(request, job, table, op, env).Success?
    ensures Leads(job, Operate(request, job, table, op, env).value.0)
  {
    hide ValidatePage, Commit, JobSound, Acceptable, IdentityOf, FacilitySnapshot, MappingsUsed, Current, AllStaged,
         Leads, Grows, Environment.LegacyRows;
    var after := Operate(request, job, table, op, env).value.0;
    match op
    case Validate(headers, page) =>
      ValidatePageKeeps(job, table, page);
      GrowsLeads(job, after);
    case MakeReady(total) =>
      StatusLeads(job, after);
    case Stage(number, report) =>
      if job.status == Ready {
        StagingLeads(job, IdentityOf(report));
      } else {
        StatusLeads(job, after);
      }
    case Finish(total, now) =>
      StatusLeads(job, after);
  }

  lemma StepLeads(db: Database, event: Event, next: Database, key: JobKey)
    requires Step(db, event, next) && key in db.jobs
    ensures key in next.jobs && Leads(db.jobs[key], next.jobs[key])
  {
    hide Operate, Leads, JobSound, Acceptable, Linkable;
    SelfLeads(db.jobs[key]);
    if event.Call? && event.request.key == key && next != db {
      var job := db.jobs[key];
      var table := db.Table(key.tenant);
      TableIsValid(db, key.tenant);
      JobAcceptable(job);
      OperateLeads(event.request, job, table, event.op, event.env);
    }
  }

  lemma SelfLeads(job: Job)
    ensures Leads(job, job)
  {
  }

  /** Over any stretch of a run a job only moves forward. */
  lemma {:induction false} RunLeads(states: seq<Database>, events: seq<Event>, i: nat, j: nat, key: JobKey)
    requires Run(states, events) && i <= j < |states| && key in states[i].jobs
    ensures key in states[j].jobs && Leads(states[i].jobs[key], states[j].jobs[key])
    decreases j
  {
    hide Leads, Step, Sound;
    if i == j {
      SelfLeads(states[i].jobs[key]);
    } else {
      RunLeads(states, events, i, j - 1, key);
      StepLeads(states[j - 1], events[j - 1], states[j], key);
      LeadsOnward(states[i].jobs[key], states[j - 1].jobs[key], states[j].jobs[key]);
    }
  }

  // ----- committing -----

  ghost predicate CommittedIn(db: Database, key: JobKey) {
    key in db.jobs && db.jobs[key].status == Committed
  }

  /** The event is the job's own finish, met with everything it requires: the
      job was ready, every row staged, and every snapshot still current. */
  ghost predicate CommitStep(db: Database, event: Event, next: Database, key: JobKey)
    requires Sound(db)
  {
    && event.Call? && event.request.key == key && event.op.Finish?
    && key in db.jobs && key in next.jobs
    && var job, done := db.jobs[key], next.jobs[key];
    && var table := db.Table(key.tenant);
    && event.request.owner == job.owner && Admitted(event.request, event.op, event.env) && event.env.check.None?
    && job.status == Ready && done.status == Committed
    && |job.rows| == event.op.total > 0 && AllStaged(job.rows)
    && Current(table, job.facilities)
    && done.rows == job.rows && done.facilities == job.facilities
    && (TableIsValid(db, key.tenant);
        var (replaced, summary) := Commit(table, event.env.LegacyRows(), job.rows, job.owner.source, event.op.now);
        && next.reports == db.reports[key.tenant := replaced]
        && done.receipt == Some(Receipt(summary, key.id, job.owner.actor, job.owner.subject, job.owner.source)))
    && next.jobs == db.jobs[key := done]
  }

  lemma OnlyFinishCommits(db: Database, event: Event, next: Database, key: JobKey)
    requires Step(db, event, next) && !CommittedIn(db, key) && CommittedIn(next, key)
    ensures CommitStep(db, event, next, key)
  {
    hide JobSound, Acceptable, Linkable, ValidatePage, Commit, AllStaged, Current, MappingsUsed, IdentityOf;
    TableIsValid(db, key.tenant);
    var job := if key in db.jobs then db.jobs[key] else NewJob(event.request.owner);
    if event.op.Validate? {
      if key in db.jobs {
        assert JobSound(db.jobs[key]);
        JobAcceptable(db.jobs[key]);
      } else {
        NewJobSound(event.request.owner);
      }
      ValidatePageKeeps(job, db.Table(key.tenant), event.op.page);
    }
  }

  /** A job commits at most once, only from ready, only by its own finish, and
      from then on its record never changes. */
  lemma CommitsOnceFromReady(states: seq<Database>, events: seq<Event>, i: nat, j: nat, key: JobKey)
    requires Run(states, events) && i < j < |states|
    requires !CommittedIn(states[i], key) && CommittedIn(states[i + 1], key)
    ensures Sound(states[i]) && CommitStep(states[i], events[i], states[i + 1], key)
    ensures key in states[j].jobs && states[j].jobs[key] == states[i + 1].jobs[key]
    ensures forall k :: i < k < |events| ==> !(!CommittedIn(states[k], key) && CommittedIn(states[k + 1], key))
  {
    hide Step, CommitStep, Sound;
    RunIsSound(states, events, i);
    assert Step(states[i], events[i], states[i + 1]);
    OnlyFinishCommits(states[i], events[i], states[i + 1], key);
    forall k | i < k < |states| ensures key in states[k].jobs && states[k].jobs[key] == states[i + 1].jobs[key] {
      RunLeads(states, events, i + 1, k, key);
    }
  }

  /** The rows that commit are the rows frozen when the job became ready. */
  lemma CommitsTheFrozenRows(states: seq<Database>, events: seq<Event>, r: nat, i: nat, key: JobKey)
    requires Run(states, events) && r <= i < |events|
    requires key in states[r].jobs && states[r].jobs[key].status == Ready
    requires !CommittedIn(states[i], key) && CommittedIn(states[i + 1], key)
    ensures key in states[i + 1].jobs
    ensures var frozen, committed := states[r].jobs[key].rows, states[i + 1].jobs[key].rows;
            && committed.Keys == frozen.Keys
            && (forall id :: id in frozen ==>
                  committed[id].number == frozen[id].number && committed[id].report == frozen[id].report)
            && (forall id :: id in committed ==> committed[id].staged)
  {
    hide Step, Sound;
    RunLeads(states, events, r, i + 1, key);
    CommitsOnceFromReady(states, events, i, i + 1, key);
  }

  // ----- snapshots -----

  /** The step at which a facility entered its job, with the snapshot taken of
      the business rows as they were then. */
  ghost predicate FirstValidated(db: Database, next: Database, key: JobKey, source: string) {
    && !(key in db.jobs && source in db.jobs[key].facilities)
    && key in next.jobs && source in next.jobs[key].facilities
    && var facility := next.jobs[key].facilities[source];
       facility.before == FacilitySnapshot(db.Table(key.tenant), source, facility.bucket)
  }

  lemma {:induction false} PageSnapshots(job: Job, table: ReportTable, page: seq<PageRow>, source: string)
    requires Acceptable(job.owner.options.courseMappings) && ValidatePage(job, table, page).Success?
    requires source in ValidatePage(job, table, page).value.0.facilities && source !in job.facilities
    ensures var facility := ValidatePage(job, table, page).value.0.facilities[source];
            facility.before == FacilitySnapshot(table, source, facility.bucket)
  {
    hide Normalized, IdentityOf, FacilitySnapshot, InsertRow, Acceptable;
    var front := page[..|page| - 1];
    if source in ValidatePage(job, table, front).value.0.facilities {
      PageSnapshots(job, table, front, source);
    }
  }

  lemma StepSnapshots(db: Database, event: Event, next: Database, key: JobKey, source: string)
    requires Step(db, event, next)
    requires !(key in db.jobs && source in db.jobs[key].facilities)
    requires key in next.jobs && source in next.jobs[key].facilities
    ensures FirstValidated(db, next, key, source)
  {
    hide JobSound, Acceptable, Linkable, ValidatePage, Commit, AllStaged, Current, MappingsUsed, IdentityOf,
         FacilitySnapshot;
    TableIsValid(db, key.tenant);
    var job := if key in db.jobs then db.jobs[key] else NewJob(event.request.owner);
    if key in db.jobs {
      assert JobSound(db.jobs[key]);
      JobAcceptable(db.jobs[key]);
    }
    assert event.op.Validate?;
    PageSnapshots(job, db.Table(key.tenant), event.op.page, source);
  }

  /** Every snapshot a job holds was taken of the real rows at one step of the
      run, the one that first validated the facility. */
  lemma {:induction false} SnapshotWasTaken(states: seq<Database>, events: seq<Event>, n: nat, key: JobKey,
                                            source: string)
    returns (v: nat)
    requires Run(states, events) && n < |states|
    requires key in states[n].jobs && source in states[n].jobs[key].facilities
    ensures v < n && FirstValidated(states[v], states[v + 1], key, source)
    ensures states[v + 1].jobs[key].facilities[source] == states[n].jobs[key].facilities[source]
  {
    hide Step, Sound, FirstValidated, FacilitySnapshot;
    assert n > 0;
    if key in states[n - 1].jobs && source in states[n - 1].jobs[key].facilities {
      v := SnapshotWasTaken(states, events, n - 1, key, source);
      RunLeads(states, events, n - 1, n, key);
    } else {
      v := n - 1;
      assert Step(states[v], events[v], states[v + 1]);
      StepSnapshots(states[v], events[v], states[v + 1], key, source);
    }
  }

  /** Optimistic concurrency: when a job commits, every facility's rows are
      exactly what its own first validation saw. */
  lemma CommitSeesWhatValidationSaw(states: seq<Database>, events: seq<Event>, i: nat, key: JobKey, source: string)
    returns (v: nat)
    requires Run(states, events) && i < |events|
    requires !CommittedIn(states[i], key) && CommittedIn(states[i + 1], key)
    requires source in states[i + 1].jobs[key].facilities
    ensures v < i && FirstValidated(states[v], states[v + 1], key, source)
    ensures var bucket := states[i + 1].jobs[key].facilities[source].bucket;
            FacilitySnapshot(states[i].Table(key.tenant), source, bucket)
            == FacilitySnapshot(states[v].Table(key.tenant), source, bucket)
  {
    hide Step, Sound, FacilitySnapshot;
    CommitsOnceFromReady(states, events, i, i + 1, key);
    v := SnapshotWasTaken(states, events, i, key, source);
  }

  /** A ready job whose preview went stale, in any facility, cannot finish: the
      call changes nothing, and when nothing else is wrong it is a conflict. */
  lemma StalePreviewConflicts(states: seq<Database>, events: seq<Event>, v: nat, n: nat, key: JobKey, source: string,
                              request: Request, op: Operation, env: Environment)
    requires Run(states, events) && v < n < |states| && request.key == key && op.Finish?
    requires FirstValidated(states[v], states[v + 1], key, source)
    requires !CommittedIn(states[n], key)
    requires var bucket := states[v + 1].jobs[key].facilities[source].bucket;
             FacilitySnapshot(states[n].Table(key.tenant), source, bucket)
             != FacilitySnapshot(states[v].Table(key.tenant), source, bucket)
    ensures Sound(states[n]) && key in states[n].jobs
    ensures var (result, after) := Handle(states[n], request, op, env);
            && after == states[n] && result.Failure?
            && (Admitted(request, op, env) && env.check.None? && op.total > 0
                && request.owner == states[n].jobs[key].owner
                ==> result == Failure(Conflict))
  {
    hide Step, FacilitySnapshot, JobSound, Acceptable, Linkable;
    RunIsSound(states, events, n);
    RunLeads(states, events, v + 1, n, key);
    var job := states[n].jobs[key];
    JobAcceptable(job);
    TableIsValid(states[n], key.tenant);
    assert !Current(states[n].Table(key.tenant), job.facilities);
  }

  // ----- what a commit may touch -----

  /** Every stored row is listed in the snapshot of one of the job's facilities:
      the footprint of the rows is the footprint of the facilities. */
  lemma TouchedWasPreviewed(job: Job, table: ReportTable, id: nat)
    requires JobSound(job) && Current(table, job.facilities)
    requires id in table.rows && Touched(table.rows[id], job.rows)
    ensures exists source :: source in job.facilities && table.rows[id] in job.facilities[source].before
  {
    hide Produced, IdentityOf, FacilitySnapshot, StatusSound, IsFacilityKey, DistinctSlots;
    var row := table.rows[id];
    var k :| k in job.rows && InFootprint(row, job.rows[k].report.sourceKey, job.rows[k].report.bucket);
    var source := job.rows[k].report.sourceKey;
    RowBucketIsFacilityBucket(job, k);
    SnapshotCovers(table, source, job.facilities[source].bucket, row);
  }

  /** Each facility has one bucket for the whole job. */
  lemma RowBucketIsFacilityBucket(job: Job, id: string)
    requires JobSound(job) && id in job.rows
    ensures var report := job.rows[id].report;
            report.sourceKey in job.facilities && job.facilities[report.sourceKey].bucket == report.bucket
  {
    hide StatusSound, IdentityOf, IsFacilityKey, DistinctSlots, Acceptable, BucketOf;
  }

  /** A commit replaces only what the operator previewed: any business row it
      changed or removed is listed in a compared snapshot, any row it added is
      an imported or a legacy row, and other tenants keep everything. */
  lemma CommitReplacesOnlyThePreview(db: Database, event: Event, next: Database, key: JobKey, id: nat)
    requires Step(db, event, next) && CommitStep(db, event, next, key)
    ensures var job, before, after := db.jobs[key], db.Table(key.tenant), next.Table(key.tenant);
            && (id in before.rows && !(id in after.rows && after.rows[id] == before.rows[id]) ==>
                  exists source :: source in job.facilities && before.rows[id] in job.facilities[source].before)
            && (id in after.rows && !(id in before.rows && after.rows[id] == before.rows[id]) ==>
                  || after.rows[id] in event.env.LegacyRows()
                  || exists k :: k in job.rows
                       && Holds(after.rows[id], job.rows[k].report, job.owner.source))
    ensures forall tenant :: tenant != key.tenant ==> next.Table(tenant) == db.Table(tenant)
  {
    hide Handle, Commit, FacilitySnapshot, StatusSound, FacilitiesSound, Produced, Current, Holds, Touched,
         AllStaged;
    var job, before := db.jobs[key], db.Table(key.tenant);
    TableIsValid(db, key.tenant);
    assert JobSound(job);
    CommitStaysInFootprint(before, event.env.LegacyRows(), job.rows, job.owner.source, event.op.now, id);
    if id in before.rows && Touched(before.rows[id], job.rows) {
      TouchedWasPreviewed(job, before, id);
    }
    if id in next.Table(key.tenant).rows {
      CommitAddsImportedRows(before, event.env.LegacyRows(), job.rows, job.owner.source, event.op.now, id);
    }
  }

  /** Only a commit or an outside edit changes business rows. */
  lemma OnlyCommitsWriteReports(db: Database, event: Event, next: Database)
    requires Step(db, event, next) && event.Call? && next.reports != db.reports
    ensures CommitStep(db, event, next, event.request.key)
  {
    hide JobSound, Acceptable, Linkable, ValidatePage, Commit, AllStaged, Current, MappingsUsed, IdentityOf;
    var key := event.request.key;
    TableIsValid(db, key.tenant);
  }

  /** A refused request leaves every table as it was. */
  lemma ErrorsRollBack(db: Database, request: Request, op: Operation, env: Environment)
    requires Sound(db) && Handle(db, request, op, env).0.Failure?
    ensures Handle(db, request, op, env).1 == db
  {
    hide JobSound, Acceptable, Linkable, Operate;
  }

  // ----- receipts and resubmission over runs -----

  /** After a commit a finish never changes anything, and answers the stored
      receipt if and only if its owner is the pinned one, its permission checks
      pass, and, when the early look-up came too soon, so does everything else in
      front of the transaction: the catalog, and for a finish that sees no
      business rows the running job and the legacy list. What became of the
      business rows does not matter. A different subject, actor, source or
      options is refused. */
  lemma ReceiptReplays(states: seq<Database>, events: seq<Event>, i: nat, j: nat, key: JobKey, request: Request,
                       op: Operation, env: Environment)
    requires Run(states, events) && i <= j < |states| && CommittedIn(states[i], key)
    requires request.key == key && op.Finish?
    ensures Sound(states[j])
    ensures var (result, after) := Handle(states[j], request, op, env);
            var job := states[i].jobs[key];
            && after == states[j] && job.receipt.Some?
            && (result.Success? <==>
                  request.owner == job.owner && env.gate.None? && (env.lookedTooEarly ==> Admitted(request, op, env)))
            && (result.Success? ==> result.value == ReceiptReply(job.receipt))
            && (request.owner != job.owner && env.gate.None?
                && (env.lookedTooEarly ==>
                      Admitted(request, op, env) && Acceptable(request.owner.options.courseMappings))
                ==> result == Failure(Forbidden))
  {
    hide Step, Acceptable, Linkable, FacilitiesSound, RowsSound, AllStaged, Environment.SeedReads;
    RunLeads(states, events, i, j, key);
    RunIsSound(states, events, j);
    var job := states[j].jobs[key];
    assert JobSound(job);
    JobAcceptable(job);
    TableIsValid(states[j], key.tenant);
    assert states[j].jobs[key := job] == states[j].jobs;
  }

  /** Making ready and staging can be repeated: the same call, answered once, is
      answered the same and changes nothing the second time. */
  lemma RepeatChangesNothing(db: Database, request: Request, op: Operation, env: Environment)
    requires Sound(db) && (op.MakeReady? || op.Stage?) && Handle(db, request, op, env).0.Success?
    ensures var (result, after) := Handle(db, request, op, env);
            Sound(after) && Handle(after, request, op, env) == (result, after)
  {
    hide JobSound, Acceptable, Linkable, IdentityOf, Environment.SeedReads;
    HandleKeepsSound(db, request, op, env);
    var after := Handle(db, request, op, env).1;
    TableIsValid(db, request.key.tenant);
    TableIsValid(after, request.key.tenant);
    var job := after.jobs[request.key];
    if op.Stage? && job.status == Ready {
      var id := IdentityOf(op.report);
      assert job.rows[id := job.rows[id].(staged := true)] == job.rows;
    }
    assert after.jobs[request.key := job] == after.jobs;
  }

  lemma StillValidatingGrows(before: Job, after: Job)
    requires Leads(before, after) && JobSound(before) && JobSound(after)
    requires after.status == Validating
    ensures Grows(before, after)
  {
    hide Produced, IdentityOf, FacilitiesSound, DistinctSlots;
  }

  /** A page accepted once is answered the same way, and changes nothing, in
      every later state in which the job is still validating. */
  lemma ResubmittedPageChangesNothing(states: seq<Database>, events: seq<Event>, i: nat, j: nat, key: JobKey,
                                      headers: nat, page: seq<PageRow>, again: Environment)
    requires Run(states, events) && i < j < |states|
    requires events[i].Call? && events[i].request.key == key && events[i].op == Validate(headers, page)
    requires Sound(states[i]) && Handle(states[i], events[i].request, events[i].op, events[i].env).0.Success?
    requires key in states[j].jobs && states[j].jobs[key].status == Validating
    requires Admitted(events[i].request, events[i].op, again)
    ensures Sound(states[j])
    ensures Handle(states[j], events[i].request, events[i].op, again)
            == (Handle(states[i], events[i].request, events[i].op, events[i].env).0, states[j])
  {
    hide JobSound, Acceptable, Linkable, ValidatePage, Leads, Grows, Step;
    RunIsSound(states, events, j);
    RunIsSound(states, events, i + 1);
    assert Step(states[i], events[i], states[i + 1]);
    var request := events[i].request;
    var job := if key in states[i].jobs then states[i].jobs[key] else NewJob(request.owner);
    var later := states[j].jobs[key];
    AcceptedPage(states[i], events[i], states[i + 1], key);
    RunLeads(states, events, i + 1, j, key);
    LeadsOwner(states[i + 1].jobs[key], later);
    StillValidatingGrows(states[i + 1].jobs[key], later);
    TableIsValid(states[i], key.tenant);
    TableIsValid(states[j], key.tenant);
    ResubmitPage(job, states[i].Table(key.tenant), page, later, states[j].Table(key.tenant));
    assert states[j].jobs[key := later] == states[j].jobs;
  }

  lemma LeadsOwner(before: Job, after: Job)
    requires Leads(before, after)
    ensures after.owner == before.owner
  {
  }

  lemma AcceptedPage(db: Database, event: Event, next: Database, key: JobKey)
    requires Step(db, event, next) && event.Call? && event.request.key == key && event.op.Validate?
    requires Handle(db, event.request, event.op, event.env).0.Success?
    ensures Acceptable(event.request.owner.options.courseMappings)
    ensures var job := if key in db.jobs then db.jobs[key] else NewJob(event.request.owner);
            && job.owner == event.request.owner
            && ValidatePage(job, db.Table(key.tenant), event.op.page).Success?
            && key in next.jobs && next.jobs[key] == ValidatePage(job, db.Table(key.tenant), event.op.page).value.0
            && Handle(db, event.request, event.op, event.env).0
               == Success(PageReply(ValidatePage(job, db.Table(key.tenant), event.op.page).value.1))
            && |event.op.page| <= MAX_ROWS && event.op.headers <= MAX_HEADERS
  {
    hide JobSound, Acceptable, Linkable, ValidatePage;
    TableIsValid(db, key.tenant);
  }
}
