/** What a commit writes: legacy seeding, removal of the facility's stale rows,
    and the upsert of every validated row. */
module ReportCommit {
  import opened Wrappers
  import opened Orders
  import opened ReportTables

  const SOURCE_SYSTEM := "daily_reservation_status_xlsx"
  const PAGE_LIMIT: nat := 100

  datatype ReportObject = ReportObject(
    sourceKey: string,
    sourceName: string,
    bucket: string,
    courseId: Option<string>,
    date: string,
    dayPart: string,
    groups: nat,
    caddies: nat)

  datatype ImportRow = ImportRow(number: nat, report: ReportObject, staged: bool)

  type ImportRows = map<string, ImportRow>

  datatype Summary = Summary(createdCount: nat, updatedCount: nat, unchangedCount: nat)

  function SlotOf(report: ReportObject): SlotKey {
    SlotKey(report.bucket, report.date, report.dayPart)
  }

  /** `uq_common_import_bucket`: one validated row per slot. */
  ghost predicate DistinctSlots(rows: ImportRows) {
    forall i, j :: i in rows && j in rows && SlotOf(rows[i].report) == SlotOf(rows[j].report) ==> i == j
  }

  function SlotsOf(rows: ImportRows): set<SlotKey> {
    set id | id in rows :: SlotOf(rows[id].report)
  }

  function SourcesOf(rows: ImportRows): set<string> {
    set id | id in rows :: rows[id].report.sourceKey
  }

  function ToReport(report: ReportObject, sha: string, now: int): ReportRow {
    ReportRow(report.bucket, report.courseId, SOURCE_SYSTEM, report.sourceKey, report.sourceName,
              report.date, report.dayPart, report.groups, report.caddies, sha, now)
  }

  /** Same answer for the slot, whatever the timestamp. */
  predicate Matches(prior: ReportRow, row: ReportRow) {
    && prior.sourceSystem == row.sourceSystem
    && prior.sourceKey == row.sourceKey
    && prior.sourceName == row.sourceName
    && prior.courseId == row.courseId
    && prior.date == row.date
    && prior.dayPart == row.dayPart
    && prior.groups == row.groups
    && prior.caddies == row.caddies
    && prior.sha == row.sha
  }

  // ----- the table by slot -----

  function FindSlot(table: ReportTable, slot: SlotKey): (found: Option<nat>)
    requires table.Valid()
    ensures found.Some? ==> found.value in table.rows && KeyOf(table.rows[found.value]) == slot
    ensures found.None? ==> forall id :: id in table.rows ==> KeyOf(table.rows[id]) != slot
  {
    if exists id :: id in table.rows && KeyOf(table.rows[id]) == slot then
      assert Unfold(0);
      var id :| id in table.rows && KeyOf(table.rows[id]) == slot;
      Some(id)
    else
      None
  }

  /** The row a slot holds. */
  function RowAt(table: ReportTable, slot: SlotKey): Option<ReportRow>
    requires table.Valid()
  {
    match FindSlot(table, slot)
    case None => None
    case Some(id) => Some(table.rows[id])
  }

  lemma StoredAt(table: ReportTable, id: nat)
    requires table.Valid() && id in table.rows
    ensures FindSlot(table, KeyOf(table.rows[id])) == Some(id)
    ensures RowAt(table, KeyOf(table.rows[id])) == Some(table.rows[id])
  {
    SlotUnique(table, id, FindSlot(table, KeyOf(table.rows[id])).value);
  }

  // ----- the three writes -----

  function Insert(table: ReportTable, row: ReportRow): ReportTable {
    ReportTable(table.rows[table.next := row], table.next + 1)
  }

  /** `INSERT ... ON DUPLICATE KEY UPDATE` of every non-key column. */
  function Upsert(table: ReportTable, row: ReportRow): (result: ReportTable)
    requires table.Valid()
    ensures result.Valid()
  {
    match FindSlot(table, KeyOf(row))
    case Some(id) => table.(rows := table.rows[id := row])
    case None => Insert(table, row)
  }

  lemma UpsertAt(table: ReportTable, row: ReportRow, slot: SlotKey)
    requires table.Valid()
    ensures RowAt(Upsert(table, row), slot) == if slot == KeyOf(row) then Some(row) else RowAt(table, slot)
  {
    var result := Upsert(table, row);
    var at := FindSlot(table, KeyOf(row)).GetOr(table.next);
    assert result.rows == table.rows[at := row];
    PositiveIds(table, {});
    StoredAt(result, at);
    if slot != KeyOf(row) {
      match FindSlot(table, slot)
      case Some(id) => StoredAt(result, id);
      case None =>
    }
  }

  /** `INSERT ... ON DUPLICATE KEY UPDATE id=id` of the legacy copy. */
  function Seed(table: ReportTable, legacy: seq<ReportRow>): (result: ReportTable)
    requires table.Valid()
    ensures result.Valid()
  {
    if legacy == [] then table
    else
      var before := Seed(table, legacy[..|legacy| - 1]);
      var row := legacy[|legacy| - 1];
      if FindSlot(before, KeyOf(row)).Some? then before else Insert(before, row)
  }

  /** The first legacy row for a slot. */
  function FirstLegacy(legacy: seq<ReportRow>, slot: SlotKey): Option<ReportRow> {
    if legacy == [] then None
    else
      var earlier := FirstLegacy(legacy[..|legacy| - 1], slot);
      var last := legacy[|legacy| - 1];
      if earlier.None? && KeyOf(last) == slot then Some(last) else earlier
  }

  /** What the import finds in a slot: the stored row, else the first legacy one. */
  function PriorRow(table: ReportTable, legacy: seq<ReportRow>, slot: SlotKey): Option<ReportRow>
    requires table.Valid()
  {
    var stored := RowAt(table, slot);
    if stored.Some? then stored else FirstLegacy(legacy, slot)
  }

  /** Seeding, slot by slot. */
  lemma {:induction false} SeedAt(table: ReportTable, legacy: seq<ReportRow>, slot: SlotKey)
    requires table.Valid()
    ensures RowAt(Seed(table, legacy), slot) == PriorRow(table, legacy, slot)
  {
    if legacy != [] {
      var front, last := legacy[..|legacy| - 1], legacy[|legacy| - 1];
      var before := Seed(table, front);
      SeedAt(table, front, slot);
      if FindSlot(before, KeyOf(last)).None? {
        UpsertAt(before, last, slot);
      }
    }
  }

  /** Rows of an imported facility that the import does not rewrite. */
  function StaleIds(table: ReportTable, rows: ImportRows): set<nat> {
    set id | id in table.rows && table.rows[id].sourceKey in SourcesOf(rows)
             && KeyOf(table.rows[id]) !in SlotsOf(rows)
  }

  function Without(table: ReportTable, ids: set<nat>): (result: ReportTable)
    requires table.Valid()
    ensures result.Valid()
  {
    table.(rows := table.rows - ids)
  }

  /** The row a write leaves in its slot, and how the receipt counts it. */
  function Settle(table: ReportTable, row: ReportRow, summary: Summary): (ReportRow, Summary)
    requires table.Valid()
  {
    match FindSlot(table, KeyOf(row))
    case None => (row, summary.(createdCount := summary.createdCount + 1))
    case Some(id) =>
      if Matches(table.rows[id], row) then
        (row.(updated := table.rows[id].updated), summary.(unchangedCount := summary.unchangedCount + 1))
      else
        (row, summary.(updatedCount := summary.updatedCount + 1))
  }

  /** Write the rows listed in `q`, one at a time. */
  function WriteAll(table: ReportTable, rows: ImportRows, q: seq<string>, sha: string, now: int)
    : (result: (ReportTable, Summary))
    requires table.Valid() && forall id :: id in q ==> id in rows
    ensures result.0.Valid()
  {
    if q == [] then (table, Summary(0, 0, 0))
    else
      var last := q[|q| - 1];
      var (before, summary) := WriteAll(table, rows, q[..|q| - 1], sha, now);
      var (row, counted) := Settle(before, ToReport(rows[last].report, sha, now), summary);
      (Upsert(before, row), counted)
  }

  /** The whole commit. */
  function Commit(table: ReportTable, legacy: seq<ReportRow>, rows: ImportRows, sha: string, now: int)
    : (ReportTable, Summary)
    requires table.Valid()
  {
    var seeded := Seed(table, legacy);
    WriteAll(Without(seeded, StaleIds(seeded, rows)), rows, InKeyOrder(rows.Keys), sha, now)
  }

  // ----- what the writes mean, slot by slot -----

  function SettledRow(prior: Option<ReportRow>, row: ReportRow): ReportRow {
    if prior.Some? && Matches(prior.value, row) then row.(updated := prior.value.updated) else row
  }

  ghost predicate Listed(rows: ImportRows, q: seq<string>) {
    && (forall id :: id in q ==> id in rows)
    && (forall i, j :: 0 <= i < j < |q| ==> q[i] != q[j])
  }

  ghost predicate Writes(rows: ImportRows, q: seq<string>, slot: SlotKey) {
    exists id :: id in q && id in rows && SlotOf(rows[id].report) == slot
  }

  lemma FrontListed(rows: ImportRows, q: seq<string>)
    requires Listed(rows, q) && q != []
    ensures Listed(rows, q[..|q| - 1]) && q[|q| - 1] !in q[..|q| - 1] && q[|q| - 1] in rows
    ensures forall id :: id in q <==> id in q[..|q| - 1] || id == q[|q| - 1]
  {
    assert q == q[..|q| - 1] + [q[|q| - 1]];
  }

  lemma {:induction false} WriteAllLeaves(table: ReportTable, rows: ImportRows, q: seq<string>, sha: string, now: int,
                                          slot: SlotKey)
    requires table.Valid() && Listed(rows, q) && !Writes(rows, q, slot)
    ensures RowAt(WriteAll(table, rows, q, sha, now).0, slot) == RowAt(table, slot)
  {
    if q != [] {
      FrontListed(rows, q);
      var front, last := q[..|q| - 1], q[|q| - 1];
      WriteAllLeaves(table, rows, front, sha, now, slot);
      var (before, summary) := WriteAll(table, rows, front, sha, now);
      var (row, counted) := Settle(before, ToReport(rows[last].report, sha, now), summary);
      UpsertAt(before, row, slot);
      assert SlotOf(rows[last].report) != slot;
    }
  }

  lemma {:induction false} WriteAllStores(table: ReportTable, rows: ImportRows, q: seq<string>, sha: string, now: int,
                                          id: string)
    requires table.Valid() && DistinctSlots(rows) && Listed(rows, q) && id in q
    ensures var slot := SlotOf(rows[id].report);
            RowAt(WriteAll(table, rows, q, sha, now).0, slot)
            == Some(SettledRow(RowAt(table, slot), ToReport(rows[id].report, sha, now)))
  {
    FrontListed(rows, q);
    var front, last := q[..|q| - 1], q[|q| - 1];
    var slot := SlotOf(rows[id].report);
    var (before, summary) := WriteAll(table, rows, front, sha, now);
    var (row, counted) := Settle(before, ToReport(rows[last].report, sha, now), summary);
    UpsertAt(before, row, slot);
    if id == last {
      WriteAllLeaves(table, rows, front, sha, now, slot);
    } else {
      WriteAllStores(table, rows, front, sha, now, id);
    }
  }

  // ----- the receipt's counts -----

  predicate Creates(table: ReportTable, report: ReportObject)
    requires table.Valid()
  {
    RowAt(table, SlotOf(report)).None?
  }

  predicate Keeps(table: ReportTable, report: ReportObject, sha: string)
    requires table.Valid()
  {
    var prior := RowAt(table, SlotOf(report));
    prior.Some? && Matches(prior.value, ToReport(report, sha, 0))
  }

  ghost function CreatedIds(table: ReportTable, rows: ImportRows): set<string>
    requires table.Valid()
  {
    set id | id in rows && Creates(table, rows[id].report)
  }

  ghost function KeptIds(table: ReportTable, rows: ImportRows, sha: string): set<string>
    requires table.Valid()
  {
    set id | id in rows && Keeps(table, rows[id].report, sha)
  }

  ghost function Chosen(q: seq<string>, ids: set<string>): set<string> {
    set id | id in q && id in ids
  }

  lemma ChosenNext(rows: ImportRows, q: seq<string>, ids: set<string>)
    requires Listed(rows, q) && q != []
    ensures var front, last := q[..|q| - 1], q[|q| - 1];
            |Chosen(q, ids)| == |Chosen(front, ids)| + if last in ids then 1 else 0
  {
    FrontListed(rows, q);
    var front, last := q[..|q| - 1], q[|q| - 1];
    assert Chosen(q, ids) == Chosen(front, ids) + if last in ids then {last} else {};
  }

  lemma SettleCounts(before: ReportTable, table: ReportTable, report: ReportObject, sha: string, now: int,
                     summary: Summary)
    requires before.Valid() && table.Valid()
    requires RowAt(before, SlotOf(report)) == RowAt(table, SlotOf(report))
    ensures var counted := Settle(before, ToReport(report, sha, now), summary).1;
            && counted.createdCount == summary.createdCount + (if Creates(table, report) then 1 else 0)
            && counted.unchangedCount == summary.unchangedCount + (if Keeps(table, report, sha) then 1 else 0)
            && counted.createdCount + counted.updatedCount + counted.unchangedCount
               == summary.createdCount + summary.updatedCount + summary.unchangedCount + 1
  {
  }

  lemma {:induction false} WriteAllCounts(table: ReportTable, rows: ImportRows, q: seq<string>, sha: string, now: int)
    requires table.Valid() && Listed(rows, q) && DistinctSlots(rows)
    ensures var summary := WriteAll(table, rows, q, sha, now).1;
            && summary.createdCount == |Chosen(q, CreatedIds(table, rows))|
            && summary.unchangedCount == |Chosen(q, KeptIds(table, rows, sha))|
            && summary.createdCount + summary.updatedCount + summary.unchangedCount == |q|
  {
    var created, kept := CreatedIds(table, rows), KeptIds(table, rows, sha);
    if q == [] {
      assert Chosen(q, created) == {} && Chosen(q, kept) == {};
    } else {
      FrontListed(rows, q);
      var front, last := q[..|q| - 1], q[|q| - 1];
      var (before, summary) := WriteAll(table, rows, front, sha, now);
      WriteAllCounts(table, rows, front, sha, now);
      WriteAllLeaves(table, rows, front, sha, now, SlotOf(rows[last].report));
      SettleCounts(before, table, rows[last].report, sha, now, summary);
      ChosenNext(rows, q, created);
      ChosenNext(rows, q, kept);
    }
  }

  // ----- the commit as one statement per slot -----

  lemma OrderLists(rows: ImportRows)
    ensures Listed(rows, InKeyOrder(rows.Keys)) && |InKeyOrder(rows.Keys)| == |rows|
    ensures forall slot :: Writes(rows, InKeyOrder(rows.Keys), slot) <==> slot in SlotsOf(rows)
  {
    var q := InKeyOrder(rows.Keys);
    forall i, j | 0 <= i < j < |q| ensures q[i] != q[j] {
      KeysDistinct(rows.Keys, i, j);
    }
  }

  lemma WithoutStaleAt(table: ReportTable, rows: ImportRows, slot: SlotKey)
    requires table.Valid()
    ensures var prior := RowAt(table, slot);
            RowAt(Without(table, StaleIds(table, rows)), slot)
            == if prior.Some? && prior.value.sourceKey in SourcesOf(rows) && slot !in SlotsOf(rows) then None else prior
  {
    var kept := Without(table, StaleIds(table, rows));
    match FindSlot(table, slot)
    case None =>
    case Some(id) =>
      if id in kept.rows {
        StoredAt(kept, id);
      } else if kid :| kid in kept.rows && KeyOf(kept.rows[kid]) == slot {
        SlotUnique(table, id, kid);
      }
  }

  /** The whole replacement, slot by slot: an imported slot holds the imported
      row (keeping its timestamp when nothing else changed), any other row of an
      imported facility is gone, and everything else is as it was. */
  lemma CommitAt(table: ReportTable, legacy: seq<ReportRow>, rows: ImportRows, sha: string, now: int, slot: SlotKey)
    requires table.Valid() && DistinctSlots(rows)
    ensures Commit(table, legacy, rows, sha, now).0.Valid()
    ensures var prior := PriorRow(table, legacy, slot);
            var after := RowAt(Commit(table, legacy, rows, sha, now).0, slot);
            && (forall id :: id in rows && SlotOf(rows[id].report) == slot
                  ==> after == Some(SettledRow(prior, ToReport(rows[id].report, sha, now))))
            && (slot !in SlotsOf(rows) ==>
                  after == if prior.Some? && prior.value.sourceKey in SourcesOf(rows) then None else prior)
  {
    var seeded := Seed(table, legacy);
    var kept := Without(seeded, StaleIds(seeded, rows));
    var q := InKeyOrder(rows.Keys);
    OrderLists(rows);
    SeedAt(table, legacy, slot);
    WithoutStaleAt(seeded, rows, slot);
    if slot in SlotsOf(rows) {
      forall id | id in rows && SlotOf(rows[id].report) == slot
        ensures RowAt(Commit(table, legacy, rows, sha, now).0, slot)
             == Some(SettledRow(RowAt(seeded, slot), ToReport(rows[id].report, sha, now)))
      {
        WriteAllStores(kept, rows, q, sha, now, id);
      }
    } else {
      WriteAllLeaves(kept, rows, q, sha, now, slot);
    }
  }

  /** The stored row answers the report column by column. */
  predicate Holds(row: ReportRow, report: ReportObject, sha: string) {
    && row.bucket == report.bucket
    && row.courseId == report.courseId
    && row.sourceSystem == "daily_reservation_status_xlsx"
    && row.sourceKey == report.sourceKey
    && row.sourceName == report.sourceName
    && row.date == report.date
    && row.dayPart == report.dayPart
    && row.groups == report.groups
    && row.caddies == report.caddies
    && row.sha == sha
  }

  predicate AlreadyHolds(prior: Option<ReportRow>, report: ReportObject, sha: string) {
    prior.Some? && Holds(prior.value, report, sha)
  }

  lemma RowAtHasTheSlot(table: ReportTable, slot: SlotKey)
    requires table.Valid() && RowAt(table, slot).Some?
    ensures KeyOf(RowAt(table, slot).value) == slot
  {
  }

  /** The row an import leaves for a report holds the report in every column, with
      the time of the commit, unless the slot already held exactly that: then the
      time stays. */
  lemma CommittedRowHolds(table: ReportTable, legacy: seq<ReportRow>, rows: ImportRows, sha: string, now: int,
                          id: string)
    requires table.Valid() && DistinctSlots(rows) && id in rows
    ensures Commit(table, legacy, rows, sha, now).0.Valid()
    ensures var report := rows[id].report;
            var slot := SlotKey(report.bucket, report.date, report.dayPart);
            var prior, after := PriorRow(table, legacy, slot), RowAt(Commit(table, legacy, rows, sha, now).0, slot);
            && after.Some? && Holds(after.value, report, sha)
            && after.value.updated == if AlreadyHolds(prior, report, sha) then prior.value.updated else now
  {
    hide Commit, PriorRow, RowAt;
    var report := rows[id].report;
    var slot := SlotOf(report);
    CommitAt(table, legacy, rows, sha, now, slot);
    SeedAt(table, legacy, slot);
    if PriorRow(table, legacy, slot).Some? {
      RowAtHasTheSlot(Seed(table, legacy), slot);
    }
  }

  ghost function UnchangedIds(table: ReportTable, legacy: seq<ReportRow>, rows: ImportRows, sha: string): set<string>
    requires table.Valid()
  {
    set id | id in rows && AlreadyHolds(PriorRow(table, legacy, SlotOf(rows[id].report)), rows[id].report, sha)
  }

  ghost function NewIds(table: ReportTable, legacy: seq<ReportRow>, rows: ImportRows): set<string>
    requires table.Valid()
  {
    set id | id in rows && PriorRow(table, legacy, SlotOf(rows[id].report)).None?
  }

  lemma CountedSets(table: ReportTable, legacy: seq<ReportRow>, rows: ImportRows, sha: string)
    requires table.Valid()
    ensures CreatedIds(Seed(table, legacy), rows) == NewIds(table, legacy, rows)
    ensures KeptIds(Seed(table, legacy), rows, sha) == UnchangedIds(table, legacy, rows, sha)
  {
    hide Seed, PriorRow, RowAt;
    var seeded := Seed(table, legacy);
    forall id | id in rows
      ensures Creates(seeded, rows[id].report) <==> PriorRow(table, legacy, SlotOf(rows[id].report)).None?
      ensures Keeps(seeded, rows[id].report, sha)
              <==> AlreadyHolds(PriorRow(table, legacy, SlotOf(rows[id].report)), rows[id].report, sha)
    {
      var slot := SlotOf(rows[id].report);
      SeedAt(table, legacy, slot);
      if RowAt(seeded, slot).Some? {
        RowAtHasTheSlot(seeded, slot);
      }
    }
  }

  /** The receipt counts every imported row once: created where the slot was
      empty, unchanged where the stored row, or the first legacy one, already
      held the report in every column, else updated. */
  lemma CommitCounts(table: ReportTable, legacy: seq<ReportRow>, rows: ImportRows, sha: string, now: int)
    requires table.Valid() && DistinctSlots(rows)
    ensures var summary := Commit(table, legacy, rows, sha, now).1;
            && summary.createdCount == |NewIds(table, legacy, rows)|
            && summary.unchangedCount == |UnchangedIds(table, legacy, rows, sha)|
            && summary.createdCount + summary.updatedCount + summary.unchangedCount == |rows|
  {
    hide FindSlot, Settle, Listed, WriteAll, Creates, Keeps, NewIds, UnchangedIds;
    CountedSets(table, legacy, rows, sha);
    var seeded := Seed(table, legacy);
    var kept := Without(seeded, StaleIds(seeded, rows));
    var q := InKeyOrder(rows.Keys);
    OrderLists(rows);
    WriteAllCounts(kept, rows, q, sha, now);
    StaleRowsDoNotCount(seeded, rows, sha);
    assert Chosen(q, CreatedIds(kept, rows)) == CreatedIds(kept, rows);
    assert Chosen(q, KeptIds(kept, rows, sha)) == KeptIds(kept, rows, sha);
  }

  lemma StaleRowsDoNotCount(table: ReportTable, rows: ImportRows, sha: string)
    requires table.Valid()
    ensures CreatedIds(Without(table, StaleIds(table, rows)), rows) == CreatedIds(table, rows)
    ensures KeptIds(Without(table, StaleIds(table, rows)), rows, sha) == KeptIds(table, rows, sha)
  {
    var kept := Without(table, StaleIds(table, rows));
    forall id | id in rows
      ensures RowAt(kept, SlotOf(rows[id].report)) == RowAt(table, SlotOf(rows[id].report))
    {
      WithoutStaleAt(table, rows, SlotOf(rows[id].report));
      assert SlotOf(rows[id].report) in SlotsOf(rows);
    }
  }

  /** A row in an imported slot is the imported row. */
  lemma ImportedSlotHoldsImport(table: ReportTable, legacy: seq<ReportRow>, rows: ImportRows, sha: string, now: int,
                                id: nat)
    requires table.Valid() && DistinctSlots(rows)
    requires id in Commit(table, legacy, rows, sha, now).0.rows
    requires KeyOf(Commit(table, legacy, rows, sha, now).0.rows[id]) in SlotsOf(rows)
    ensures var row := Commit(table, legacy, rows, sha, now).0.rows[id];
            exists k :: k in rows && Holds(row, rows[k].report, sha)
  {
    hide Commit, FindSlot;
    var result := Commit(table, legacy, rows, sha, now).0;
    var slot := KeyOf(result.rows[id]);
    CommitAt(table, legacy, rows, sha, now, slot);
    StoredAt(result, id);
    var k :| k in rows && SlotOf(rows[k].report) == slot;
  }

  /** After a commit every row of an imported facility is an imported row. */
  lemma CommitReplacesFacilities(table: ReportTable, legacy: seq<ReportRow>, rows: ImportRows, sha: string, now: int,
                                 id: nat)
    requires table.Valid() && DistinctSlots(rows)
    requires id in Commit(table, legacy, rows, sha, now).0.rows
    ensures var row := Commit(table, legacy, rows, sha, now).0.rows[id];
            row.sourceKey in SourcesOf(rows) ==>
              KeyOf(row) in SlotsOf(rows) && exists k :: k in rows && Holds(row, rows[k].report, sha)
  {
    var result := Commit(table, legacy, rows, sha, now).0;
    var slot := KeyOf(result.rows[id]);
    StoredAt(result, id);
    if slot in SlotsOf(rows) {
      ImportedSlotHoldsImport(table, legacy, rows, sha, now, id);
    } else {
      CommitAt(table, legacy, rows, sha, now, slot);
    }
  }

  // ----- committing twice -----

  lemma {:induction false} WriteAllAgain(table: ReportTable, rows: ImportRows, q: seq<string>, sha: string, now: int)
    requires table.Valid() && Listed(rows, q)
    requires forall id :: id in q ==> Keeps(table, rows[id].report, sha)
    ensures WriteAll(table, rows, q, sha, now) == (table, Summary(0, 0, |q|))
  {
    if q != [] {
      FrontListed(rows, q);
      var report := rows[q[|q| - 1]].report;
      WriteAllAgain(table, rows, q[..|q| - 1], sha, now);
      RewriteIsNoop(table, report, sha, now);
    }
  }

  lemma RewriteIsNoop(table: ReportTable, report: ReportObject, sha: string, now: int)
    requires table.Valid() && Keeps(table, report, sha)
    ensures Upsert(table, SettledRow(RowAt(table, SlotOf(report)), ToReport(report, sha, now))) == table
  {
    var id := FindSlot(table, SlotOf(report)).value;
    var row := SettledRow(RowAt(table, SlotOf(report)), ToReport(report, sha, now));
    assert row == table.rows[id];
    assert table.rows[id := row] == table.rows;
  }

  lemma NoStaleAfterCommit(table: ReportTable, legacy: seq<ReportRow>, rows: ImportRows, sha: string, now: int)
    requires table.Valid() && DistinctSlots(rows)
    ensures var result := Commit(table, legacy, rows, sha, now).0;
            Without(result, StaleIds(result, rows)) == result
  {
    hide Commit, FindSlot;
    var result := Commit(table, legacy, rows, sha, now).0;
    forall id | id in result.rows ensures id !in StaleIds(result, rows) {
      CommitReplacesFacilities(table, legacy, rows, sha, now, id);
    }
    assert result.rows - StaleIds(result, rows) == result.rows;
  }

  lemma CommittedIsKept(table: ReportTable, legacy: seq<ReportRow>, rows: ImportRows, sha: string, now: int, id: string)
    requires table.Valid() && DistinctSlots(rows) && id in rows
    ensures Keeps(Commit(table, legacy, rows, sha, now).0, rows[id].report, sha)
  {
    hide Commit, FindSlot;
    CommitAt(table, legacy, rows, sha, now, SlotOf(rows[id].report));
  }

  /** Committing the same import again changes nothing, not even a timestamp,
      and counts every row as unchanged. */
  lemma CommitIsIdempotent(table: ReportTable, legacy: seq<ReportRow>, rows: ImportRows, sha: string, now: int,
                           later: int)
    requires table.Valid() && DistinctSlots(rows)
    ensures var result := Commit(table, legacy, rows, sha, now).0;
            Commit(result, [], rows, sha, later) == (result, Summary(0, 0, |rows|))
  {
    var result := Commit(table, legacy, rows, sha, now).0;
    var q := InKeyOrder(rows.Keys);
    OrderLists(rows);
    NoStaleAfterCommit(table, legacy, rows, sha, now);
    forall id | id in q ensures Keeps(result, rows[id].report, sha) {
      CommittedIsKept(table, legacy, rows, sha, now, id);
    }
    WriteAllAgain(result, rows, q, sha, later);
  }

  // ----- the footprint, row id by row id -----

  lemma {:induction false} WriteAllId(table: ReportTable, rows: ImportRows, q: seq<string>, sha: string, now: int,
                                      id: nat)
    requires table.Valid() && Listed(rows, q)
    ensures var result := WriteAll(table, rows, q, sha, now).0;
            && (id in table.rows ==>
                  id in result.rows
                  && (result.rows[id] == table.rows[id] || Writes(rows, q, KeyOf(result.rows[id])))
                  && KeyOf(result.rows[id]) == KeyOf(table.rows[id]))
            && (id in result.rows && id !in table.rows ==> Writes(rows, q, KeyOf(result.rows[id])))
  {
    hide FindSlot, RowAt;
    if q != [] {
      FrontListed(rows, q);
      var front, last := q[..|q| - 1], q[|q| - 1];
      WriteAllId(table, rows, front, sha, now, id);
      var (before, summary) := WriteAll(table, rows, front, sha, now);
      var (row, counted) := Settle(before, ToReport(rows[last].report, sha, now), summary);
      var at := FindSlot(before, KeyOf(row)).GetOr(before.next);
      PositiveIds(before, {});
      assert Upsert(before, row).rows == before.rows[at := row];
      assert SlotOf(rows[last].report) == KeyOf(row);
    }
  }

  lemma {:induction false} SeedId(table: ReportTable, legacy: seq<ReportRow>, id: nat)
    requires table.Valid()
    ensures id in table.rows ==> id in Seed(table, legacy).rows && Seed(table, legacy).rows[id] == table.rows[id]
    ensures id in Seed(table, legacy).rows && id !in table.rows ==> Seed(table, legacy).rows[id] in legacy
  {
    if legacy != [] {
      SeedId(table, legacy[..|legacy| - 1], id);
      PositiveIds(Seed(table, legacy[..|legacy| - 1]), {});
    }
  }

  lemma CommitId(table: ReportTable, legacy: seq<ReportRow>, rows: ImportRows, sha: string, now: int, id: nat)
    requires table.Valid()
    ensures var result := Commit(table, legacy, rows, sha, now).0;
            && (id in table.rows && id !in StaleIds(table, rows) ==>
                  id in result.rows
                  && (result.rows[id] == table.rows[id] || KeyOf(table.rows[id]) in SlotsOf(rows)))
            && (id in result.rows ==>
                  || (id in table.rows && result.rows[id] == table.rows[id])
                  || result.rows[id] in legacy
                  || KeyOf(result.rows[id]) in SlotsOf(rows))
  {
    var seeded := Seed(table, legacy);
    OrderLists(rows);
    SeedId(table, legacy, id);
    WriteAllId(Without(seeded, StaleIds(seeded, rows)), rows, InKeyOrder(rows.Keys), sha, now, id);
  }

  /** The row lies in the footprint of one of the imported facilities. */
  predicate Touched(row: ReportRow, rows: ImportRows) {
    exists k :: k in rows && InFootprint(row, rows[k].report.sourceKey, rows[k].report.bucket)
  }

  lemma ImportedIsTouched(row: ReportRow, rows: ImportRows)
    requires row.sourceKey in SourcesOf(rows) || KeyOf(row) in SlotsOf(rows)
    ensures Touched(row, rows)
  {
    var k :| k in rows && (rows[k].report.sourceKey == row.sourceKey || SlotOf(rows[k].report) == KeyOf(row));
    assert SlotOf(rows[k].report) == KeyOf(row) ==> rows[k].report.bucket == row.bucket;
    assert InFootprint(row, rows[k].report.sourceKey, rows[k].report.bucket);
  }

  /** A commit only rewrites, removes or adds rows inside the footprint whose
      snapshot the import compared; legacy rows are only added. */
  lemma CommitStaysInFootprint(table: ReportTable, legacy: seq<ReportRow>, rows: ImportRows, sha: string, now: int,
                               id: nat)
    requires table.Valid()
    ensures var result := Commit(table, legacy, rows, sha, now).0;
            && (id in table.rows && !Touched(table.rows[id], rows) ==>
                  id in result.rows && result.rows[id] == table.rows[id])
            && (id in result.rows && !(id in table.rows && result.rows[id] == table.rows[id]) ==>
                  Touched(result.rows[id], rows) || result.rows[id] in legacy)
  {
    CommitId(table, legacy, rows, sha, now, id);
    var result := Commit(table, legacy, rows, sha, now).0;
    if id in table.rows && (id in StaleIds(table, rows) || KeyOf(table.rows[id]) in SlotsOf(rows)) {
      ImportedIsTouched(table.rows[id], rows);
    }
    if id in result.rows && KeyOf(result.rows[id]) in SlotsOf(rows) {
      ImportedIsTouched(result.rows[id], rows);
    }
  }

  /** A row the commit added or changed is an imported row or a legacy one. */
  lemma CommitAddsImportedRows(table: ReportTable, legacy: seq<ReportRow>, rows: ImportRows, sha: string, now: int,
                               id: nat)
    requires table.Valid() && DistinctSlots(rows)
    requires id in Commit(table, legacy, rows, sha, now).0.rows
    ensures var row := Commit(table, legacy, rows, sha, now).0.rows[id];
            || (id in table.rows && row == table.rows[id])
            || row in legacy
            || exists k :: k in rows && Holds(row, rows[k].report, sha)
  {
    CommitId(table, legacy, rows, sha, now, id);
    var result := Commit(table, legacy, rows, sha, now).0;
    if KeyOf(result.rows[id]) in SlotsOf(rows) {
      ImportedSlotHoldsImport(table, legacy, rows, sha, now, id);
    }
  }

  /** Neither the import nor the legacy list reaches the facility, and the
      import touches none of its rows. */
  ghost predicate Unrelated(table: ReportTable, legacy: seq<ReportRow>, rows: ImportRows, source: string,
                            bucket: string) {
    && (forall k :: k in rows ==> rows[k].report.sourceKey != source && rows[k].report.bucket != bucket)
    && (forall row :: row in legacy ==> !InFootprint(row, source, bucket))
    && (forall id :: id in table.rows && InFootprint(table.rows[id], source, bucket) ==> !Touched(table.rows[id], rows))
  }

  lemma UnrelatedRow(table: ReportTable, legacy: seq<ReportRow>, rows: ImportRows, sha: string, now: int,
                     source: string, bucket: string, id: nat)
    requires table.Valid() && DistinctSlots(rows) && Unrelated(table, legacy, rows, source, bucket)
    ensures var result := Commit(table, legacy, rows, sha, now).0;
            && (id in FootprintIds(table, source, bucket) <==> id in FootprintIds(result, source, bucket))
            && (id in FootprintIds(table, source, bucket) ==> result.rows[id] == table.rows[id])
  {
    hide Commit, Touched, DistinctSlots;
    var result := Commit(table, legacy, rows, sha, now).0;
    CommitStaysInFootprint(table, legacy, rows, sha, now, id);
    if id in FootprintIds(result, source, bucket) {
      CommitAddsImportedRows(table, legacy, rows, sha, now, id);
    }
  }

  /** A commit over other facilities leaves a facility's snapshot as it was. */
  lemma CommitSparesUnrelated(table: ReportTable, legacy: seq<ReportRow>, rows: ImportRows, sha: string, now: int,
                              source: string, bucket: string)
    requires table.Valid() && DistinctSlots(rows) && Unrelated(table, legacy, rows, source, bucket)
    ensures FacilitySnapshot(Commit(table, legacy, rows, sha, now).0, source, bucket)
            == FacilitySnapshot(table, source, bucket)
  {
    hide Commit, Unrelated, DistinctSlots;
    var result := Commit(table, legacy, rows, sha, now).0;
    forall id
      ensures id in FootprintIds(table, source, bucket) <==> id in FootprintIds(result, source, bucket)
      ensures id in FootprintIds(table, source, bucket) ==> result.rows[id] == table.rows[id]
    {
      UnrelatedRow(table, legacy, rows, sha, now, source, bucket, id);
    }
    SameFootprintSameSnapshot(table, result, source, bucket);
  }

  // ----- the loops -----

  /** Legacy rows enter only slots that are still empty. */
  method SeedCommonLegacy(table: ReportTable, legacy: seq<ReportRow>) returns (seeded: ReportTable)
    requires table.Valid()
    ensures seeded == Seed(table, legacy)
  {
    seeded := table;
    for i := 0 to |legacy|
      invariant seeded.Valid() && seeded == Seed(table, legacy[..i])
    {
      assert legacy[..i + 1][..i] == legacy[..i];
      if FindSlot(seeded, KeyOf(legacy[i])).None? {
        seeded := Insert(seeded, legacy[i]);
      }
    }
    assert legacy[..|legacy|] == legacy;
  }

  lemma StaleShrinks(table: ReportTable, rows: ImportRows, ids: set<nat>)
    requires table.Valid()
    ensures StaleIds(Without(table, ids), rows) == StaleIds(table, rows) - ids
  {
  }

  function Ids(page: seq<nat>): set<nat> {
    set id | id in page
  }

  lemma LeftAfterPage(left: set<nat>, after: nat)
    requires IdsAfter(left, after) == left
    ensures var page := IdPage(left, after, PAGE_LIMIT);
            if page == [] then left == {}
            else
              && Ids(page) <= left && page[|page| - 1] in left
              && IdsAfter(left - Ids(page), page[|page| - 1]) == left - Ids(page)
  {
    var page := IdPage(left, after, PAGE_LIMIT);
    IdPageAdvances(left, after, PAGE_LIMIT);
    var all := InIdOrder(left);
    if page == [] {
      assert forall id :: id in left ==> id in all;
    } else {
      var last := page[|page| - 1];
      var rest := InIdOrder(IdsAfter(left, last));
      assert all == page + rest;
      assert last in page && last in all;
      forall id | id in left - Ids(page) ensures id in IdsAfter(left, last) {
        assert id in page + rest;
      }
      forall id | id in page ensures id in left {
        assert id in page + rest;
      }
    }
  }

  /** What the deletion loop keeps: the stale rows not yet deleted all lie
      beyond the cursor. */
  ghost predicate Draining(stale: set<nat>, deleted: set<nat>, after: nat) {
    deleted <= stale && IdsAfter(stale - deleted, after) == stale - deleted
  }

  lemma DrainingNext(stale: set<nat>, deleted: set<nat>, after: nat)
    requires Draining(stale, deleted, after)
    ensures var page := IdPage(stale - deleted, after, PAGE_LIMIT);
            if page == [] then deleted == stale
            else
              && Draining(stale, deleted + Ids(page), page[|page| - 1])
              && stale - (deleted + Ids(page)) < stale - deleted
  {
    LeftAfterPage(stale - deleted, after);
    var page := IdPage(stale - deleted, after, PAGE_LIMIT);
    if page == [] {
      assert stale <= deleted;
    } else {
      assert stale - (deleted + Ids(page)) == stale - deleted - Ids(page);
      assert page[|page| - 1] in Ids(page);
    }
  }

  lemma DrainingStarts(table: ReportTable, rows: ImportRows)
    requires table.Valid()
    ensures Draining(StaleIds(table, rows), {}, 0) && table == Without(table, {})
  {
    assert table.rows - {} == table.rows;
    assert StaleIds(table, rows) - {} == StaleIds(table, rows);
    PositiveIds(table, StaleIds(table, rows));
  }

  /** Delete the stale rows, 100 ids at a time. */
  method DeleteStale(table: ReportTable, rows: ImportRows) returns (kept: ReportTable)
    requires table.Valid()
    ensures kept == Without(table, StaleIds(table, rows))
  {
    hide StaleIds, IdPage, Draining;
    kept := table;
    var after: nat := 0;
    ghost var deleted: set<nat> := {};
    ghost var stale := StaleIds(table, rows);
    DrainingStarts(table, rows);
    while true
      invariant kept == Without(table, deleted)
      invariant Draining(stale, deleted, after)
      decreases stale - deleted
    {
      StaleShrinks(table, rows, deleted);
      var page := IdPage(StaleIds(kept, rows), after, PAGE_LIMIT);
      DrainingNext(stale, deleted, after);
      if page == [] {
        break;
      }
      kept := DeletePage(table, kept, page, deleted);
      after := page[|page| - 1];
      deleted := deleted + Ids(page);
    }
  }

  method DeletePage(table: ReportTable, opening: ReportTable, page: seq<nat>, ghost deleted: set<nat>)
    returns (kept: ReportTable)
    requires table.Valid() && opening == Without(table, deleted)
    ensures kept == Without(table, deleted + Ids(page))
  {
    kept := opening;
    assert deleted + Ids(page[..0]) == deleted;
    for i := 0 to |page|
      invariant kept == Without(table, deleted + Ids(page[..i]))
    {
      kept := kept.(rows := kept.rows - {page[i]});
      assert Ids(page[..i + 1]) == Ids(page[..i]) + {page[i]};
      assert kept.rows == table.rows - (deleted + Ids(page[..i + 1]));
    }
    assert page[..|page|] == page;
  }

  lemma SettleSame(before: ReportTable, table: ReportTable, row: ReportRow, summary: Summary)
    requires before.Valid() && table.Valid() && RowAt(before, KeyOf(row)) == RowAt(table, KeyOf(row))
    ensures Settle(before, row, summary) == Settle(table, row, summary)
    ensures Settle(table, row, summary).0 == SettledRow(RowAt(table, KeyOf(row)), row)
  {
  }

  lemma WriteStep(base: ReportTable, rows: ImportRows, done: seq<string>, page: seq<string>, i: nat, sha: string,
                  now: int)
    requires base.Valid() && DistinctSlots(rows) && Listed(rows, done + page) && i < |page|
    ensures page[i] in rows && Listed(rows, done) && Listed(rows, done + page[..i])
            && Listed(rows, done + page[..i + 1])
    ensures var opening := WriteAll(base, rows, done, sha, now).0;
            var (table, summary) := WriteAll(base, rows, done + page[..i], sha, now);
            var row := ToReport(rows[page[i]].report, sha, now);
            && Settle(table, row, summary) == Settle(opening, row, summary)
            && Settle(opening, row, summary).0 == SettledRow(RowAt(opening, KeyOf(row)), row)
            && WriteAll(base, rows, done + page[..i + 1], sha, now)
               == (Upsert(table, Settle(opening, row, summary).0), Settle(opening, row, summary).1)
  {
    hide FindSlot, RowAt, Settle, Upsert;
    var all := done + page;
    var here := done + page[..i];
    assert done == all[..|done|] && here == all[..|done| + i] && here + [page[i]] == all[..|done| + i + 1];
    assert all[|done| + i] == page[i];
    assert done + page[..i + 1] == here + [page[i]];
    assert Listed(rows, here) && Listed(rows, done) && Listed(rows, here + [page[i]]);
    assert page[i] !in here;
    var slot := SlotOf(rows[page[i]].report);
    WriteAllLeaves(base, rows, here, sha, now, slot);
    WriteAllLeaves(base, rows, done, sha, now, slot);
    assert (here + [page[i]])[..|here|] == here;
    var row := ToReport(rows[page[i]].report, sha, now);
    var (table, summary) := WriteAll(base, rows, here, sha, now);
    SettleSame(table, WriteAll(base, rows, done, sha, now).0, row, summary);
  }

  predicate SettledAgainst(table: ReportTable, rows: ImportRows, page: seq<string>, writes: seq<ReportRow>, sha: string,
                           now: int)
    requires table.Valid() && |writes| <= |page|
  {
    forall j :: 0 <= j < |writes| ==>
                  && page[j] in rows
                  && writes[j]
                     == SettledRow(RowAt(table, SlotOf(rows[page[j]].report)), ToReport(rows[page[j]].report, sha, now))
  }

  /** Settle every row of a page against what its slots held when the page was
      read, counting as it goes. */
  method SettlePage(table: ReportTable, rows: ImportRows, page: seq<string>, sha: string, now: int, summary: Summary,
                    ghost base: ReportTable, ghost done: seq<string>)
    returns (writes: seq<ReportRow>, counted: Summary)
    requires base.Valid() && DistinctSlots(rows) && Listed(rows, done + page)
    requires Listed(rows, done) && (table, summary) == WriteAll(base, rows, done, sha, now)
    ensures |writes| == |page| && SettledAgainst(table, rows, page, writes, sha, now)
    ensures counted == WriteAll(base, rows, done + page, sha, now).1
  {
    hide WriteAll, FindSlot, RowAt;
    counted := summary;
    writes := [];
    assert done + page[..0] == done && done + page[..|page|] == done + page;
    for i := 0 to |page|
      invariant Listed(rows, done + page[..i])
      invariant counted == WriteAll(base, rows, done + page[..i], sha, now).1
      invariant |writes| == i && SettledAgainst(table, rows, page, writes, sha, now)
    {
      WriteStep(base, rows, done, page, i, sha, now);
      var (row, next) := Settle(table, ToReport(rows[page[i]].report, sha, now), counted);
      SettledNext(table, rows, page, writes, row, sha, now);
      counted := next;
      writes := writes + [row];
    }
  }

  lemma SettledNext(table: ReportTable, rows: ImportRows, page: seq<string>, writes: seq<ReportRow>, row: ReportRow,
                    sha: string, now: int)
    requires table.Valid() && |writes| < |page| && SettledAgainst(table, rows, page, writes, sha, now)
    requires page[|writes|] in rows
    requires var report := rows[page[|writes|]].report;
             row == SettledRow(RowAt(table, SlotOf(report)), ToReport(report, sha, now))
    ensures SettledAgainst(table, rows, page, writes + [row], sha, now)
  {
  }

  /** The page's one multi-row upsert. */
  method InsertPage(table: ReportTable, writes: seq<ReportRow>, ghost rows: ImportRows, ghost page: seq<string>,
                    ghost sha: string, ghost now: int, ghost base: ReportTable, ghost done: seq<string>)
    returns (written: ReportTable)
    requires base.Valid() && DistinctSlots(rows) && Listed(rows, done + page)
    requires Listed(rows, done) && table == WriteAll(base, rows, done, sha, now).0
    requires |writes| == |page| && SettledAgainst(table, rows, page, writes, sha, now)
    ensures written == WriteAll(base, rows, done + page, sha, now).0
  {
    hide WriteAll, FindSlot, Upsert;
    written := table;
    assert done + page[..0] == done && done + page[..|page|] == done + page;
    for i := 0 to |writes|
      invariant Listed(rows, done + page[..i])
      invariant written.Valid() && written == WriteAll(base, rows, done + page[..i], sha, now).0
    {
      WriteStep(base, rows, done, page, i, sha, now);
      written := Upsert(written, writes[i]);
    }
  }

  lemma NextWritePage(rows: ImportRows, done: seq<string>, after: string)
    requires done + InKeyOrder(KeysAfter(rows.Keys, after)) == InKeyOrder(rows.Keys)
    ensures var page := KeyPage(rows.Keys, after, PAGE_LIMIT);
            if page == [] then done == InKeyOrder(rows.Keys)
            else
              var rest := InKeyOrder(KeysAfter(rows.Keys, page[|page| - 1]));
              && Listed(rows, done + page)
              && done + page + rest == InKeyOrder(rows.Keys)
              && InKeyOrder(KeysAfter(rows.Keys, after)) == page + rest
  {
    KeyPageAdvances(rows.Keys, after, PAGE_LIMIT);
    OrderLists(rows);
    var page := KeyPage(rows.Keys, after, PAGE_LIMIT);
    if page != [] {
      PrefixListed(rows, done, page, InKeyOrder(KeysAfter(rows.Keys, page[|page| - 1])));
    }
  }

  lemma PrefixListed(rows: ImportRows, done: seq<string>, page: seq<string>, rest: seq<string>)
    requires Listed(rows, done + (page + rest))
    ensures Listed(rows, done + page) && done + page + rest == done + (page + rest)
  {
    var all := done + (page + rest);
    assert done + page == all[..|done + page|];
  }

  /** What the upsert loop knows: the rows written so far, and those the cursor
      has still to reach. */
  ghost predicate Writing(base: ReportTable, rows: ImportRows, done: seq<string>, after: string, result: ReportTable,
                          summary: Summary, sha: string, now: int) {
    && base.Valid() && Listed(rows, done)
    && done + InKeyOrder(KeysAfter(rows.Keys, after)) == InKeyOrder(rows.Keys)
    && (result, summary) == WriteAll(base, rows, done, sha, now)
  }

  lemma WritingStarts(table: ReportTable, rows: ImportRows, sha: string, now: int)
    requires table.Valid() && "" !in rows
    ensures Writing(table, rows, [], "", table, Summary(0, 0, 0), sha, now)
  {
    KeysFromStart(rows.Keys);
    assert KeysAfter(rows.Keys, "") == rows.Keys;
  }

  lemma WritingEnds(table: ReportTable, rows: ImportRows, done: seq<string>, after: string, result: ReportTable,
                    summary: Summary, sha: string, now: int)
    requires table.Valid()
    requires Writing(Without(table, StaleIds(table, rows)), rows, done, after, result, summary, sha, now)
    requires KeyPage(rows.Keys, after, PAGE_LIMIT) == []
    ensures (result, summary) == Commit(table, [], rows, sha, now)
  {
    hide WriteAll, KeyPage, InKeyOrder;
    NextWritePage(rows, done, after);
  }

  /** One page of the upsert loop: settle it, write it, move the cursor. */
  method WritePage(table: ReportTable, rows: ImportRows, page: seq<string>, summary: Summary, sha: string, now: int,
                   ghost base: ReportTable, ghost done: seq<string>, ghost after: string)
    returns (result: ReportTable, counted: Summary)
    requires DistinctSlots(rows) && Writing(base, rows, done, after, table, summary, sha, now)
    requires page == KeyPage(rows.Keys, after, PAGE_LIMIT) && page != []
    ensures Writing(base, rows, done + page, page[|page| - 1], result, counted, sha, now)
    ensures |InKeyOrder(KeysAfter(rows.Keys, page[|page| - 1]))| < |InKeyOrder(KeysAfter(rows.Keys, after))|
  {
    hide WriteAll, KeyPage, InKeyOrder, Listed, DistinctSlots, KeysAfter;
    NextWritePage(rows, done, after);
    var writes: seq<ReportRow>;
    writes, counted := SettlePage(table, rows, page, sha, now, summary, base, done);
    result := InsertPage(table, writes, rows, page, sha, now, base, done);
  }

  /** The repository's commit: paged deletion, then paged upserts, equal to the
      whole replacement done at once. */
  method CommitCommonImport(table: ReportTable, rows: ImportRows, sha: string, now: int)
    returns (result: ReportTable, summary: Summary)
    requires table.Valid() && DistinctSlots(rows) && "" !in rows
    ensures (result, summary) == Commit(table, [], rows, sha, now)
  {
    hide Writing, WriteAll, Commit, KeyPage, InKeyOrder, KeysAfter, DistinctSlots;
    result := DeleteStale(table, rows);
    ghost var base := result;
    summary := Summary(0, 0, 0);
    var after := "";
    ghost var done: seq<string> := [];
    WritingStarts(base, rows, sha, now);
    while true
      invariant Writing(base, rows, done, after, result, summary, sha, now)
      decreases |InKeyOrder(KeysAfter(rows.Keys, after))|
    {
      var page := KeyPage(rows.Keys, after, PAGE_LIMIT);
      if page == [] {
        break;
      }
      result, summary := WritePage(result, rows, page, summary, sha, now, base, done, after);
      after := page[|page| - 1];
      done := done + page;
    }
    WritingEnds(table, rows, done, after, result, summary, sha, now);
  }
}
