/** The business rows of one tenant, `golf_reservation_report_rows`: rows under
    auto-increment ids with one row per (bucket, date, day part). */
module ReportTables {
  import opened Wrappers
  import opened Orders

  datatype ReportRow = ReportRow(
    bucket: string,
    courseId: Option<string>,
    sourceSystem: string,
    sourceKey: string,
    sourceName: string,
    date: string,
    dayPart: string,
    groups: nat,
    caddies: nat,
    sha: string,
    updated: int)

  datatype SlotKey = SlotKey(bucket: string, date: string, dayPart: string)

  function KeyOf(row: ReportRow): SlotKey {
    SlotKey(row.bucket, row.date, row.dayPart)
  }

  datatype ReportTable = ReportTable(rows: map<nat, ReportRow>, next: nat) {
    /** What the table's keys enforce: ids are positive and below the next
        auto-increment value, and no two rows share a slot. */
    ghost predicate Keyed() {
      && next >= 1
      && (forall id :: id in rows ==> 1 <= id < next)
      && (forall i, j :: i in rows && j in rows && KeyOf(rows[i]) == KeyOf(rows[j]) ==> i == j)
    }

    ghost predicate Valid() {
      forall token {:trigger Unfold(token)} :: Unfold(token) ==> Keyed()
    }
  }

  const EMPTY_TABLE := ReportTable(map[], 1)

  lemma SlotUnique(table: ReportTable, i: nat, j: nat)
    requires table.Valid() && i in table.rows && j in table.rows
    requires KeyOf(table.rows[i]) == KeyOf(table.rows[j])
    ensures i == j
  {
    assert Unfold(0);
  }

  lemma PositiveIds(table: ReportTable, ids: set<nat>)
    requires table.Valid() && ids <= table.rows.Keys
    ensures IdsAfter(ids, 0) == ids && table.next !in table.rows && table.next >= 1
  {
    assert Unfold(0);
  }

  /** The rows one facility's replacement may touch. */
  predicate InFootprint(row: ReportRow, source: string, bucket: string) {
    row.sourceKey == source || row.bucket == bucket
  }

  function FootprintIds(table: ReportTable, source: string, bucket: string): set<nat> {
    set id | id in table.rows && InFootprint(table.rows[id], source, bucket)
  }

  function RowsAt(table: ReportTable, ids: seq<nat>): seq<ReportRow>
    requires forall id :: id in ids ==> id in table.rows
  {
    seq(|ids|, i requires 0 <= i < |ids| => assert ids[i] in ids; table.rows[ids[i]])
  }

  /** What an operator previews for one facility: its rows in id order. */
  function FacilitySnapshot(table: ReportTable, source: string, bucket: string): seq<ReportRow> {
    RowsAt(table, InIdOrder(FootprintIds(table, source, bucket)))
  }

  /** A snapshot lists exactly the footprint: equal snapshots hold the same rows. */
  lemma SnapshotCovers(table: ReportTable, source: string, bucket: string, row: ReportRow)
    ensures row in FacilitySnapshot(table, source, bucket)
            <==> (row.sourceKey == source || row.bucket == bucket)
                 && exists id :: id in table.rows && table.rows[id] == row
  {
    var ids := InIdOrder(FootprintIds(table, source, bucket));
    var snapshot := FacilitySnapshot(table, source, bucket);
    if row in snapshot {
      var i :| 0 <= i < |snapshot| && snapshot[i] == row;
      assert ids[i] in ids;
    }
    if id :| id in table.rows && table.rows[id] == row && InFootprint(row, source, bucket) {
      assert id in ids;
      var i :| 0 <= i < |ids| && ids[i] == id;
      assert snapshot[i] == row;
    }
  }

  lemma SameFootprintSameSnapshot(a: ReportTable, b: ReportTable, source: string, bucket: string)
    requires forall id :: id in FootprintIds(a, source, bucket) <==> id in FootprintIds(b, source, bucket)
    requires forall id :: id in FootprintIds(a, source, bucket) ==> a.rows[id] == b.rows[id]
    ensures FacilitySnapshot(a, source, bucket) == FacilitySnapshot(b, source, bucket)
  {
    assert FootprintIds(a, source, bucket) == FootprintIds(b, source, bucket);
  }
}
