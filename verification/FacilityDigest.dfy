/** The digest of a facility's business rows: read in pages of 100 by id, each
    row framed by its 8-byte big-endian length. */
module FacilityDigest {
  import opened Wrappers
  import opened Orders
  import opened ReportTables

  const PAGE_LIMIT: nat := 100

  /** What a digest that is fed row by row has consumed. */
  function Fed<T>(rows: seq<ReportRow>, feed: ReportRow -> seq<T>): seq<T> {
    if rows == [] then [] else Fed(rows[..|rows| - 1], feed) + feed(rows[|rows| - 1])
  }

  /** The paged loop. Whatever the page boundaries, the digest consumes the
      whole footprint once, in id order. */
  method FacilityHash<T>(table: ReportTable, source: string, bucket: string, feed: ReportRow -> seq<T>)
    returns (input: seq<T>)
    requires table.Valid()
    ensures input == Fed(FacilitySnapshot(table, source, bucket), feed)
  {
    var ids := FootprintIds(table, source, bucket);
    var after: nat := 0;
    input := [];
    ghost var done: seq<nat> := [];
    PositiveIds(table, ids);
    while true
      invariant AllStored(table, done)
      invariant done + InIdOrder(IdsAfter(ids, after)) == InIdOrder(ids)
      invariant input == Fed(RowsAt(table, done), feed)
      decreases |InIdOrder(IdsAfter(ids, after))|
    {
      var page := IdPage(ids, after, PAGE_LIMIT);
      NextPage(table, ids, done, after);
      if page == [] {
        break;
      }
      input := FeedPage(table, page, feed, input, done);
      after := page[|page| - 1];
      done := done + page;
    }
  }

  ghost predicate AllStored(table: ReportTable, ids: seq<nat>) {
    forall id :: id in ids ==> id in table.rows
  }

  lemma NextPage(table: ReportTable, ids: set<nat>, done: seq<nat>, after: nat)
    requires AllStored(table, done) && ids <= table.rows.Keys
    requires done + InIdOrder(IdsAfter(ids, after)) == InIdOrder(ids)
    ensures var page := IdPage(ids, after, PAGE_LIMIT);
            if page == [] then done == InIdOrder(ids)
            else
              var rest := InIdOrder(IdsAfter(ids, page[|page| - 1]));
              && AllStored(table, page)
              && InIdOrder(IdsAfter(ids, after)) == page + rest
              && done + page + rest == InIdOrder(ids)
  {
    IdPageAdvances(ids, after, PAGE_LIMIT);
    var page := IdPage(ids, after, PAGE_LIMIT);
    if page != [] {
      var rest := InIdOrder(IdsAfter(ids, page[|page| - 1]));
      Regroup(done, page, rest, InIdOrder(IdsAfter(ids, after)));
    }
  }

  lemma Regroup(done: seq<nat>, page: seq<nat>, rest: seq<nat>, all: seq<nat>)
    requires all == page + rest
    ensures done + page + rest == done + all
    ensures forall id :: id in page ==> id in all
  {
  }

  /** One page's rows, fed in order. */
  method FeedPage<T>(table: ReportTable, page: seq<nat>, feed: ReportRow -> seq<T>, fed: seq<T>, ghost done: seq<nat>)
    returns (input: seq<T>)
    requires AllStored(table, done) && AllStored(table, page)
    requires fed == Fed(RowsAt(table, done), feed)
    ensures AllStored(table, done + page)
    ensures input == Fed(RowsAt(table, done + page), feed)
  {
    input := fed;
    assert done + page[..0] == done;
    for k := 0 to |page|
      invariant AllStored(table, done + page[..k])
      invariant input == Fed(RowsAt(table, done + page[..k]), feed)
    {
      assert page[k] in page;
      FedNext(table, done + page[..k], page[k], feed);
      assert done + page[..k] + [page[k]] == done + page[..k + 1];
      input := input + feed(table.rows[page[k]]);
    }
    assert done + page[..|page|] == done + page;
  }

  lemma FedNext<T>(table: ReportTable, done: seq<nat>, id: nat, feed: ReportRow -> seq<T>)
    requires id in table.rows && AllStored(table, done)
    ensures AllStored(table, done + [id])
    ensures Fed(RowsAt(table, done + [id]), feed) == Fed(RowsAt(table, done), feed) + feed(table.rows[id])
  {
    var rows := RowsAt(table, done + [id]);
    assert rows[..|rows| - 1] == RowsAt(table, done);
  }

  // ----- the framing -----

  newtype byte = x: int | 0 <= x < 256

  function Power256(width: nat): (p: nat)
    ensures p > 0
  {
    if width == 0 then 1 else 256 * Power256(width - 1)
  }

  function BigEndian(n: nat, width: nat): (bytes: seq<byte>)
    requires n < Power256(width)
    ensures |bytes| == width
  {
    if width == 0 then [] else BigEndian(n / 256, width - 1) + [(n % 256) as byte]
  }

  function FromBigEndian(bytes: seq<byte>): nat {
    if bytes == [] then 0 else 256 * FromBigEndian(bytes[..|bytes| - 1]) + bytes[|bytes| - 1] as nat
  }

  lemma {:induction false} BigEndianRoundTrip(n: nat, width: nat)
    requires n < Power256(width)
    ensures FromBigEndian(BigEndian(n, width)) == n
  {
    if width > 0 {
      BigEndianRoundTrip(n / 256, width - 1);
      var bytes := BigEndian(n, width);
      assert bytes[..|bytes| - 1] == BigEndian(n / 256, width - 1);
    }
  }

  const WORD := Power256(8)

  /** The length survives the cast to 64 bits. */
  predicate Fits(value: seq<byte>) {
    |value| < WORD
  }

  function Frame(value: seq<byte>): seq<byte> {
    BigEndian(|value| % WORD, 8) + value
  }

  function Frames(values: seq<seq<byte>>): seq<byte> {
    if values == [] then [] else Frame(values[0]) + Frames(values[1..])
  }

  /** The reader that inverts the framing. */
  function Unframe(stream: seq<byte>): Option<seq<seq<byte>>>
    decreases |stream|
  {
    if stream == [] then Some([])
    else if |stream| < 8 then None
    else
      var length := FromBigEndian(stream[..8]);
      if |stream| < 8 + length then None
      else
        match Unframe(stream[8 + length..])
        case None => None
        case Some(rest) => Some([stream[8..8 + length]] + rest)
  }

  /** The framing is uniquely decodable. */
  lemma {:induction false} UnframeFrames(values: seq<seq<byte>>)
    requires forall v :: v in values ==> Fits(v)
    ensures Unframe(Frames(values)) == Some(values)
  {
    hide Unframe, Frame, FromBigEndian, BigEndian;
    UnframeNothing();
    if values != [] {
      var head, tail := values[0], Frames(values[1..]);
      assert Fits(head);
      BigEndianRoundTrip(|head|, 8);
      UnframeFrames(values[1..]);
      UnframeOne(head, tail);
      assert [head] + values[1..] == values;
    }
  }

  lemma UnframeNothing()
    ensures Unframe([]) == Some([])
  {
  }

  lemma FramePrefix(head: seq<byte>, tail: seq<byte>)
    requires Fits(head)
    ensures var stream := Frame(head) + tail;
            && |stream| >= 8 + |head|
            && stream[..8] == BigEndian(|head|, 8)
            && stream[8..8 + |head|] == head
            && stream[8 + |head|..] == tail
  {
    var prefix := BigEndian(|head|, 8);
    var stream := Frame(head) + tail;
    assert stream == prefix + (head + tail);
  }

  lemma UnframeOne(head: seq<byte>, tail: seq<byte>)
    requires Fits(head) && FromBigEndian(BigEndian(|head|, 8)) == |head| && Unframe(tail).Some?
    ensures Unframe(Frame(head) + tail) == Some([head] + Unframe(tail).value)
  {
    FramePrefix(head, tail);
    var stream := Frame(head) + tail;
    assert stream != [] && FromBigEndian(stream[..8]) == |head|;
  }

  // ----- equal digests, equal rows -----

  /** A row as the digest is fed it: length prefix, then its JSON bytes. */
  function FrameRow(json: ReportRow -> seq<byte>): ReportRow -> seq<byte> {
    row => Frame(json(row))
  }

  function Rendered(rows: seq<ReportRow>, json: ReportRow -> seq<byte>): seq<seq<byte>> {
    seq(|rows|, i requires 0 <= i < |rows| => json(rows[i]))
  }

  lemma {:induction false} FramesAppend(values: seq<seq<byte>>, last: seq<byte>)
    ensures Frames(values + [last]) == Frames(values) + Frame(last)
  {
    if values == [] {
      assert values + [last] == [last];
      assert Frames([last]) == Frame(last) + Frames([]);
    } else {
      FramesAppend(values[1..], last);
      assert (values + [last])[1..] == values[1..] + [last];
    }
  }

  lemma {:induction false} FedIsFrames(rows: seq<ReportRow>, json: ReportRow -> seq<byte>)
    ensures Fed(rows, FrameRow(json)) == Frames(Rendered(rows, json))
  {
    if rows != [] {
      var front, last := rows[..|rows| - 1], rows[|rows| - 1];
      FedIsFrames(front, json);
      FramesAppend(Rendered(front, json), json(last));
      assert Rendered(rows, json) == Rendered(front, json) + [json(last)];
    }
  }

  /** For any injective rendering of a row, two digest inputs are equal exactly
      when the row lists are: the stored hash stands for the snapshot itself. */
  lemma DigestInputsAgreeIffRowsAgree(a: seq<ReportRow>, b: seq<ReportRow>, json: ReportRow -> seq<byte>)
    requires forall row :: row in a || row in b ==> Fits(json(row))
    requires forall r, s :: json(r) == json(s) ==> r == s
    ensures Fed(a, FrameRow(json)) == Fed(b, FrameRow(json)) <==> a == b
  {
    FedIsFrames(a, json);
    FedIsFrames(b, json);
    if Fed(a, FrameRow(json)) == Fed(b, FrameRow(json)) {
      UnframeFrames(Rendered(a, json));
      UnframeFrames(Rendered(b, json));
      assert |a| == |Rendered(a, json)| == |b|;
      forall i | 0 <= i < |a| ensures a[i] == b[i] {
        assert json(a[i]) == Rendered(a, json)[i] == Rendered(b, json)[i] == json(b[i]);
      }
    }
  }

  function Itself(): ReportRow -> seq<ReportRow> {
    (row: ReportRow) => [row]
  }

  /** Fed with the rows themselves, the loop returns the snapshot. */
  lemma {:induction false} FedItself(rows: seq<ReportRow>)
    ensures Fed(rows, Itself()) == rows
  {
    if rows != [] {
      FedItself(rows[..|rows| - 1]);
    }
  }
}
