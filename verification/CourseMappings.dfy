/** The operator's facility-to-course mapping, read out of a hash map whose
    iteration order is not fixed, and the bucket it gives each facility. */
module CourseMappings {
  import opened Wrappers
  import opened SourceIdentity

  datatype CourseMapping = CourseMapping(sourceKey: string, courseId: Option<string>)

  const KEY_LIMIT := 255
  const ID_LIMIT := 64
  const UNLINKED := "unlinked:"

  /** `order` visits every key of the hash map once. */
  ghost predicate Enumerates(order: seq<string>, raws: set<string>) {
    && (forall raw :: raw in order <==> raw in raws)
    && (forall i, j :: 0 <= i < j < |order| ==> order[i] != order[j])
  }

  predicate EntryFits(key: string, id: string) {
    key != "" && |key| <= KEY_LIMIT && |id| <= ID_LIMIT
  }

  function Key(raw: string): string {
    NormalizeCourseKey(raw)
  }

  function CourseOf(entries: map<string, string>, raw: string): string
    requires raw in entries
  {
    Trim(entries[raw])
  }

  function MappingOf(key: string, id: string): CourseMapping {
    CourseMapping(key, if id == "" then None else Some(id))
  }

  /** Order-free acceptance: every entry is in bounds, no two name the same
      facility, and no two name the same course. */
  ghost predicate Acceptable(entries: map<string, string>) {
    && (forall raw :: raw in entries ==> Key(raw) != "" && |Key(raw)| <= 255 && |CourseOf(entries, raw)| <= 64)
    && (forall r, s :: r in entries && s in entries && r != s ==> Key(r) != Key(s))
    && (forall r, s :: r in entries && s in entries && r != s && CourseOf(entries, r) != ""
          ==> CourseOf(entries, r) != CourseOf(entries, s))
  }

  /** The validator's loop, for any iteration order. */
  method Mappings(entries: map<string, string>, order: seq<string>)
    returns (accepted: Option<seq<CourseMapping>>)
    requires Enumerates(order, entries.Keys)
    ensures accepted.Some? <==> Acceptable(entries)
    ensures accepted.Some? ==> Lists(accepted.value, entries, order, |order|)
  {
    var ids: set<string>, sources: set<string> := {}, {};
    var list: seq<CourseMapping> := [];
    for i := 0 to |order|
      invariant Lists(list, entries, order, i)
      invariant sources == KeysBefore(order, i)
      invariant ids == IdsBefore(entries, order, i)
      invariant GoodBefore(entries, order, i)
    {
      var raw := order[i];
      var key, id := Key(raw), CourseOf(entries, raw);
      if !EntryFits(key, id) || key in sources || (id != "" && id in ids) {
        Refused(entries, order, i);
        return None;
      }
      sources := sources + {key};
      if id != "" {
        ids := ids + {id};
      }
      list := list + [MappingOf(key, id)];
      GoodNext(entries, order, i);
    }
    accepted := Some(list);
    AllGood(entries, order);
  }

  /** The first `n` entries in iteration order, each as its mapping. */
  ghost predicate Lists(list: seq<CourseMapping>, entries: map<string, string>, order: seq<string>, n: nat)
    requires Enumerates(order, entries.Keys)
  {
    |list| == n <= |order|
    && forall i :: 0 <= i < n ==> list[i] == MappingOf(Key(order[i]), CourseOf(entries, order[i]))
  }

  ghost function KeysBefore(order: seq<string>, n: nat): set<string>
    requires n <= |order|
  {
    set j | 0 <= j < n :: Key(order[j])
  }

  ghost function IdsBefore(entries: map<string, string>, order: seq<string>, n: nat): set<string>
    requires Enumerates(order, entries.Keys) && n <= |order|
  {
    set j | 0 <= j < n && CourseOf(entries, order[j]) != "" :: CourseOf(entries, order[j])
  }

  /** Entry `i` passes the three checks against the entries before it. */
  ghost predicate GoodEntry(entries: map<string, string>, order: seq<string>, i: nat)
    requires Enumerates(order, entries.Keys) && i < |order|
  {
    && EntryFits(Key(order[i]), CourseOf(entries, order[i]))
    && Key(order[i]) !in KeysBefore(order, i)
    && CourseOf(entries, order[i]) !in IdsBefore(entries, order, i)
  }

  ghost predicate GoodBefore(entries: map<string, string>, order: seq<string>, n: nat)
    requires Enumerates(order, entries.Keys) && n <= |order|
  {
    forall i :: 0 <= i < n ==> GoodEntry(entries, order, i)
  }

  lemma GoodNext(entries: map<string, string>, order: seq<string>, n: nat)
    requires Enumerates(order, entries.Keys) && n < |order|
    requires GoodBefore(entries, order, n) && GoodEntry(entries, order, n)
    ensures GoodBefore(entries, order, n + 1)
    ensures KeysBefore(order, n + 1) == KeysBefore(order, n) + {Key(order[n])}
    ensures IdsBefore(entries, order, n + 1)
            == IdsBefore(entries, order, n)
               + (if CourseOf(entries, order[n]) == "" then {} else {CourseOf(entries, order[n])})
  {
  }

  lemma Refused(entries: map<string, string>, order: seq<string>, i: nat)
    requires Enumerates(order, entries.Keys) && i < |order| && !GoodEntry(entries, order, i)
    ensures !Acceptable(entries)
  {
    assert order[i] in entries;
    if j :| 0 <= j < i && Key(order[j]) == Key(order[i]) {
      assert order[j] in entries;
    }
    if j :| 0 <= j < i && CourseOf(entries, order[j]) != ""
            && CourseOf(entries, order[j]) == CourseOf(entries, order[i]) {
      assert order[j] in entries;
    }
  }

  lemma GoodPair(entries: map<string, string>, order: seq<string>, i: nat, j: nat)
    requires Enumerates(order, entries.Keys) && i < j < |order| && GoodEntry(entries, order, j)
    ensures Key(order[i]) != Key(order[j])
    ensures CourseOf(entries, order[i]) != "" ==> CourseOf(entries, order[i]) != CourseOf(entries, order[j])
  {
    assert Key(order[i]) in KeysBefore(order, j);
    if CourseOf(entries, order[i]) != "" {
      assert CourseOf(entries, order[i]) in IdsBefore(entries, order, j);
    }
  }

  lemma AllGood(entries: map<string, string>, order: seq<string>)
    requires Enumerates(order, entries.Keys) && GoodBefore(entries, order, |order|)
    ensures Acceptable(entries)
  {
    forall raw | raw in entries ensures EntryFits(Key(raw), CourseOf(entries, raw)) {
      var i :| 0 <= i < |order| && order[i] == raw;
      assert GoodEntry(entries, order, i);
    }
    forall r, s | r in entries && s in entries && r != s
      ensures Key(r) != Key(s)
      ensures CourseOf(entries, r) != "" ==> CourseOf(entries, r) != CourseOf(entries, s)
    {
      var i :| 0 <= i < |order| && order[i] == r;
      var j :| 0 <= j < |order| && order[j] == s;
      assert GoodEntry(entries, order, i) && GoodEntry(entries, order, j);
      if i < j {
        GoodPair(entries, order, i, j);
      } else {
        GoodPair(entries, order, j, i);
      }
    }
  }

  /** Every mapped course is one of the tenant's active courses. */
  predicate Linkable(entries: map<string, string>, active: set<string>) {
    forall raw :: raw in entries ==> CourseOf(entries, raw) == "" || CourseOf(entries, raw) in active
  }

  // ----- looking a facility up -----

  /** `.find(|m| m.source_course_key == key).and_then(|m| m.golf_course_id)` */
  function Find(list: seq<CourseMapping>, key: string): Option<string> {
    if list == [] then None
    else if list[0].sourceKey == key then list[0].courseId
    else Find(list[1..], key)
  }

  /** The course a facility is linked to, said without any order. */
  function Linked(entries: map<string, string>, key: string): Option<string>
    requires Acceptable(entries)
  {
    if exists raw :: raw in entries && Key(raw) == key && CourseOf(entries, raw) != "" then
      var raw :| raw in entries && Key(raw) == key && CourseOf(entries, raw) != "";
      Some(CourseOf(entries, raw))
    else
      None
  }

  lemma LinkedVia(entries: map<string, string>, raw: string)
    requires Acceptable(entries) && raw in entries
    ensures Linked(entries, Key(raw)) == MappingOf(Key(raw), CourseOf(entries, raw)).courseId
  {
  }

  lemma {:induction false} FindFirst(list: seq<CourseMapping>, key: string)
    ensures (forall m :: m in list ==> m.sourceKey != key) ==> Find(list, key) == None
    ensures forall i :: 0 <= i < |list| && list[i].sourceKey == key
                        && (forall j :: 0 <= j < i ==> list[j].sourceKey != key)
                        ==> Find(list, key) == list[i].courseId
  {
    if list != [] {
      FindFirst(list[1..], key);
      forall i | 0 <= i < |list| && list[i].sourceKey == key && (forall j :: 0 <= j < i ==> list[j].sourceKey != key)
        ensures Find(list, key) == list[i].courseId
      {
        if i > 0 {
          assert list[0].sourceKey != key;
          assert list[1..][i - 1] == list[i];
          assert forall j :: 0 <= j < i - 1 ==> list[1..][j] == list[j + 1];
        }
      }
    }
  }

  /** Whatever order the hash map was walked in, every facility is answered the
      same. */
  lemma LookupIgnoresOrder(entries: map<string, string>, order: seq<string>, list: seq<CourseMapping>, key: string)
    requires Acceptable(entries) && Enumerates(order, entries.Keys) && Lists(list, entries, order, |order|)
    ensures Find(list, key) == Linked(entries, key)
  {
    FindFirst(list, key);
    if i :| 0 <= i < |order| && Key(order[i]) == key {
      assert order[i] in entries;
      forall j | 0 <= j < i ensures list[j].sourceKey != key {
        assert order[j] in entries;
      }
      LinkedVia(entries, order[i]);
    } else {
      forall m | m in list ensures m.sourceKey != key {
        var i :| 0 <= i < |list| && list[i] == m;
      }
      forall raw | raw in entries ensures Key(raw) != key {
        assert raw in order;
        var i :| 0 <= i < |order| && order[i] == raw;
      }
    }
  }

  // ----- buckets -----

  function BucketOf(entries: map<string, string>, key: string): string
    requires Acceptable(entries)
  {
    Linked(entries, key).GetOr(UNLINKED + key)
  }

  /** A key some facility name normalizes to: by `KeysAreSpaceless`, any text
      without whitespace. */
  predicate IsFacilityKey(key: string) {
    key != "" && Spaceless(key)
  }

  ghost predicate DistinctBuckets(entries: map<string, string>)
    requires Acceptable(entries)
  {
    forall k, l :: IsFacilityKey(k) && IsFacilityKey(l) && k != l ==> BucketOf(entries, k) != BucketOf(entries, l)
  }

  /** The entry's course id spells the fallback bucket of another facility that
      the mapping leaves unlinked. */
  predicate Disguised(entries: map<string, string>, raw: string)
    requires Acceptable(entries) && raw in entries
  {
    var id := CourseOf(entries, raw);
    && UNLINKED <= id
    && var key := id[|UNLINKED|..];
       IsFacilityKey(key) && key != Key(raw) && Linked(entries, key).None?
  }

  predicate NoDisguisedBucket(entries: map<string, string>)
    requires Acceptable(entries)
  {
    forall raw :: raw in entries ==> !Disguised(entries, raw)
  }

  /** Two facilities share a bucket exactly when an operator mapped one of them
      to a course id that spells the other's fallback bucket. */
  lemma BucketsDistinctExactlyWhen(entries: map<string, string>)
    requires Acceptable(entries)
    ensures DistinctBuckets(entries) <==> NoDisguisedBucket(entries)
  {
    if NoDisguisedBucket(entries) {
      UndisguisedAreDistinct(entries);
    }
    if DistinctBuckets(entries) {
      DistinctAreUndisguised(entries);
    }
  }

  lemma UndisguisedAreDistinct(entries: map<string, string>)
    requires Acceptable(entries) && NoDisguisedBucket(entries)
    ensures DistinctBuckets(entries)
  {
    forall k, l | IsFacilityKey(k) && IsFacilityKey(l) && k != l
      ensures BucketOf(entries, k) != BucketOf(entries, l)
    {
      if Linked(entries, k).Some? || Linked(entries, l).None? {
        BucketsDiffer(entries, k, l);
      } else {
        BucketsDiffer(entries, l, k);
      }
    }
  }

  lemma DistinctAreUndisguised(entries: map<string, string>)
    requires Acceptable(entries) && DistinctBuckets(entries)
    ensures NoDisguisedBucket(entries)
  {
    forall raw | raw in entries ensures !Disguised(entries, raw) {
      if Disguised(entries, raw) {
        var id := CourseOf(entries, raw);
        var key := id[|UNLINKED|..];
        assert id == UNLINKED + key;
        DisguisedCollides(entries, raw, key);
      }
    }
  }

  lemma DisguisedCollides(entries: map<string, string>, raw: string, k: string)
    requires Acceptable(entries) && raw in entries && k != Key(raw)
    requires CourseOf(entries, raw) == UNLINKED + k && Linked(entries, k).None?
    ensures IsFacilityKey(Key(raw)) && BucketOf(entries, Key(raw)) == BucketOf(entries, k)
  {
    LinkedVia(entries, raw);
    assert EntryFits(Key(raw), CourseOf(entries, raw));
    NormalizedIsSpaceless(raw);
  }

  lemma BucketsDiffer(entries: map<string, string>, k: string, l: string)
    requires Acceptable(entries) && NoDisguisedBucket(entries)
    requires IsFacilityKey(k) && IsFacilityKey(l) && k != l
    requires Linked(entries, k).Some? || Linked(entries, l).None?
    ensures BucketOf(entries, k) != BucketOf(entries, l)
  {
    if Linked(entries, k).Some? {
      var r :| r in entries && Key(r) == k && CourseOf(entries, r) == Linked(entries, k).value;
      if Linked(entries, l).Some? {
        var s :| s in entries && Key(s) == l && CourseOf(entries, s) == Linked(entries, l).value;
        assert CourseOf(entries, r) != "";
      } else {
        assert !Disguised(entries, r);
        assert (UNLINKED + l)[|UNLINKED|..] == l;
      }
    } else {
      assert (UNLINKED + k)[|UNLINKED|..] == k && (UNLINKED + l)[|UNLINKED|..] == l;
    }
  }

  /** A catalog without `unlinked:` ids keeps every facility in its own bucket. */
  lemma PlainCatalogKeepsBucketsApart(entries: map<string, string>)
    requires Acceptable(entries)
    requires forall raw :: raw in entries ==> !(UNLINKED <= CourseOf(entries, raw))
    ensures DistinctBuckets(entries)
  {
    BucketsDistinctExactlyWhen(entries);
  }

  lemma PlainNames()
    ensures NormalizeCourseKey("A") == "A" && NormalizeCourseKey("B") == "B"
  {
    assert Compact("A") == "A" && Compact("B") == "B";
  }

  lemma PlainCourse()
    ensures Trim("unlinked:B") == "unlinked:B"
  {
  }

  /** A colliding mapping: the operator links one facility to a course id that
      spells the other's fallback bucket. The validator accepts it, and so does
      the handler for a catalog with an active course of that id. */
  lemma DisguisedBucketExample()
    ensures var entries := map["A" := "unlinked:B"];
            && Acceptable(entries) && Linkable(entries, {"unlinked:B"})
            && IsFacilityKey("A") && IsFacilityKey("B")
            && BucketOf(entries, "A") == BucketOf(entries, "B")
  {
    hide NormalizeCourseKey, Trim;
    var entries := map["A" := "unlinked:B"];
    PlainNames();
    PlainCourse();
    assert Key("A") == "A" && CourseOf(entries, "A") == UNLINKED + "B";
    assert Linked(entries, "B").None?;
    DisguisedCollides(entries, "A", "B");
  }
}
