/** Recommending and assigning over a whole day: no caddie is booked twice for
    overlapping times as long as every assignment is made from a fresh list. */
module AssignmentRuns {
  import opened Wrappers
  import opened Orders
  import opened SmartAssign

  datatype Query = Query(tenantId: Option<string>, reservationId: Option<string>, request: Request)

  /** What the recommendation page is computed from, beside the assignments. */
  datatype Staff = Staff(profiles: seq<Profile>, availability: seq<Availability>)

  datatype Event =
    | Assign(query: Query, staff: Staff, profileId: string, assignmentId: string)
    | CancelAssignment(assignmentId: string)
    | Unassign(reservationId: string)

  predicate Present(value: Option<string>) {
    Filled(value).Some?
  }

  predicate RequiredFieldsPresent(query: Query) {
    && Present(query.tenantId) && Present(query.reservationId)
    && Present(query.request.date) && Present(query.request.startsAt) && Present(query.request.endsAt)
  }

  /** The guard that decides whether a row offers the Assign button. */
  predicate CanAssign(query: Query, item: Recommendation) {
    item.status != Busy && item.status != Inactive && RequiredFieldsPresent(query)
  }

  /** A row for the profile on the page computed from `seen` offers the button. */
  predicate Offered(query: Query, staff: Staff, profileId: string, seen: seq<Assignment>) {
    exists item :: item in Recommend(staff.profiles, staff.availability, seen, query.request)
                   && item.profile.id == profileId && CanAssign(query, item)
  }

  /** The assignment the button asks for. */
  function Booking(query: Query, profileId: string, assignmentId: string): Assignment {
    Assignment(assignmentId, Some(profileId), query.reservationId, query.request.date,
               query.request.startsAt, query.request.endsAt, Some("assigned"))
  }

  predicate Cancels(event: Event, assignment: Assignment) {
    match event
    case Assign(_, _, _, _) => false
    case CancelAssignment(id) => assignment.id == id
    case Unassign(reservationId) => assignment.reservationId == Some(reservationId)
  }

  function Struck(event: Event, assignment: Assignment): Assignment {
    if Cancels(event, assignment) then assignment.(status := Some("cancelled")) else assignment
  }

  /** One event; a button that is not offered cannot be pressed. */
  function Apply(event: Event, assignments: seq<Assignment>): seq<Assignment> {
    if !event.Assign? then
      seq(|assignments|, i requires 0 <= i < |assignments| => Struck(event, assignments[i]))
    else if Offered(event.query, event.staff, event.profileId, assignments) then
      assignments + [Booking(event.query, event.profileId, event.assignmentId)]
    else assignments
  }

  function Run(events: seq<Event>, assignments: seq<Assignment>): seq<Assignment> {
    if events == [] then assignments else Run(events[1..], Apply(events[0], assignments))
  }

  // ----- double booking -----

  predicate SameCaddieSameDay(a: Assignment, b: Assignment) {
    && Live(a) && Live(b)
    && a.staffProfileId.Some? && a.staffProfileId == b.staffProfileId
    && a.date.Some? && a.date == b.date
  }

  /** The two intervals share some time. */
  predicate Clash(a: Assignment, b: Assignment) {
    && StringLt(a.startsAt.GetOr(""), b.endsAt.GetOr(LATEST))
    && StringLt(b.startsAt.GetOr(""), a.endsAt.GetOr(LATEST))
  }

  ghost predicate NoDoubleBooking(assignments: seq<Assignment>) {
    forall i, j :: 0 <= i < j < |assignments| && SameCaddieSameDay(assignments[i], assignments[j]) ==>
      !Clash(assignments[i], assignments[j])
  }

  /** Two assignments that take some time clash exactly when they share a moment. */
  lemma ClashExactlyWhen(a: Assignment, b: Assignment)
    requires StringLt(a.startsAt.GetOr(""), a.endsAt.GetOr("99:99"))
    requires StringLt(b.startsAt.GetOr(""), b.endsAt.GetOr("99:99"))
    ensures Clash(a, b) <==> exists t :: Inside(a.startsAt, a.endsAt, t) && Inside(b.startsAt, b.endsAt, t)
  {
    hide StringLe;
    var start, other := a.startsAt.GetOr(""), b.startsAt.GetOr("");
    StringLeSelf(start);
    StringLeSelf(other);
    if Clash(a, b) {
      StringLeTotal(start, other);
      var t := if StringLe(start, other) then other else start;
      assert Inside(a.startsAt, a.endsAt, t) && Inside(b.startsAt, b.endsAt, t);
    }
    if t :| Inside(a.startsAt, a.endsAt, t) && Inside(b.startsAt, b.endsAt, t) {
      StrictlyBetween(start, t, b.endsAt.GetOr("99:99"));
      StrictlyBetween(other, t, a.endsAt.GetOr("99:99"));
    }
  }

  /** For a fully specified request, being occupied is clashing with the booking. */
  lemma OccupiesMeansClash(a: Assignment, query: Query, profileId: string, assignmentId: string)
    requires RequiredFieldsPresent(query)
    ensures var b := Booking(query, profileId, assignmentId);
            Occupies(a, profileId, query.request.date.value, query.request) <==> SameCaddieSameDay(a, b) && Clash(a, b)
  {
    hide StringLt;
  }

  /** Adding a booking keeps the day free of double bookings exactly when the
      caddie has no overlapping assignment at the moment it is added. */
  lemma BookingSafeExactlyWhenFree(assignments: seq<Assignment>, query: Query, profileId: string, assignmentId: string)
    requires NoDoubleBooking(assignments) && RequiredFieldsPresent(query)
    ensures NoDoubleBooking(assignments + [Booking(query, profileId, assignmentId)])
            <==> !HasOverlappingAssignment(profileId, assignments, query.request)
  {
    hide Occupies, SameCaddieSameDay, Clash;
    var b := Booking(query, profileId, assignmentId);
    var all := assignments + [b];
    forall i | 0 <= i < |assignments|
      ensures Occupies(assignments[i], profileId, query.request.date.value, query.request)
              <==> SameCaddieSameDay(all[i], all[|assignments|]) && Clash(all[i], all[|assignments|])
    {
      OccupiesMeansClash(assignments[i], query, profileId, assignmentId);
    }
    assert forall i :: 0 <= i < |assignments| ==> all[i] == assignments[i];
    if NoDoubleBooking(all) {
      assert !HasOverlappingAssignment(profileId, assignments, query.request);
    }
  }

  lemma BusyExactlyWhenOverlapping(item: Recommendation, staff: Staff, seen: seq<Assignment>, request: Request)
    requires item in Recommend(staff.profiles, staff.availability, seen, request)
    ensures HasOverlappingAssignment(item.profile.id, seen, request)
            <==> item.status == Busy || (item.status == Inactive && OverlappingAssignment in item.reasons)
  {
    hide Recommend, Scored, HasOverlappingAssignment;
    RecommendsEachProfile(staff.profiles, staff.availability, seen, request);
    ScoredSaysBusy(item.profile, staff.availability, seen, request);
  }

  lemma ScoredSaysBusy(profile: Profile, availability: seq<Availability>, seen: seq<Assignment>, request: Request)
    ensures var item := Scored(profile, availability, seen, request);
            && (OverlappingAssignment in item.reasons <==> HasOverlappingAssignment(profile.id, seen, request))
            && (item.status == Inactive <==> !Active(profile))
            && (Active(profile) ==> (item.status == Busy <==> HasOverlappingAssignment(profile.id, seen, request)))
  {
    hide HasOverlappingAssignment, MatchingShift, Tally, CaddieCode;
    var busy := HasOverlappingAssignment(profile.id, seen, request);
    var reasons := ReasonsFor(profile, MatchingShift(profile.id, availability, request).Some?, busy, request);
    assert reasons[2] == if busy then OverlappingAssignment else NoOverlappingAssignment;
  }

  lemma OfferedMeansFree(query: Query, staff: Staff, profileId: string, seen: seq<Assignment>)
    requires Offered(query, staff, profileId, seen)
    ensures RequiredFieldsPresent(query) && !HasOverlappingAssignment(profileId, seen, query.request)
  {
    hide Recommend, HasOverlappingAssignment;
    var item :| item in Recommend(staff.profiles, staff.availability, seen, query.request)
                && item.profile.id == profileId && CanAssign(query, item);
    BusyExactlyWhenOverlapping(item, staff, seen, query.request);
  }

  /** The button is there exactly when every field of the request is filled in,
      the caddie has an active profile and no assignment of theirs overlaps. */
  lemma OfferedExactlyWhen(query: Query, staff: Staff, profileId: string, seen: seq<Assignment>)
    ensures Offered(query, staff, profileId, seen) <==>
              && query.tenantId.GetOr("") != "" && query.reservationId.GetOr("") != ""
              && query.request.date.GetOr("") != ""
              && query.request.startsAt.GetOr("") != "" && query.request.endsAt.GetOr("") != ""
              && (exists p :: p in staff.profiles && p.id == profileId && p.status != Some("inactive"))
              && !HasOverlappingAssignment(profileId, seen, query.request)
  {
    hide Recommend, HasOverlappingAssignment, Scored;
    var request := query.request;
    RecommendsEachProfile(staff.profiles, staff.availability, seen, request);
    if Offered(query, staff, profileId, seen) {
      var item :| item in Recommend(staff.profiles, staff.availability, seen, request)
                  && item.profile.id == profileId && CanAssign(query, item);
      ScoredSaysBusy(item.profile, staff.availability, seen, request);
      OfferedMeansFree(query, staff, profileId, seen);
    }
    if p :| p in staff.profiles && p.id == profileId && p.status != Some("inactive") {
      var item := Scored(p, staff.availability, seen, request);
      ScoredKeepsProfile(p, staff.availability, seen, request);
      ScoredSaysBusy(p, staff.availability, seen, request);
    }
  }

  /** Cancelling an assignment, or a whole reservation, frees the caddie of exactly
      what was cancelled. */
  lemma CancellationFrees(event: Event, assignments: seq<Assignment>, profileId: string, request: Request, date: string)
    requires !event.Assign? && request.date == Some(date) && date != ""
    ensures HasOverlappingAssignment(profileId, Apply(event, assignments), request)
            <==> exists a :: a in assignments && Occupies(a, profileId, date, request)
                             && (event.CancelAssignment? ==> a.id != event.assignmentId)
                             && (event.Unassign? ==> a.reservationId != Some(event.reservationId))
  {
    hide OverlapsRequestedTime;
    var after := Apply(event, assignments);
    if a :| a in assignments && Occupies(a, profileId, date, request) && !Cancels(event, a) {
      var i :| 0 <= i < |assignments| && assignments[i] == a;
      assert after[i] == a;
    }
    if b :| b in after && Occupies(b, profileId, date, request) {
      var i :| 0 <= i < |after| && after[i] == b;
      assert b == Struck(event, assignments[i]) == assignments[i];
    }
  }

  lemma ApplyKeeps(event: Event, assignments: seq<Assignment>)
    requires NoDoubleBooking(assignments)
    ensures NoDoubleBooking(Apply(event, assignments))
  {
    hide Offered, Clash;
    if event.Assign? {
      if Offered(event.query, event.staff, event.profileId, assignments) {
        OfferedMeansFree(event.query, event.staff, event.profileId, assignments);
        BookingSafeExactlyWhenFree(assignments, event.query, event.profileId, event.assignmentId);
      }
    } else {
      StrikingKeeps(event, assignments);
    }
  }

  lemma StrikingKeeps(event: Event, assignments: seq<Assignment>)
    requires NoDoubleBooking(assignments) && !event.Assign?
    ensures NoDoubleBooking(Apply(event, assignments))
  {
    hide StringLt, Cancels;
    var after := Apply(event, assignments);
    forall i, j | 0 <= i < j < |after| && SameCaddieSameDay(after[i], after[j]) ensures !Clash(after[i], after[j]) {
      assert after[i] == Struck(event, assignments[i]) && after[j] == Struck(event, assignments[j]);
      assert SameCaddieSameDay(assignments[i], assignments[j]);
    }
  }

  /** No run of assignments and cancellations books a caddie twice. */
  lemma {:induction false} RunNeverDoubleBooks(events: seq<Event>, assignments: seq<Assignment>)
    requires NoDoubleBooking(assignments)
    ensures NoDoubleBooking(Run(events, assignments))
  {
    hide Apply, NoDoubleBooking;
    if events != [] {
      ApplyKeeps(events[0], assignments);
      RunNeverDoubleBooks(events[1..], Apply(events[0], assignments));
    }
  }

  // ----- an assigned caddie stays unavailable -----

  lemma ApplyRetains(event: Event, assignments: seq<Assignment>, booked: Assignment)
    requires booked in assignments && !Cancels(event, booked)
    ensures booked in Apply(event, assignments)
  {
    hide Offered, Cancels;
    var i :| 0 <= i < |assignments| && assignments[i] == booked;
    assert Apply(event, assignments)[i] == booked;
  }

  lemma {:induction false} RunRetains(events: seq<Event>, assignments: seq<Assignment>, booked: Assignment)
    requires booked in assignments && forall e :: e in events ==> !Cancels(e, booked)
    ensures booked in Run(events, assignments)
  {
    hide Apply, Cancels;
    if events != [] {
      assert events[0] in events;
      ApplyRetains(events[0], assignments, booked);
      assert forall e :: e in events[1..] ==> e in events;
      RunRetains(events[1..], Apply(events[0], assignments), booked);
    }
  }

  /** Once assigned, and until that assignment is cancelled, a caddie is never
      offered again for a request overlapping it on that day: every row of
      theirs is Busy or Inactive, whatever happened in between. */
  lemma AssignedStaysBusy(assign: Event, events: seq<Event>, before: seq<Assignment>, later: Query, staff: Staff,
                          item: Recommendation)
    requires assign.Assign? && Offered(assign.query, assign.staff, assign.profileId, before)
    requires var booked := Booking(assign.query, assign.profileId, assign.assignmentId);
             forall e :: e in events ==> !Cancels(e, booked)
    requires later.request.date == assign.query.request.date
    requires OverlapsRequestedTime(assign.query.request.startsAt, assign.query.request.endsAt, later.request)
    requires item in Recommend(staff.profiles, staff.availability, Run([assign] + events, before), later.request)
    requires item.profile.id == assign.profileId
    ensures (item.status == Busy || item.status == Inactive) && !CanAssign(later, item)
  {
    hide Recommend, Cancels, Offered, OverlapsRequestedTime;
    var booked := Booking(assign.query, assign.profileId, assign.assignmentId);
    var after := Apply(assign, before);
    assert booked == after[|before|];
    RunRetains(events, after, booked);
    assert ([assign] + events)[1..] == events;
    var now := Run([assign] + events, before);
    OfferedMeansFree(assign.query, assign.staff, assign.profileId, before);
    assert Occupies(booked, assign.profileId, later.request.date.value, later.request);
    assert HasOverlappingAssignment(assign.profileId, now, later.request);
    BusyExactlyWhenOverlapping(item, staff, now, later.request);
  }

  /** The list must be fresh: two requests answered from the same list can book
      one caddie twice. */
  lemma StaleListDoubleBooks() returns (first: Query, second: Query, staff: Staff, profileId: string)
    ensures Offered(first, staff, profileId, []) && Offered(second, staff, profileId, [])
    ensures NoDoubleBooking([])
    ensures !NoDoubleBooking([] + [Booking(first, profileId, "1")] + [Booking(second, profileId, "2")])
  {
    var request := Request(Some("d"), Some("1"), Some("2"), None, None);
    first, second := Query(Some("t"), Some("r"), request), Query(Some("t"), Some("s"), request);
    var profile := Profile("p", None, None, None, NoKnowledge, map[], false, false);
    staff, profileId := Staff([profile], []), "p";
    var item := Scored(profile, [], [], request);
    RecommendsEachProfile(staff.profiles, [], [], request);
    assert profile in staff.profiles && item.profile.id == profileId;
    assert CanAssign(first, item) && CanAssign(second, item);
    var a, b := Booking(first, profileId, "1"), Booking(second, profileId, "2");
    var all := [] + [a] + [b];
    assert all[0] == a && all[1] == b;
    assert "1"[1..] == "2"[1..] == "";
    assert SameCaddieSameDay(all[0], all[1]) && Clash(all[0], all[1]);
  }

  // ----- the demonstration -----

  datatype Reservation = Reservation(id: string, tenantId: string, courseId: string, customerId: string,
                                     date: string, startsAt: string, endsAt: string)

  datatype Seed = Seed(profiles: seq<Profile>, availability: seq<Availability>, reservations: seq<Reservation>,
                       assignments: seq<Assignment>)

  datatype Trace = Trace(recommendedProfileId: string, doubleBookingBlocked: bool)

  function RequestFor(r: Reservation): Request {
    Request(Some(r.date), Some(r.startsAt), Some(r.endsAt), Some(r.courseId), Some(r.customerId))
  }

  function FirstWithStatus(list: seq<Recommendation>, status: Status): (first: Option<Recommendation>)
    ensures first.None? <==> forall r :: r in list ==> r.status != status
    ensures first.Some? ==> first.value in list && first.value.status == status
  {
    if list == [] then None
    else if list[0].status == status then Some(list[0])
    else FirstWithStatus(list[1..], status)
  }

  function FirstWithId(list: seq<Recommendation>, id: string): (first: Option<Recommendation>)
    ensures first.None? <==> forall r :: r in list ==> r.profile.id != id
    ensures first.Some? ==> first.value in list && first.value.profile.id == id
  {
    if list == [] then None
    else if list[0].profile.id == id then Some(list[0])
    else FirstWithId(list[1..], id)
  }

  const DEMO_DATE := "2026-06-01"

  /** The assignment the demonstration adds for the first reservation. Its times
      are the reservation's; its date is the fixed one, whatever the
      reservation's. */
  function DemoBooking(first: Reservation, profileId: string): Assignment {
    Assignment("asg_" + first.id, Some(profileId), Some(first.id), Some(DEMO_DATE),
               Some(first.startsAt), Some(first.endsAt), Some("assigned"))
  }

  /** The assignment added for the first reservation takes the caddie away from
      the second. The first reservation's own date plays no part. */
  predicate Takes(first: Reservation, second: Reservation) {
    && second.date == DEMO_DATE
    && OverlapsRequestedTime(Some(first.startsAt), Some(first.endsAt), RequestFor(second))
  }

  function FirstList(seed: Seed): seq<Recommendation>
    requires |seed.reservations| >= 2
  {
    Recommend(seed.profiles, seed.availability, seed.assignments, RequestFor(seed.reservations[0]))
  }

  function SecondList(seed: Seed, profileId: string): seq<Recommendation>
    requires |seed.reservations| >= 2
  {
    Recommend(seed.profiles, seed.availability, seed.assignments + [DemoBooking(seed.reservations[0], profileId)],
              RequestFor(seed.reservations[1]))
  }

  /** Recommend, assign the first recommended caddie, recommend again: `None`
      where the demonstration panics because the seed does not support it. The
      clash is reported blocked if and only if the row found for that caddie is
      active and the second reservation overlaps the added assignment, which
      lies on the fixed date, or an assignment of the seed; with ids naming
      profiles that row is always active. */
  method RunHeadlessDemo(seed: Seed) returns (trace: Option<Trace>)
    ensures trace.None? <==> |seed.reservations| < 2 || FirstWithStatus(FirstList(seed), Recommended).None?
    ensures trace.Some? ==>
              && trace.value.recommendedProfileId == FirstWithStatus(FirstList(seed), Recommended).value.profile.id
              && var id := trace.value.recommendedProfileId;
                 var row := FirstWithId(SecondList(seed, id), id);
                 && row.Some?
                 && (trace.value.doubleBookingBlocked <==>
                       && Active(row.value.profile)
                       && (|| Takes(seed.reservations[0], seed.reservations[1])
                           || HasOverlappingAssignment(id, seed.assignments, RequestFor(seed.reservations[1]))))
                 && (IdsNameProfiles(seed.profiles) ==> Active(row.value.profile))
  {
    hide Recommend, FirstWithStatus, FirstWithId;
    if |seed.reservations| < 2 {
      return None;
    }
    var first, second := seed.reservations[0], seed.reservations[1];
    var ranked := RecommendCaddies(seed.profiles, seed.availability, seed.assignments, RequestFor(first));
    var selected := FindStatus(ranked, Recommended);
    if selected.None? {
      return None;
    }
    var caddie := selected.value.profile;
    var after := seed.assignments + [DemoBooking(first, caddie.id)];
    var again := RecommendCaddies(seed.profiles, seed.availability, after, RequestFor(second));
    DemoFinds(seed, selected.value);
    var found := FindProfile(again, caddie.id);
    DemoBlocked(seed, caddie.id, found);
    trace := Some(Trace(caddie.id, found.status == Busy));
  }

  method FindStatus(list: seq<Recommendation>, status: Status) returns (found: Option<Recommendation>)
    ensures found == FirstWithStatus(list, status)
  {
    for i := 0 to |list|
      invariant FirstWithStatus(list, status) == FirstWithStatus(list[i..], status)
    {
      assert list[i..][1..] == list[i + 1..];
      if list[i].status == status {
        return Some(list[i]);
      }
    }
    found := None;
  }

  method FindProfile(list: seq<Recommendation>, id: string) returns (found: Recommendation)
    requires FirstWithId(list, id).Some?
    ensures Some(found) == FirstWithId(list, id)
  {
    var i := 0;
    while list[i].profile.id != id
      invariant 0 <= i < |list| && FirstWithId(list, id) == FirstWithId(list[i..], id)
      decreases |list| - i
    {
      assert list[i..][1..] == list[i + 1..];
      i := i + 1;
    }
    found := list[i];
  }

  /** The selected caddie is still listed the second time, and with ids naming
      profiles it is their own, active row that is found. */
  lemma DemoFinds(seed: Seed, selected: Recommendation)
    requires |seed.reservations| >= 2 && selected in FirstList(seed) && selected.status == Recommended
    ensures var id := selected.profile.id;
            var row := FirstWithId(SecondList(seed, id), id);
            row.Some? && (IdsNameProfiles(seed.profiles) ==> Active(row.value.profile))
  {
    hide Recommend, Scored, FirstWithId;
    var first, second := seed.reservations[0], seed.reservations[1];
    var profile := selected.profile;
    var after := seed.assignments + [DemoBooking(first, profile.id)];
    RecommendsEachProfile(seed.profiles, seed.availability, seed.assignments, RequestFor(first));
    RecommendsEachProfile(seed.profiles, seed.availability, after, RequestFor(second));
    ScoredKeepsProfile(profile, seed.availability, after, RequestFor(second));
    ScoredSaysBusy(profile, seed.availability, seed.assignments, RequestFor(first));
  }

  lemma DemoBlocked(seed: Seed, id: string, found: Recommendation)
    requires |seed.reservations| >= 2 && found in SecondList(seed, id) && found.profile.id == id
    ensures found.status == Busy <==>
              && Active(found.profile)
              && (|| Takes(seed.reservations[0], seed.reservations[1])
                  || HasOverlappingAssignment(id, seed.assignments, RequestFor(seed.reservations[1])))
  {
    hide Recommend, Scored, OverlapsRequestedTime, HasOverlappingAssignment;
    var first, second := seed.reservations[0], seed.reservations[1];
    var after := seed.assignments + [DemoBooking(first, id)];
    RecommendsEachProfile(seed.profiles, seed.availability, after, RequestFor(second));
    ScoredSaysBusy(found.profile, seed.availability, after, RequestFor(second));
    OverlapAfterBooking(seed.assignments, first, second, id);
  }

  lemma OverlapAfterBooking(assignments: seq<Assignment>, first: Reservation, second: Reservation, id: string)
    ensures HasOverlappingAssignment(id, assignments + [DemoBooking(first, id)], RequestFor(second))
            <==> Takes(first, second) || HasOverlappingAssignment(id, assignments, RequestFor(second))
  {
    hide OverlapsRequestedTime;
    var booked := DemoBooking(first, id);
    var all := assignments + [booked];
    assert all[|assignments|] == booked;
    assert forall a :: a in all <==> a in assignments || a == booked;
    assert Occupies(booked, id, second.date, RequestFor(second))
      <==> DEMO_DATE == second.date
           && OverlapsRequestedTime(Some(first.startsAt), Some(first.endsAt), RequestFor(second));
  }

  /** The two reservations want a caddie at the same time of the same day. */
  predicate ReservationsClash(first: Reservation, second: Reservation) {
    && first.date != "" && first.date == second.date
    && OverlapsRequestedTime(Some(first.startsAt), Some(first.endsAt), RequestFor(second))
  }

  /** A clash on another day goes through: the caddie just assigned is found a
      second time, not busy. */
  lemma OtherDayClashGoesThrough() returns (seed: Seed, id: string)
    ensures |seed.reservations| == 2 && ReservationsClash(seed.reservations[0], seed.reservations[1])
    ensures IdsNameProfiles(seed.profiles)
    ensures var selected := FirstWithStatus(FirstList(seed), Recommended);
            selected.Some? && selected.value.profile.id == id
    ensures var row := FirstWithId(SecondList(seed, id), id);
            row.Some? && row.value.status != Busy
  {
    id := "p";
    var day := "2026-06-02";
    var profile := Profile(id, None, None, None, NoKnowledge, map[], false, false);
    var shift := Availability("s", Some(id), Some(day), None, None, None);
    var first := Reservation("r", "t", "c", "m", day, "08:00", "12:00");
    var second := first.(id := "s");
    seed := Seed([profile], [shift], [first, second], []);
    assert day[9] != DEMO_DATE[9];
    EarlyAndLate();
    assert ReservationsClash(first, second) && CoversRequestedTime(None, None, RequestFor(first));
    hide StringLe, StringLt, Recommend, FirstWithStatus, FirstWithId, OverlapsRequestedTime, CoversRequestedTime;
    SoleCaddieIsRecommended(seed, profile, shift, first);
    var selected := FirstWithStatus(FirstList(seed), Recommended).value;
    DemoFinds(seed, selected);
    DemoBlocked(seed, id, FirstWithId(SecondList(seed, id), id).value);
  }

  lemma EarlyAndLate()
    ensures StringLt("08:00", "12:00") && StringLe("12:00", LATEST)
  {
    assert "08:00"[0] != "12:00"[0] && "12:00"[0] != LATEST[0];
  }

  lemma SoleCaddieIsRecommended(seed: Seed, profile: Profile, shift: Availability, first: Reservation)
    requires seed.profiles == [profile] && seed.availability == [shift] && seed.assignments == []
    requires |seed.reservations| == 2 && seed.reservations[0] == first && profile.status.None?
    requires shift.staffProfileId == Some(profile.id) && shift.date == Some(first.date) && first.date != ""
    requires shift.status.None? && CoversRequestedTime(shift.startsAt, shift.endsAt, RequestFor(first))
    ensures var selected := FirstWithStatus(FirstList(seed), Recommended);
            selected.Some? && selected.value.profile == profile
  {
    hide Tally, Recommend, CoversRequestedTime;
    var request := RequestFor(first);
    RecommendsEachProfile(seed.profiles, seed.availability, seed.assignments, request);
    assert profile in seed.profiles && shift in seed.availability;
    assert Offers(shift, profile.id, first.date, request);
    EarliestOfferIsEarliest(profile.id, seed.availability, first.date, request);
    assert Scored(profile, seed.availability, seed.assignments, request).status == Recommended;
    assert Scored(profile, seed.availability, seed.assignments, request) in FirstList(seed);
  }
}
