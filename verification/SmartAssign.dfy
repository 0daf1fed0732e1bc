/** Ranking caddies for a tee time: each profile is scored against the shifts
    and assignments, then the list is sorted in place. */
module SmartAssign {
  import opened Wrappers
  import opened Orders

  /** The part of a profile's free-form JSON the scoring reads. */
  datatype CourseKnowledge = NoKnowledge | OneCourse(course: string) | Courses(courses: seq<string>)

  datatype Profile = Profile(
    id: string,
    staffMemberId: Option<string>,
    status: Option<string>,
    caddieCode: Option<string>,
    courseKnowledge: CourseKnowledge,
    customerRatings: map<string, real>,
    rookie: bool,
    senior: bool)

  datatype Availability = Availability(
    id: string,
    staffProfileId: Option<string>,
    date: Option<string>,
    startsAt: Option<string>,
    endsAt: Option<string>,
    status: Option<string>)

  datatype Assignment = Assignment(
    id: string,
    staffProfileId: Option<string>,
    reservationId: Option<string>,
    date: Option<string>,
    startsAt: Option<string>,
    endsAt: Option<string>,
    status: Option<string>)

  datatype Request = Request(
    date: Option<string>,
    startsAt: Option<string>,
    endsAt: Option<string>,
    courseId: Option<string>,
    customerId: Option<string>)

  datatype Status = Recommended | Available | Busy | Inactive

  datatype Reason =
    | ActiveCaddie | InactiveCaddie
    | ShiftCoversTeeTime | NoMatchingShift
    | NoOverlappingAssignment | OverlappingAssignment
    | CourseKnowledgeMatch | CourseKnowledgeMissing
    | CustomerRatingPriority | CustomerRatingMissing
    | RookiePriorityDown
    | SeniorCaddie
  {
    /** What the reason is worth. */
    function Points(): int {
      match this
      case ActiveCaddie => 100
      case ShiftCoversTeeTime => 80
      case NoOverlappingAssignment => 60
      case OverlappingAssignment => -200
      case CourseKnowledgeMatch => 25
      case CustomerRatingPriority => 20
      case RookiePriorityDown => -15
      case SeniorCaddie => 10
      case _ => 0
    }
  }

  datatype TieBreak = TieBreak(shiftStart: string, caddieCode: string, profileId: string)

  datatype Recommendation = Recommendation(
    profile: Profile, score: int, status: Status, reasons: seq<Reason>, tieBreak: TieBreak)

  const LATEST := "99:99"

  // ----- intervals -----

  function Filled(value: Option<string>): Option<string> {
    if value == Some("") then None else value
  }

  predicate CoversRequestedTime(startsAt: Option<string>, endsAt: Option<string>, request: Request) {
    var from, to := Filled(request.startsAt), Filled(request.endsAt);
    from.None? || to.None? || (StringLe(startsAt.GetOr(""), from.value) && StringLe(to.value, endsAt.GetOr(LATEST)))
  }

  predicate OverlapsRequestedTime(startsAt: Option<string>, endsAt: Option<string>, request: Request) {
    var from, to := Filled(request.startsAt), Filled(request.endsAt);
    from.None? || to.None? || (StringLt(startsAt.GetOr(""), to.value) && StringLt(from.value, endsAt.GetOr(LATEST)))
  }

  predicate Live(assignment: Assignment) {
    assignment.status != Some("cancelled")
  }

  predicate Occupies(assignment: Assignment, profileId: string, date: string, request: Request) {
    && assignment.staffProfileId == Some(profileId)
    && assignment.date == Some(date)
    && Live(assignment)
    && OverlapsRequestedTime(assignment.startsAt, assignment.endsAt, request)
  }

  predicate HasOverlappingAssignment(profileId: string, assignments: seq<Assignment>, request: Request) {
    var date := Filled(request.date);
    date.Some? && exists a :: a in assignments && Occupies(a, profileId, date.value, request)
  }

  // ----- the matching shift -----

  predicate Offers(item: Availability, profileId: string, date: string, request: Request) {
    && item.staffProfileId == Some(profileId)
    && item.date == Some(date)
    && item.status.GetOr("available") != "unavailable"
    && CoversRequestedTime(item.startsAt, item.endsAt, request)
  }

  predicate NotLater(a: Availability, b: Availability) {
    var p, q := a.startsAt.GetOr(LATEST), b.startsAt.GetOr(LATEST);
    if p != q then StringLe(p, q) else StringLe(a.id, b.id)
  }

  /** The first of the earliest offers. */
  function EarliestOffer(profileId: string, availability: seq<Availability>, date: string,
                         request: Request): Option<Availability> {
    if availability == [] then None
    else
      var later := EarliestOffer(profileId, availability[1..], date, request);
      if !Offers(availability[0], profileId, date, request) then later
      else if later.Some? && !NotLater(availability[0], later.value) then later
      else Some(availability[0])
  }

  function MatchingShift(profileId: string, availability: seq<Availability>, request: Request): Option<Availability> {
    var date := Filled(request.date);
    if date.None? then None else EarliestOffer(profileId, availability, date.value, request)
  }

  function ShiftStart(shift: Option<Availability>): string {
    match shift
    case None => LATEST
    case Some(item) => item.startsAt.GetOr(LATEST)
  }

  lemma NotLaterTransitive(a: Availability, b: Availability, c: Availability)
    requires NotLater(a, b) && NotLater(b, c)
    ensures NotLater(a, c)
  {
    var p, q, r := a.startsAt.GetOr(LATEST), b.startsAt.GetOr(LATEST), c.startsAt.GetOr(LATEST);
    if p == r && p != q {
      StringLeAntisymmetric(p, q);
    } else if p != q && q != r {
      StringLeTransitive(p, q, r);
    } else if p == q == r {
      StringLeTransitive(a.id, b.id, c.id);
    }
  }

  lemma NotLaterTotal(a: Availability, b: Availability)
    ensures NotLater(a, b) || NotLater(b, a)
  {
    StringLeTotal(a.startsAt.GetOr(LATEST), b.startsAt.GetOr(LATEST));
    StringLeTotal(a.id, b.id);
  }

  /** A shift is chosen exactly when one is offered, and no offer is earlier. */
  lemma {:induction false} EarliestOfferIsEarliest(profileId: string, availability: seq<Availability>, date: string,
                                                   request: Request)
    ensures var best := EarliestOffer(profileId, availability, date, request);
            && (best.None? <==> forall item :: item in availability ==> !Offers(item, profileId, date, request))
            && (best.Some? ==> best.value in availability && Offers(best.value, profileId, date, request))
            && forall item :: item in availability && Offers(item, profileId, date, request) ==>
                 best.Some? && NotLater(best.value, item)
  {
    hide Offers, NotLater;
    if availability != [] {
      var head, rest := availability[0], availability[1..];
      EarliestOfferIsEarliest(profileId, rest, date, request);
      var later := EarliestOffer(profileId, rest, date, request);
      NotLaterTotal(head, head);
      if later.Some? {
        NotLaterTotal(head, later.value);
        if NotLater(head, later.value) {
          forall item | item in rest && Offers(item, profileId, date, request) ensures NotLater(head, item) {
            NotLaterTransitive(head, later.value, item);
          }
        }
      }
      assert availability == [head] + rest;
    }
  }

  /** The start shown for a caddie is the earliest among the offers, and of the
      offers starting then the one with the least id is chosen. */
  lemma ShiftStartIsEarliest(profileId: string, availability: seq<Availability>, request: Request, date: string,
                             item: Availability)
    requires request.date == Some(date) && date != ""
    requires item in availability && Offers(item, profileId, date, request)
    ensures var best := MatchingShift(profileId, availability, request);
            && best.Some? && StringLe(ShiftStart(best), item.startsAt.GetOr("99:99"))
            && (ShiftStart(best) == item.startsAt.GetOr("99:99") ==> StringLe(best.value.id, item.id))
  {
    hide Offers, EarliestOffer, StringLe;
    EarliestOfferIsEarliest(profileId, availability, date, request);
    var best := MatchingShift(profileId, availability, request).value;
    assert NotLater(best, item);
    if ShiftStart(Some(best)) == item.startsAt.GetOr("99:99") {
      StringLeTotal(ShiftStart(Some(best)), item.startsAt.GetOr("99:99"));
    }
  }

  /** Which shift starts first does not depend on the order of the list, even
      when two equally early shifts leave the choice between them to it. */
  lemma ShiftIgnoresOrder(profileId: string, a: seq<Availability>, b: seq<Availability>, request: Request)
    requires multiset(a) == multiset(b)
    ensures var p, q := MatchingShift(profileId, a, request), MatchingShift(profileId, b, request);
            p.Some? == q.Some? && ShiftStart(p) == ShiftStart(q)
  {
    hide Offers, EarliestOffer;
    assert forall item :: item in a <==> item in multiset(a);
    assert forall item :: item in b <==> item in multiset(b);
    var date := Filled(request.date);
    if date.Some? {
      EarliestOfferIsEarliest(profileId, a, date.value, request);
      EarliestOfferIsEarliest(profileId, b, date.value, request);
      var p, q := MatchingShift(profileId, a, request), MatchingShift(profileId, b, request);
      if p.Some? && q.Some? && ShiftStart(p) != ShiftStart(q) {
        StringLeAntisymmetric(ShiftStart(p), ShiftStart(q));
      }
    }
  }

  // ----- what the interval tests mean -----

  /** `t` lies within the interval, its ends included. */
  predicate Within(startsAt: Option<string>, endsAt: Option<string>, t: string) {
    StringLe(startsAt.GetOr(""), t) && StringLe(t, endsAt.GetOr("99:99"))
  }

  /** `t` lies within the interval, its end excluded. */
  predicate Inside(startsAt: Option<string>, endsAt: Option<string>, t: string) {
    StringLe(startsAt.GetOr(""), t) && StringLt(t, endsAt.GetOr("99:99"))
  }

  /** A request with both times given, in their order. */
  predicate Timed(request: Request, from: string, to: string) {
    request.startsAt == Some(from) && request.endsAt == Some(to) && from != "" && to != "" && StringLe(from, to)
  }

  /** Covering a request is containing every moment of it. */
  lemma CoversExactlyWhen(startsAt: Option<string>, endsAt: Option<string>, request: Request, from: string, to: string)
    requires Timed(request, from, to)
    ensures CoversRequestedTime(startsAt, endsAt, request)
            <==> forall t :: StringLe(from, t) && StringLe(t, to) ==> Within(startsAt, endsAt, t)
  {
    hide StringLe;
    StringLeSelf(from);
    StringLeSelf(to);
    if CoversRequestedTime(startsAt, endsAt, request) {
      forall t | StringLe(from, t) && StringLe(t, to) ensures Within(startsAt, endsAt, t) {
        StringLeTransitive(startsAt.GetOr(""), from, t);
        StringLeTransitive(t, to, endsAt.GetOr("99:99"));
      }
    } else {
      assert !Within(startsAt, endsAt, from) || !Within(startsAt, endsAt, to);
    }
  }

  lemma StringLeSelf(a: string)
    ensures StringLe(a, a)
  {
    StringLeTotal(a, a);
  }

  /** Overlapping a request is having a moment in common with it, for intervals
      that have any. */
  lemma OverlapsExactlyWhen(startsAt: Option<string>, endsAt: Option<string>, request: Request, from: string,
                            to: string)
    requires Timed(request, from, to) && from != to
    requires StringLt(startsAt.GetOr(""), endsAt.GetOr("99:99"))
    ensures OverlapsRequestedTime(startsAt, endsAt, request)
            <==> exists t :: StringLe(from, t) && StringLt(t, to) && Inside(startsAt, endsAt, t)
  {
    hide StringLe;
    var start, end := startsAt.GetOr(""), endsAt.GetOr("99:99");
    StringLeSelf(from);
    StringLeSelf(start);
    if OverlapsRequestedTime(startsAt, endsAt, request) {
      StringLeTotal(start, from);
      var t := if StringLe(start, from) then from else start;
      assert StringLe(from, t) && StringLt(t, to) && Inside(startsAt, endsAt, t);
    }
    if t :| StringLe(from, t) && StringLt(t, to) && Inside(startsAt, endsAt, t) {
      StrictlyBetween(start, t, to);
      StrictlyBetween(from, t, end);
    }
  }

  lemma StrictlyBetween(a: string, b: string, c: string)
    requires StringLe(a, b) && StringLt(b, c)
    ensures StringLt(a, c)
  {
    hide StringLe;
    StringLeTransitive(a, b, c);
    if a == c {
      StringLeAntisymmetric(a, b);
    }
  }

  /** A request that leaves a time open is covered by every shift of the day and
      overlaps every assignment of it. */
  lemma OpenTimesAreAnyTime(startsAt: Option<string>, endsAt: Option<string>, request: Request)
    requires || request.startsAt == None || request.startsAt == Some("")
             || request.endsAt == None || request.endsAt == Some("")
    ensures CoversRequestedTime(startsAt, endsAt, request) && OverlapsRequestedTime(startsAt, endsAt, request)
  {
  }

  // ----- the score -----

  predicate Active(profile: Profile) {
    profile.status != Some("inactive")
  }

  predicate HasCourseKnowledge(profile: Profile, courseId: string) {
    match profile.courseKnowledge
    case NoKnowledge => false
    case OneCourse(course) => course == courseId
    case Courses(courses) => courseId in courses
  }

  predicate RatedHighly(profile: Profile, customerId: string) {
    customerId in profile.customerRatings && profile.customerRatings[customerId] >= 4.0
  }

  function CaddieCode(profile: Profile): string {
    profile.caddieCode.GetOr(profile.staffMemberId.GetOr(profile.id))
  }

  function Either(condition: bool, yes: Reason, no: Reason): seq<Reason> {
    [if condition then yes else no]
  }

  function When(condition: bool, reason: Reason): seq<Reason> {
    if condition then [reason] else []
  }

  function CourseReason(profile: Profile, request: Request): seq<Reason> {
    var course := Filled(request.courseId);
    if course.None? then []
    else Either(HasCourseKnowledge(profile, course.value), CourseKnowledgeMatch, CourseKnowledgeMissing)
  }

  function CustomerReason(profile: Profile, request: Request): seq<Reason> {
    var customer := Filled(request.customerId);
    if customer.None? then []
    else Either(RatedHighly(profile, customer.value), CustomerRatingPriority, CustomerRatingMissing)
  }

  function Standing(active: bool, shifted: bool, busy: bool): seq<Reason> {
    Either(active, ActiveCaddie, InactiveCaddie)
    + Either(shifted, ShiftCoversTeeTime, NoMatchingShift)
    + Either(busy, OverlappingAssignment, NoOverlappingAssignment)
  }

  function Extras(profile: Profile, request: Request): seq<Reason> {
    CourseReason(profile, request) + CustomerReason(profile, request)
    + When(profile.rookie, RookiePriorityDown)
    + When(profile.senior, SeniorCaddie)
  }

  /** Why a profile stands where it does, in the order the reasons are shown. */
  function ReasonsFor(profile: Profile, shifted: bool, busy: bool, request: Request): seq<Reason> {
    Standing(Active(profile), shifted, busy) + Extras(profile, request)
  }

  function Tally(reasons: seq<Reason>): int {
    if reasons == [] then 0
    else Tally(reasons[..|reasons| - 1]) + reasons[|reasons| - 1].Points()
  }

  function StatusFor(active: bool, shifted: bool, busy: bool): Status {
    if !active then Inactive
    else if busy then Busy
    else if shifted then Recommended
    else Available
  }

  /** The reference: the score is the worth of the reasons given. */
  function Scored(profile: Profile, availability: seq<Availability>, assignments: seq<Assignment>,
                  request: Request): Recommendation {
    var shift := MatchingShift(profile.id, availability, request);
    var busy := HasOverlappingAssignment(profile.id, assignments, request);
    var reasons := ReasonsFor(profile, shift.Some?, busy, request);
    Recommendation(
      profile, Tally(reasons), StatusFor(Active(profile), shift.Some?, busy), reasons,
      TieBreak(ShiftStart(shift), CaddieCode(profile), profile.id))
  }

  lemma TallyPush(reasons: seq<Reason>, reason: Reason)
    ensures Tally(reasons + [reason]) == Tally(reasons) + reason.Points()
  {
    assert (reasons + [reason])[..|reasons|] == reasons;
  }

  /** The scoring pass: one running score, one list of reasons. */
  method ScoreProfile(profile: Profile, availability: seq<Availability>, assignments: seq<Assignment>, request: Request)
    returns (r: Recommendation)
    ensures r == Scored(profile, availability, assignments, request)
  {
    hide Tally, MatchingShift, HasOverlappingAssignment, Standing, CourseReason, CustomerReason, When, CaddieCode,
         ShiftStart;
    var shift := MatchingShift(profile.id, availability, request);
    var busy := HasOverlappingAssignment(profile.id, assignments, request);
    var active := Active(profile);
    var score, reasons := AddStanding(active, shift.Some?, busy);
    score, reasons := AddKnowledge(profile, request, score, reasons);
    score, reasons := AddRating(profile, request, score, reasons);
    score, reasons := AddSeniority(profile, score, reasons);
    assert reasons == ReasonsFor(profile, shift.Some?, busy, request);
    r := Recommendation(
      profile, score, StatusFor(active, shift.Some?, busy), reasons,
      TieBreak(ShiftStart(shift), CaddieCode(profile), profile.id));
  }

  method AddStanding(active: bool, shifted: bool, busy: bool) returns (score: int, reasons: seq<Reason>)
    ensures reasons == Standing(active, shifted, busy)
    ensures score == Tally(reasons)
  {
    score, reasons := 0, [];
    assert score == Tally(reasons);
    hide Tally;
    TallyPush(reasons, if active then ActiveCaddie else InactiveCaddie);
    if active {
      score := score + 100;
      reasons := reasons + [ActiveCaddie];
    } else {
      reasons := reasons + [InactiveCaddie];
    }
    ghost var first := Either(active, ActiveCaddie, InactiveCaddie);
    assert reasons == first && score == Tally(first);

    TallyPush(first, if shifted then ShiftCoversTeeTime else NoMatchingShift);
    if shifted {
      score := score + 80;
      reasons := reasons + [ShiftCoversTeeTime];
    } else {
      reasons := reasons + [NoMatchingShift];
    }
    ghost var second := first + Either(shifted, ShiftCoversTeeTime, NoMatchingShift);
    assert reasons == second && score == Tally(second);

    TallyPush(second, if busy then OverlappingAssignment else NoOverlappingAssignment);
    if busy {
      score := score - 200;
      reasons := reasons + [OverlappingAssignment];
    } else {
      score := score + 60;
      reasons := reasons + [NoOverlappingAssignment];
    }
  }

  method AddKnowledge(profile: Profile, request: Request, sofar: int, given: seq<Reason>)
    returns (score: int, reasons: seq<Reason>)
    requires sofar == Tally(given)
    ensures reasons == given + CourseReason(profile, request)
    ensures score == Tally(reasons)
  {
    hide Tally, HasCourseKnowledge;
    score, reasons := sofar, given;
    var course := Filled(request.courseId);
    if course.Some? {
      if HasCourseKnowledge(profile, course.value) {
        TallyPush(reasons, CourseKnowledgeMatch);
        score := score + 25;
        reasons := reasons + [CourseKnowledgeMatch];
      } else {
        TallyPush(reasons, CourseKnowledgeMissing);
        reasons := reasons + [CourseKnowledgeMissing];
      }
    }
  }

  method AddRating(profile: Profile, request: Request, sofar: int, given: seq<Reason>)
    returns (score: int, reasons: seq<Reason>)
    requires sofar == Tally(given)
    ensures reasons == given + CustomerReason(profile, request)
    ensures score == Tally(reasons)
  {
    hide Tally, RatedHighly;
    score, reasons := sofar, given;
    var customer := Filled(request.customerId);
    if customer.Some? {
      if RatedHighly(profile, customer.value) {
        TallyPush(reasons, CustomerRatingPriority);
        score := score + 20;
        reasons := reasons + [CustomerRatingPriority];
      } else {
        TallyPush(reasons, CustomerRatingMissing);
        reasons := reasons + [CustomerRatingMissing];
      }
    }
  }

  method AddSeniority(profile: Profile, sofar: int, given: seq<Reason>) returns (score: int, reasons: seq<Reason>)
    requires sofar == Tally(given)
    ensures reasons == given + When(profile.rookie, RookiePriorityDown) + When(profile.senior, SeniorCaddie)
    ensures score == Tally(reasons)
  {
    hide Tally;
    score, reasons := sofar, given;
    TallyPush(reasons, RookiePriorityDown);
    if profile.rookie {
      score := score - 15;
      reasons := reasons + [RookiePriorityDown];
    }
    TallyPush(reasons, SeniorCaddie);
    if profile.senior {
      score := score + 10;
      reasons := reasons + [SeniorCaddie];
    }
  }

  // ----- the bands -----

  lemma {:induction false} TallyConcat(a: seq<Reason>, b: seq<Reason>)
    ensures Tally(a + b) == Tally(a) + Tally(b)
    decreases |b|
  {
    if b == [] {
      assert a + b == a;
    } else {
      TallyConcat(a, b[..|b| - 1]);
      assert (a + b)[..|a + b| - 1] == a + b[..|b| - 1];
    }
  }

  function Worth(condition: bool, yes: int, no: int): int {
    if condition then yes else no
  }

  lemma TallyShort(reasons: seq<Reason>)
    requires |reasons| <= 1
    ensures Tally(reasons) == if reasons == [] then 0 else reasons[0].Points()
  {
  }

  lemma StandingIs(active: bool, shifted: bool, busy: bool)
    ensures Tally(Standing(active, shifted, busy))
            == Worth(active, 100, 0) + Worth(shifted, 80, 0) + Worth(busy, -200, 60)
  {
    hide Tally;
    var a := Either(active, ActiveCaddie, InactiveCaddie);
    var b := Either(shifted, ShiftCoversTeeTime, NoMatchingShift);
    var c := Either(busy, OverlappingAssignment, NoOverlappingAssignment);
    TallyShort(a);
    TallyShort(b);
    TallyShort(c);
    TallyConcat(a, b);
    TallyConcat(a + b, c);
  }

  /** What course, customer and seniority are worth together. */
  function ExtraPoints(profile: Profile, request: Request): (points: int)
    ensures -15 <= points <= 55
  {
    var course, customer := Filled(request.courseId), Filled(request.customerId);
    Worth(course.Some? && HasCourseKnowledge(profile, course.value), 25, 0)
    + Worth(customer.Some? && RatedHighly(profile, customer.value), 20, 0)
    + Worth(profile.rookie, -15, 0)
    + Worth(profile.senior, 10, 0)
  }

  lemma ExtrasAre(profile: Profile, request: Request)
    ensures Tally(Extras(profile, request)) == ExtraPoints(profile, request)
  {
    hide Tally, HasCourseKnowledge, RatedHighly;
    var d, e := CourseReason(profile, request), CustomerReason(profile, request);
    var f, g := When(profile.rookie, RookiePriorityDown), When(profile.senior, SeniorCaddie);
    TallyShort(d);
    TallyShort(e);
    TallyShort(f);
    TallyShort(g);
    TallyConcat(d, e);
    TallyConcat(d + e, f);
    TallyConcat(d + e + f, g);
  }

  /** The score in closed form. */
  lemma ScoreIs(profile: Profile, shifted: bool, busy: bool, request: Request)
    ensures Tally(ReasonsFor(profile, shifted, busy, request))
            == Worth(Active(profile), 100, 0) + Worth(shifted, 80, 0) + Worth(busy, -200, 60)
               + ExtraPoints(profile, request)
  {
    hide Tally, Extras, Standing, ExtraPoints;
    StandingIs(Active(profile), shifted, busy);
    ExtrasAre(profile, request);
    TallyConcat(Standing(Active(profile), shifted, busy), Extras(profile, request));
  }

  /** The score of an entry, spelled out, and what decides its ties: course
      knowledge counts for a request that names a course, a rating from 4 for one
      that names a customer. */
  lemma ScoredScoreIs(profile: Profile, availability: seq<Availability>, assignments: seq<Assignment>,
                      request: Request)
    ensures var course, customer := request.courseId.GetOr(""), request.customerId.GetOr("");
            Scored(profile, availability, assignments, request).score
            == (if profile.status != Some("inactive") then 100 else 0)
               + (if MatchingShift(profile.id, availability, request).Some? then 80 else 0)
               + (if HasOverlappingAssignment(profile.id, assignments, request) then -200 else 60)
               + (if course == "" then 0
                  else if profile.courseKnowledge == OneCourse(course) then 25
                  else if profile.courseKnowledge.Courses? && course in profile.courseKnowledge.courses then 25
                  else 0)
               + (if customer == "" || customer !in profile.customerRatings then 0
                  else if profile.customerRatings[customer] < 4.0 then 0
                  else 20)
               + (if profile.rookie then -15 else 0)
               + (if profile.senior then 10 else 0)
    ensures var tie := Scored(profile, availability, assignments, request).tieBreak;
            var shift := MatchingShift(profile.id, availability, request);
            && tie.shiftStart == (if shift.Some? && shift.value.startsAt.Some? then shift.value.startsAt.value
                                  else "99:99")
            && tie.caddieCode == (if profile.caddieCode.Some? then profile.caddieCode.value
                                  else if profile.staffMemberId.Some? then profile.staffMemberId.value
                                  else profile.id)
            && tie.profileId == profile.id
  {
    hide Tally, MatchingShift, HasOverlappingAssignment, ReasonsFor;
    var shifted := MatchingShift(profile.id, availability, request).Some?;
    ScoreIs(profile, shifted, HasOverlappingAssignment(profile.id, assignments, request), request);
  }

  /** Where each status can score. The three bands of active caddies do not
      touch; an inactive profile can land above or below two of them. */
  lemma ScoreBands(profile: Profile, availability: seq<Availability>, assignments: seq<Assignment>, request: Request)
    ensures var r := Scored(profile, availability, assignments, request);
            match r.status
            case Recommended => 225 <= r.score <= 295
            case Available => 145 <= r.score <= 215
            case Busy => -115 <= r.score <= 35
            case Inactive => -215 <= r.score <= 195
    ensures var r := Scored(profile, availability, assignments, request);
            r.status == Inactive && r.score >= 145
            ==> ShiftCoversTeeTime in r.reasons && NoOverlappingAssignment in r.reasons
  {
    hide Tally, MatchingShift, HasOverlappingAssignment, CaddieCode, ExtraPoints;
    var shifted := MatchingShift(profile.id, availability, request).Some?;
    var busy := HasOverlappingAssignment(profile.id, assignments, request);
    ScoreIs(profile, shifted, busy, request);
    var reasons := ReasonsFor(profile, shifted, busy, request);
    assert reasons[1] == (if shifted then ShiftCoversTeeTime else NoMatchingShift);
    assert reasons[2] == (if busy then OverlappingAssignment else NoOverlappingAssignment);
  }

  /** Some shift of theirs that day, not marked unavailable, contains the whole
      requested time. */
  ghost predicate OnShift(profile: Profile, availability: seq<Availability>, date: string, from: string, to: string) {
    exists item :: item in availability && item.staffProfileId == Some(profile.id) && item.date == Some(date)
                   && item.status != Some("unavailable")
                   && forall t :: StringLe(from, t) && StringLe(t, to) ==> Within(item.startsAt, item.endsAt, t)
  }

  lemma OnShiftExactlyWhen(profile: Profile, availability: seq<Availability>, request: Request, date: string,
                           from: string, to: string)
    requires Timed(request, from, to) && request.date == Some(date) && date != ""
    ensures MatchingShift(profile.id, availability, request).Some? <==> OnShift(profile, availability, date, from, to)
  {
    hide EarliestOffer, CoversRequestedTime, Within, StringLe;
    EarliestOfferIsEarliest(profile.id, availability, date, request);
    forall item: Availability
      ensures CoversRequestedTime(item.startsAt, item.endsAt, request)
              <==> forall t :: StringLe(from, t) && StringLe(t, to) ==> Within(item.startsAt, item.endsAt, t)
    {
      CoversExactlyWhen(item.startsAt, item.endsAt, request, from, to);
    }
    if MatchingShift(profile.id, availability, request).Some? {
      var best := MatchingShift(profile.id, availability, request).value;
      assert best in availability && Offers(best, profile.id, date, request);
    }
    if item :| item in availability && item.staffProfileId == Some(profile.id) && item.date == Some(date)
               && item.status != Some("unavailable")
               && forall t :: StringLe(from, t) && StringLe(t, to) ==> Within(item.startsAt, item.endsAt, t) {
      assert Offers(item, profile.id, date, request);
    }
  }

  /** For a fully specified request a caddie is recommended if and only if they
      are active, have no overlapping assignment, and are on shift for the whole
      of it; without the shift they are available, with the assignment busy. */
  lemma StatusExactlyWhen(profile: Profile, availability: seq<Availability>, assignments: seq<Assignment>,
                          request: Request, date: string, from: string, to: string)
    requires Timed(request, from, to) && request.date == Some(date) && date != ""
    ensures var status := Scored(profile, availability, assignments, request).status;
            var active := profile.status != Some("inactive");
            var busy := HasOverlappingAssignment(profile.id, assignments, request);
            && (status == Recommended <==> active && !busy && OnShift(profile, availability, date, from, to))
            && (status == Available <==> active && !busy && !OnShift(profile, availability, date, from, to))
            && (status == Busy <==> active && busy)
            && (status == Inactive <==> !active)
  {
    hide Tally, MatchingShift, HasOverlappingAssignment, CaddieCode, ShiftStart, OnShift, ReasonsFor;
    OnShiftExactlyWhen(profile, availability, request, date, from, to);
  }

  /** Being busy, spelled out: a live assignment of theirs that day overlaps. */
  lemma BusyMeans(profileId: string, assignments: seq<Assignment>, request: Request, date: string)
    requires request.date == Some(date) && date != ""
    ensures HasOverlappingAssignment(profileId, assignments, request)
            <==> exists a :: a in assignments && a.staffProfileId == Some(profileId) && a.date == Some(date)
                             && a.status != Some("cancelled")
                             && OverlapsRequestedTime(a.startsAt, a.endsAt, request)
  {
    hide OverlapsRequestedTime;
    if a :| a in assignments && a.staffProfileId == Some(profileId) && a.date == Some(date)
            && a.status != Some("cancelled") && OverlapsRequestedTime(a.startsAt, a.endsAt, request) {
      assert Occupies(a, profileId, date, request);
    }
  }

  // ----- the ranking order -----

  predicate TieLe(a: TieBreak, b: TieBreak) {
    if a.shiftStart != b.shiftStart then StringLe(a.shiftStart, b.shiftStart)
    else if a.caddieCode != b.caddieCode then StringLe(a.caddieCode, b.caddieCode)
    else StringLe(a.profileId, b.profileId)
  }

  /** `a` may stand before `b`: the comparison says less or equal. */
  predicate RanksBefore(a: Recommendation, b: Recommendation) {
    if a.score != b.score then a.score > b.score else TieLe(a.tieBreak, b.tieBreak)
  }

  lemma RanksTotally(a: Recommendation, b: Recommendation)
    ensures RanksBefore(a, b) || RanksBefore(b, a)
  {
    StringLeTotal(a.tieBreak.shiftStart, b.tieBreak.shiftStart);
    StringLeTotal(a.tieBreak.caddieCode, b.tieBreak.caddieCode);
    StringLeTotal(a.tieBreak.profileId, b.tieBreak.profileId);
  }

  lemma TieLeAntisymmetric(a: TieBreak, b: TieBreak)
    requires TieLe(a, b) && TieLe(b, a)
    ensures a == b
  {
    if a.shiftStart != b.shiftStart {
      StringLeAntisymmetric(a.shiftStart, b.shiftStart);
    } else if a.caddieCode != b.caddieCode {
      StringLeAntisymmetric(a.caddieCode, b.caddieCode);
    } else {
      StringLeAntisymmetric(a.profileId, b.profileId);
    }
  }

  lemma TieLeTransitive(a: TieBreak, b: TieBreak, c: TieBreak)
    requires TieLe(a, b) && TieLe(b, c)
    ensures TieLe(a, c)
  {
    if a.shiftStart != b.shiftStart && b.shiftStart != c.shiftStart {
      StringLeTransitive(a.shiftStart, b.shiftStart, c.shiftStart);
      if a.shiftStart == c.shiftStart {
        StringLeAntisymmetric(a.shiftStart, b.shiftStart);
      }
    } else if a.shiftStart == b.shiftStart == c.shiftStart {
      if a.caddieCode != b.caddieCode && b.caddieCode != c.caddieCode {
        StringLeTransitive(a.caddieCode, b.caddieCode, c.caddieCode);
        if a.caddieCode == c.caddieCode {
          StringLeAntisymmetric(a.caddieCode, b.caddieCode);
        }
      } else if a.caddieCode == b.caddieCode == c.caddieCode {
        StringLeTransitive(a.profileId, b.profileId, c.profileId);
      }
    }
  }

  lemma RanksTransitively(a: Recommendation, b: Recommendation, c: Recommendation)
    requires RanksBefore(a, b) && RanksBefore(b, c)
    ensures RanksBefore(a, c)
  {
    hide TieLe;
    if a.score == b.score == c.score {
      TieLeTransitive(a.tieBreak, b.tieBreak, c.tieBreak);
    }
  }

  ghost predicate Ascending(list: seq<Recommendation>) {
    forall i, j :: 0 <= i < j < |list| ==> RanksBefore(list[i], list[j])
  }

  // ----- sorting -----

  /** Puts `x` behind everything that may stand before it, so equals keep the
      order they arrived in. */
  function Inserted(list: seq<Recommendation>, x: Recommendation): seq<Recommendation> {
    if list == [] then [x]
    else
      var last := list[|list| - 1];
      if RanksBefore(last, x) then list + [x]
      else Inserted(list[..|list| - 1], x) + [last]
  }

  /** The stable sort. */
  function Ranked(list: seq<Recommendation>): seq<Recommendation> {
    if list == [] then [] else Inserted(Ranked(list[..|list| - 1]), list[|list| - 1])
  }

  lemma {:induction false} InsertedPermutes(list: seq<Recommendation>, x: Recommendation)
    ensures multiset(Inserted(list, x)) == multiset(list) + multiset{x}
  {
    hide RanksBefore;
    if list != [] {
      var front, last := list[..|list| - 1], list[|list| - 1];
      InsertedPermutes(front, x);
      assert list == front + [last];
    }
  }

  lemma {:induction false} RankedPermutes(list: seq<Recommendation>)
    ensures multiset(Ranked(list)) == multiset(list) && |Ranked(list)| == |list|
  {
    hide Inserted;
    if list != [] {
      var front, last := list[..|list| - 1], list[|list| - 1];
      RankedPermutes(front);
      InsertedPermutes(Ranked(front), last);
      assert list == front + [last];
    }
    assert |multiset(Ranked(list))| == |multiset(list)|;
  }

  lemma {:induction false} InsertedAscends(list: seq<Recommendation>, x: Recommendation)
    requires Ascending(list)
    ensures Ascending(Inserted(list, x))
  {
    hide RanksBefore;
    if list != [] {
      var front, last := list[..|list| - 1], list[|list| - 1];
      if RanksBefore(last, x) {
        forall i | 0 <= i < |list| ensures RanksBefore(list[i], x) {
          if i < |list| - 1 {
            RanksTransitively(list[i], last, x);
          }
        }
      } else {
        InsertedAscends(front, x);
        InsertedPermutes(front, x);
        RanksTotally(x, last);
        var mid := Inserted(front, x);
        forall y | y in mid ensures RanksBefore(y, last) {
          assert y in multiset(mid);
          if y != x {
            assert y in front;
          }
        }
      }
    }
  }

  /** The result is in ranking order. */
  lemma {:induction false} RankedAscends(list: seq<Recommendation>)
    ensures Ascending(Ranked(list))
  {
    hide Inserted, RanksBefore;
    if list != [] {
      RankedAscends(list[..|list| - 1]);
      InsertedAscends(Ranked(list[..|list| - 1]), list[|list| - 1]);
    }
  }

  lemma InsertedSkips(front: seq<Recommendation>, x: Recommendation, j: nat)
    requires 0 < j <= |front| && !RanksBefore(front[j - 1], x)
    ensures Inserted(front[..j], x) + front[j..] == Inserted(front[..j - 1], x) + front[j - 1..]
  {
    hide RanksBefore;
    assert front[..j][..j - 1] == front[..j - 1];
    assert front[j - 1..] == [front[j - 1]] + front[j..];
  }

  lemma InsertedStops(front: seq<Recommendation>, x: Recommendation, j: nat)
    requires j <= |front| && (j > 0 ==> RanksBefore(front[j - 1], x))
    ensures Inserted(front[..j], x) + front[j..] == front[..j] + [x] + front[j..]
  {
  }

  /** The array while `x` is on its way down: `gap` stands where it may go. */
  function Shifted(front: seq<Recommendation>, gap: Recommendation, rest: seq<Recommendation>,
                   j: nat): (q: seq<Recommendation>)
    requires j <= |front|
    ensures |q| == |front| + 1 + |rest| && q[j] == gap && (j > 0 ==> q[j - 1] == front[j - 1])
  {
    front[..j] + [gap] + front[j..] + rest
  }

  lemma GapAtEnd(front: seq<Recommendation>, x: Recommendation, rest: seq<Recommendation>)
    ensures Shifted(front, x, rest, |front|) == front + [x] + rest
    ensures Inserted(front, x) == Inserted(front[..|front|], x) + front[|front|..]
  {
    assert front[..|front|] == front;
  }

  lemma ShiftOne(front: seq<Recommendation>, gap: Recommendation, rest: seq<Recommendation>, j: nat)
    requires 0 < j <= |front|
    ensures Shifted(front, gap, rest, j)[j := front[j - 1]] == Shifted(front, front[j - 1], rest, j - 1)
  {
  }

  lemma FillGap(front: seq<Recommendation>, gap: Recommendation, rest: seq<Recommendation>, j: nat, x: Recommendation)
    requires j <= |front| && (j > 0 ==> RanksBefore(front[j - 1], x))
    requires Inserted(front, x) == Inserted(front[..j], x) + front[j..]
    ensures Shifted(front, gap, rest, j)[j := x] == Inserted(front, x) + rest
  {
    InsertedStops(front, x, j);
  }

  /** Moves element `n` down into the sorted front `a[..n]`. */
  method InsertLast(a: array<Recommendation>, n: nat)
    requires n < a.Length
    modifies a
    ensures a[..] == Inserted(old(a[..n]), old(a[n])) + old(a[n + 1..])
  {
    hide RanksBefore, Inserted, Shifted;
    ghost var front, rest := a[..n], a[n + 1..];
    var x := a[n];
    assert a[..] == front + [x] + rest;
    GapAtEnd(front, x, rest);
    var j := n;
    while j > 0 && !RanksBefore(a[j - 1], x)
      invariant 0 <= j <= n
      invariant a[..] == Shifted(front, a[j], rest, j)
      invariant Inserted(front, x) == Inserted(front[..j], x) + front[j..]
    {
      assert a[j - 1] == a[..][j - 1] == front[j - 1];
      InsertedSkips(front, x, j);
      ShiftOne(front, a[j], rest, j);
      a[j] := a[j - 1];
      j := j - 1;
    }
    assert j > 0 ==> a[j - 1] == a[..][j - 1] == front[j - 1];
    FillGap(front, a[j], rest, j, x);
    a[j] := x;
  }

  /** The array once its first `n` elements are sorted. */
  function SortedFront(was: seq<Recommendation>, n: nat): (q: seq<Recommendation>)
    requires n <= |was|
    ensures |q| == |was| && q[..n] == Ranked(was[..n]) && q[n..] == was[n..]
  {
    RankedPermutes(was[..n]);
    Ranked(was[..n]) + was[n..]
  }

  lemma SortedFrontGrows(was: seq<Recommendation>, n: nat)
    requires n < |was|
    ensures SortedFront(was, n + 1) == Inserted(Ranked(was[..n]), was[n]) + was[n + 1..]
  {
    hide Inserted;
    assert was[..n + 1][..n] == was[..n];
  }

  lemma SortedFrontEnds(was: seq<Recommendation>)
    ensures SortedFront(was, 0) == was && SortedFront(was, |was|) == Ranked(was)
  {
    assert was[..|was|] == was;
  }

  /** In-place sort of the vector of recommendations. */
  method SortRecommendations(a: array<Recommendation>)
    modifies a
    ensures a[..] == Ranked(old(a[..]))
  {
    hide Inserted, RanksBefore, Ranked, SortedFront;
    ghost var was := a[..];
    SortedFrontEnds(was);
    var n := 0;
    while n < a.Length
      invariant 0 <= n <= a.Length
      invariant a[..] == SortedFront(was, n)
    {
      SortedFrontGrows(was, n);
      assert a[..n] == a[..][..n] && a[n] == a[..][n..][0] && a[n + 1..] == a[..][n..][1..];
      InsertLast(a, n);
      n := n + 1;
    }
  }

  // ----- the recommendation list -----

  function ScoredAll(profiles: seq<Profile>, availability: seq<Availability>, assignments: seq<Assignment>,
                     request: Request): seq<Recommendation> {
    seq(|profiles|, i requires 0 <= i < |profiles| => Scored(profiles[i], availability, assignments, request))
  }

  function Recommend(profiles: seq<Profile>, availability: seq<Availability>, assignments: seq<Assignment>,
                     request: Request): seq<Recommendation> {
    Ranked(ScoredAll(profiles, availability, assignments, request))
  }

  method RecommendCaddies(profiles: seq<Profile>, availability: seq<Availability>, assignments: seq<Assignment>,
                          request: Request)
    returns (ranked: seq<Recommendation>)
    ensures ranked == Recommend(profiles, availability, assignments, request)
  {
    hide Scored, Ranked;
    var list := [];
    for i := 0 to |profiles|
      invariant list == ScoredAll(profiles, availability, assignments, request)[..i]
    {
      var r := ScoreProfile(profiles[i], availability, assignments, request);
      list := list + [r];
    }
    var vector := new Recommendation[|list|](i requires 0 <= i < |list| => list[i]);
    assert vector[..] == list == ScoredAll(profiles, availability, assignments, request);
    SortRecommendations(vector);
    ranked := vector[..];
  }

  /** Every entry is some profile's score, and every profile has an entry. */
  lemma RecommendsEachProfile(profiles: seq<Profile>, availability: seq<Availability>, assignments: seq<Assignment>,
                              request: Request)
    ensures var ranked := Recommend(profiles, availability, assignments, request);
            && |ranked| == |profiles|
            && (forall r :: r in ranked ==>
                  r.profile in profiles && r == Scored(r.profile, availability, assignments, request))
            && (forall p :: p in profiles ==> Scored(p, availability, assignments, request) in ranked)
  {
    hide Scored, Ranked;
    var all := ScoredAll(profiles, availability, assignments, request);
    var ranked := Recommend(profiles, availability, assignments, request);
    RankedPermutes(all);
    forall r | r in ranked ensures r in all {
      assert r in multiset(ranked);
    }
    forall r | r in all ensures r in ranked {
      assert r in multiset(all);
    }
    forall i | 0 <= i < |all|
      ensures all[i] == Scored(profiles[i], availability, assignments, request) && all[i].profile == profiles[i]
    {
      ScoredKeepsProfile(profiles[i], availability, assignments, request);
    }
  }

  lemma ScoredKeepsProfile(profile: Profile, availability: seq<Availability>, assignments: seq<Assignment>,
                           request: Request)
    ensures var r := Scored(profile, availability, assignments, request);
            r.profile == profile && r.tieBreak.profileId == profile.id
  {
  }

  /** Recommended caddies come first, and nobody busy precedes somebody free. */
  lemma FreeCaddiesComeFirst(profiles: seq<Profile>, availability: seq<Availability>, assignments: seq<Assignment>,
                             request: Request, i: nat, j: nat)
    requires i < j < |profiles|
    ensures var ranked := Recommend(profiles, availability, assignments, request);
            && |ranked| == |profiles|
            && (ranked[j].status == Recommended ==> ranked[i].status == Recommended)
            && (ranked[j].status == Available ==> ranked[i].status != Busy)
            && (ranked[j].status == Available && ranked[i].status == Inactive ==>
                  ShiftCoversTeeTime in ranked[i].reasons && NoOverlappingAssignment in ranked[i].reasons)
  {
    hide Scored, Ranked, TieLe;
    var ranked := Recommend(profiles, availability, assignments, request);
    RecommendsEachProfile(profiles, availability, assignments, request);
    RankedAscends(ScoredAll(profiles, availability, assignments, request));
    var a, b := ranked[i], ranked[j];
    assert a in ranked && b in ranked;
    assert RanksBefore(a, b);
    ScoreBands(a.profile, availability, assignments, request);
    ScoreBands(b.profile, availability, assignments, request);
  }

  /** Among equal scores the earlier shift stands first, then the lesser caddie
      code, then the lesser id; and a higher score always stands first. */
  lemma TiesGoByShiftCodeAndId(profiles: seq<Profile>, availability: seq<Availability>, assignments: seq<Assignment>,
                               request: Request, i: nat, j: nat)
    requires i < j < |profiles|
    ensures var ranked := Recommend(profiles, availability, assignments, request);
            && |ranked| == |profiles|
            && var a, b := ranked[i], ranked[j];
            && a.score >= b.score
            && var tied := a.score == b.score;
            && var sameStart := tied && a.tieBreak.shiftStart == b.tieBreak.shiftStart;
            && var sameCode := sameStart && a.tieBreak.caddieCode == b.tieBreak.caddieCode;
            && (tied ==> StringLe(a.tieBreak.shiftStart, b.tieBreak.shiftStart))
            && (sameStart ==> StringLe(a.tieBreak.caddieCode, b.tieBreak.caddieCode))
            && (sameCode ==> StringLe(a.profile.id, b.profile.id))
  {
    hide Scored, Ranked, StringLe;
    var ranked := Recommend(profiles, availability, assignments, request);
    RecommendsEachProfile(profiles, availability, assignments, request);
    RankedAscends(ScoredAll(profiles, availability, assignments, request));
    var a, b := ranked[i], ranked[j];
    assert a in ranked && b in ranked && RanksBefore(a, b);
    ScoredKeepsProfile(a.profile, availability, assignments, request);
    ScoredKeepsProfile(b.profile, availability, assignments, request);
    StringLeSelf(a.tieBreak.shiftStart);
    StringLeSelf(a.tieBreak.caddieCode);
  }

  // ----- inactive caddies -----

  function TieBreakOf(profile: Profile, availability: seq<Availability>, request: Request): TieBreak {
    TieBreak(ShiftStart(MatchingShift(profile.id, availability, request)), CaddieCode(profile), profile.id)
  }

  /** An inactive caddie `p` is listed before an available one `q`: on shift,
      free, and better by more than 20 in course, customer and seniority, or by
      exactly 20 with the tie break in their favour. */
  predicate ListedBefore(p: Profile, q: Profile, availability: seq<Availability>, assignments: seq<Assignment>,
                         request: Request) {
    && MatchingShift(p.id, availability, request).Some?
    && !HasOverlappingAssignment(p.id, assignments, request)
    && (|| ExtraPoints(p, request) > ExtraPoints(q, request) + 20
        || (ExtraPoints(p, request) == ExtraPoints(q, request) + 20
            && TieLe(TieBreakOf(p, availability, request), TieBreakOf(q, availability, request))))
  }

  lemma InactiveRanksBeforeExactlyWhen(p: Profile, q: Profile, availability: seq<Availability>,
                                       assignments: seq<Assignment>, request: Request)
    requires Scored(p, availability, assignments, request).status == Inactive
    requires Scored(q, availability, assignments, request).status == Available
    ensures RanksBefore(Scored(p, availability, assignments, request), Scored(q, availability, assignments, request))
            <==> ListedBefore(p, q, availability, assignments, request)
  {
    hide Tally, MatchingShift, HasOverlappingAssignment, CaddieCode, ShiftStart, ExtraPoints, TieLe;
    var shifted := MatchingShift(p.id, availability, request).Some?;
    var busy := HasOverlappingAssignment(p.id, assignments, request);
    ScoreIs(p, shifted, busy, request);
    ScoreIs(q, false, false, request);
  }

  /** Somebody on shift and somebody without one are not the same profile id. */
  lemma ListedBeforeApart(p: Profile, q: Profile, availability: seq<Availability>, assignments: seq<Assignment>,
                          request: Request)
    requires ListedBefore(p, q, availability, assignments, request)
    requires Scored(q, availability, assignments, request).status == Available
    ensures p.id != q.id
  {
    hide Tally, HasOverlappingAssignment, CaddieCode, ShiftStart, ExtraPoints, TieLe, MatchingShift;
  }

  /** Position by position: an inactive entry stands before an available one if
      and only if `ListedBefore` says so of their profiles. */
  lemma InactiveComesFirstExactlyWhen(profiles: seq<Profile>, availability: seq<Availability>,
                                      assignments: seq<Assignment>, request: Request, i: nat, j: nat)
    requires i < |profiles| && j < |profiles|
    ensures var ranked := Recommend(profiles, availability, assignments, request);
            && |ranked| == |profiles|
            && (ranked[i].status == Inactive && ranked[j].status == Available ==>
                  (i < j <==> ListedBefore(ranked[i].profile, ranked[j].profile, availability, assignments, request)))
  {
    hide Scored, Ranked, RanksBefore, ListedBefore;
    var ranked := Recommend(profiles, availability, assignments, request);
    RecommendsEachProfile(profiles, availability, assignments, request);
    RankedAscends(ScoredAll(profiles, availability, assignments, request));
    var a, b := ranked[i], ranked[j];
    assert a in ranked && b in ranked;
    if a.status == Inactive && b.status == Available {
      InactiveRanksBeforeExactlyWhen(a.profile, b.profile, availability, assignments, request);
      if j < i && RanksBefore(a, b) {
        SameRankSameId(a, b);
        ScoredKeepsProfile(a.profile, availability, assignments, request);
        ScoredKeepsProfile(b.profile, availability, assignments, request);
        ListedBeforeApart(a.profile, b.profile, availability, assignments, request);
      }
    }
  }

  /** The guarantee stops there: an inactive caddie on shift outranks an active
      rookie without one. */
  lemma InactiveCanComeFirst() returns (profiles: seq<Profile>, shifts: seq<Availability>, request: Request)
    ensures var ranked := Recommend(profiles, shifts, [], request);
            |ranked| == 2 && ranked[0].status == Inactive && ranked[1].status == Available
  {
    var rookie := Profile("a", None, None, None, NoKnowledge, map[], true, false);
    var retired := Profile("b", None, Some("inactive"), None, NoKnowledge, map[], false, true);
    var shift := Availability("s", Some("b"), Some("d"), None, None, None);
    request := Request(Some("d"), None, None, None, None);
    profiles, shifts := [retired, rookie], [shift];
    OneOffer("a", shift, request);
    OneOffer("b", shift, request);
    hide MatchingShift;
    RookieScores(rookie, shifts, request);
    RetiredScores(retired, shifts, request);
    hide Scored;
    RanksFirst(rookie, retired, shifts, request);
  }

  lemma RookieScores(profile: Profile, shifts: seq<Availability>, request: Request)
    requires MatchingShift(profile.id, shifts, request).None? && Active(profile) && profile.rookie && !profile.senior
    requires request.courseId.None? && request.customerId.None?
    ensures var r := Scored(profile, shifts, [], request);
            r.status == Available && r.score == 145
  {
    hide MatchingShift, Tally, CaddieCode, Active;
    assert ReasonsFor(profile, false, false, request)
        == [ActiveCaddie, NoMatchingShift, NoOverlappingAssignment, RookiePriorityDown];
    TallyFour(ActiveCaddie, NoMatchingShift, NoOverlappingAssignment, RookiePriorityDown);
  }

  lemma RetiredScores(profile: Profile, shifts: seq<Availability>, request: Request)
    requires MatchingShift(profile.id, shifts, request).Some? && !Active(profile) && !profile.rookie && profile.senior
    requires request.courseId.None? && request.customerId.None?
    ensures var r := Scored(profile, shifts, [], request);
            r.status == Inactive && r.score == 150
  {
    hide MatchingShift, Tally, CaddieCode, Active;
    assert ReasonsFor(profile, true, false, request)
        == [InactiveCaddie, ShiftCoversTeeTime, NoOverlappingAssignment, SeniorCaddie];
    TallyFour(InactiveCaddie, ShiftCoversTeeTime, NoOverlappingAssignment, SeniorCaddie);
  }

  lemma RanksFirst(low: Profile, high: Profile, shifts: seq<Availability>, request: Request)
    requires Scored(low, shifts, [], request).score < Scored(high, shifts, [], request).score
    ensures Recommend([high, low], shifts, [], request)
            == [Scored(high, shifts, [], request), Scored(low, shifts, [], request)]
  {
    hide Scored;
    var p, q := Scored(low, shifts, [], request), Scored(high, shifts, [], request);
    assert ScoredAll([high, low], shifts, [], request) == [q, p];
    RankTwo(q, p);
  }

  lemma OneOffer(profileId: string, item: Availability, request: Request)
    requires request.date == Some("d") && item.date == Some("d") && item.status.None? && request.startsAt.None?
    ensures MatchingShift(profileId, [item], request).Some? == (item.staffProfileId == Some(profileId))
  {
    assert [item][1..] == [];
    assert EarliestOffer(profileId, [], "d", request) == None;
  }

  lemma TallyFour(a: Reason, b: Reason, c: Reason, d: Reason)
    ensures Tally([a, b, c, d]) == a.Points() + b.Points() + c.Points() + d.Points()
  {
    TallyShort([a]);
    hide Tally, Reason.Points;
    TallyPush([a], b);
    TallyPush([a, b], c);
    TallyPush([a, b, c], d);
    assert [a] + [b] == [a, b] && [a, b] + [c] == [a, b, c] && [a, b, c] + [d] == [a, b, c, d];
  }

  lemma RankTwo(a: Recommendation, b: Recommendation)
    requires RanksBefore(a, b)
    ensures Ranked([a, b]) == [a, b]
  {
    assert [a, b][..1] == [a] && [a][..0] == [];
    assert Ranked([a]) == Inserted(Ranked([]), a) == [a];
    assert Ranked([a, b]) == Inserted([a], b) == [a] + [b];
  }

  // ----- canonical order -----

  /** Profiles carrying the same id are the same profile. */
  ghost predicate IdsNameProfiles(profiles: seq<Profile>) {
    forall p, q :: p in profiles && q in profiles && p.id == q.id ==> p == q
  }

  /** No two entries tie. */
  ghost predicate NoTies(list: seq<Recommendation>) {
    forall x, y :: x in list && y in list && RanksBefore(x, y) && RanksBefore(y, x) ==> x == y
  }

  lemma SameHead(a: seq<Recommendation>, b: seq<Recommendation>)
    requires Ascending(a) && Ascending(b) && NoTies(a) && |a| > 0 && |b| > 0
    requires b[0] in a && a[0] in b
    ensures a[0] == b[0]
  {
    hide RanksBefore;
  }

  lemma TailAscends(list: seq<Recommendation>)
    requires |list| > 0
    ensures Ascending(list) ==> Ascending(list[1..])
    ensures NoTies(list) ==> NoTies(list[1..])
  {
    hide RanksBefore;
    assert forall x :: x in list[1..] ==> x in list;
  }

  lemma SameTail(a: seq<Recommendation>, b: seq<Recommendation>)
    requires |a| > 0 && |b| > 0 && a[0] == b[0] && multiset(a) == multiset(b)
    ensures multiset(a[1..]) == multiset(b[1..])
  {
    assert a == [a[0]] + a[1..] && b == [b[0]] + b[1..];
    assert multiset(a[1..]) == multiset(a) - multiset{a[0]};
  }

  lemma {:induction false} AscendingIsUnique(a: seq<Recommendation>, b: seq<Recommendation>)
    requires Ascending(a) && Ascending(b) && NoTies(a) && multiset(a) == multiset(b)
    ensures a == b
  {
    hide *;
    assert |a| == |multiset(a)| == |multiset(b)| == |b|;
    if a != [] {
      assert a[0] in multiset(b) && b[0] in multiset(a);
      SameHead(a, b);
      SameTail(a, b);
      TailAscends(a);
      TailAscends(b);
      AscendingIsUnique(a[1..], b[1..]);
      assert a == [a[0]] + a[1..] && b == [b[0]] + b[1..];
    }
  }

  lemma {:induction false} ScoredAllCounts(profiles: seq<Profile>, availability: seq<Availability>,
                                           assignments: seq<Assignment>, request: Request, r: Recommendation)
    ensures multiset(ScoredAll(profiles, availability, assignments, request))[r]
            == if r == Scored(r.profile, availability, assignments, request) then multiset(profiles)[r.profile] else 0
  {
    hide Scored;
    var all := ScoredAll(profiles, availability, assignments, request);
    if profiles == [] {
      assert all == [];
    } else {
      var n := |profiles| - 1;
      var front, last := profiles[..n], profiles[n];
      ScoredAllCounts(front, availability, assignments, request, r);
      ScoredKeepsProfile(last, availability, assignments, request);
      assert all == ScoredAll(front, availability, assignments, request)
                    + [Scored(last, availability, assignments, request)];
      assert profiles == front + [last];
    }
  }

  /** A score depends on what is in the lists, not on their order. */
  lemma ScoredIgnoresOrder(profile: Profile, a: seq<Availability>, b: seq<Availability>, c: seq<Assignment>,
                           d: seq<Assignment>, request: Request)
    requires multiset(a) == multiset(b) && multiset(c) == multiset(d)
    ensures Scored(profile, a, c, request) == Scored(profile, b, d, request)
  {
    hide MatchingShift, Occupies, Tally, ReasonsFor, CaddieCode, ShiftStart;
    ShiftIgnoresOrder(profile.id, a, b, request);
    assert forall x :: x in c <==> x in multiset(c);
    assert forall x :: x in d <==> x in multiset(d);
    assert HasOverlappingAssignment(profile.id, c, request) == HasOverlappingAssignment(profile.id, d, request);
  }

  /** The same caddies, shifts and assignments in any other order give the same
      list. */
  lemma RankingIgnoresOrder(p: seq<Profile>, q: seq<Profile>, a: seq<Availability>, b: seq<Availability>,
                            c: seq<Assignment>, d: seq<Assignment>, request: Request)
    requires multiset(p) == multiset(q) && multiset(a) == multiset(b) && multiset(c) == multiset(d)
    requires IdsNameProfiles(p)
    ensures Recommend(p, a, c, request) == Recommend(q, b, d, request)
  {
    hide Scored, Ranked, RanksBefore;
    var l, r := ScoredAll(p, a, c, request), ScoredAll(q, b, d, request);
    forall x: Recommendation ensures multiset(l)[x] == multiset(r)[x] {
      ScoredIgnoresOrder(x.profile, a, b, c, d, request);
      ScoredAllCounts(p, a, c, request, x);
      ScoredAllCounts(q, b, d, request, x);
    }
    RankedPermutes(l);
    RankedPermutes(r);
    RankedAscends(l);
    RankedAscends(r);
    RecommendsEachProfile(p, a, c, request);
    forall x, y | x in Ranked(l) && y in Ranked(l) && RanksBefore(x, y) && RanksBefore(y, x) ensures x == y {
      SameRankSameId(x, y);
      ScoredKeepsProfile(x.profile, a, c, request);
      ScoredKeepsProfile(y.profile, a, c, request);
    }
    AscendingIsUnique(Ranked(l), Ranked(r));
  }

  lemma SameRankSameId(x: Recommendation, y: Recommendation)
    requires RanksBefore(x, y) && RanksBefore(y, x)
    ensures x.tieBreak == y.tieBreak
  {
    hide TieLe;
    TieLeAntisymmetric(x.tieBreak, y.tieBreak);
  }
}
