/** The policy cache: allowances remembered briefly, and how every answer it
    gives is backed by the slow checker over any timed run of overlapping
    checks and invalidations. */
module PolicyCache {
  import opened Wrappers
  import Orders

  datatype CacheKey = CacheKey(bearer: string, tenant: string, platform: Option<string>, action: string)

  /** Milliseconds on a monotonic clock. */
  type Instant = nat

  const CACHE_TTL: nat := 60 * 1000
  const CACHE_GRACE: nat := 30 * 60 * 1000
  const CACHE_CAP: nat := 4096

  type Entries = map<CacheKey, Instant>

  datatype Decision = Allowed | Denied
  datatype CheckError = Unauthorized | TenantRejected | Provider

  // ----- the map's three operations -----

  function Elapsed(granted: Instant, now: Instant): nat {
    if granted <= now then now - granted else 0
  }

  predicate Fresh(entries: Entries, key: CacheKey, window: nat, now: Instant) {
    key in entries && Elapsed(entries[key], now) < window
  }

  /** A look-up drops an entry that is past the grace window. */
  function Pruned(entries: Entries, key: CacheKey, window: nat, now: Instant): Entries {
    if key in entries && !Fresh(entries, key, window, now) && Elapsed(entries[key], now) >= CACHE_GRACE
    then entries - {key} else entries
  }

  function Remembered(entries: Entries, key: CacheKey, now: Instant): Entries {
    (if |entries| >= CACHE_CAP then map[] else entries)[key := now]
  }

  function Forgotten(entries: Entries, tenant: string): Entries {
    map key | key in entries && key.tenant != tenant :: entries[key]
  }

  /** The shared cache, updated in place under its lock. */
  class CachingPolicyChecker {
    var entries: Entries

    constructor ()
      ensures entries == map[]
    {
      entries := map[];
    }

    /** Visits every entry and keeps those of other tenants: afterwards no
        look-up for the tenant is answered, and every other one is answered as
        before. */
    method InvalidateTenant(tenant: string)
      modifies this
      ensures forall key :: key in entries <==> key in old(entries) && key.tenant != tenant
      ensures forall key :: key in entries ==> entries[key] == old(entries)[key]
      ensures forall key, window, now :: Fresh(entries, key, window, now)
                                         <==> key.tenant != tenant && Fresh(old(entries), key, window, now)
      ensures entries == Forgotten(old(entries), tenant)
    {
      var left := entries.Keys;
      while left != {}
        invariant left <= old(entries).Keys
        invariant forall key :: key in entries <==> key in old(entries) && (key in left || key.tenant != tenant)
        invariant forall key :: key in entries ==> entries[key] == old(entries)[key]
        decreases left
      {
        var key :| key in left;
        left := left - {key};
        if key.tenant == tenant {
          entries := entries - {key};
        }
      }
    }

    method Allowance(key: CacheKey, window: nat, now: Instant) returns (held: bool)
      modifies this
      ensures held == Fresh(old(entries), key, window, now)
      ensures entries == Pruned(old(entries), key, window, now)
    {
      if key in entries {
        if Elapsed(entries[key], now) < window {
          return true;
        }
        if Elapsed(entries[key], now) >= CACHE_GRACE {
          entries := entries - {key};
        }
      }
      held := false;
    }

    method Remember(key: CacheKey, now: Instant)
      modifies this
      ensures entries == Remembered(old(entries), key, now)
    {
      if |entries| >= CACHE_CAP {
        entries := map[];
      }
      entries := entries[key := now];
    }

    /** One check with nothing else running: ask the cache, then the inner
        checker, whose `verdict` arrives at `answered`. */
    method Check(readable: set<string>, key: CacheKey, asked: Instant, verdict: Result<Decision, CheckError>,
                 answered: Instant)
      returns (result: Result<Decision, CheckError>)
      modifies this
      ensures var begun := Next(readable, State(old(entries), map[]), Began(0, key, asked));
              if Outcome(readable, State(old(entries), map[]), Began(0, key, asked)).Some? then
                result == Success(Allowed) && entries == begun.entries
              else
                && Some(result) == Outcome(readable, begun, Answered(0, verdict, answered))
                && entries == Next(readable, begun, Answered(0, verdict, answered)).entries
    {
      var held := Allowance(key, CACHE_TTL, asked);
      if held {
        return Success(Allowed);
      }
      match verdict
      case Success(Allowed) =>
        Remember(key, answered);
        return Success(Allowed);
      case Success(Denied) =>
        return Success(Denied);
      case Failure(error) =>
        if error == Provider && key.action in readable {
          var lapsed := Allowance(key, CACHE_GRACE, answered);
          if lapsed {
            return Success(Allowed);
          }
        }
        return Failure(error);
    }
  }

  // ----- overlapping checks as events -----

  /** A check awaits the inner checker between its two turns at the lock, so
      other checks and invalidations may run in between. */
  datatype Event =
    | Began(id: nat, key: CacheKey, at: Instant)
    | Answered(id: nat, verdict: Result<Decision, CheckError>, at: Instant)
    | Invalidated(tenant: string, at: Instant)

  datatype State = State(entries: Entries, pending: map<nat, CacheKey>)

  function Next(readable: set<string>, s: State, event: Event): State {
    match event
    case Began(id, key, at) =>
      if Fresh(s.entries, key, CACHE_TTL, at) then s
      else State(Pruned(s.entries, key, CACHE_TTL, at), s.pending[id := key])
    case Answered(id, verdict, at) =>
      if id !in s.pending then s
      else
        var key := s.pending[id];
        var entries :=
          if verdict == Success(Allowed) then Remembered(s.entries, key, at)
          else if verdict == Failure(Provider) && key.action in readable then Pruned(s.entries, key, CACHE_GRACE, at)
          else s.entries;
        State(entries, s.pending - {id})
    case Invalidated(tenant, at) =>
      State(Forgotten(s.entries, tenant), s.pending)
  }

  /** What the caller is told, when the event ends a check. */
  function Outcome(readable: set<string>, s: State, event: Event): Option<Result<Decision, CheckError>> {
    match event
    case Began(id, key, at) =>
      if Fresh(s.entries, key, CACHE_TTL, at) then Some(Success(Allowed)) else None
    case Answered(id, verdict, at) =>
      if id !in s.pending then None
      else if verdict == Failure(Provider) && s.pending[id].action in readable
              && Fresh(s.entries, s.pending[id], CACHE_GRACE, at) then Some(Success(Allowed))
      else Some(verdict)
    case Invalidated(tenant, at) => None
  }

  function After(readable: set<string>, events: seq<Event>): State {
    if events == [] then State(map[], map[])
    else Next(readable, After(readable, events[..|events| - 1]), events[|events| - 1])
  }

  /** The key an event is about. */
  function KeyAt(readable: set<string>, events: seq<Event>, i: nat): Option<CacheKey>
    requires i < |events|
  {
    match events[i]
    case Began(id, key, at) => Some(key)
    case Answered(id, verdict, at) =>
      var pending := After(readable, events[..i]).pending;
      if id in pending then Some(pending[id]) else None
    case Invalidated(tenant, at) => None
  }

  /** Event `j` is the inner checker saying yes to `key` at time `at`. */
  ghost predicate Granted(readable: set<string>, events: seq<Event>, j: nat, key: CacheKey, at: Instant) {
    && j < |events| && events[j].Answered? && events[j].verdict == Success(Allowed) && events[j].at == at
    && KeyAt(readable, events, j) == Some(key)
  }

  lemma GrantedStays(readable: set<string>, events: seq<Event>, event: Event, j: nat, key: CacheKey, at: Instant)
    requires Granted(readable, events, j, key, at)
    ensures Granted(readable, events + [event], j, key, at)
  {
    hide After;
    assert (events + [event])[..j] == events[..j];
  }

  /** An entry was put there, at step `from` or later, by an inner yes to exactly
      its key, and is stamped with that moment. */
  ghost predicate Backed(readable: set<string>, events: seq<Event>, from: nat, key: CacheKey, at: Instant) {
    exists j :: from <= j && Granted(readable, events, j, key, at)
  }

  /** An event leaves an entry alone, drops it, or stamps it with a yes. */
  lemma EntryStep(readable: set<string>, s: State, event: Event, key: CacheKey)
    requires key in Next(readable, s, event).entries
    ensures var now := Next(readable, s, event).entries[key];
            || (key in s.entries && s.entries[key] == now)
            || (event.Answered? && event.verdict == Success(Allowed) && event.at == now
                && event.id in s.pending && s.pending[event.id] == key)
  {
  }

  lemma BackedNext(readable: set<string>, events: seq<Event>, from: nat, key: CacheKey)
    requires events != [] && from < |events|
    requires key in After(readable, events).entries
    requires var before := After(readable, events[..|events| - 1]).entries;
             key in before ==> Backed(readable, events[..|events| - 1], from, key, before[key])
    ensures Backed(readable, events, from, key, After(readable, events).entries[key])
  {
    hide Next;
    var n := |events| - 1;
    var front, last := events[..n], events[n];
    var before := After(readable, front).entries;
    var now := After(readable, events).entries;
    EntryStep(readable, After(readable, front), last, key);
    if key in before && now[key] == before[key] {
      var j :| from <= j && Granted(readable, front, j, key, before[key]);
      GrantedStays(readable, front, last, j, key, before[key]);
      assert front + [last] == events;
    } else {
      assert Granted(readable, events, n, key, now[key]);
    }
  }

  lemma {:induction false} EntriesAreBacked(readable: set<string>, events: seq<Event>, key: CacheKey)
    requires key in After(readable, events).entries
    ensures Backed(readable, events, 0, key, After(readable, events).entries[key])
  {
    hide Backed, After;
    AfterNothing(readable);
    var front := events[..|events| - 1];
    if key in After(readable, front).entries {
      EntriesAreBacked(readable, front, key);
    }
    BackedNext(readable, events, 0, key);
  }

  lemma AfterNothing(readable: set<string>)
    ensures After(readable, []) == State(map[], map[])
  {
  }

  /** Every yes is the inner checker's: given now; or under a minute ago; or,
      for a read while the policy store cannot be reached, under half an hour
      ago. Always for the same bearer, tenant, platform and action. */
  lemma AllowedIsBacked(readable: set<string>, events: seq<Event>, i: nat)
    requires i < |events|
    requires Outcome(readable, After(readable, events[..i]), events[i]) == Some(Success(Allowed))
    ensures KeyAt(readable, events, i).Some?
    ensures var key, now := KeyAt(readable, events, i).value, events[i].at;
            || Granted(readable, events, i, key, now)
            || exists j, at: Instant ::
                 && 0 <= j < i && Granted(readable, events[..i], j, key, at)
                 && (if events[i].Began? then now < at + 60 * 1000
                     else
                       && now < at + 30 * 60 * 1000
                       && key.action in readable && events[i].verdict == Failure(Provider))
  {
    hide After;
    var before := After(readable, events[..i]);
    var key, now := KeyAt(readable, events, i).value, events[i].at;
    if !Granted(readable, events, i, key, now) {
      EntriesAreBacked(readable, events[..i], key);
      var j :| 0 <= j && Granted(readable, events[..i], j, key, before.entries[key]);
    }
  }

  // ----- what the cache must serve -----

  /** The clock does not run backwards, and has not passed `now`. */
  ghost predicate InTime(events: seq<Event>, now: Instant) {
    && (forall i, j :: 0 <= i < j < |events| ==> events[i].at <= events[j].at)
    && (forall i :: 0 <= i < |events| ==> events[i].at <= now)
  }

  /** Event `k` takes the key away: an invalidation of its tenant, or another
      key's allowance arriving at a full cache. */
  ghost predicate TakesAway(readable: set<string>, events: seq<Event>, k: nat, key: CacheKey)
    requires k < |events|
  {
    || (events[k].Invalidated? && events[k].tenant == key.tenant)
    || (events[k].Answered? && events[k].verdict == Success(Allowed)
        && KeyAt(readable, events, k) != Some(key) && |After(readable, events[..k]).entries| >= 4096)
  }

  /** The inner checker said yes to the key at `at`, and nothing took it away
      since. */
  ghost predicate Standing(readable: set<string>, events: seq<Event>, j: nat, key: CacheKey, at: Instant) {
    && Granted(readable, events, j, key, at)
    && forall k :: j < k < |events| ==> !TakesAway(readable, events, k, key)
  }

  /** The event stores an allowance for another key. */
  predicate AnotherIsStored(s: State, event: Event, key: CacheKey) {
    && event.Answered? && event.verdict == Success(Allowed)
    && event.id in s.pending && s.pending[event.id] != key
  }

  /** One event later: an entry under half an hour old is kept, or stamped anew. */
  lemma EntryKept(readable: set<string>, s: State, event: Event, key: CacheKey)
    requires key in s.entries && s.entries[key] <= event.at < s.entries[key] + 30 * 60 * 1000
    requires !(event.Invalidated? && event.tenant == key.tenant)
    requires AnotherIsStored(s, event, key) ==> |s.entries| < 4096
    ensures var after := Next(readable, s, event).entries;
            key in after && s.entries[key] <= after[key] <= event.at
  {
  }

  lemma StandingBefore(readable: set<string>, events: seq<Event>, j: nat, key: CacheKey, at: Instant, now: Instant)
    requires Standing(readable, events, j, key, at) && j < |events| - 1 && InTime(events, now)
    ensures Standing(readable, events[..|events| - 1], j, key, at) && InTime(events[..|events| - 1], now)
  {
    hide After;
    var front := events[..|events| - 1];
    assert front[..j] == events[..j];
    forall k | j < k < |front| ensures !TakesAway(readable, front, k, key) {
      assert front[..k] == events[..k] && !TakesAway(readable, events, k, key);
    }
  }

  /** A standing allowance is in the cache, and under half an hour of the clock
      no missed look-up, other key or other tenant removes it. */
  lemma {:induction false} AllowanceSurvives(readable: set<string>, events: seq<Event>, j: nat, key: CacheKey,
                                             at: Instant, now: Instant)
    requires Standing(readable, events, j, key, at) && InTime(events, now) && now < at + 30 * 60 * 1000
    ensures key in After(readable, events).entries && at <= After(readable, events).entries[key] <= now
  {
    hide Next, Standing;
    StandingGrants(readable, events, j, key, at);
    var n := |events| - 1;
    var s := After(readable, events[..n]);
    if j == n {
      GrantIsStored(readable, s, events[n], key);
    } else {
      StandingBefore(readable, events, j, key, at, now);
      AllowanceSurvives(readable, events[..n], j, key, at, events[n].at);
      NotTakenAway(readable, events, j, key, at);
      EntryKept(readable, s, events[n], key);
    }
  }

  lemma StandingGrants(readable: set<string>, events: seq<Event>, j: nat, key: CacheKey, at: Instant)
    requires Standing(readable, events, j, key, at)
    ensures Granted(readable, events, j, key, at)
  {
  }

  lemma NotTakenAway(readable: set<string>, events: seq<Event>, j: nat, key: CacheKey, at: Instant)
    requires Standing(readable, events, j, key, at) && j < |events| - 1
    ensures var n := |events| - 1;
            var s := After(readable, events[..n]);
            && !(events[n].Invalidated? && events[n].tenant == key.tenant)
            && (AnotherIsStored(s, events[n], key) ==> |s.entries| < 4096)
  {
    hide After;
    assert !TakesAway(readable, events, |events| - 1, key);
  }

  lemma GrantIsStored(readable: set<string>, s: State, event: Event, key: CacheKey)
    requires event.Answered? && event.verdict == Success(Allowed) && event.id in s.pending && s.pending[event.id] == key
    ensures key in Next(readable, s, event).entries && Next(readable, s, event).entries[key] == event.at
  {
  }

  /** Under a minute after a standing yes, the next check of the same key is
      told yes at once, by whoever asks. */
  lemma ServedForAMinute(readable: set<string>, events: seq<Event>, j: nat, key: CacheKey, at: Instant, id: nat,
                         now: Instant)
    requires Standing(readable, events, j, key, at) && InTime(events, now) && now < at + 60 * 1000
    ensures Outcome(readable, After(readable, events), Began(id, key, now)) == Some(Success(Allowed))
  {
    hide After;
    AllowanceSurvives(readable, events, j, key, at, now);
  }

  /** Under half an hour after a standing yes, a read whose inner call cannot
      reach the policy store is told yes. */
  lemma ServedInAnOutage(readable: set<string>, events: seq<Event>, j: nat, key: CacheKey, at: Instant, id: nat,
                         now: Instant)
    requires Standing(readable, events, j, key, at) && InTime(events, now) && now < at + 30 * 60 * 1000
    requires id in After(readable, events).pending && After(readable, events).pending[id] == key
    requires key.action in readable
    ensures Outcome(readable, After(readable, events), Answered(id, Failure(Provider), now)) == Some(Success(Allowed))
  {
    hide After;
    AllowanceSurvives(readable, events, j, key, at, now);
  }

  /** Any other inner answer is the caller's: a yes, a no, and a refusal of the
      caller or the tenant; a write is never served in an outage. */
  lemma AnswerStands(readable: set<string>, events: seq<Event>, id: nat, verdict: Result<Decision, CheckError>,
                     now: Instant)
    requires id in After(readable, events).pending
    requires verdict == Failure(Provider) ==> After(readable, events).pending[id].action !in readable
    ensures Outcome(readable, After(readable, events), Answered(id, verdict, now)) == Some(verdict)
  {
  }

  /** The cache never holds more than its capacity. */
  lemma {:induction false} CapacityHolds(readable: set<string>, events: seq<Event>)
    ensures |After(readable, events).entries| <= 4096
  {
    if events != [] {
      CapacityHolds(readable, events[..|events| - 1]);
      var before := After(readable, events[..|events| - 1]).entries;
      match events[|events| - 1]
      case Began(id, key, at) => Shrinks(before, Pruned(before, key, CACHE_TTL, at));
      case Answered(id, verdict, at) =>
        var pending := After(readable, events[..|events| - 1]).pending;
        if id in pending {
          Shrinks(before, Pruned(before, pending[id], CACHE_GRACE, at));
          RememberedFits(before, pending[id], at);
        }
      case Invalidated(tenant, at) => Shrinks(before, Forgotten(before, tenant));
    }
  }

  lemma Shrinks(before: Entries, after: Entries)
    requires after.Keys <= before.Keys
    ensures |after| <= |before|
  {
    Orders.FewerElements(after.Keys, before.Keys);
    assert |after| == |after.Keys| && |before| == |before.Keys|;
  }

  lemma RememberedFits(before: Entries, key: CacheKey, now: Instant)
    requires |before| <= CACHE_CAP
    ensures |Remembered(before, key, now)| <= CACHE_CAP
  {
    var base := if |before| >= CACHE_CAP then map[] else before;
    assert base[key := now].Keys == base.Keys + {key};
  }

  // ----- invalidation -----

  /** An invalidation removes exactly the tenant's keys. */
  lemma InvalidationIsExact(readable: set<string>, events: seq<Event>, tenant: string, at: Instant, key: CacheKey)
    ensures var before, after := After(readable, events).entries,
            After(readable, events + [Invalidated(tenant, at)]).entries;
            && (key in after <==> key in before && key.tenant != tenant)
            && (key in after ==> after[key] == before[key])
  {
    assert (events + [Invalidated(tenant, at)])[..|events|] == events;
  }

  /** After an invalidation, what the cache holds for the tenant was granted
      after it. */
  lemma {:induction false} EntriesBackedSince(readable: set<string>, pre: seq<Event>, tenant: string, at: Instant,
                                              post: seq<Event>, key: CacheKey)
    requires key.tenant == tenant
    requires key in After(readable, pre + [Invalidated(tenant, at)] + post).entries
    ensures var events := pre + [Invalidated(tenant, at)] + post;
            Backed(readable, events, |pre| + 1, key, After(readable, events).entries[key])
    decreases |post|
  {
    hide Backed, After, Next;
    var cut := Invalidated(tenant, at);
    var events := pre + [cut] + post;
    if post == [] {
      assert events == pre + [cut];
      InvalidationIsExact(readable, pre, tenant, at, key);
    } else {
      var front := post[..|post| - 1];
      assert events[..|events| - 1] == pre + [cut] + front;
      if key in After(readable, pre + [cut] + front).entries {
        EntriesBackedSince(readable, pre, tenant, at, front, key);
      }
      BackedNext(readable, events, |pre| + 1, key);
    }
  }

  ghost predicate NonePending(s: State, tenant: string) {
    forall id :: id in s.pending ==> s.pending[id].tenant != tenant
  }

  lemma InvalidationKeepsPending(readable: set<string>, pre: seq<Event>, tenant: string, at: Instant)
    ensures After(readable, pre + [Invalidated(tenant, at)]).pending == After(readable, pre).pending
  {
    assert (pre + [Invalidated(tenant, at)])[..|pre|] == pre;
  }

  lemma {:induction false} PendingBeganSince(readable: set<string>, pre: seq<Event>, tenant: string, at: Instant,
                                             post: seq<Event>, id: nat)
    requires NonePending(After(readable, pre), tenant)
    requires var s := After(readable, pre + [Invalidated(tenant, at)] + post);
             id in s.pending && s.pending[id].tenant == tenant
    ensures var events := pre + [Invalidated(tenant, at)] + post;
            exists b :: |pre| < b < |events| && events[b].Began? && events[b].id == id
                        && events[b].key == After(readable, events).pending[id]
    decreases |post|
  {
    hide After, Next, NonePending;
    var cut := Invalidated(tenant, at);
    var events := pre + [cut] + post;
    var n := |events| - 1;
    InvalidationKeepsPending(readable, pre, tenant, at);
    if post == [] {
      assert events == pre + [cut];
      NonePendingMeans(After(readable, pre), tenant, id);
    } else {
      var front := post[..|post| - 1];
      assert events[..n] == pre + [cut] + front;
      var before := After(readable, events[..n]);
      PendingStep(readable, events, id);
      if id in before.pending && before.pending[id] == After(readable, events).pending[id] {
        PendingBeganSince(readable, pre, tenant, at, front, id);
        var b :| |pre| < b < n && events[..n][b].Began? && events[..n][b].id == id
                 && events[..n][b].key == before.pending[id];
        assert events[b] == events[..n][b];
      }
    }
  }

  lemma NonePendingMeans(s: State, tenant: string, id: nat)
    requires NonePending(s, tenant) && id in s.pending
    ensures s.pending[id].tenant != tenant
  {
  }

  lemma PendingStep(readable: set<string>, events: seq<Event>, id: nat)
    requires events != [] && id in After(readable, events).pending
    ensures var n := |events| - 1;
            var before, key := After(readable, events[..n]).pending, After(readable, events).pending[id];
            || (id in before && before[id] == key)
            || (events[n].Began? && events[n].id == id && events[n].key == key)
  {
  }

  /** The inner call behind grant `j` began at event `b`. */
  ghost predicate CallBegan(events: seq<Event>, b: nat, j: nat, key: CacheKey) {
    && b < j < |events| && events[j].Answered?
    && events[b].Began? && events[b].id == events[j].id && events[b].key == key
  }

  /** If no check of the tenant was in flight when it was invalidated, every
      allowance the cache holds for it later comes from an inner call that
      began afterwards. */
  lemma InvalidationTakesEffect(readable: set<string>, pre: seq<Event>, tenant: string, at: Instant, post: seq<Event>,
                                key: CacheKey)
    requires key.tenant == tenant && NonePending(After(readable, pre), tenant)
    requires key in After(readable, pre + [Invalidated(tenant, at)] + post).entries
    ensures var events := pre + [Invalidated(tenant, at)] + post;
            exists b, j :: |pre| < b && CallBegan(events, b, j, key)
                           && Granted(readable, events, j, key, After(readable, events).entries[key])
  {
    hide After, Next, NonePending;
    EntriesBackedSince(readable, pre, tenant, at, post, key);
    var events := pre + [Invalidated(tenant, at)] + post;
    var j :| |pre| + 1 <= j && Granted(readable, events, j, key, After(readable, events).entries[key]);
    var part := post[..j - |pre| - 1];
    assert events[..j] == pre + [Invalidated(tenant, at)] + part;
    PendingBeganSince(readable, pre, tenant, at, part, events[j].id);
    var b :| |pre| < b < j && events[..j][b].Began? && events[..j][b].id == events[j].id && events[..j][b].key == key;
    assert events[b] == events[..j][b];
    assert CallBegan(events, b, j, key);
  }

  /** From here on, whatever follows an invalidation of the tenant, all the
      cache holds for it comes from inner calls begun afterwards. */
  ghost predicate TakesEffect(readable: set<string>, pre: seq<Event>, tenant: string) {
    forall at: Instant, post: seq<Event>, key: CacheKey ::
      key.tenant == tenant && key in After(readable, pre + [Invalidated(tenant, at)] + post).entries ==>
        HeldSince(readable, pre, pre + [Invalidated(tenant, at)] + post, key)
  }

  ghost predicate HeldSince(readable: set<string>, pre: seq<Event>, events: seq<Event>, key: CacheKey) {
    && key in After(readable, events).entries
    && exists b, j :: |pre| < b && CallBegan(events, b, j, key)
                      && Granted(readable, events, j, key, After(readable, events).entries[key])
  }

  /** A check in flight across the invalidation can still put its answer back,
      and the next check is served from it. */
  lemma InFlightCheckOutlivesInvalidation(readable: set<string>, pre: seq<Event>, tenant: string, at: Instant, id: nat,
                                          other: nat)
    requires id in After(readable, pre).pending && After(readable, pre).pending[id].tenant == tenant
    ensures var key := After(readable, pre).pending[id];
            var events := pre + [Invalidated(tenant, at)] + [Answered(id, Success(Allowed), at)];
            Outcome(readable, After(readable, events), Began(other, key, at)) == Some(Success(Allowed))
  {
    var cut, yes := Invalidated(tenant, at), Answered(id, Success(Allowed), at);
    var events := pre + [cut] + [yes];
    assert events[..|events| - 1] == pre + [cut];
    assert (pre + [cut])[..|pre|] == pre;
  }

  lemma AnswerIsRemembered(readable: set<string>, pre: seq<Event>, tenant: string, at: Instant, id: nat)
    requires id in After(readable, pre).pending && After(readable, pre).pending[id].tenant == tenant
    ensures After(readable, pre).pending[id]
            in After(readable, pre + [Invalidated(tenant, at)] + [Answered(id, Success(Allowed), at)]).entries
  {
    var events := pre + [Invalidated(tenant, at)] + [Answered(id, Success(Allowed), at)];
    assert events[..|events| - 1] == pre + [Invalidated(tenant, at)];
    InvalidationKeepsPending(readable, pre, tenant, at);
  }

  /** An invalidation takes full effect, whatever follows, if and only if no
      check of the tenant is in flight. */
  lemma InvalidationTakesEffectExactlyWhen(readable: set<string>, pre: seq<Event>, tenant: string)
    ensures TakesEffect(readable, pre, tenant) <==> NonePending(After(readable, pre), tenant)
  {
    hide After;
    if NonePending(After(readable, pre), tenant) {
      forall at: Instant, post: seq<Event>, key: CacheKey |
        key.tenant == tenant && key in After(readable, pre + [Invalidated(tenant, at)] + post).entries
        ensures HeldSince(readable, pre, pre + [Invalidated(tenant, at)] + post, key)
      {
        InvalidationTakesEffect(readable, pre, tenant, at, post, key);
      }
    } else {
      var id :| id in After(readable, pre).pending && After(readable, pre).pending[id].tenant == tenant;
      var key := After(readable, pre).pending[id];
      var post := [Answered(id, Success(Allowed), 0)];
      AnswerIsRemembered(readable, pre, tenant, 0, id);
      var events := pre + [Invalidated(tenant, 0)] + post;
      assert |events| == |pre| + 2;
      assert !HeldSince(readable, pre, events, key);
    }
  }
}
