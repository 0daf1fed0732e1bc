/** The tenant list: decoding the two profile answers, asking each platform
    which of its tenants an action allows, and merging the result. */
module TenantDiscovery {
  import opened Wrappers
  import opened SourceIdentity

  const MAX_PROFILE_TENANTS := 500
  const EXTENSION_KEY := "golf_course"

  datatype WireUser = WireUser(id: Option<string>, sub: Option<string>, username: Option<string>)

  datatype WireTenant = WireTenant(
    id: Option<string>,
    name: Option<string>,
    platformId: Option<string>,
    switchable: Option<bool>,
    extension: Option<WireExtension>)

  datatype WireExtension = WireExtension(key: Option<string>, enabled: Option<bool>)

  datatype WireProfile = WireProfile(
    user: Option<WireUser>,
    tenants: Option<seq<WireTenant>>,
    defaultTenantId: Option<string>)

  datatype PlatformTenant = PlatformTenant(id: string, name: string, platformId: string)

  datatype ProfileTenant = ProfileTenant(id: string, name: string, platformId: Option<string>)

  datatype Problem = InvalidContract

  // ----- the contract both answers must meet -----

  predicate NonBlank(value: Option<string>) {
    value.Some? && Trim(value.value) != ""
  }

  predicate ValidTenantId(value: string) {
    && |value| == 29 && value[..3] == "tn_"
    && forall c :: c in value[3..] ==> 'a' <= c <= 'z' || '0' <= c <= '9'
  }

  predicate ValidUser(user: Option<WireUser>) {
    && user.Some? && NonBlank(user.value.id) && (user.value.sub.Some? ==> NonBlank(user.value.sub))
    && NonBlank(user.value.username)
  }

  predicate ValidTenant(tenant: WireTenant) {
    NonBlank(tenant.id) && ValidTenantId(tenant.id.value) && NonBlank(tenant.name)
  }

  /** Every tenant, listed or not, must carry a valid id of its own. */
  ghost predicate ValidTenants(tenants: seq<WireTenant>) {
    && (forall i :: 0 <= i < |tenants| ==> ValidTenant(tenants[i]))
    && forall i, j :: 0 <= i < j < |tenants| ==> tenants[i].id != tenants[j].id
  }

  ghost predicate ValidProfile(wire: WireProfile) {
    && ValidUser(wire.user)
    && wire.tenants.Some? && |wire.tenants.value| <= MAX_PROFILE_TENANTS
    && ValidTenants(wire.tenants.value)
  }

  /** The loop both decoders share: it accepts exactly the valid lists. */
  ghost predicate Admitted(tenants: seq<WireTenant>, seen: set<string>) {
    && ValidTenants(tenants)
    && forall id :: id in seen <==> exists i :: 0 <= i < |tenants| && tenants[i].id == Some(id)
  }

  lemma AdmitOne(tenants: seq<WireTenant>, seen: set<string>, next: WireTenant)
    requires Admitted(tenants, seen)
    ensures ValidTenants(tenants + [next]) <==> ValidTenant(next) && next.id.value !in seen
    ensures ValidTenant(next) && next.id.value !in seen ==> Admitted(tenants + [next], seen + {next.id.value})
  {
    hide ValidTenant;
    var all := tenants + [next];
    assert all[|tenants|] == next;
    assert forall i :: 0 <= i < |tenants| ==> all[i] == tenants[i];
    ValidTenantHasId(next);
    if ValidTenant(next) && next.id.value !in seen {
      var more := seen + {next.id.value};
      forall id ensures id in more <==> exists i :: 0 <= i < |all| && all[i].id == Some(id) {
        if id in seen {
          var i :| 0 <= i < |tenants| && tenants[i].id == Some(id);
          assert all[i].id == Some(id);
        }
      }
    }
  }

  lemma ValidTenantHasId(tenant: WireTenant)
    ensures ValidTenant(tenant) ==> tenant.id.Some? && tenant.name.Some?
  {
  }

  lemma InvalidPrefix(tenants: seq<WireTenant>, n: nat)
    requires n <= |tenants| && ValidTenants(tenants)
    ensures ValidTenants(tenants[..n])
  {
    hide ValidTenant;
  }

  predicate HasText(value: Option<string>) {
    value.Some? && exists i :: 0 <= i < |value.value| && !IsWhitespace(value.value[i])
  }

  lemma NonBlankHasText(value: Option<string>)
    ensures NonBlank(value) <==> HasText(value)
  {
    if value.Some? {
      BlankExactlyWhen(value.value);
    }
  }

  /** What an answer has to be: a user with an id and a name, at most 500 tenants,
      every one of them named, and under an id of its own that is `tn_` and 26
      lower-case letters or digits. */
  lemma ValidProfileExactlyWhen(wire: WireProfile)
    ensures ValidProfile(wire) <==>
              && wire.user.Some? && HasText(wire.user.value.id) && HasText(wire.user.value.username)
              && (wire.user.value.sub.Some? ==> HasText(wire.user.value.sub))
              && wire.tenants.Some? && |wire.tenants.value| <= 500
              && (forall i :: 0 <= i < |wire.tenants.value| ==>
                    && HasText(wire.tenants.value[i].name) && wire.tenants.value[i].id.Some?
                    && var id := wire.tenants.value[i].id.value;
                       |id| == 29 && id[0] == 't' && id[1] == 'n' && id[2] == '_'
                       && forall k :: 3 <= k < 29 ==> 'a' <= id[k] <= 'z' || '0' <= id[k] <= '9')
              && (forall i, j :: 0 <= i < j < |wire.tenants.value| ==>
                    wire.tenants.value[i].id != wire.tenants.value[j].id)
  {
    hide NonBlank, HasText, ValidTenantId;
    if wire.user.Some? {
      NonBlankHasText(wire.user.value.id);
      NonBlankHasText(wire.user.value.sub);
      NonBlankHasText(wire.user.value.username);
    }
    if wire.tenants.Some? {
      forall i | 0 <= i < |wire.tenants.value|
        ensures ValidTenant(wire.tenants.value[i]) <==>
                  && HasText(wire.tenants.value[i].name) && wire.tenants.value[i].id.Some?
                  && var id := wire.tenants.value[i].id.value;
                     |id| == 29 && id[0] == 't' && id[1] == 'n' && id[2] == '_'
                     && forall k :: 3 <= k < 29 ==> 'a' <= id[k] <= 'z' || '0' <= id[k] <= '9'
      {
        ValidTenantExactlyWhen(wire.tenants.value[i]);
      }
      hide ValidTenant;
    }
  }

  lemma ValidTenantExactlyWhen(tenant: WireTenant)
    ensures ValidTenant(tenant) <==>
              && HasText(tenant.name) && tenant.id.Some?
              && var id := tenant.id.value;
                 |id| == 29 && id[0] == 't' && id[1] == 'n' && id[2] == '_'
                 && forall k :: 3 <= k < 29 ==> 'a' <= id[k] <= 'z' || '0' <= id[k] <= '9'
  {
    hide Trim, HasText, ValidTenantId;
    NonBlankHasText(tenant.name);
    if tenant.id.Some? {
      var id := tenant.id.value;
      TenantIdLetters(id);
      if ValidTenantId(id) {
        NonBlankHasText(tenant.id);
        LetterHasText(id);
      }
    }
  }

  lemma TenantIdLetters(id: string)
    ensures ValidTenantId(id) <==>
              && |id| == 29 && id[0] == 't' && id[1] == 'n' && id[2] == '_'
              && forall k :: 3 <= k < 29 ==> 'a' <= id[k] <= 'z' || '0' <= id[k] <= '9'
  {
    if |id| == 29 {
      assert id[..3] == [id[0], id[1], id[2]];
      assert forall k :: 3 <= k < 29 ==> id[k] in id[3..];
    }
  }

  lemma LetterHasText(id: string)
    requires id != "" && id[0] == 't'
    ensures HasText(Some(id))
  {
    assert !IsWhitespace(id[0]);
  }

  // ----- the platform answer -----

  predicate Eligible(tenant: WireTenant) {
    tenant.switchable == Some(true) && tenant.platformId.Some? && ValidTenantId(tenant.platformId.value)
  }

  function Platform(tenant: WireTenant): PlatformTenant
    requires ValidTenant(tenant) && Eligible(tenant)
  {
    PlatformTenant(tenant.id.value, tenant.name.value, tenant.platformId.value)
  }

  function EligibleTenants(tenants: seq<WireTenant>): seq<PlatformTenant>
    requires forall i :: 0 <= i < |tenants| ==> ValidTenant(tenants[i])
  {
    if tenants == [] then []
    else
      var last := tenants[|tenants| - 1];
      EligibleTenants(tenants[..|tenants| - 1])
      + if Eligible(last) then [Platform(last)] else []
  }

  ghost predicate UniqueIds(tenants: seq<PlatformTenant>) {
    forall i, j :: 0 <= i < j < |tenants| ==> tenants[i].id != tenants[j].id
  }

  method DecodePlatformProfile(wire: WireProfile) returns (answer: Result<seq<PlatformTenant>, Problem>)
    ensures answer.Success? <==> ValidProfile(wire)
    ensures answer.Success? ==> answer.value == EligibleTenants(wire.tenants.value)
    ensures answer.Success? ==> UniqueIds(answer.value)
  {
    hide ValidTenant, ValidTenants, Eligible, Admitted, UniqueIds;
    if !ValidUser(wire.user) || wire.tenants.None? || |wire.tenants.value| > MAX_PROFILE_TENANTS {
      return Failure(InvalidContract);
    }
    var tenants := wire.tenants.value;
    var seen: set<string> := {};
    var kept := [];
    NothingAdmitted();
    for i := 0 to |tenants|
      invariant Admitted(tenants[..i], seen)
      invariant (forall k :: 0 <= k < i ==> ValidTenant(tenants[k])) && kept == EligibleTenants(tenants[..i])
    {
      var tenant := tenants[i];
      AdmitOne(tenants[..i], seen, tenant);
      assert tenants[..i] + [tenant] == tenants[..i + 1];
      ValidTenantHasId(tenant);
      if !ValidTenant(tenant) || tenant.id.value in seen {
        if ValidTenants(tenants) {
          InvalidPrefix(tenants, i + 1);
        }
        return Failure(InvalidContract);
      }
      seen := seen + {tenant.id.value};
      assert tenants[..i + 1][..i] == tenants[..i];
      if Eligible(tenant) {
        kept := kept + [Platform(tenant)];
      }
    }
    assert tenants[..|tenants|] == tenants;
    AdmittedIsValid(tenants, seen);
    EligibleIdsUnique(tenants);
    answer := Success(kept);
  }

  lemma AdmittedIsValid(tenants: seq<WireTenant>, seen: set<string>)
    requires Admitted(tenants, seen)
    ensures ValidTenants(tenants)
  {
  }

  lemma NothingAdmitted()
    ensures Admitted([], {})
  {
  }

  lemma {:induction false} EligibleComeFrom(tenants: seq<WireTenant>, k: nat)
    requires (forall i :: 0 <= i < |tenants| ==> ValidTenant(tenants[i])) && k < |EligibleTenants(tenants)|
    ensures exists i :: 0 <= i < |tenants| && tenants[i].id == Some(EligibleTenants(tenants)[k].id)
  {
    hide Eligible, ValidTenant;
    var front, last := tenants[..|tenants| - 1], tenants[|tenants| - 1];
    ValidTenantHasId(last);
    if k < |EligibleTenants(front)| {
      EligibleComeFrom(front, k);
      var i :| 0 <= i < |front| && front[i].id == Some(EligibleTenants(front)[k].id);
      assert tenants[i] == front[i];
    }
  }

  lemma {:induction false} EligibleIdsUnique(tenants: seq<WireTenant>)
    requires ValidTenants(tenants)
    ensures UniqueIds(EligibleTenants(tenants))
  {
    hide Eligible, ValidTenant;
    if tenants != [] {
      var front, last := tenants[..|tenants| - 1], tenants[|tenants| - 1];
      EligibleIdsUnique(front);
      ValidTenantHasId(last);
      forall k | 0 <= k < |EligibleTenants(front)| ensures Some(EligibleTenants(front)[k].id) != last.id {
        EligibleComeFrom(front, k);
      }
    }
  }

  /** The platform list holds exactly the switchable tenants on a platform with a
      valid id, each with its own id, name and platform. */
  lemma {:induction false} EligibleExactly(tenants: seq<WireTenant>, item: PlatformTenant)
    requires forall i :: 0 <= i < |tenants| ==> ValidTenant(tenants[i])
    ensures item in EligibleTenants(tenants) <==>
              exists t :: t in tenants
                          && t.id == Some(item.id) && t.name == Some(item.name) && t.platformId == Some(item.platformId)
                          && t.switchable == Some(true) && ValidTenantId(item.platformId)
  {
    hide ValidTenant, ValidTenantId;
    if tenants != [] {
      var front, last := tenants[..|tenants| - 1], tenants[|tenants| - 1];
      assert tenants == front + [last];
      ValidTenantHasId(last);
      EligibleExactly(front, item);
    }
  }

  /** And it holds them in the answer's order. */
  lemma {:induction false} EligibleInOrder(front: seq<WireTenant>, back: seq<WireTenant>)
    requires forall t :: t in front + back ==> ValidTenant(t)
    ensures EligibleTenants(front + back) == EligibleTenants(front) + EligibleTenants(back)
    decreases |back|
  {
    hide ValidTenant, Eligible;
    if back == [] {
      assert front + back == front;
    } else {
      var n := |back| - 1;
      assert back == back[..n] + [back[n]];
      assert front + back == front + back[..n] + [back[n]];
      assert (front + back)[..|front + back| - 1] == front + back[..n];
      EligibleInOrder(front, back[..n]);
    }
  }

  // ----- asking the platforms -----

  /** One `check-tenants` call: platform, action, the ids asked about. */
  type Check = (string, string, seq<string>) -> Result<seq<string>, string>

  datatype Refusal = Refusal(platformId: string, action: string, reason: string)

  function IdsOn(tenants: seq<PlatformTenant>, platformId: string): seq<string> {
    if tenants == [] then []
    else
      var last := tenants[|tenants| - 1];
      IdsOn(tenants[..|tenants| - 1], platformId) + if last.platformId == platformId then [last.id] else []
  }

  lemma {:induction false} IdsOnAre(tenants: seq<PlatformTenant>, platformId: string, id: string)
    ensures id in IdsOn(tenants, platformId) <==> exists t :: t in tenants && t.id == id && t.platformId == platformId
  {
    if tenants != [] {
      var front, last := tenants[..|tenants| - 1], tenants[|tenants| - 1];
      IdsOnAre(front, platformId, id);
      assert tenants == front + [last];
      if id in IdsOn(front, platformId) {
        var t :| t in front && t.id == id && t.platformId == platformId;
        assert t in tenants;
      } else if last.platformId == platformId && last.id == id {
        assert last in tenants;
      }
    }
  }

  /** The platforms in the order their first tenant is listed. */
  function Platforms(tenants: seq<PlatformTenant>): (q: seq<string>)
    ensures forall p :: p in q <==> exists i :: 0 <= i < |tenants| && tenants[i].platformId == p
    ensures forall i, j :: 0 <= i < j < |q| ==> q[i] != q[j]
  {
    if tenants == [] then []
    else
      var last := tenants[|tenants| - 1];
      var front := Platforms(tenants[..|tenants| - 1]);
      if last.platformId in front then front else front + [last.platformId]
  }

  predicate Answers(check: Check, tenants: seq<PlatformTenant>, platformId: string, action: string) {
    check(platformId, action, IdsOn(tenants, platformId)).Success?
  }

  /** The platform's answer to the action names the id, and was asked about it. */
  predicate Names(check: Check, tenants: seq<PlatformTenant>, platformId: string, action: string, id: string) {
    && Answers(check, tenants, platformId, action)
    && id in check(platformId, action, IdsOn(tenants, platformId)).value
    && id in IdsOn(tenants, platformId)
  }

  ghost predicate NamedBy(check: Check, tenants: seq<PlatformTenant>, platforms: seq<string>, actions: seq<string>,
                          id: string) {
    exists p, a :: p in platforms && a in actions && Names(check, tenants, p, a, id)
  }

  ghost predicate AllAnswer(check: Check, tenants: seq<PlatformTenant>, platforms: seq<string>, actions: seq<string>) {
    forall p, a :: p in platforms && a in actions ==> Answers(check, tenants, p, a)
  }

  /** One platform's part: its actions in order, up to the first failure. */
  method AskPlatform(check: Check, tenants: seq<PlatformTenant>, platformId: string, actions: seq<string>)
    returns (answer: Result<set<string>, Refusal>)
    ensures answer.Success? ==> AllAnswer(check, tenants, [platformId], actions)
    ensures answer.Success? ==> forall id :: id in answer.value <==> NamedBy(check, tenants, [platformId], actions, id)
    ensures answer.Failure? ==> FirstFailure(check, tenants, platformId, actions, answer.error)
  {
    var ids := IdsOn(tenants, platformId);
    var allowed: set<string> := {};
    for i := 0 to |actions|
      invariant AllAnswer(check, tenants, [platformId], actions[..i])
      invariant forall id :: id in allowed <==> NamedBy(check, tenants, [platformId], actions[..i], id)
    {
      hide IdsOn;
      var action := actions[i];
      var reply := check(platformId, action, ids);
      assert actions[..i + 1] == actions[..i] + [action];
      if reply.Failure? {
        assert Answers(check, tenants, platformId, action) == false;
        assert forall k :: 0 <= k < i ==> actions[k] in actions[..i];
        assert platformId in [platformId];
        assert FirstFailureAt(check, tenants, platformId, actions, Refusal(platformId, action, reply.error), i);
        return Failure(Refusal(platformId, action, reply.error));
      }
      var named := set id | id in reply.value && id in ids;
      NamedNext(check, tenants, platformId, actions[..i], action, allowed, named);
      allowed := allowed + named;
    }
    assert actions[..|actions|] == actions;
    answer := Success(allowed);
  }

  ghost predicate FirstFailureAt(check: Check, tenants: seq<PlatformTenant>, platformId: string, actions: seq<string>,
                                 refusal: Refusal, i: int) {
    && 0 <= i < |actions| && refusal.platformId == platformId && refusal.action == actions[i]
    && check(platformId, actions[i], IdsOn(tenants, platformId)) == Failure(refusal.reason)
    && forall k :: 0 <= k < i ==> Answers(check, tenants, platformId, actions[k])
  }

  ghost predicate FirstFailure(check: Check, tenants: seq<PlatformTenant>, platformId: string, actions: seq<string>,
                               refusal: Refusal) {
    exists i :: FirstFailureAt(check, tenants, platformId, actions, refusal, i)
  }

  lemma NamedNext(check: Check, tenants: seq<PlatformTenant>, platformId: string, actions: seq<string>, action: string,
                  allowed: set<string>, named: set<string>)
    requires forall id :: id in allowed <==> NamedBy(check, tenants, [platformId], actions, id)
    requires forall id :: id in named <==> Names(check, tenants, platformId, action, id)
    ensures forall id :: id in allowed + named <==> NamedBy(check, tenants, [platformId], actions + [action], id)
  {
    hide Names;
    forall id ensures id in allowed + named <==> NamedBy(check, tenants, [platformId], actions + [action], id) {
      if NamedBy(check, tenants, [platformId], actions, id) {
        var p, a :| p in [platformId] && a in actions && Names(check, tenants, p, a, id);
        assert a in actions + [action];
      }
      if id in named {
        assert platformId in [platformId] && action in actions + [action];
      }
    }
  }

  /** Every platform is asked; the first failure, in platform order, fails the
      whole answer. */
  method AllowedTenantIds(check: Check, tenants: seq<PlatformTenant>, actions: seq<string>)
    returns (answer: Result<set<string>, Refusal>)
    ensures answer.Success? <==> AllAnswer(check, tenants, Platforms(tenants), actions)
    ensures answer.Success? ==>
              forall id :: id in answer.value <==> NamedBy(check, tenants, Platforms(tenants), actions, id)
    ensures answer.Failure? ==>
              exists i :: 0 <= i < |Platforms(tenants)|
                          && FirstFailure(check, tenants, Platforms(tenants)[i], actions, answer.error)
                          && AllAnswer(check, tenants, Platforms(tenants)[..i], actions)
  {
    hide Names, Answers, FirstFailureAt, IdsOn;
    var order := PlatformOrder(tenants);
    var replies := [];
    for i := 0 to |order|
      invariant |replies| == i
      invariant forall k :: 0 <= k < i ==> Replied(check, tenants, order[k], actions, replies[k])
    {
      hide AllAnswer, NamedBy, FirstFailure;
      var reply := AskPlatform(check, tenants, order[i], actions);
      replies := replies + [reply];
    }
    var allowed: set<string> := {};
    for i := 0 to |order|
      invariant AllAnswer(check, tenants, order[..i], actions)
      invariant forall id :: id in allowed <==> NamedBy(check, tenants, order[..i], actions, id)
    {
      assert order[..i + 1] == order[..i] + [order[i]];
      assert Replied(check, tenants, order[i], actions, replies[i]);
      if replies[i].Failure? {
        FailureSpoils(check, tenants, order[i], actions, replies[i].error);
        assert order[i] in order;
        return Failure(replies[i].error);
      }
      PlatformNext(check, tenants, order[..i], order[i], actions, allowed, replies[i].value);
      allowed := allowed + replies[i].value;
    }
    assert order[..|order|] == order;
    answer := Success(allowed);
  }

  ghost predicate Replied(check: Check, tenants: seq<PlatformTenant>, platformId: string, actions: seq<string>,
                          reply: Result<set<string>, Refusal>) {
    match reply
    case Success(ids) =>
      && AllAnswer(check, tenants, [platformId], actions)
      && forall id :: id in ids <==> NamedBy(check, tenants, [platformId], actions, id)
    case Failure(refusal) => FirstFailure(check, tenants, platformId, actions, refusal)
  }

  lemma FailureSpoils(check: Check, tenants: seq<PlatformTenant>, platformId: string, actions: seq<string>,
                      refusal: Refusal)
    requires FirstFailure(check, tenants, platformId, actions, refusal)
    ensures exists a :: a in actions && !Answers(check, tenants, platformId, a)
  {
    var i :| FirstFailureAt(check, tenants, platformId, actions, refusal, i);
    assert actions[i] in actions && !Answers(check, tenants, platformId, actions[i]);
  }

  lemma PlatformNext(check: Check, tenants: seq<PlatformTenant>, front: seq<string>, platformId: string,
                     actions: seq<string>, allowed: set<string>, more: set<string>)
    requires AllAnswer(check, tenants, front, actions) && AllAnswer(check, tenants, [platformId], actions)
    requires forall id :: id in allowed <==> NamedBy(check, tenants, front, actions, id)
    requires forall id :: id in more <==> NamedBy(check, tenants, [platformId], actions, id)
    ensures AllAnswer(check, tenants, front + [platformId], actions)
    ensures forall id :: id in allowed + more <==> NamedBy(check, tenants, front + [platformId], actions, id)
  {
    hide Names, Answers;
    forall p, a | p in front + [platformId] && a in actions ensures Answers(check, tenants, p, a) {
      assert p in front || p in [platformId];
    }
    forall id ensures id in allowed + more <==> NamedBy(check, tenants, front + [platformId], actions, id) {
      if NamedBy(check, tenants, front + [platformId], actions, id) {
        var p, a :| p in front + [platformId] && a in actions && Names(check, tenants, p, a, id);
        assert p in front || p in [platformId];
      }
      if NamedBy(check, tenants, front, actions, id) {
        var p, a :| p in front && a in actions && Names(check, tenants, p, a, id);
        assert p in front + [platformId];
      }
      if NamedBy(check, tenants, [platformId], actions, id) {
        var p, a :| p in [platformId] && a in actions && Names(check, tenants, p, a, id);
        assert p in front + [platformId];
      }
    }
  }

  method PlatformOrder(tenants: seq<PlatformTenant>) returns (order: seq<string>)
    ensures order == Platforms(tenants)
  {
    order := [];
    for i := 0 to |tenants|
      invariant order == Platforms(tenants[..i])
    {
      assert tenants[..i + 1][..i] == tenants[..i];
      if tenants[i].platformId !in order {
        order := order + [tenants[i].platformId];
      }
    }
    assert tenants[..|tenants|] == tenants;
  }

  // ----- what is kept -----

  function Listed(tenant: PlatformTenant): ProfileTenant {
    ProfileTenant(tenant.id, tenant.name, Some(tenant.platformId))
  }

  function Kept(tenant: PlatformTenant, allowed: set<string>): seq<ProfileTenant> {
    if tenant.id in allowed then [Listed(tenant)] else []
  }

  function KeepAllowed(tenants: seq<PlatformTenant>, allowed: set<string>): seq<ProfileTenant> {
    if tenants == [] then [] else Kept(tenants[0], allowed) + KeepAllowed(tenants[1..], allowed)
  }

  /** The list keeps the order it had: what is kept of a front comes before
      what is kept of the rest. */
  lemma {:induction false} KeepAllowedInOrder(front: seq<PlatformTenant>, back: seq<PlatformTenant>,
                                              allowed: set<string>)
    ensures KeepAllowed(front + back, allowed) == KeepAllowed(front, allowed) + KeepAllowed(back, allowed)
  {
    hide Kept;
    if front == [] {
      assert front + back == back;
    } else {
      KeepAllowedInOrder(front[1..], back, allowed);
      assert (front + back)[1..] == front[1..] + back && (front + back)[0] == front[0];
    }
  }

  lemma {:induction false} KeptAre(tenants: seq<PlatformTenant>, allowed: set<string>, item: ProfileTenant)
    ensures item in KeepAllowed(tenants, allowed) <==> exists t :: t in tenants && t.id in allowed && item == Listed(t)
  {
    if tenants != [] {
      KeptAre(tenants[1..], allowed, item);
      assert tenants == [tenants[0]] + tenants[1..];
      if item in KeepAllowed(tenants[1..], allowed) {
        var t :| t in tenants[1..] && t.id in allowed && item == Listed(t);
        assert t in tenants;
      } else if tenants[0].id in allowed && item == Listed(tenants[0]) {
        assert tenants[0] in tenants;
      }
    }
  }

  /** The tenant's platform, asked about its tenants of the list, names it in its
      answer to one of the actions. */
  ghost predicate OwnPlatformNames(check: Check, tenants: seq<PlatformTenant>, tenant: PlatformTenant,
                                   actions: seq<string>) {
    exists a :: a in actions
                && var answer := check(tenant.platformId, a, IdsOn(tenants, tenant.platformId));
                   answer.Success? && tenant.id in answer.value
  }

  lemma NamesIsOwnPlatformNames(check: Check, tenants: seq<PlatformTenant>, tenant: PlatformTenant,
                                actions: seq<string>)
    requires tenant in tenants
    ensures OwnPlatformNames(check, tenants, tenant, actions)
            <==> exists a :: a in actions && Names(check, tenants, tenant.platformId, a, tenant.id)
  {
    IdsOnAre(tenants, tenant.platformId, tenant.id);
    hide IdsOn;
    if OwnPlatformNames(check, tenants, tenant, actions) {
      var a :| a in actions
               && var answer := check(tenant.platformId, a, IdsOn(tenants, tenant.platformId));
                  answer.Success? && tenant.id in answer.value;
      assert Names(check, tenants, tenant.platformId, a, tenant.id);
    }
  }

  /** A tenant is listed exactly when its own platform's answer to some action
      names it; what other platforms answer never matters. */
  lemma KeptExactlyWhenOwnPlatformNames(check: Check, tenants: seq<PlatformTenant>, actions: seq<string>,
                                        allowed: set<string>, tenant: PlatformTenant)
    requires UniqueIds(tenants) && tenant in tenants
    requires forall id :: id in allowed <==> NamedBy(check, tenants, Platforms(tenants), actions, id)
    ensures ProfileTenant(tenant.id, tenant.name, Some(tenant.platformId)) in KeepAllowed(tenants, allowed)
            <==> OwnPlatformNames(check, tenants, tenant, actions)
  {
    NamesIsOwnPlatformNames(check, tenants, tenant, actions);
    hide Platforms, OwnPlatformNames;
    KeptAre(tenants, allowed, Listed(tenant));
    if Listed(tenant) in KeepAllowed(tenants, allowed) {
      var t :| t in tenants && t.id in allowed && Listed(tenant) == Listed(t);
      assert NamedBy(check, tenants, Platforms(tenants), actions, tenant.id);
      var p, a :| p in Platforms(tenants) && a in actions && Names(check, tenants, p, a, tenant.id);
      assert p == tenant.platformId by {
        IdsOnAre(tenants, p, tenant.id);
        var owner :| owner in tenants && owner.id == tenant.id && owner.platformId == p;
        SameIdSameTenant(tenants, owner, tenant);
      }
    }
    if a :| a in actions && Names(check, tenants, tenant.platformId, a, tenant.id) {
      assert tenant.platformId in Platforms(tenants);
      assert NamedBy(check, tenants, Platforms(tenants), actions, tenant.id);
    }
  }

  lemma SameIdSameTenant(tenants: seq<PlatformTenant>, a: PlatformTenant, b: PlatformTenant)
    requires UniqueIds(tenants) && a in tenants && b in tenants && a.id == b.id
    ensures a == b
  {
  }

  /** Without unique ids another platform's answer could admit a tenant. */
  lemma SharedIdIsAdmittedByTheOther()
    returns (check: Check, tenants: seq<PlatformTenant>, tenant: PlatformTenant, allowed: set<string>)
    ensures tenant in tenants
    ensures forall id :: id in allowed <==> NamedBy(check, tenants, Platforms(tenants), ["act"], id)
    ensures Listed(tenant) in KeepAllowed(tenants, allowed)
            && !Names(check, tenants, tenant.platformId, "act", tenant.id)
  {
    tenant := PlatformTenant("t", "n", "p");
    var other := PlatformTenant("t", "n", "q");
    tenants := [tenant, other];
    check := (platform: string, action: string, ids: seq<string>) => Success(if platform == "q" then ids else []);
    allowed := {"t"};
    IdsOnAre(tenants, "q", "t");
    assert other in tenants && "t" in IdsOn(tenants, "q");
    assert tenants[1].platformId == "q" && "q" in Platforms(tenants) && "act" in ["act"];
    assert Names(check, tenants, "q", "act", "t");
    forall id ensures id in allowed <==> NamedBy(check, tenants, Platforms(tenants), ["act"], id) {
      if p, a :| p in Platforms(tenants) && a in ["act"] && Names(check, tenants, p, a, id) {
        IdsOnAre(tenants, p, id);
      }
    }
    KeptAre(tenants, allowed, Listed(tenant));
  }

  // ----- the served profile -----

  function OnlyTenant(tenants: seq<ProfileTenant>): Option<string> {
    if |tenants| == 1 then Some(tenants[0].id) else None
  }

  ghost predicate NoDuplicates(tenants: seq<ProfileTenant>) {
    forall i, j :: 0 <= i < j < |tenants| ==> tenants[i].id != tenants[j].id
  }

  predicate Lists(tenants: seq<ProfileTenant>, id: string) {
    exists t :: t in tenants && t.id == id
  }

  /** The default, when there is one, is a tenant of the list. */
  predicate DefaultListed(tenants: seq<ProfileTenant>, default: Option<string>) {
    default.Some? ==> Lists(tenants, default.value)
  }

  function Merged(listed: seq<ProfileTenant>, more: seq<ProfileTenant>): seq<ProfileTenant>
    decreases |more|
  {
    if more == [] then listed
    else Merged(if Lists(listed, more[0].id) then listed else listed + [more[0]], more[1..])
  }

  /** The merge keeps the list as its prefix, adds no duplicate, loses nobody
      and invents nobody. */
  lemma {:induction false} MergedIs(listed: seq<ProfileTenant>, more: seq<ProfileTenant>)
    ensures listed <= Merged(listed, more)
    ensures NoDuplicates(listed) ==> NoDuplicates(Merged(listed, more))
    ensures forall id :: Lists(Merged(listed, more), id) <==> Lists(listed, id) || Lists(more, id)
    ensures forall t :: t in Merged(listed, more) ==> t in listed || t in more
    decreases |more|
  {
    hide Lists, NoDuplicates;
    if more == [] {
      NobodyListed();
    } else {
      var head, rest := more[0], more[1..];
      var next := if Lists(listed, head.id) then listed else listed + [head];
      MergedIs(next, rest);
      AddedOne(listed, head);
      assert more == [head] + rest;
      forall id ensures Lists(more, id) <==> id == head.id || Lists(rest, id) {
        ListsHead(head, rest, id);
      }
    }
  }

  lemma NobodyListed()
    ensures forall id :: !Lists([], id)
  {
  }

  lemma ListsHead(head: ProfileTenant, rest: seq<ProfileTenant>, id: string)
    ensures Lists([head] + rest, id) <==> id == head.id || Lists(rest, id)
  {
    var all := [head] + rest;
    if t :| t in rest && t.id == id {
      assert t in all;
    }
    assert head in all;
  }

  lemma AddedOne(listed: seq<ProfileTenant>, tenant: ProfileTenant)
    ensures forall id :: Lists(listed + [tenant], id) <==> Lists(listed, id) || id == tenant.id
    ensures NoDuplicates(listed) && !Lists(listed, tenant.id) ==> NoDuplicates(listed + [tenant])
  {
    var all := listed + [tenant];
    forall id ensures Lists(all, id) <==> Lists(listed, id) || id == tenant.id {
      if t :| t in listed && t.id == id {
        assert t in all;
      }
      assert tenant in all;
    }
  }

  class ProfileResponse {
    var tenants: seq<ProfileTenant>
    var defaultTenantId: Option<string>

    ghost predicate Sound()
      reads this
    {
      NoDuplicates(tenants) && DefaultListed(tenants, defaultTenantId)
    }

    /** A list served for the first time: the default is its only tenant. */
    constructor (listed: seq<ProfileTenant>)
      requires NoDuplicates(listed)
      ensures tenants == listed && defaultTenantId == OnlyTenant(listed) && Sound()
    {
      tenants, defaultTenantId := listed, OnlyTenant(listed);
      new;
      OnlyTenantIsListed(listed);
    }

    /** Appends the tenants the list does not have yet. A list that was empty
        gets the single-tenant default; any other keeps the default it had. */
    method AddTenants(more: seq<ProfileTenant>)
      requires Sound()
      modifies this
      ensures tenants == Merged(old(tenants), more)
      ensures defaultTenantId == if old(tenants) == [] then OnlyTenant(tenants) else old(defaultTenantId)
      ensures old(tenants) <= tenants && Sound()
    {
      hide Merged, Lists, NoDuplicates;
      ghost var before := tenants;
      var wasEmpty := tenants == [];
      MergedNothing(tenants);
      for i := 0 to |more|
        invariant Merged(before, more) == Merged(tenants, more[i..])
        invariant defaultTenantId == old(defaultTenantId)
      {
        MergedStep(tenants, more[i..]);
        assert more[i..][1..] == more[i + 1..];
        if !Lists(tenants, more[i].id) {
          tenants := tenants + [more[i]];
        }
      }
      MergedNothing(tenants);
      MergedIs(before, more);
      if wasEmpty {
        defaultTenantId := OnlyTenant(tenants);
      }
      OnlyTenantIsListed(tenants);
    }
  }

  lemma MergedNothing(listed: seq<ProfileTenant>)
    ensures Merged(listed, []) == listed
  {
  }

  lemma MergedStep(listed: seq<ProfileTenant>, more: seq<ProfileTenant>)
    requires more != []
    ensures Merged(listed, more) == Merged(if Lists(listed, more[0].id) then listed else listed + [more[0]], more[1..])
  {
  }

  lemma OnlyTenantIsListed(tenants: seq<ProfileTenant>)
    ensures DefaultListed(tenants, OnlyTenant(tenants))
  {
    if |tenants| == 1 {
      assert tenants[0] in tenants;
    }
  }

  // ----- the extension answer -----

  predicate Enabled(tenant: WireTenant) {
    tenant.extension.Some?
    && tenant.extension.value.key.Some? && Trim(tenant.extension.value.key.value) == EXTENSION_KEY
    && tenant.extension.value.enabled == Some(true)
  }

  function EnabledTenant(tenant: WireTenant): ProfileTenant
    requires ValidTenant(tenant)
  {
    ProfileTenant(tenant.id.value, tenant.name.value, None)
  }

  function EnabledTenants(tenants: seq<WireTenant>): seq<ProfileTenant>
    requires forall i :: 0 <= i < |tenants| ==> ValidTenant(tenants[i])
  {
    if tenants == [] then []
    else
      var last := tenants[|tenants| - 1];
      EnabledTenants(tenants[..|tenants| - 1])
      + if Enabled(last) then [EnabledTenant(last)] else []
  }

  /** The extension list holds exactly the tenants whose extension carries the
      golf key and is switched on, each with its own id and name and no platform. */
  lemma {:induction false} EnabledExactly(tenants: seq<WireTenant>, item: ProfileTenant)
    requires forall i :: 0 <= i < |tenants| ==> ValidTenant(tenants[i])
    ensures item in EnabledTenants(tenants) <==>
              item.platformId.None?
              && exists t :: t in tenants && t.id == Some(item.id) && t.name == Some(item.name)
                             && t.extension.Some? && t.extension.value.enabled == Some(true)
                             && t.extension.value.key.Some? && Trim(t.extension.value.key.value) == "golf_course"
  {
    hide ValidTenant, Trim;
    if tenants != [] {
      var front, last := tenants[..|tenants| - 1], tenants[|tenants| - 1];
      assert tenants == front + [last];
      ValidTenantHasId(last);
      EnabledExactly(front, item);
    }
  }

  /** And it holds them in the answer's order. */
  lemma {:induction false} EnabledInOrder(front: seq<WireTenant>, back: seq<WireTenant>)
    requires forall t :: t in front + back ==> ValidTenant(t)
    ensures EnabledTenants(front + back) == EnabledTenants(front) + EnabledTenants(back)
    decreases |back|
  {
    hide ValidTenant, Enabled;
    if back == [] {
      assert front + back == front;
    } else {
      var n := |back| - 1;
      assert back == back[..n] + [back[n]];
      assert front + back == front + back[..n] + [back[n]];
      assert (front + back)[..|front + back| - 1] == front + back[..n];
      EnabledInOrder(front, back[..n]);
    }
  }

  /** The upstream's default has to be one of its tenants, enabled or not. */
  predicate ValidDefault(wire: WireProfile) {
    wire.defaultTenantId.Some? ==>
      && ValidTenantId(wire.defaultTenantId.value)
      && wire.tenants.Some? && exists t :: t in wire.tenants.value && t.id == wire.defaultTenantId
  }

  method DecodeAndFilterProfile(wire: WireProfile) returns (answer: Result<ProfileResponse, Problem>)
    ensures answer.Success? <==> ValidProfile(wire) && ValidDefault(wire)
    ensures answer.Success? ==>
              && fresh(answer.value) && answer.value.Sound()
              && answer.value.tenants == EnabledTenants(wire.tenants.value)
              && answer.value.defaultTenantId == OnlyTenant(answer.value.tenants)
  {
    hide ValidTenant, ValidTenants, Enabled, Admitted, ValidTenantId;
    if !ValidUser(wire.user) || wire.tenants.None? || |wire.tenants.value| > MAX_PROFILE_TENANTS {
      return Failure(InvalidContract);
    }
    var tenants := wire.tenants.value;
    var seen: set<string> := {};
    var kept := [];
    NothingAdmitted();
    for i := 0 to |tenants|
      invariant Admitted(tenants[..i], seen)
      invariant (forall k :: 0 <= k < i ==> ValidTenant(tenants[k])) && kept == EnabledTenants(tenants[..i])
    {
      var tenant := tenants[i];
      AdmitOne(tenants[..i], seen, tenant);
      assert tenants[..i] + [tenant] == tenants[..i + 1];
      ValidTenantHasId(tenant);
      if !ValidTenant(tenant) || tenant.id.value in seen {
        if ValidTenants(tenants) {
          InvalidPrefix(tenants, i + 1);
        }
        return Failure(InvalidContract);
      }
      seen := seen + {tenant.id.value};
      assert tenants[..i + 1][..i] == tenants[..i];
      if Enabled(tenant) {
        kept := kept + [EnabledTenant(tenant)];
      }
    }
    assert tenants[..|tenants|] == tenants;
    AdmittedIsValid(tenants, seen);
    DefaultIsCandidate(wire, tenants, seen);
    var default := wire.defaultTenantId;
    if default.Some? && (!ValidTenantId(default.value) || default.value !in seen) {
      return Failure(InvalidContract);
    }
    EnabledIdsUnique(tenants);
    var profile := new ProfileResponse(kept);
    answer := Success(profile);
  }

  lemma DefaultIsCandidate(wire: WireProfile, tenants: seq<WireTenant>, seen: set<string>)
    requires Admitted(tenants, seen) && wire.tenants == Some(tenants)
    ensures ValidDefault(wire) <==>
              (wire.defaultTenantId.Some? ==>
                 ValidTenantId(wire.defaultTenantId.value) && wire.defaultTenantId.value in seen)
  {
    hide ValidTenants, ValidTenantId;
    if wire.defaultTenantId.Some? {
      var id := wire.defaultTenantId.value;
      if id in seen {
        var i :| 0 <= i < |tenants| && tenants[i].id == Some(id);
        assert tenants[i] in tenants;
      }
    }
  }

  lemma {:induction false} EnabledComeFrom(tenants: seq<WireTenant>, k: nat)
    requires (forall i :: 0 <= i < |tenants| ==> ValidTenant(tenants[i])) && k < |EnabledTenants(tenants)|
    ensures exists i :: 0 <= i < |tenants| && tenants[i].id == Some(EnabledTenants(tenants)[k].id)
  {
    hide Enabled, ValidTenant;
    var front, last := tenants[..|tenants| - 1], tenants[|tenants| - 1];
    ValidTenantHasId(last);
    if k < |EnabledTenants(front)| {
      EnabledComeFrom(front, k);
      var i :| 0 <= i < |front| && front[i].id == Some(EnabledTenants(front)[k].id);
      assert tenants[i] == front[i];
    }
  }

  lemma {:induction false} EnabledIdsUnique(tenants: seq<WireTenant>)
    requires ValidTenants(tenants)
    ensures NoDuplicates(EnabledTenants(tenants))
  {
    hide Enabled, ValidTenant;
    if tenants != [] {
      var front, last := tenants[..|tenants| - 1], tenants[|tenants| - 1];
      EnabledIdsUnique(front);
      ValidTenantHasId(last);
      forall k | 0 <= k < |EnabledTenants(front)| ensures Some(EnabledTenants(front)[k].id) != last.id {
        EnabledComeFrom(front, k);
      }
    }
  }

  // ----- the two sources put together -----

  lemma {:induction false} KeptIdsUnique(tenants: seq<PlatformTenant>, allowed: set<string>)
    requires UniqueIds(tenants)
    ensures NoDuplicates(KeepAllowed(tenants, allowed))
  {
    if tenants != [] {
      var kept := KeepAllowed(tenants[1..], allowed);
      KeptIdsUnique(tenants[1..], allowed);
      forall k | 0 <= k < |kept| ensures kept[k].id != tenants[0].id {
        KeptAre(tenants[1..], allowed, kept[k]);
        var t :| t in tenants[1..] && t.id in allowed && kept[k] == Listed(t);
      }
    }
  }

  /** The policy source: the platform's tenants some action allows, in the
      platform's order. A failed check refuses the list altogether. */
  method FilterByPolicy(check: Check, tenants: seq<PlatformTenant>, actions: seq<string>)
    returns (answer: Result<ProfileResponse, Refusal>)
    requires UniqueIds(tenants)
    ensures answer.Success? <==> AllAnswer(check, tenants, Platforms(tenants), actions)
    ensures answer.Success? ==>
              && fresh(answer.value) && answer.value.Sound()
              && answer.value.defaultTenantId == OnlyTenant(answer.value.tenants)
              && (forall t :: t in tenants ==>
                    (Listed(t) in answer.value.tenants <==> OwnPlatformNames(check, tenants, t, actions)))
              && exists allowed :: answer.value.tenants == KeepAllowed(tenants, allowed)
  {
    hide OwnPlatformNames, AllAnswer, NamedBy, FirstFailure, KeepAllowed, UniqueIds, NoDuplicates, Platforms;
    var allowed := AllowedTenantIds(check, tenants, actions);
    if allowed.Failure? {
      return Failure(allowed.error);
    }
    KeptIdsUnique(tenants, allowed.value);
    forall t | t in tenants
      ensures Listed(t) in KeepAllowed(tenants, allowed.value) <==> OwnPlatformNames(check, tenants, t, actions)
    {
      KeptExactlyWhenOwnPlatformNames(check, tenants, actions, allowed.value, t);
    }
    var profile := new ProfileResponse(KeepAllowed(tenants, allowed.value));
    answer := Success(profile);
  }
}
