/** The authenticated request of the desktop client: get a token, send, refresh
    once on 401, and never act for an auth context that is no longer current. */
module ProtectedFetch {
  import opened Wrappers

  /** Contexts are compared by identity. */
  type Context = nat

  datatype Answer = Token(token: Option<string>) | Rejected

  /** `tenantDenial`: the header naming a tenant refusal; `expired`: the body
      naming an upstream authentication expiry. */
  datatype Reply = Response(status: nat, tenantDenial: bool, expired: bool) | Unreachable

  /** Everything outside the client, numbered by the waits it is met at: what
      the token source and the server answer, and which context is current by
      the time the wait is over. A callback counts as a wait. */
  datatype World = World(
    tokens: nat -> Answer,
    replies: nat -> Reply,
    contexts: nat -> Option<Context>,
    baseUsable: bool)

  datatype Event =
    | Asked(force: bool, answer: Answer)
    | Sent(token: string, reply: Reply, current: Option<Context>)
    | Unauthorized(current: Option<Context>)
    | Forbidden(current: Option<Context>)

  datatype Ending = Returned(reply: Reply) | ContextChanged | SessionExpired | NotReady | Failed

  predicate UpstreamExpired(reply: Reply) {
    reply.Response? && !(200 <= reply.status < 300) && reply.expired
  }

  /** A token the source language treats as present: not null, not empty. */
  function Usable(answer: Answer): Option<string> {
    if answer.Token? && answer.token.Some? && answer.token.value != "" then answer.token else None
  }

  predicate ShouldSoftSignOutOn401(hasAuthContext: bool, alreadyRetried: bool, refreshProducedToken: bool) {
    hasAuthContext && !alreadyRetried && !refreshProducedToken
  }

  // ----- the reference run -----

  /** The whole run as seen from outside: what was done, how it ended, and the
      clock and current context afterwards. */
  datatype Run = Run(events: seq<Event>, ending: Ending, clock: nat, current: Option<Context>)

  /** The first part of a run: the token, or how the request ends without one. */
  datatype Asking = Asking(events: seq<Event>, token: Result<string, Ending>, clock: nat, current: Option<Context>)

  function Before(events: seq<Event>, run: Run): Run {
    run.(events := events + run.events)
  }

  /** What a settled token answer comes to. */
  function Judge(answer: Answer, context: Context, current: Option<Context>): Option<Result<string, Ending>> {
    if answer.Rejected? then Some(Failure(Failed))
    else if current != Some(context) then Some(Failure(ContextChanged))
    else if Usable(answer).Some? then Some(Success(Usable(answer).value))
    else None
  }

  function AskRun(world: World, clock: nat, captured: Option<Context>): Asking {
    if captured.None? then Asking([], Failure(NotReady), clock, captured)
    else
      var first := Judge(world.tokens(clock), captured.value, world.contexts(clock));
      var cached := Asked(false, world.tokens(clock));
      if first.Some? then Asking([cached], first.value, clock + 1, world.contexts(clock))
      else
        var after := world.contexts(clock + 1);
        var second := Judge(world.tokens(clock + 1), captured.value, after);
        var forced := Asked(true, world.tokens(clock + 1));
        if second.Some? then Asking([cached, forced], second.value, clock + 2, after)
        else Asking([cached, forced, Unauthorized(after)], Failure(SessionExpired), clock + 3,
          world.contexts(clock + 2))
  }

  /** From the moment a token is in hand. */
  function SendRun(world: World, clock: nat, current: Option<Context>, context: Context, token: string,
                   retried: bool): Run
    decreases !retried
  {
    if current != Some(context) then Run([], ContextChanged, clock, current)
    else if !world.baseUsable then Run([], Failed, clock, current)
    else
      var reply := world.replies(clock);
      Before([Sent(token, reply, current)], ReplyRun(world, clock + 1, world.contexts(clock), context, reply, retried))
  }

  /** From the moment the reply is read. */
  function ReplyRun(world: World, clock: nat, current: Option<Context>, context: Context, reply: Reply,
                    retried: bool): Run
    decreases !retried, 0
  {
    if reply.Unreachable? then Run([], Failed, clock, current)
    else if current != Some(context) then Run([], ContextChanged, clock, current)
    else if reply.status == 401 && !retried then
      var after := world.contexts(clock);
      var verdict := Judge(world.tokens(clock), context, after);
      var forced := Asked(true, world.tokens(clock));
      if verdict.None? then Run([forced, Unauthorized(after)], Returned(reply), clock + 2, world.contexts(clock + 1))
      else if verdict.value.Failure? then Run([forced], verdict.value.error, clock + 1, after)
      else Before([forced], SendRun(world, clock + 1, after, context, verdict.value.value, true))
    else if UpstreamExpired(reply) then
      Run([Unauthorized(current)], Returned(reply), clock + 1, world.contexts(clock))
    else if reply.status == 403 && reply.tenantDenial then
      Run([Forbidden(current)], Returned(reply), clock + 1, world.contexts(clock))
    else Run([], Returned(reply), clock, current)
  }

  /** A whole request, made while `captured` is the context. */
  function RequestRun(world: World, clock: nat, captured: Option<Context>): Run {
    var asking := AskRun(world, clock, captured);
    if asking.token.Failure? then Run(asking.events, asking.token.error, asking.clock, asking.current)
    else Before(asking.events, SendRun(world, asking.clock, asking.current, captured.value, asking.token.value, false))
  }

  // ----- the client -----

  class Client {
    const world: World
    var apiAuthContext: Option<Context>
    var clock: nat
    ghost var log: seq<Event>

    constructor (w: World, context: Option<Context>)
      ensures world == w && apiAuthContext == context && clock == 0 && log == []
    {
      world, apiAuthContext, clock, log := w, context, 0, [];
    }

    /** Any wait: by its end another context may be current. */
    method Wait()
      modifies this`apiAuthContext, this`clock
      ensures clock == old(clock) + 1 && apiAuthContext == world.contexts(old(clock))
    {
      apiAuthContext := world.contexts(clock);
      clock := clock + 1;
    }

    method GetAccessToken(force: bool) returns (answer: Answer)
      modifies this
      ensures answer == world.tokens(old(clock))
      ensures clock == old(clock) + 1 && apiAuthContext == world.contexts(old(clock))
      ensures log == old(log) + [Asked(force, answer)]
    {
      answer := world.tokens(clock);
      log := log + [Asked(force, answer)];
      Wait();
    }

    /** Sending and reading the reply are one wait: the context is looked at
        after both. */
    method Fetch(token: string) returns (reply: Reply)
      modifies this
      ensures reply == world.replies(old(clock))
      ensures clock == old(clock) + 1 && apiAuthContext == world.contexts(old(clock))
      ensures log == old(log) + [Sent(token, reply, old(apiAuthContext))]
    {
      reply := world.replies(clock);
      log := log + [Sent(token, reply, apiAuthContext)];
      Wait();
    }

    method OnUnauthorized()
      modifies this
      ensures clock == old(clock) + 1 && apiAuthContext == world.contexts(old(clock))
      ensures log == old(log) + [Unauthorized(old(apiAuthContext))]
    {
      log := log + [Unauthorized(apiAuthContext)];
      Wait();
    }

    method OnForbidden()
      modifies this
      ensures clock == old(clock) + 1 && apiAuthContext == world.contexts(old(clock))
      ensures log == old(log) + [Forbidden(old(apiAuthContext))]
    {
      log := log + [Forbidden(apiAuthContext)];
      Wait();
    }

    /** `accessTokenForProtectedRequest` */
    method AccessToken(context: Option<Context>) returns (token: Result<string, Ending>)
      requires context == apiAuthContext
      modifies this
      ensures var asking := AskRun(world, old(clock), context);
              token == asking.token && log == old(log) + asking.events
              && clock == asking.clock && apiAuthContext == asking.current
    {
      if context.None? {
        return Failure(NotReady);
      }
      var answer := GetAccessToken(false);
      if answer.Rejected? {
        return Failure(Failed);
      }
      if apiAuthContext != context {
        return Failure(ContextChanged);
      }
      if Usable(answer).Some? {
        return Success(Usable(answer).value);
      }
      answer := GetAccessToken(true);
      if answer.Rejected? {
        return Failure(Failed);
      }
      if apiAuthContext != context {
        return Failure(ContextChanged);
      }
      if Usable(answer).Some? {
        return Success(Usable(answer).value);
      }
      OnUnauthorized();
      token := Failure(SessionExpired);
    }

    /** `protectedFetch` with a token in hand: the first send, or the one retry. */
    method Send(context: Context, token: string, retried: bool) returns (ending: Ending)
      modifies this
      ensures var run := SendRun(world, old(clock), old(apiAuthContext), context, token, retried);
              && ending == run.ending && log == old(log) + run.events
              && clock == run.clock && apiAuthContext == run.current
      decreases !retried
    {
      if apiAuthContext != Some(context) {
        return ContextChanged;
      }
      if !world.baseUsable {
        return Failed;
      }
      var reply := Fetch(token);
      if reply.Unreachable? {
        return Failed;
      }
      if apiAuthContext != Some(context) {
        return ContextChanged;
      }
      if reply.status == 401 {
        if !retried {
          var refreshed := GetAccessToken(true);
          if refreshed.Rejected? {
            return Failed;
          }
          if apiAuthContext != Some(context) {
            return ContextChanged;
          }
          if Usable(refreshed).Some? {
            ending := Send(context, Usable(refreshed).value, true);
            return;
          }
          if ShouldSoftSignOutOn401(true, false, false) {
            OnUnauthorized();
            return Returned(reply);
          }
        }
      }
      if UpstreamExpired(reply) {
        OnUnauthorized();
      } else if reply.status == 403 && reply.tenantDenial {
        OnForbidden();
      }
      ending := Returned(reply);
    }

    /** `protectedFetch` as callers use it: the context is captured at the start. */
    method Request() returns (ending: Ending)
      modifies this
      ensures var run := RequestRun(world, old(clock), old(apiAuthContext));
              && ending == run.ending && log == old(log) + run.events
              && clock == run.clock && apiAuthContext == run.current
    {
      hide SendRun, AskRun;
      var context := apiAuthContext;
      var token := AccessToken(context);
      if token.Failure? {
        return token.error;
      }
      TokenNeedsContext(world, old(clock), context);
      ending := Send(context.value, token.value, false);
    }
  }

  lemma TokenNeedsContext(world: World, clock: nat, captured: Option<Context>)
    ensures AskRun(world, clock, captured).token.Success? ==> captured.Some?
  {
  }

  // ----- what every run keeps -----

  function Sends(events: seq<Event>): nat {
    if events == [] then 0 else (if events[0].Sent? then 1 else 0) + Sends(events[1..])
  }

  function Callbacks(events: seq<Event>): seq<Event> {
    if events == [] then []
    else (if events[0].Unauthorized? || events[0].Forbidden? then [events[0]] else []) + Callbacks(events[1..])
  }

  /** The reply to the last send, `last` if there was none. */
  function LastReply(last: Option<Reply>, events: seq<Event>): Option<Reply>
    decreases |events|
  {
    if events == [] then last
    else LastReply(if events[0].Sent? then Some(events[0].reply) else last, events[1..])
  }

  /** Nothing is sent and nobody is called back unless the context captured at
      the start is current at that moment. */
  predicate OnBehalfOf(event: Event, context: Context) {
    match event
    case Asked(_, _) => true
    case Sent(_, _, current) => current == Some(context)
    case Unauthorized(current) => current == Some(context)
    case Forbidden(current) => current == Some(context)
  }

  /** Every send carries the token just obtained (`hand`), and a second one
      follows a 401 only. */
  predicate InOrder(hand: Option<string>, last: Option<Reply>, events: seq<Event>)
    decreases |events|
  {
    if events == [] then true
    else match events[0]
      case Asked(_, answer) => InOrder(Usable(answer), last, events[1..])
      case Sent(token, reply, _) =>
        && hand == Some(token)
        && (last.Some? ==> last.value.Response? && last.value.status == 401)
        && InOrder(None, Some(reply), events[1..])
      case _ => events[1..] == []
  }

  /** The sign-out is owed to a missing token, to a 401 that no refreshed token
      was tried on, or to a named upstream expiry; the refusal screen to a
      tenant refusal. Nothing else calls back. */
  function Owed(ending: Ending, retried: bool, context: Context): seq<Event> {
    match ending
    case SessionExpired => [Unauthorized(Some(context))]
    case Returned(reply) =>
      if UpstreamExpired(reply) || (reply.Response? && reply.status == 401 && !retried) then
        [Unauthorized(Some(context))]
      else if reply.Response? && reply.status == 403 && reply.tenantDenial then [Forbidden(Some(context))]
      else []
    case _ => []
  }

  ghost predicate Disciplined(run: Run, context: Context, hand: Option<string>, last: Option<Reply>, sent: nat) {
    && (forall e :: e in run.events ==> OnBehalfOf(e, context))
    && InOrder(hand, last, run.events)
    && sent + Sends(run.events) <= 2
    && Callbacks(run.events) == Owed(run.ending, sent + Sends(run.events) == 2, context)
    && (run.ending.Returned? ==> LastReply(last, run.events) == Some(run.ending.reply))
  }

  lemma OneMore(event: Event, run: Run, context: Context, hand: Option<string>, last: Option<Reply>, sent: nat,
                hand': Option<string>, last': Option<Reply>, sent': nat)
    requires Disciplined(run, context, hand', last', sent') && OnBehalfOf(event, context)
    requires match event
             case Asked(_, answer) => hand' == Usable(answer) && last' == last && sent' == sent
             case Sent(token, reply, _) =>
               && hand == Some(token) && hand' == None && last' == Some(reply) && sent' == sent + 1
               && (last.Some? ==> last.value.Response? && last.value.status == 401)
             case _ => false
    ensures Disciplined(Before([event], run), context, hand, last, sent)
  {
    hide Usable, Owed, OnBehalfOf;
    var all := Before([event], run).events;
    assert all[0] == event && all[1..] == run.events;
  }

  /** A run of nothing but, perhaps, its one callback. */
  lemma AtMostACallback(run: Run, context: Context, hand: Option<string>, last: Option<Reply>, sent: nat)
    requires sent <= 2 && run.events == Owed(run.ending, sent == 2, context)
    requires run.ending.Returned? ==> last == Some(run.ending.reply)
    ensures Disciplined(run, context, hand, last, sent)
  {
    hide UpstreamExpired;
    if run.events != [] {
      var event := run.events[0];
      assert run.events == [event] && run.events[1..] == [];
      assert event.Unauthorized? || event.Forbidden?;
      assert Sends(run.events) == 0 && Callbacks(run.events) == [event];
      assert LastReply(last, run.events) == last;
    }
  }

  lemma ReplyOnRetry(world: World, clock: nat, current: Option<Context>, context: Context, reply: Reply)
    ensures Disciplined(ReplyRun(world, clock, current, context, reply, true), context, None, Some(reply), 2)
  {
    AtMostACallback(ReplyRun(world, clock, current, context, reply, true), context, None, Some(reply), 2);
  }

  lemma SendOnRetry(world: World, clock: nat, current: Option<Context>, context: Context, token: string, last: Reply)
    requires last.Response? && last.status == 401
    ensures Disciplined(SendRun(world, clock, current, context, token, true), context, Some(token), Some(last), 1)
  {
    hide ReplyRun, Disciplined;
    var run := SendRun(world, clock, current, context, token, true);
    if current != Some(context) || !world.baseUsable {
      AtMostACallback(run, context, Some(token), Some(last), 1);
    } else {
      var reply := world.replies(clock);
      ReplyOnRetry(world, clock + 1, world.contexts(clock), context, reply);
      OneMore(Sent(token, reply, current), ReplyRun(world, clock + 1, world.contexts(clock), context, reply, true),
              context, Some(token), Some(last), 1, None, Some(reply), 2);
    }
  }

  lemma ReplyFirst(world: World, clock: nat, current: Option<Context>, context: Context, reply: Reply)
    ensures Disciplined(ReplyRun(world, clock, current, context, reply, false), context, None, Some(reply), 1)
  {
    hide SendRun, Disciplined;
    var run := ReplyRun(world, clock, current, context, reply, false);
    if reply.Response? && current == Some(context) && reply.status == 401 {
      var after := world.contexts(clock);
      var answer := world.tokens(clock);
      var verdict := Judge(answer, context, after);
      var rest := if verdict.None? then
                    Run([Unauthorized(after)], Returned(reply), clock + 2, world.contexts(clock + 1))
                  else if verdict.value.Failure? then Run([], verdict.value.error, clock + 1, after)
                  else SendRun(world, clock + 1, after, context, verdict.value.value, true);
      if verdict.Some? && verdict.value.Success? {
        SendOnRetry(world, clock + 1, after, context, verdict.value.value, reply);
      } else {
        AtMostACallback(rest, context, Usable(answer), Some(reply), 1);
      }
      OneMore(Asked(true, answer), rest, context, None, Some(reply), 1, Usable(answer), Some(reply), 1);
      assert run == Before([Asked(true, answer)], rest);
    } else {
      AtMostACallback(run, context, None, Some(reply), 1);
    }
  }

  lemma SendFirst(world: World, clock: nat, current: Option<Context>, context: Context, token: string)
    ensures Disciplined(SendRun(world, clock, current, context, token, false), context, Some(token), None, 0)
  {
    hide ReplyRun, Disciplined;
    var run := SendRun(world, clock, current, context, token, false);
    if current != Some(context) || !world.baseUsable {
      AtMostACallback(run, context, Some(token), None, 0);
    } else {
      var reply := world.replies(clock);
      ReplyFirst(world, clock + 1, world.contexts(clock), context, reply);
      OneMore(Sent(token, reply, current), ReplyRun(world, clock + 1, world.contexts(clock), context, reply, false),
              context, Some(token), None, 0, None, Some(reply), 1);
    }
  }

  /** For every behaviour of token source, server and context changes: at most
      two sends, each with the token just obtained and the second only after a
      401; at most one callback, exactly the one owed; and neither unless the
      captured context is still current. Without a context nothing happens. */
  lemma EveryRequestIsDisciplined(world: World, clock: nat, captured: Option<Context>)
    ensures var run := RequestRun(world, clock, captured);
            if captured.None? then run.events == [] && run.ending == NotReady
            else
              && (forall e :: e in run.events ==> OnBehalfOf(e, captured.value))
              && InOrder(None, None, run.events)
              && Sends(run.events) <= 2
              && Callbacks(run.events) == Owed(run.ending, Sends(run.events) == 2, captured.value)
              && (run.ending.Returned? ==> LastReply(None, run.events) == Some(run.ending.reply))
  {
    if captured.Some? {
      assert Disciplined(RequestRun(world, clock, captured), captured.value, None, None, 0) by {
        RequestDisciplined(world, clock, captured.value);
      }
    }
  }

  lemma RequestDisciplined(world: World, clock: nat, context: Context)
    ensures Disciplined(RequestRun(world, clock, Some(context)), context, None, None, 0)
  {
    hide SendRun, Disciplined, Usable;
    var answer, after := world.tokens(clock), world.contexts(clock);
    var first := Judge(answer, context, after);
    var cached := Asked(false, answer);
    var rest: Run;
    if first.None? {
      var answer2, after2 := world.tokens(clock + 1), world.contexts(clock + 1);
      var second := Judge(answer2, context, after2);
      var forced := Asked(true, answer2);
      var last := if second.None? then Run([Unauthorized(after2)], SessionExpired, clock + 3, world.contexts(clock + 2))
                  else if second.value.Failure? then Run([], second.value.error, clock + 2, after2)
                  else SendRun(world, clock + 2, after2, context, second.value.value, false);
      if second.Some? && second.value.Success? {
        SendFirst(world, clock + 2, after2, context, second.value.value);
      } else {
        AtMostACallback(last, context, Usable(answer2), None, 0);
      }
      rest := Before([forced], last);
      OneMore(forced, last, context, Usable(answer), None, 0, Usable(answer2), None, 0);
      assert [cached] + ([forced] + last.events) == [cached, forced] + last.events;
    } else if first.value.Failure? {
      rest := Run([], first.value.error, clock + 1, after);
      AtMostACallback(rest, context, Usable(answer), None, 0);
    } else {
      rest := SendRun(world, clock + 1, after, context, first.value.value, false);
      SendFirst(world, clock + 1, after, context, first.value.value);
    }
    OneMore(cached, rest, context, None, None, 0, Usable(answer), None, 0);
    assert RequestRun(world, clock, Some(context)) == Before([cached], rest);
  }

  // ----- why a session is ended -----

  /** What stands right before a sign-out: a forced try that brought no token, or
      a reply that names the expiry and is not a 401 still to be retried. */
  predicate Justifies(previous: Option<Event>) {
    match previous
    case Some(Asked(force, answer)) => force && Usable(answer).None?
    case Some(Sent(_, reply, _)) => UpstreamExpired(reply)
    case _ => false
  }

  predicate Justified(previous: Option<Event>, events: seq<Event>)
    decreases |events|
  {
    events == [] || ((events[0].Unauthorized? ==> Justifies(previous)) && Justified(Some(events[0]), events[1..]))
  }

  lemma JustifiedCons(previous: Option<Event>, event: Event, rest: seq<Event>)
    requires Justified(Some(event), rest) && !event.Unauthorized?
    ensures Justified(previous, [event] + rest)
  {
    assert ([event] + rest)[1..] == rest;
  }

  lemma JustifiedOne(previous: Option<Event>, event: Event)
    requires event.Unauthorized? ==> Justifies(previous)
    ensures Justified(previous, [event])
  {
  }

  lemma ReplyIsJustified(world: World, clock: nat, current: Option<Context>, context: Context, reply: Reply,
                         retried: bool, sent: Event)
    requires sent.Sent? && sent.reply == reply
    ensures Justified(Some(sent), ReplyRun(world, clock, current, context, reply, retried).events)
    decreases !retried, 0
  {
    hide UpstreamExpired, SendRun;
    if reply.Response? && current == Some(context) {
      if reply.status == 401 && !retried {
        var after := world.contexts(clock);
        var forced := Asked(true, world.tokens(clock));
        var verdict := Judge(world.tokens(clock), context, after);
        if verdict.None? {
          JustifiedOne(Some(forced), Unauthorized(after));
          JustifiedCons(Some(sent), forced, [Unauthorized(after)]);
          assert [forced] + [Unauthorized(after)] == [forced, Unauthorized(after)];
        } else if verdict.value.Failure? {
          JustifiedOne(Some(sent), forced);
        } else {
          SendIsJustified(world, clock + 1, after, context, verdict.value.value, true, Some(forced));
          var retried := SendRun(world, clock + 1, after, context, verdict.value.value, true);
          JustifiedCons(Some(sent), forced, retried.events);
        }
      } else if UpstreamExpired(reply) {
        JustifiedOne(Some(sent), Unauthorized(current));
      } else if reply.status == 403 && reply.tenantDenial {
        JustifiedOne(Some(sent), Forbidden(current));
      }
    }
  }

  lemma SendIsJustified(world: World, clock: nat, current: Option<Context>, context: Context, token: string,
                        retried: bool, previous: Option<Event>)
    ensures Justified(previous, SendRun(world, clock, current, context, token, retried).events)
    decreases !retried
  {
    hide ReplyRun;
    if current == Some(context) && world.baseUsable {
      var reply := world.replies(clock);
      var sent := Sent(token, reply, current);
      ReplyIsJustified(world, clock + 1, world.contexts(clock), context, reply, retried, sent);
      JustifiedCons(previous, sent, ReplyRun(world, clock + 1, world.contexts(clock), context, reply, retried).events);
    }
  }

  /** No session is ended without a forced try for a token having just failed,
      or the reply just read naming the expiry. */
  lemma SignOutIsJustified(world: World, clock: nat, captured: Option<Context>)
    ensures Justified(None, RequestRun(world, clock, captured).events)
  {
    hide SendRun;
    if captured.Some? {
      var context := captured.value;
      var cached := Asked(false, world.tokens(clock));
      var first := Judge(world.tokens(clock), context, world.contexts(clock));
      if first.Some? {
        if first.value.Success? {
          SendIsJustified(world, clock + 1, world.contexts(clock), context, first.value.value, false, Some(cached));
          var sending := SendRun(world, clock + 1, world.contexts(clock), context, first.value.value, false);
          JustifiedCons(None, cached, sending.events);
        } else {
          JustifiedOne(None, cached);
        }
      } else {
        ForcedIsJustified(world, clock, context, cached);
      }
    }
  }

  lemma ForcedIsJustified(world: World, clock: nat, context: Context, cached: Event)
    requires cached == Asked(false, world.tokens(clock))
    requires Judge(world.tokens(clock), context, world.contexts(clock)).None?
    ensures Justified(None, RequestRun(world, clock, Some(context)).events)
  {
    hide SendRun, Justified;
    var after := world.contexts(clock + 1);
    var second := Judge(world.tokens(clock + 1), context, after);
    var forced := Asked(true, world.tokens(clock + 1));
    var rest: seq<Event>;
    if second.None? {
      rest := [Unauthorized(after)];
      JustifiedOne(Some(forced), Unauthorized(after));
    } else if second.value.Failure? {
      rest := [];
      NothingJustified(Some(forced));
    } else {
      rest := SendRun(world, clock + 2, after, context, second.value.value, false).events;
      SendIsJustified(world, clock + 2, after, context, second.value.value, false, Some(forced));
    }
    JustifiedCons(Some(cached), forced, rest);
    JustifiedCons(None, cached, [forced] + rest);
    assert RequestRun(world, clock, Some(context)).events == [cached] + ([forced] + rest);
  }

  lemma NothingJustified(previous: Option<Event>)
    ensures Justified(previous, [])
  {
  }

  // ----- what the world makes of a request -----

  predicate Given(answer: Answer, token: string) {
    answer == Token(Some(token)) && token != ""
  }

  predicate Nothing(answer: Answer) {
    answer == Token(None) || answer == Token(Some(""))
  }

  /** The world gives the captured context a token by wait `at`, the cached one
      or else a forced one, and `asks` is how it came by. */
  predicate TokenAt(world: World, clock: nat, context: Context, asks: seq<Event>, token: string, at: nat) {
    var first, second := world.tokens(clock), world.tokens(clock + 1);
    && world.contexts(clock) == Some(context)
    && if Given(first, token) then asks == [Asked(false, first)] && at == clock + 1
       else
         && Nothing(first) && Given(second, token) && world.contexts(clock + 1) == Some(context)
         && asks == [Asked(false, first), Asked(true, second)] && at == clock + 2
  }

  function CallbackFor(reply: Reply, context: Context): seq<Event> {
    if !reply.Response? || 200 <= reply.status < 300 then []
    else if reply.expired then [Unauthorized(Some(context))]
    else if reply.status == 403 && reply.tenantDenial then [Forbidden(Some(context))]
    else []
  }

  lemma TokenAtIsAsked(world: World, clock: nat, context: Context, asks: seq<Event>, token: string, at: nat)
    requires TokenAt(world, clock, context, asks, token, at)
    ensures RequestRun(world, clock, Some(context))
            == Before(asks, SendRun(world, at, Some(context), context, token, false))
  {
    hide SendRun;
  }

  /** A reply other than 401 is returned after that one send, with the callback
      it calls for. */
  lemma AnsweredAtOnce(world: World, clock: nat, context: Context, asks: seq<Event>, token: string, at: nat)
    requires TokenAt(world, clock, context, asks, token, at) && world.baseUsable
    requires var reply := world.replies(at);
             reply.Response? && reply.status != 401 && world.contexts(at) == Some(context)
    ensures var run, reply := RequestRun(world, clock, Some(context)), world.replies(at);
            && run.ending == Returned(reply)
            && run.events == asks + ([Sent(token, reply, Some(context))] + CallbackFor(reply, context))
  {
    hide RequestRun;
    TokenAtIsAsked(world, clock, context, asks, token, at);
  }

  /** A first 401 is followed by a forced token, and a usable one by exactly one
      more send with it; the second reply, 401 or not, then decides the ending. */
  lemma RefusedThenRetried(world: World, clock: nat, context: Context, asks: seq<Event>, token: string, at: nat,
                           renewed: string)
    requires TokenAt(world, clock, context, asks, token, at) && world.baseUsable
    requires world.replies(at).Response? && world.replies(at).status == 401 && world.contexts(at) == Some(context)
    requires Given(world.tokens(at + 1), renewed) && world.contexts(at + 1) == Some(context)
    ensures var run := RequestRun(world, clock, Some(context));
            var first, second := world.replies(at), world.replies(at + 2);
            var current := world.contexts(at + 2) == Some(context);
            && run.ending
               == (if second.Unreachable? then Failed else if current then Returned(second) else ContextChanged)
            && run.events
               == asks
                  + ([Sent(token, first, Some(context)), Asked(true, world.tokens(at + 1)),
                      Sent(renewed, second, Some(context))]
                     + if current then CallbackFor(second, context) else [])
  {
    hide RequestRun;
    TokenAtIsAsked(world, clock, context, asks, token, at);
  }

  /** A first 401 signs out only when the forced token is not there to be had. */
  lemma RefusedForGood(world: World, clock: nat, context: Context, asks: seq<Event>, token: string, at: nat)
    requires TokenAt(world, clock, context, asks, token, at) && world.baseUsable
    requires world.replies(at).Response? && world.replies(at).status == 401 && world.contexts(at) == Some(context)
    requires Nothing(world.tokens(at + 1)) && world.contexts(at + 1) == Some(context)
    ensures var run, first := RequestRun(world, clock, Some(context)), world.replies(at);
            && run.ending == Returned(first)
            && run.events
               == asks
                  + [Sent(token, first, Some(context)), Asked(true, world.tokens(at + 1)),
                     Unauthorized(Some(context))]
  {
    hide RequestRun;
    TokenAtIsAsked(world, clock, context, asks, token, at);
  }

  /** Without any token the session is over, after a forced try. */
  lemma NoTokenEndsSession(world: World, clock: nat, context: Context)
    requires Nothing(world.tokens(clock)) && world.contexts(clock) == Some(context)
    requires Nothing(world.tokens(clock + 1)) && world.contexts(clock + 1) == Some(context)
    ensures var run := RequestRun(world, clock, Some(context));
            && run.ending == SessionExpired
            && run.events
               == [Asked(false, world.tokens(clock)), Asked(true, world.tokens(clock + 1)), Unauthorized(Some(context))]
  {
  }

  /** A request returns the first reply if and only if it arrives in time and is
      not a 401, or is one and no token can be had. */
  lemma ReturnsFirstReplyExactlyWhen(world: World, clock: nat, context: Context, asks: seq<Event>, token: string,
                                     at: nat)
    requires TokenAt(world, clock, context, asks, token, at)
    ensures var run, first := RequestRun(world, clock, Some(context)), world.replies(at);
            run.ending.Returned? && Sends(run.events) == 1
            <==> && world.baseUsable && first.Response? && world.contexts(at) == Some(context)
                 && (first.status == 401 ==> Nothing(world.tokens(at + 1)) && world.contexts(at + 1) == Some(context))
  {
    hide RequestRun, SendRun;
    TokenAtIsAsked(world, clock, context, asks, token, at);
    var rest := SendRun(world, at, Some(context), context, token, false);
    SendsConcat(asks, rest.events);
    NoSendsAsking(asks);
    FirstReplyBack(world, at, context, token);
  }

  lemma SendsCons(event: Event, rest: seq<Event>)
    ensures Sends([event] + rest) == (if event.Sent? then 1 else 0) + Sends(rest)
  {
    assert ([event] + rest)[1..] == rest;
  }

  lemma FirstReplyBack(world: World, at: nat, context: Context, token: string)
    ensures var run, first := SendRun(world, at, Some(context), context, token, false), world.replies(at);
            run.ending.Returned? && Sends(run.events) == 1
            <==> && world.baseUsable && first.Response? && world.contexts(at) == Some(context)
                 && (first.status == 401 ==> Nothing(world.tokens(at + 1)) && world.contexts(at + 1) == Some(context))
  {
    hide UpstreamExpired, ReplyRun;
    if world.baseUsable {
      var first, current := world.replies(at), world.contexts(at);
      var rest := ReplyRun(world, at + 1, current, context, first, false);
      SendsCons(Sent(token, first, Some(context)), rest.events);
      FirstReplyRead(world, at + 1, current, context, first);
    }
  }

  lemma FirstReplyRead(world: World, at: nat, current: Option<Context>, context: Context, first: Reply)
    ensures var run := ReplyRun(world, at, current, context, first, false);
            run.ending.Returned? && Sends(run.events) == 0
            <==> && first.Response? && current == Some(context)
                 && (first.status == 401 ==> Nothing(world.tokens(at)) && world.contexts(at) == Some(context))
  {
    hide UpstreamExpired, SendRun;
    var answer, after := world.tokens(at), world.contexts(at);
    if first.Response? && current == Some(context) && first.status == 401 {
      var verdict := Judge(answer, context, after);
      if verdict.Some? && verdict.value.Success? {
        var retry := SendRun(world, at + 1, after, context, verdict.value.value, true);
        SendsCons(Asked(true, answer), retry.events);
        RetrySends(world, at + 1, after, context, verdict.value.value);
      } else if verdict.None? {
        assert Sends([Asked(true, answer), Unauthorized(after)]) == 0 by {
          SendsCons(Asked(true, answer), [Unauthorized(after)]);
          SendsCons(Unauthorized(after), []);
          assert [Asked(true, answer)] + [Unauthorized(after)] == [Asked(true, answer), Unauthorized(after)];
        }
      }
    }
  }

  lemma RetrySends(world: World, at: nat, current: Option<Context>, context: Context, token: string)
    ensures var run := SendRun(world, at, current, context, token, true);
            run.ending.Returned? ==> Sends(run.events) > 0
  {
    hide ReplyRun;
    if current == Some(context) && world.baseUsable {
      var reply := world.replies(at);
      SendsCons(Sent(token, reply, current), ReplyRun(world, at + 1, world.contexts(at), context, reply, true).events);
    }
  }

  lemma {:induction false} SendsConcat(a: seq<Event>, b: seq<Event>)
    ensures Sends(a + b) == Sends(a) + Sends(b)
  {
    if a == [] {
      assert a + b == b;
    } else {
      SendsConcat(a[1..], b);
      assert (a + b)[1..] == a[1..] + b;
    }
  }

  lemma {:induction false} NoSendsAsking(asks: seq<Event>)
    requires forall i :: 0 <= i < |asks| ==> asks[i].Asked?
    ensures Sends(asks) == 0
  {
    if asks != [] {
      NoSendsAsking(asks[1..]);
    }
  }

  /** A 401 that survives the one refresh is handed to the caller, not treated
      as the end of the session. */
  lemma RetriedRefusalIsNotExpiry(world: World, clock: nat, context: Context)
    ensures var run := RequestRun(world, clock, Some(context));
            run.ending.Returned? && Sends(run.events) == 2 && !UpstreamExpired(run.ending.reply) ==>
              forall e :: e in run.events ==> !e.Unauthorized?
  {
    hide RequestRun, UpstreamExpired;
    EveryRequestIsDisciplined(world, clock, Some(context));
    var run := RequestRun(world, clock, Some(context));
    forall e | e in run.events && e.Unauthorized? ensures e in Callbacks(run.events) {
      CallbacksHold(run.events, e);
    }
  }

  lemma {:induction false} CallbacksHold(events: seq<Event>, event: Event)
    requires event in events && (event.Unauthorized? || event.Forbidden?)
    ensures event in Callbacks(events)
  {
    if event != events[0] {
      CallbacksHold(events[1..], event);
    }
  }
}
