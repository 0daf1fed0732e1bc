/** The batch policy answer: one decision per requested action, whatever order
    the outcomes come back in. */
module BatchDecisions {
  import opened Wrappers

  datatype CheckOutcome = CheckOutcome(action: string, allowed: bool, error: Option<string>)

  /** The outcomes that name an action, in answer order. */
  function Naming(outcomes: seq<CheckOutcome>, action: string): seq<CheckOutcome> {
    if outcomes == [] then []
    else
      var last := outcomes[|outcomes| - 1];
      Naming(outcomes[..|outcomes| - 1], action) + if last.action == action then [last] else []
  }

  /** A decision needs the action requested exactly once and named by exactly
      one outcome, without an error. */
  function Verdict(actions: seq<string>, outcomes: seq<CheckOutcome>, action: string): Option<bool> {
    var named := Naming(outcomes, action);
    if multiset(actions)[action] == 1 && |named| == 1 && named[0].error.None? then Some(named[0].allowed) else None
  }

  /** The first loop: how often each action was requested. */
  method CountRequests(actions: seq<string>) returns (counts: map<string, nat>)
    ensures forall a :: a in counts <==> a in actions
    ensures forall a :: a in counts ==> counts[a] == multiset(actions)[a]
  {
    counts := map[];
    for i := 0 to |actions|
      invariant forall a :: a in counts <==> a in actions[..i]
      invariant forall a :: a in counts ==> counts[a] == multiset(actions[..i])[a]
    {
      assert actions[..i + 1] == actions[..i] + [actions[i]];
      var action := actions[i];
      counts := counts[action := (if action in counts then counts[action] else 0) + 1];
    }
    assert actions[..|actions|] == actions;
  }

  /** What the second loop knows after some outcomes. */
  ghost predicate Decided(actions: seq<string>, outcomes: seq<CheckOutcome>, decisions: map<string, Option<bool>>,
                          seen: set<string>) {
    && (forall a :: a in decisions <==> a in actions)
    && (forall a :: a in actions ==> decisions[a] == Verdict(actions, outcomes, a))
    && (forall a :: a in seen <==> multiset(actions)[a] == 1 && Naming(outcomes, a) != [])
  }

  lemma DecidedNext(actions: seq<string>, outcomes: seq<CheckOutcome>, decisions: map<string, Option<bool>>,
                    seen: set<string>, outcome: CheckOutcome)
    requires Decided(actions, outcomes, decisions, seen)
    ensures outcome.action !in actions ==> Decided(actions, outcomes + [outcome], decisions, seen)
    ensures outcome.action in actions && (multiset(actions)[outcome.action] != 1 || outcome.action in seen) ==>
              Decided(actions, outcomes + [outcome], decisions[outcome.action := None], seen)
    ensures multiset(actions)[outcome.action] == 1 && outcome.action !in seen ==>
              Decided(actions, outcomes + [outcome],
                      if outcome.error.None? then decisions[outcome.action := Some(outcome.allowed)] else decisions,
                      seen + {outcome.action})
  {
    hide Naming;
    forall a
      ensures Naming(outcomes + [outcome], a) == Naming(outcomes, a) + if outcome.action == a then [outcome] else []
    {
      NamingNext(outcomes, outcome, a);
    }
  }

  lemma NamingNext(outcomes: seq<CheckOutcome>, outcome: CheckOutcome, action: string)
    ensures Naming(outcomes + [outcome], action)
            == Naming(outcomes, action) + if outcome.action == action then [outcome] else []
  {
    assert (outcomes + [outcome])[..|outcomes|] == outcomes;
  }

  method StrictBatchDecisions(actions: seq<string>, outcomes: seq<CheckOutcome>)
    returns (decisions: map<string, Option<bool>>)
    ensures forall a :: a in decisions <==> a in actions
    ensures forall a :: a in actions ==> decisions[a] == Verdict(actions, outcomes, a)
  {
    hide Naming, Verdict;
    var counts := CountRequests(actions);
    decisions := map action | action in actions :: None;
    var seen: set<string> := {};
    NothingDecided(actions);
    for i := 0 to |outcomes|
      invariant Decided(actions, outcomes[..i], decisions, seen)
    {
      assert outcomes[..i + 1] == outcomes[..i] + [outcomes[i]];
      var outcome := outcomes[i];
      DecidedNext(actions, outcomes[..i], decisions, seen, outcome);
      if outcome.action in counts {
        if counts[outcome.action] != 1 || outcome.action in seen {
          decisions := decisions[outcome.action := None];
        } else {
          seen := seen + {outcome.action};
          if outcome.error.None? {
            decisions := decisions[outcome.action := Some(outcome.allowed)];
          }
        }
      }
    }
    assert outcomes[..|outcomes|] == outcomes;
  }

  lemma NothingDecided(actions: seq<string>)
    ensures Decided(actions, [], map action | action in actions :: None, {})
  {
  }

  lemma {:induction false} NamingCounts(outcomes: seq<CheckOutcome>, action: string, o: CheckOutcome)
    ensures multiset(Naming(outcomes, action))[o] == if o.action == action then multiset(outcomes)[o] else 0
  {
    if outcomes != [] {
      var front, last := outcomes[..|outcomes| - 1], outcomes[|outcomes| - 1];
      NamingCounts(front, action, o);
      assert outcomes == front + [last];
    }
  }

  lemma NamingIgnoresOrder(a: seq<CheckOutcome>, b: seq<CheckOutcome>, action: string)
    requires multiset(a) == multiset(b)
    ensures multiset(Naming(a, action)) == multiset(Naming(b, action))
  {
    forall o ensures multiset(Naming(a, action))[o] == multiset(Naming(b, action))[o] {
      NamingCounts(a, action, o);
      NamingCounts(b, action, o);
    }
  }

  /** Reordering the outcomes or the request changes no decision. */
  lemma DecisionsIgnoreOrder(actions: seq<string>, others: seq<string>, a: seq<CheckOutcome>, b: seq<CheckOutcome>,
                             action: string)
    requires multiset(actions) == multiset(others) && multiset(a) == multiset(b)
    ensures Verdict(actions, a, action) == Verdict(others, b, action)
  {
    NamingIgnoresOrder(a, b, action);
    var p, q := Naming(a, action), Naming(b, action);
    assert |multiset(p)| == |p| && |multiset(q)| == |q|;
    if |p| == 1 {
      assert p == [p[0]] && q == [q[0]];
      assert q[0] in multiset(p);
    }
  }

  /** Index `i` is the only one whose outcome names the action. */
  ghost predicate OnlyAt(outcomes: seq<CheckOutcome>, action: string, i: int) {
    && 0 <= i < |outcomes| && outcomes[i].action == action
    && forall j :: 0 <= j < |outcomes| && outcomes[j].action == action ==> j == i
  }

  ghost predicate Unnamed(outcomes: seq<CheckOutcome>, action: string) {
    forall j :: 0 <= j < |outcomes| ==> outcomes[j].action != action
  }

  lemma UnnamedStep(front: seq<CheckOutcome>, last: CheckOutcome, action: string)
    ensures Unnamed(front + [last], action) <==> Unnamed(front, action) && last.action != action
  {
    var all := front + [last];
    assert all[|front|] == last;
    if Unnamed(all, action) {
      assert forall j :: 0 <= j < |front| ==> all[j] == front[j];
    }
  }

  lemma {:induction false} UnnamedExactlyWhen(outcomes: seq<CheckOutcome>, action: string)
    ensures Naming(outcomes, action) == [] <==> Unnamed(outcomes, action)
  {
    hide Naming, Unnamed;
    if outcomes == [] {
      NothingNamed(action);
    } else {
      var front, last := outcomes[..|outcomes| - 1], outcomes[|outcomes| - 1];
      assert outcomes == front + [last];
      UnnamedExactlyWhen(front, action);
      NamingNext(front, last, action);
      UnnamedStep(front, last, action);
    }
  }

  lemma NothingNamed(action: string)
    ensures Naming([], action) == [] && Unnamed([], action)
  {
  }

  lemma {:induction false} NamedOnce(outcomes: seq<CheckOutcome>, action: string)
    requires |Naming(outcomes, action)| == 1
    ensures exists i :: OnlyAt(outcomes, action, i) && outcomes[i] == Naming(outcomes, action)[0]
  {
    var n := |outcomes| - 1;
    var front := outcomes[..n];
    UnnamedExactlyWhen(front, action);
    if outcomes[n].action == action {
      assert OnlyAt(outcomes, action, n);
    } else {
      NamedOnce(front, action);
      var i :| OnlyAt(front, action, i) && front[i] == Naming(front, action)[0];
      assert OnlyAt(outcomes, action, i);
    }
  }

  lemma {:induction false} OnlyOneNamed(outcomes: seq<CheckOutcome>, action: string, i: nat)
    requires OnlyAt(outcomes, action, i)
    ensures Naming(outcomes, action) == [outcomes[i]]
  {
    var n := |outcomes| - 1;
    UnnamedExactlyWhen(outcomes[..n], action);
    if i < n {
      assert OnlyAt(outcomes[..n], action, i);
      OnlyOneNamed(outcomes[..n], action, i);
    }
  }

  /** A yes or no appears exactly when the action was requested once and one
      outcome alone names it, without an error. */
  lemma DecidedExactlyWhen(actions: seq<string>, outcomes: seq<CheckOutcome>, action: string, allowed: bool)
    ensures Verdict(actions, outcomes, action) == Some(allowed)
            <==> && multiset(actions)[action] == 1
                 && exists i :: OnlyAt(outcomes, action, i) && outcomes[i] == CheckOutcome(action, allowed, None)
  {
    if |Naming(outcomes, action)| == 1 {
      NamedOnce(outcomes, action);
    }
    if i :| OnlyAt(outcomes, action, i) && outcomes[i] == CheckOutcome(action, allowed, None) {
      OnlyOneNamed(outcomes, action, i);
    }
  }
}
