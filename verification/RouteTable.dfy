/** Matching a request path against route patterns, and the two first-match
    look-ups that must agree. */
module RouteTable {
  import opened Wrappers

  /** `path.split('/').filter(|s| !s.is_empty())` */
  function Segments(path: string): seq<string> {
    Cut(path, "")
  }

  function Cut(path: string, open: string): seq<string> {
    if path == [] then (if open == "" then [] else [open])
    else if path[0] == '/' then (if open == "" then [] else [open]) + Cut(path[1..], "")
    else Cut(path[1..], open + [path[0]])
  }

  predicate Wildcard(segment: string) {
    segment != "" && segment[0] == '*'
  }

  predicate Parameter(segment: string) {
    segment != "" && segment[0] == ':'
  }

  /** The meaning of a pattern, segment by segment: a wildcard matches whatever
      is left, even nothing; a parameter matches any one segment. */
  predicate MatchesSegments(pattern: seq<string>, path: seq<string>) {
    if pattern == [] then path == []
    else if Wildcard(pattern[0]) then true
    else
      && path != []
      && (Parameter(pattern[0]) || pattern[0] == path[0])
      && MatchesSegments(pattern[1..], path[1..])
  }

  /** The first `n` segments agree one by one, and there the pattern either gives
      way to a wildcard or ends together with the path. */
  predicate AgreesUpTo(pattern: seq<string>, path: seq<string>, n: nat) {
    && n <= |pattern| && n <= |path|
    && (forall i :: 0 <= i < n ==>
          pattern[i] == path[i] || (pattern[i] != "" && pattern[i][0] == ':'))
    && (forall i :: 0 <= i < n ==> pattern[i] == "" || pattern[i][0] != '*')
    && if n < |pattern| then pattern[n] != "" && pattern[n][0] == '*' else n == |path|
  }

  /** What it takes to match, by position. */
  lemma {:induction false} MatchesExactlyWhen(pattern: seq<string>, path: seq<string>)
    ensures MatchesSegments(pattern, path) <==> exists n: nat :: AgreesUpTo(pattern, path, n)
  {
    if pattern == [] || Wildcard(pattern[0]) || path == [] {
      if MatchesSegments(pattern, path) {
        assert AgreesUpTo(pattern, path, 0);
      }
    } else {
      MatchesExactlyWhen(pattern[1..], path[1..]);
      if MatchesSegments(pattern, path) {
        var n: nat :| AgreesUpTo(pattern[1..], path[1..], n);
        assert AgreesUpTo(pattern, path, n + 1);
      }
      if n: nat :| AgreesUpTo(pattern, path, n) {
        assert n > 0 && AgreesUpTo(pattern[1..], path[1..], n - 1);
      }
    }
  }

  /** The two-iterator loop. */
  method PatternMatches(pattern: string, path: string) returns (matched: bool)
    ensures matched == MatchesSegments(Segments(pattern), Segments(path))
  {
    var patterns, paths := Segments(pattern), Segments(path);
    var i := 0;
    while true
      invariant 0 <= i <= |patterns| && i <= |paths|
      invariant MatchesSegments(patterns, paths) == MatchesSegments(patterns[i..], paths[i..])
      decreases |patterns| - i
    {
      if i == |patterns| && i == |paths| {
        return true;
      } else if i < |patterns| && Wildcard(patterns[i]) {
        return true;
      } else if i < |patterns| && i < |paths| {
        if !Parameter(patterns[i]) && patterns[i] != paths[i] {
          return false;
        }
        assert patterns[i..][1..] == patterns[i + 1..] && paths[i..][1..] == paths[i + 1..];
        i := i + 1;
      } else {
        return false;
      }
    }
  }

  // ----- slashes -----

  lemma {:induction false} CutAfterSlash(front: string, back: string, open: string)
    ensures Cut(front + "/" + back, open) == Cut(front, open) + Cut(back, "")
    decreases |front|
  {
    var s := front + "/" + back;
    if front == [] {
      assert s[0] == '/' && s[1..] == back;
    } else {
      assert s[0] == front[0] && s[1..] == front[1..] + "/" + back;
      if front[0] == '/' {
        CutAfterSlash(front[1..], back, "");
      } else {
        CutAfterSlash(front[1..], back, open + [front[0]]);
      }
    }
  }

  /** A slash only separates: doubling it, or adding one at either end, names
      the same segments and so matches the same patterns. */
  lemma RepeatedSlashesDoNotMatter(front: string, back: string)
    ensures Segments(front + "//" + back) == Segments(front + "/" + back)
    ensures Segments(front + "/") == Segments(front) == Segments("/" + front)
  {
    assert front + "//" + back == (front + "/") + "/" + back;
    CutAfterSlash(front + "/", back, "");
    CutAfterSlash(front, back, "");
    CutAfterSlash(front, "", "");
    CutAfterSlash("", front, "");
    assert front + "/" + "" == front + "/" && "" + "/" + front == "/" + front;
  }

  lemma {:induction false} CutPieces(path: string, open: string)
    requires '/' !in open
    ensures forall s :: s in Cut(path, open) ==> s != "" && '/' !in s
    decreases |path|
  {
    if path != [] {
      if path[0] == '/' {
        CutPieces(path[1..], "");
      } else {
        CutPieces(path[1..], open + [path[0]]);
      }
    }
  }

  function Joined(segments: seq<string>): string {
    if segments == [] then "" else "/" + segments[0] + Joined(segments[1..])
  }

  lemma {:induction false} CutPlain(s: string, open: string)
    requires '/' !in s
    ensures Cut(s, open) == if open + s == "" then [] else [open + s]
    decreases |s|
  {
    if s == [] {
      assert open + s == open;
    } else {
      CutPlain(s[1..], open + [s[0]]);
      assert open + [s[0]] + s[1..] == open + s;
    }
  }

  lemma CutFirst(head: string, tail: string)
    requires head != "" && '/' !in head && (tail == "" || tail[0] == '/')
    ensures Segments("/" + head + tail) == [head] + Segments(tail)
  {
    CutAfterSlash("", head + tail, "");
    assert "" + "/" + (head + tail) == "/" + head + tail;
    CutPlain(head, "");
    assert "" + head == head;
    if tail == "" {
      assert head + tail == head;
    } else {
      CutAfterSlash(head, tail[1..], "");
      CutAfterSlash("", tail[1..], "");
      assert head + "/" + tail[1..] == head + tail && "" + "/" + tail[1..] == tail;
    }
  }

  /** Segments are exactly what joining them undoes. */
  lemma {:induction false} JoinedSegments(segments: seq<string>)
    requires forall s :: s in segments ==> s != "" && '/' !in s
    ensures Segments(Joined(segments)) == segments
  {
    hide Segments;
    if segments == [] {
      NoSegments();
    } else {
      var head, rest := segments[0], segments[1..];
      assert forall s :: s in rest ==> s in segments;
      JoinedSegments(rest);
      assert head in segments;
      CutFirst(head, Joined(rest));
    }
  }

  lemma NoSegments()
    ensures Segments("") == []
  {
  }

  /** Every path matches the same patterns as its clean spelling. */
  lemma CleanPathMatchesTheSame(pattern: string, path: string)
    ensures MatchesSegments(Segments(pattern), Segments(path))
            == MatchesSegments(Segments(Joined(Segments(pattern))), Segments(Joined(Segments(path))))
  {
    CutPieces(path, "");
    CutPieces(pattern, "");
    JoinedSegments(Segments(path));
    JoinedSegments(Segments(pattern));
  }

  // ----- the table -----

  datatype Standing = Public | AuthenticatedOnly | UpstreamEnforced | Action(name: string) | HandlerEnforced

  datatype Route = Route(verb: string, pattern: string, standing: Standing)

  function Effective(verb: string): string {
    if verb == "HEAD" then "GET" else verb
  }

  predicate Selects(route: Route, verb: string, path: string) {
    && (route.verb == "*" || route.verb == verb)
    && MatchesSegments(Segments(route.pattern), Segments(path))
  }

  /** `matching_route`: the table's first entry for the request. */
  function MatchingRoute(routes: seq<Route>, verb: string, path: string): Option<Route> {
    FirstRoute(routes, Effective(verb), path)
  }

  function FirstRoute(routes: seq<Route>, verb: string, path: string): Option<Route> {
    if routes == [] then None
    else if Selects(routes[0], verb, path) then Some(routes[0])
    else FirstRoute(routes[1..], verb, path)
  }

  datatype Prefixes = Prefixes(publicExact: set<string>, publicPrefixes: set<string>, protectedPrefixes: set<string>)

  predicate StartsWithAny(path: string, prefixes: set<string>) {
    exists p :: p in prefixes && p <= path
  }

  /** `classify`: the loop over the table, then the public and protected
      prefixes; `None` makes the caller refuse. */
  method Classify(routes: seq<Route>, prefixes: Prefixes, verb: string, path: string)
    returns (standing: Option<Standing>)
    ensures MatchingRoute(routes, verb, path).Some? ==>
              standing == Some(MatchingRoute(routes, verb, path).value.standing)
    ensures MatchingRoute(routes, verb, path).None? ==>
              standing == if StartsWithAny(path, prefixes.protectedPrefixes)
                             && path !in prefixes.publicExact && !StartsWithAny(path, prefixes.publicPrefixes)
                          then None else Some(Public)
  {
    var effective := Effective(verb);
    for i := 0 to |routes|
      invariant MatchingRoute(routes, verb, path) == FirstRoute(routes[i..], effective, path)
    {
      assert routes[i..][1..] == routes[i + 1..];
      var route := routes[i];
      if route.verb == "*" || route.verb == effective {
        var matched := PatternMatches(route.pattern, path);
        if matched {
          return Some(route.standing);
        }
      }
    }
    if path in prefixes.publicExact || StartsWithAny(path, prefixes.publicPrefixes) {
      return Some(Public);
    }
    if StartsWithAny(path, prefixes.protectedPrefixes) {
      return None;
    }
    standing := Some(Public);
  }

  /** The entry answers the request: its verb is the request's, a HEAD being asked
      for as a GET, or any; and its pattern fits the path. */
  ghost predicate Answers(route: Route, verb: string, path: string) {
    && (route.verb == "*" || (if verb == "HEAD" then route.verb == "GET" else route.verb == verb))
    && exists n: nat :: AgreesUpTo(Segments(route.pattern), Segments(path), n)
  }

  /** The chosen entry is the one no earlier entry competes with. */
  lemma {:induction false} MatchingRouteIsFirst(routes: seq<Route>, verb: string, path: string, i: nat)
    requires i < |routes|
    ensures Answers(routes[i], verb, path) && (forall j :: 0 <= j < i ==> !Answers(routes[j], verb, path))
            ==> MatchingRoute(routes, verb, path) == Some(routes[i])
    ensures MatchingRoute(routes, verb, path).None? ==> !Answers(routes[i], verb, path)
  {
    AnswersIsSelects(routes[0], verb, path);
    hide Answers, Selects;
    if i > 0 {
      MatchingRouteIsFirst(routes[1..], verb, path, i - 1);
      assert routes[1..][i - 1] == routes[i];
      assert forall j :: 0 <= j < i - 1 ==> routes[1..][j] == routes[j + 1];
    }
  }

  lemma AnswersIsSelects(route: Route, verb: string, path: string)
    ensures Answers(route, verb, path) <==> Selects(route, Effective(verb), path)
  {
    MatchesExactlyWhen(Segments(route.pattern), Segments(path));
  }
}
