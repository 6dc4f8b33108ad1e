/**
 * Express routing as the three routers use it: routes tried in declaration
 * order, a path pattern of literal and `:param` segments, and a chain of
 * guards run before the handler.
 */
module Routing {
  import opened Wrappers
  import opened Store
  import opened AuthMiddleware

  datatype Verb = Get | Post

  /** A pattern segment: a literal, or a `:param` that takes any non-empty segment. */
  datatype Segment = Lit(text: string) | Param

  /**
   * A middleware a route runs before its handler: `requireAuth`, `requireAdmin`,
   * `redirectIfAuthenticated`, or the image upload (which stores the file and
   * passes on; its own failures are not part of this model).
   */
  datatype Guard = SignedIn | AdminOnly | Anonymous | Upload

  datatype Route<H> = Route(verb: Verb, pattern: seq<Segment>, guards: seq<Guard>, handler: H)

  predicate SegmentMatches(p: Segment, s: string) {
    match p
    case Lit(t) => s == t
    case Param => s != ""
  }

  /** A request path, split at `/` below the router's mount point, fits a pattern. */
  predicate PathMatches(pattern: seq<Segment>, path: seq<string>) {
    |pattern| == |path| && forall k :: 0 <= k < |path| ==> SegmentMatches(pattern[k], path[k])
  }

  predicate Serves<H>(route: Route<H>, verb: Verb, path: seq<string>) {
    route.verb == verb && PathMatches(route.pattern, path)
  }

  /** The first route, from position `from` on, that serves the request. */
  function DispatchFrom<H>(table: seq<Route<H>>, verb: Verb, path: seq<string>, from: nat): (r: Option<nat>)
    requires from <= |table|
    ensures r.Some? ==> from <= r.value < |table| && Serves(table[r.value], verb, path)
    ensures r.Some? ==> forall j :: from <= j < r.value ==> !Serves(table[j], verb, path)
    ensures r.None? ==> forall j :: from <= j < |table| ==> !Serves(table[j], verb, path)
    decreases |table| - from
  {
    if from == |table| then None
    else if Serves(table[from], verb, path) then Some(from)
    else DispatchFrom(table, verb, path, from + 1)
  }

  /** Express's choice of route: the first declared one that serves the request; `None` is a 404. */
  function Dispatch<H>(table: seq<Route<H>>, verb: Verb, path: seq<string>): (r: Option<nat>)
    ensures r.Some? ==> r.value < |table| && Serves(table[r.value], verb, path)
    ensures r.Some? ==> forall j :: 0 <= j < r.value ==> !Serves(table[j], verb, path)
    ensures r.None? ==> forall j :: 0 <= j < |table| ==> !Serves(table[j], verb, path)
  {
    DispatchFrom(table, verb, path, 0)
  }

  /** What one guard does with a request from `user`. */
  function GuardOutcome(g: Guard, user: Option<User>, originalUrl: string, redirectQuery: Option<string>): Outcome {
    match g
    case SignedIn => RequireAuth(user, originalUrl)
    case AdminOnly => RequireAdmin(user, originalUrl)
    case Anonymous => RedirectIfAuthenticated(user, redirectQuery)
    case Upload => Next
  }

  /** The guard at position `i` runs: every guard before it passed the request on. */
  predicate Entered(guards: seq<Guard>, i: nat, user: Option<User>, originalUrl: string, redirectQuery: Option<string>) {
    forall j :: 0 <= j < i && j < |guards| ==> GuardOutcome(guards[j], user, originalUrl, redirectQuery) == Next
  }

  /** Running the chain: the first guard that stops the request decides; else the handler runs (`Next`). */
  function RunGuards(guards: seq<Guard>, user: Option<User>, originalUrl: string, redirectQuery: Option<string>): (r: Outcome)
    ensures r == Next <==> Entered(guards, |guards|, user, originalUrl, redirectQuery)
    ensures r != Next ==> exists i :: 0 <= i < |guards| && Entered(guards, i, user, originalUrl, redirectQuery) &&
                                     r == GuardOutcome(guards[i], user, originalUrl, redirectQuery)
    decreases |guards|
  {
    if guards == [] then Next
    else
      var first := GuardOutcome(guards[0], user, originalUrl, redirectQuery);
      if first != Next then
        assert Entered(guards, 0, user, originalUrl, redirectQuery);
        first
      else
        var rest := RunGuards(guards[1..], user, originalUrl, redirectQuery);
        assert forall j :: 1 <= j < |guards| ==> guards[j] == guards[1..][j - 1];
        if rest != Next then
          var i :| 0 <= i < |guards[1..]| && Entered(guards[1..], i, user, originalUrl, redirectQuery) &&
                   rest == GuardOutcome(guards[1..][i], user, originalUrl, redirectQuery);
          assert Entered(guards, i + 1, user, originalUrl, redirectQuery);
          rest
        else
          rest
  }

  /** A chain of one guard does what that guard does. */
  lemma SingleGuard(g: Guard, user: Option<User>, originalUrl: string, redirectQuery: Option<string>)
    ensures RunGuards([g], user, originalUrl, redirectQuery) == GuardOutcome(g, user, originalUrl, redirectQuery)
  {
    assert [g][1..] == [];
  }

  /** A chain that starts with `requireAdmin` reaches none of its later steps for anyone but an administrator. */
  lemma AdminFirstStopsOthers(guards: seq<Guard>, user: Option<User>, originalUrl: string, redirectQuery: Option<string>, i: nat)
    requires |guards| > 0 && guards[0] == AdminOnly
    requires user.None? || user.value.role != Session.Admin
    requires 0 < i
    ensures !Entered(guards, i, user, originalUrl, redirectQuery)
    ensures RunGuards(guards, user, originalUrl, redirectQuery) != Next
  {
    assert GuardOutcome(guards[0], user, originalUrl, redirectQuery) != Next;
  }
}
