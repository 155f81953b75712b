/** The gateway's fixed-window rate limiter, over timelines of requests and clean-up passes. */
module RateLimit {
  import opened Prelude

  type User = string

  /** A user's requests in the current window, and when it ends. */
  datatype Limiter = Limiter(count: nat, resetAt: int)

  type Limits = map<User, Limiter>

  /** One second, in nanoseconds. */
  const WINDOW: int := 1_000_000_000

  datatype Event = Request(user: User, at: int) | CleanUp(users: set<User>, clock: int)

  predicate Exempt(rps: int, user: User)
  {
    user == "" || user == "benchmark-user" || rps <= 0
  }

  // ---------------------------------------------------------------- one event

  /** A window includes its last instant: only a later request opens another. */
  function Counted(limits: Limits, user: User, now: int): Limiter
  {
    if user !in limits || now > limits[user].resetAt then Limiter(1, now + WINDOW)
    else limits[user].(count := limits[user].count + 1)
  }

  function Allowed(rps: int, limits: Limits, user: User, now: int): bool
  {
    Exempt(rps, user) || Counted(limits, user, now).count <= rps
  }

  /** The clock of a clean-up pass is read once; each of its users is looked at some time later. */
  function After(rps: int, limits: Limits, e: Event): Limits
  {
    match e
    case Request(user, at) => if Exempt(rps, user) then limits else limits[user := Counted(limits, user, at)]
    case CleanUp(users, clock) => map u | u in limits && !(u in users && clock > limits[u].resetAt) :: limits[u]
  }

  function AfterAll(rps: int, limits: Limits, events: seq<Event>): Limits
  {
    if events == [] then limits else After(rps, AfterAll(rps, limits, events[..|events| - 1]), events[|events| - 1])
  }

  /** Whether the request at one place of a timeline is let through. */
  predicate Accepted(rps: int, events: seq<Event>, i: nat)
    requires i < |events|
  {
    events[i].Request? && Allowed(rps, AfterAll(rps, map[], events[..i]), events[i].user, events[i].at)
  }

  /** Requests come in time order, and no clean-up pass has read a clock later than a request after it. */
  ghost predicate Timeline(events: seq<Event>)
  {
    && (forall i, j :: 0 <= i < j < |events| && events[i].Request? && events[j].Request? ==> events[i].at <= events[j].at)
    && (forall i, j :: 0 <= i < j < |events| && events[i].CleanUp? && events[j].Request? ==> events[i].clock <= events[j].at)
  }

  // ---------------------------------------------------------------- clean-up changes nothing

  /** `a` is `b` less some entries whose windows end before `t`. */
  ghost predicate Agree(a: Limits, b: Limits, t: int)
  {
    && (forall u :: u in a ==> u in b && b[u] == a[u])
    && (forall u :: u in b && u !in a ==> b[u].resetAt < t)
  }

  function Requests(events: seq<Event>): seq<Event>
  {
    if events == [] then []
    else Requests(events[..|events| - 1]) + if events[|events| - 1].Request? then [events[|events| - 1]] else []
  }

  /** Nothing that was cleaned up by then matters to a request at `t`. */
  ghost predicate NotBefore(events: seq<Event>, t: int)
  {
    forall i :: 0 <= i < |events| ==> if events[i].Request? then events[i].at <= t else events[i].clock <= t
  }

  /** Tables that agree decide alike, and still agree after the request. */
  lemma AgreeRequest(rps: int, a: Limits, b: Limits, user: User, now: int)
    requires Agree(a, b, now)
    ensures Allowed(rps, a, user, now) == Allowed(rps, b, user, now)
    ensures forall t :: now <= t ==> Agree(After(rps, a, Request(user, now)), After(rps, b, Request(user, now)), t)
  {
  }

  lemma {:induction false} CleanUpAgrees(rps: int, events: seq<Event>, t: int)
    requires Timeline(events) && NotBefore(events, t)
    ensures Agree(AfterAll(rps, map[], events), AfterAll(rps, map[], Requests(events)), t)
  {
    if events != [] {
      var n := |events| - 1;
      var front, e := events[..n], events[n];
      var b := AfterAll(rps, map[], Requests(front));
      if e.Request? {
        CleanUpAgrees(rps, front, e.at);
        AgreeRequest(rps, AfterAll(rps, map[], front), b, e.user, e.at);
        assert (Requests(front) + [e])[..|Requests(front)|] == Requests(front);
      } else {
        CleanUpAgrees(rps, front, t);
        assert Requests(front) + [] == Requests(front);
      }
    }
  }

  /** The decision on a request is the one it would get had there never been a clean-up pass. */
  lemma CleanUpChangesNoDecision(rps: int, events: seq<Event>, i: nat)
    requires Timeline(events) && i < |events| && events[i].Request?
    ensures var before := Requests(events[..i]);
      Accepted(rps, events, i) == Accepted(rps, before + [events[i]], |before|)
  {
    var e := events[i];
    var before := Requests(events[..i]);
    CleanUpAgrees(rps, events[..i], e.at);
    AgreeRequest(rps, AfterAll(rps, map[], events[..i]), AfterAll(rps, map[], before), e.user, e.at);
    assert (before + [e])[..|before|] == before;
  }

  // ---------------------------------------------------------------- the rate

  /** How many of a user's requests between two instants, both included, were let through. */
  function AcceptedIn(rps: int, events: seq<Event>, user: User, from: int, to: int): nat
  {
    if events == [] then 0
    else
      var n := |events| - 1;
      var e := events[n];
      var now := if e.Request? && e.user == user && from <= e.at <= to && Accepted(rps, events, n) then 1 else 0;
      AcceptedIn(rps, events[..n], user, from, to) + now
  }

  /** Where the count stands: the accepted requests of the current window, and, should that window have opened within
      the interval, those of the one before. */
  ghost predicate Bounded(rps: int, limits: Limits, user: User, from: int, accepted: int)
  {
    if user !in limits then accepted == 0
    else
      var l := limits[user];
      if l.resetAt - WINDOW < from then accepted <= Min(l.count, rps)
      else if l.resetAt - WINDOW <= from + WINDOW then accepted <= rps + Min(l.count, rps)
      else accepted <= 2 * rps
  }

  ghost predicate OnlyRequests(events: seq<Event>)
  {
    forall i :: 0 <= i < |events| ==> events[i].Request?
  }

  /** Every window was opened by a request, no later than `now`. */
  ghost predicate Opened(limits: Limits, now: int)
  {
    forall u :: u in limits ==> limits[u].resetAt - WINDOW <= now
  }

  lemma {:induction false} AllOpened(rps: int, events: seq<Event>, now: int)
    requires OnlyRequests(events) && NotBefore(events, now)
    ensures Opened(AfterAll(rps, map[], events), now)
  {
    if events != [] { AllOpened(rps, events[..|events| - 1], now); }
  }

  lemma {:induction false} NoneYet(rps: int, events: seq<Event>, user: User, from: int, to: int, now: int)
    requires OnlyRequests(events) && NotBefore(events, now) && now < from
    ensures AcceptedIn(rps, events, user, from, to) == 0
  {
    if events != [] { NoneYet(rps, events[..|events| - 1], user, from, to, now); }
  }

  lemma {:induction false} IntervalBounded(rps: int, events: seq<Event>, user: User, from: int)
    requires !Exempt(rps, user) && OnlyRequests(events) && Timeline(events)
    ensures Bounded(rps, AfterAll(rps, map[], events), user, from, AcceptedIn(rps, events, user, from, from + WINDOW))
  {
    if events != [] {
      var n := |events| - 1;
      var front, now := events[..n], events[n].at;
      IntervalBounded(rps, front, user, from);
      AllOpened(rps, front, now);
      if now < from { NoneYet(rps, front, user, from, from + WINDOW, now); }
    }
  }

  lemma {:induction false} RequestsOnly(rps: int, events: seq<Event>, t: int)
    requires Timeline(events)
    ensures OnlyRequests(Requests(events)) && Timeline(Requests(events))
    ensures NotBefore(events, t) ==> NotBefore(Requests(events), t)
  {
    if events != [] {
      var n := |events| - 1;
      RequestsOnly(rps, events[..n], t);
      if events[n].Request? { RequestsOnly(rps, events[..n], events[n].at); }
    }
  }

  lemma AcceptedNext(rps: int, events: seq<Event>, e: Event, user: User, from: int, to: int)
    ensures AcceptedIn(rps, events + [e], user, from, to) == AcceptedIn(rps, events, user, from, to)
              + if e.Request? && e.user == user && from <= e.at <= to && Accepted(rps, events + [e], |events|) then 1 else 0
  {
    assert (events + [e])[..|events|] == events;
  }

  lemma {:induction false} SameAccepted(rps: int, events: seq<Event>, user: User, from: int, to: int)
    requires Timeline(events)
    ensures AcceptedIn(rps, events, user, from, to) == AcceptedIn(rps, Requests(events), user, from, to)
  {
    if events != [] {
      var n := |events| - 1;
      var front := events[..n];
      SameAccepted(rps, front, user, from, to);
      assert front + [events[n]] == events;
      AcceptedNext(rps, front, events[n], user, from, to);
      if events[n].Request? {
        CleanUpChangesNoDecision(rps, events, n);
        AcceptedNext(rps, Requests(front), events[n], user, from, to);
      } else {
        assert Requests(front) + [] == Requests(front);
      }
    }
  }

  /** In any closed second of any timeline, with clean-up passes anywhere, a user has at most twice `rps` requests let
      through. */
  lemma AtMostTwiceTheRate(rps: int, events: seq<Event>, user: User, from: int)
    requires !Exempt(rps, user) && Timeline(events)
    ensures AcceptedIn(rps, events, user, from, from + WINDOW) <= 2 * rps
  {
    RequestsOnly(rps, events, 0);
    IntervalBounded(rps, Requests(events), user, from);
    SameAccepted(rps, events, user, from, from + WINDOW);
  }

  /** A user's requests all fall no later than the end of the latest window. */
  lemma {:induction false} NoneAfterWindow(rps: int, events: seq<Event>, user: User, from: int, to: int)
    requires !Exempt(rps, user) && OnlyRequests(events) && Timeline(events)
    requires var limits := AfterAll(rps, map[], events); user in limits ==> limits[user].resetAt < from
    ensures AcceptedIn(rps, events, user, from, to) == 0
  {
    if events != [] {
      var n := |events| - 1;
      AllOpened(rps, events[..n], events[n].at);
      NoneAfterWindow(rps, events[..n], user, from, to);
    }
  }

  /** In any window, from the request that opens it to its last instant, exactly the first `rps` are let through. */
  lemma {:induction false} WindowTakesRate(rps: int, events: seq<Event>, user: User)
    requires !Exempt(rps, user) && OnlyRequests(events) && Timeline(events) && user in AfterAll(rps, map[], events)
    ensures var l := AfterAll(rps, map[], events)[user];
      AcceptedIn(rps, events, user, l.resetAt - WINDOW, l.resetAt) == Min(l.count, rps)
  {
    var n := |events| - 1;
    var front, now := events[..n], events[n].at;
    var limits := AfterAll(rps, map[], front);
    AllOpened(rps, front, now);
    if events[n].user == user && (user !in limits || now > limits[user].resetAt) {
      NoneAfterWindow(rps, front, user, now, now + WINDOW);
    } else {
      WindowTakesRate(rps, front, user);
    }
  }

  // ---------------------------------------------------------------- the limiter updated in place

  class RateLimiter {
    var limits: Limits

    constructor ()
      ensures limits == map[]
    {
      limits := map[];
    }

    /** Lets a request through, or not. */
    method Intercept(rps: int, user: User, now: int) returns (ok: bool)
      modifies this
      ensures ok == Allowed(rps, old(limits), user, now) && limits == After(rps, old(limits), Request(user, now))
      ensures user == "" || user == "benchmark-user" || rps <= 0 ==> ok && limits == old(limits)
      ensures user != "" && user != "benchmark-user" && rps > 0 ==>
        && user in limits && limits - {user} == old(limits) - {user} && (ok <==> limits[user].count <= rps)
        && if user in old(limits) && now <= old(limits)[user].resetAt then
             limits[user].count == old(limits)[user].count + 1 && limits[user].resetAt == old(limits)[user].resetAt
           else limits[user].count == 1 && limits[user].resetAt == now + 1_000_000_000
    {
      if user == "" || user == "benchmark-user" {
        return true;
      }
      if rps <= 0 {
        return true;
      }
      if user !in limits || now > limits[user].resetAt {
        limits := limits[user := Limiter(1, now + WINDOW)];
      } else {
        limits := limits[user := limits[user].(count := limits[user].count + 1)];
      }
      return limits[user].count <= rps;
    }

    /** Forgets users whose windows had ended when the pass began. */
    method CleanUpExpired(rps: int, users: set<User>, clock: int)
      modifies this
      ensures limits == After(rps, old(limits), CleanUp(users, clock))
      ensures limits.Keys == set u | u in old(limits) && (u !in users || clock <= old(limits)[u].resetAt)
      ensures forall u :: u in limits ==> limits[u] == old(limits)[u]
    {
      ghost var before := limits;
      var left := limits.Keys * users;
      while left != {}
        invariant left <= before.Keys * users
        invariant limits == map u | u in before && !(u in users && u !in left && clock > before[u].resetAt) :: before[u]
        decreases |left|
      {
        var u :| u in left;
        if clock > limits[u].resetAt {
          limits := limits - {u};
        }
        left := left - {u};
      }
    }
  }
}
