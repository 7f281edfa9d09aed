/**
 * The authorisation middlewares: `restrictTo`, a role check, and `userRateLimit`, an in-memory
 * fixed-window limiter keyed by user id. Token verification and the user lookup of `auth` rely
 * on a JWT library and the database and are not part of this model.
 */
module Auth {
  import opened Wrappers
  import opened JsonValue
  import opened ErrorHandler

  /** The authenticated user attached to a request. */
  datatype AuthUser = AuthUser(id: string, role: string, email: string)

  const PermissionMessage: string := "You do not have permission to perform this action"
  const RateLimitMessage: string := "Too many requests, please try again later"

  /**
   * restrictTo(...roles): None lets the request through; otherwise the AppError passed to
   * `next` is a 403 'fail' with the permission message.
   */
  function RestrictTo(roles: seq<string>, user: Option<AuthUser>): (r: Option<ErrorValue>)
    ensures r.None? <==> user.Some? && user.value.role in roles
    ensures r.Some? ==> r.value == AppError(PermissionMessage, 403, JUndefined)
    ensures r.Some? ==> r.value.statusCode == Some(403) && r.value.status == Some(Fail) && r.value.isOperational
  {
    StatusOfHttpCode(403);
    if user.None? || user.value.role !in roles then Some(AppError(PermissionMessage, 403, JUndefined))
    else None
  }

  /** One user's window: how many requests it has let through and when it ends. */
  datatype Entry = Entry(count: int, resetTime: int)

  /** What the limiter does with a request: call `next()`, or answer with the given status code and `{ status, message }` body. */
  datatype Decision = Next | TooManyRequests(statusCode: int, status: string, message: string)

  /** The limiter's refusal: `res.status(429).json({ status: 'error', message })`. */
  const RateLimited: Decision := TooManyRequests(429, Error, RateLimitMessage)

  function Max(a: int, b: int): int { if a < b then b else a }

  /** A request without a user id (absent or empty) is not rate limited. */
  predicate Anonymous(userId: Option<string>) {
    userId.None? || userId.value == ""
  }

  /**
   * One request through userRateLimit(limit, windowMs): a first request or one past the window
   * opens a new window with count 1; inside the window a user at the limit is refused and
   * anyone else has the count raised by one.
   */
  function Step(requests: map<string, Entry>, limit: int, windowMs: int, userId: Option<string>, now: int)
    : (r: (Decision, map<string, Entry>))
    ensures Anonymous(userId) ==> r == (Next, requests)
    ensures !Anonymous(userId) ==>
      var id := userId.value;
      && (id !in requests || now > requests[id].resetTime ==>
            r == (Next, requests[id := Entry(1, now + windowMs)]))
      && (id in requests && now <= requests[id].resetTime && requests[id].count >= limit ==>
            r == (RateLimited, requests))
      && (id in requests && now <= requests[id].resetTime && requests[id].count < limit ==>
            r == (Next, requests[id := Entry(requests[id].count + 1, requests[id].resetTime)]))
    ensures forall k :: k in requests && (Anonymous(userId) || k != userId.value) ==> k in r.1 && r.1[k] == requests[k]
    ensures forall k :: k in r.1 ==> k in requests || (!Anonymous(userId) && k == userId.value)
  {
    if Anonymous(userId) then (Next, requests)
    else
      var id := userId.value;
      if id !in requests || now > requests[id].resetTime then (Next, requests[id := Entry(1, now + windowMs)])
      else if requests[id].count >= limit then (RateLimited, requests)
      else (Next, requests[id := requests[id].(count := requests[id].count + 1)])
  }

  /** Every window's count lies between 1 and max(limit, 1). */
  predicate CountsBounded(requests: map<string, Entry>, limit: int) {
    forall k :: k in requests ==> 1 <= requests[k].count <= Max(limit, 1)
  }

  /** A request keeps every window's count between 1 and max(limit, 1). */
  lemma StepKeepsCountsBounded(requests: map<string, Entry>, limit: int, windowMs: int, userId: Option<string>, now: int)
    requires CountsBounded(requests, limit)
    ensures CountsBounded(Step(requests, limit, windowMs, userId, now).1, limit)
  {
  }

  /** How many requests from user u a sequence of (user id, time) requests gets through. */
  function AllowedFor(requests: map<string, Entry>, limit: int, windowMs: int, u: string,
                      trace: seq<(Option<string>, int)>): nat
    decreases |trace|
  {
    if trace == [] then 0
    else
      var (d, requests') := Step(requests, limit, windowMs, trace[0].0, trace[0].1);
      (if d == Next && trace[0].0 == Some(u) then 1 else 0) + AllowedFor(requests', limit, windowMs, u, trace[1..])
  }

  /** Every request of user u in the trace arrives no later than `until`. */
  predicate NotAfter(trace: seq<(Option<string>, int)>, u: string, until: int) {
    forall i :: 0 <= i < |trace| && trace[i].0 == Some(u) ==> trace[i].1 <= until
  }

  /**
   * Inside an open window, whatever other users do, user u gets through at most
   * max(limit, 1) minus the window's current count.
   */
  lemma {:induction false} WindowBound(requests: map<string, Entry>, limit: int, windowMs: int, u: string,
                                       trace: seq<(Option<string>, int)>)
    requires u != "" && u in requests && requests[u].count <= Max(limit, 1)
    requires NotAfter(trace, u, requests[u].resetTime)
    ensures requests[u].count + AllowedFor(requests, limit, windowMs, u, trace) <= Max(limit, 1)
    decreases |trace|
  {
    if trace != [] {
      var (d, requests') := Step(requests, limit, windowMs, trace[0].0, trace[0].1);
      assert u in requests' && requests'[u].resetTime == requests[u].resetTime;
      assert NotAfter(trace[1..], u, requests[u].resetTime) by {
        forall i | 0 <= i < |trace[1..]| && trace[1..][i].0 == Some(u) ensures trace[1..][i].1 <= requests[u].resetTime {
          assert trace[1..][i] == trace[i + 1];
        }
      }
      WindowBound(requests', limit, windowMs, u, trace[1..]);
    }
  }

  /**
   * A window opened by user u's request at time t0 lets through at most max(limit, 1) of u's
   * requests up to t0 + windowMs, the opening one included.
   */
  lemma AtMostLimitPerWindow(requests: map<string, Entry>, limit: int, windowMs: int, u: string, t0: int,
                             rest: seq<(Option<string>, int)>)
    requires u != "" && (u !in requests || t0 > requests[u].resetTime)
    requires NotAfter(rest, u, t0 + windowMs)
    ensures AllowedFor(requests, limit, windowMs, u, [(Some(u), t0)] + rest) <= Max(limit, 1)
  {
    var trace := [(Some(u), t0)] + rest;
    var requests' := Step(requests, limit, windowMs, Some(u), t0).1;
    assert trace[1..] == rest;
    WindowBound(requests', limit, windowMs, u, rest);
  }

  /** The limiter instance userRateLimit(limit, windowMs) returns, with its private map. */
  class UserRateLimiter {
    const limit: int
    const windowMs: int
    var requests: map<string, Entry>

    ghost predicate Valid()
      reads this
    {
      CountsBounded(requests, limit)
    }

    constructor (limit: int, windowMs: int)
      ensures Valid() && this.limit == limit && this.windowMs == windowMs && requests == map[]
    {
      this.limit := limit;
      this.windowMs := windowMs;
      requests := map[];
    }

    /** The middleware: `now` is the clock reading taken for this request. */
    method Handle(userId: Option<string>, now: int) returns (d: Decision)
      requires Valid()
      modifies this
      ensures Valid()
      ensures (d, requests) == Step(old(requests), limit, windowMs, userId, now)
    {
      StepKeepsCountsBounded(requests, limit, windowMs, userId, now);
      if userId.None? || userId.value == "" {
        return Next;
      }
      var id := userId.value;
      if id !in requests || now > requests[id].resetTime {
        requests := requests[id := Entry(1, now + windowMs)];
        return Next;
      }
      var current := requests[id];
      if current.count >= limit {
        return RateLimited;
      }
      requests := requests[id := current.(count := current.count + 1)];
      d := Next;
    }
  }
}
