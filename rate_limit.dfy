/** The sliding-window rate limiter and its middleware. Per client key the
    limiter keeps the instants of the requests it admitted; a request is
    admitted when fewer than `maxRequests` of them are later than
    `now - window`. Instants are integers and `now` is given by the caller. */
module RateLimit {
  import opened Wrappers
  import opened Ids
  import opened Http

  predicate Sorted(s: seq<int>) {
    forall i, j | 0 <= i <= j < |s| :: s[i] <= s[j]
  }

  /** What `requests.retain(|&time| time > cutoff)` keeps, in its order. */
  function Retained(requests: seq<int>, cutoff: int): (r: seq<int>)
    ensures |r| <= |requests|
    ensures forall i | 0 <= i < |r| :: cutoff < r[i]
  {
    if requests == [] then []
    else (if cutoff < requests[0] then [requests[0]] else []) + Retained(requests[1..], cutoff)
  }

  /** The positions of the instants strictly later than the cutoff. */
  function NewerPositions(requests: seq<int>, cutoff: int): set<int> {
    set i | 0 <= i < |requests| && cutoff < requests[i]
  }

  /** Retaining distributes over concatenation. */
  lemma {:induction false} RetainedAppend(a: seq<int>, b: seq<int>, cutoff: int)
    ensures Retained(a + b, cutoff) == Retained(a, cutoff) + Retained(b, cutoff)
  {
    if a == [] {
      assert a + b == b;
    } else {
      assert (a + b)[0] == a[0];
      assert (a + b)[1..] == a[1..] + b;
      RetainedAppend(a[1..], b, cutoff);
    }
  }

  /** The number of retained instants is the number of instants strictly
      later than the cutoff: an instant equal to the cutoff does not count. */
  lemma {:induction false} RetainedCount(requests: seq<int>, cutoff: int)
    ensures |Retained(requests, cutoff)| == |NewerPositions(requests, cutoff)|
  {
    if requests == [] {
      assert NewerPositions(requests, cutoff) == {};
    } else {
      var n := |requests| - 1;
      var init, last := requests[..n], requests[n];
      assert requests == init + [last];
      RetainedAppend(init, [last], cutoff);
      assert [last][1..] == [];
      RetainedCount(init, cutoff);
      var older := NewerPositions(init, cutoff);
      if cutoff < last {
        assert NewerPositions(requests, cutoff) == older + {n};
        assert n !in older;
      } else {
        assert NewerPositions(requests, cutoff) == older;
      }
    }
  }

  /** Each instant is retained as often as it occurs if it is later than the
      cutoff, and not at all otherwise. */
  lemma {:induction false} RetainedMultiset(requests: seq<int>, cutoff: int)
    ensures forall t :: multiset(Retained(requests, cutoff))[t] ==
                          if cutoff < t then multiset(requests)[t] else 0
  {
    if requests != [] {
      RetainedMultiset(requests[1..], cutoff);
      assert requests == [requests[0]] + requests[1..];
    }
  }

  lemma RetainedMembers(requests: seq<int>, cutoff: int)
    ensures forall t :: t in Retained(requests, cutoff) <==> t in requests && cutoff < t
  {
    RetainedMultiset(requests, cutoff);
    forall t ensures t in Retained(requests, cutoff) <==> t in requests && cutoff < t {
      assert t in Retained(requests, cutoff) <==> t in multiset(Retained(requests, cutoff));
      assert t in requests <==> t in multiset(requests);
    }
  }

  /** Retaining keeps the order: sorted instants stay sorted. */
  lemma {:induction false} RetainedSorted(requests: seq<int>, cutoff: int)
    requires Sorted(requests)
    ensures Sorted(Retained(requests, cutoff))
  {
    if requests != [] {
      var tail := requests[1..];
      assert Sorted(tail);
      RetainedSorted(tail, cutoff);
      RetainedMembers(tail, cutoff);
      var rest := Retained(tail, cutoff);
      forall k | 0 <= k < |rest| ensures requests[0] <= rest[k] {
        assert rest[k] in tail;
        var j :| 0 <= j < |tail| && tail[j] == rest[k];
        assert tail[j] == requests[j + 1];
      }
    }
  }

  /** Retaining with a cutoff and then with a later one is retaining with the
      later one; in particular retaining twice with one cutoff changes nothing. */
  lemma {:induction false} RetainedTwice(requests: seq<int>, earlier: int, later: int)
    requires earlier <= later
    ensures Retained(Retained(requests, earlier), later) == Retained(requests, later)
  {
    if requests != [] {
      var head, tail := requests[0], requests[1..];
      RetainedTwice(tail, earlier, later);
      if earlier < head {
        var once := [head] + Retained(tail, earlier);
        assert Retained(requests, earlier) == once;
        assert once[0] == head && once[1..] == Retained(tail, earlier);
      } else {
        assert Retained(requests, earlier) == Retained(tail, earlier);
        assert Retained(requests, later) == Retained(tail, later);
      }
    }
  }

  /** The record of a key; a key never seen has none. */
  function Entry(store: map<string, seq<int>>, key: string): seq<int> {
    if key in store then store[key] else []
  }

  /** What one call leaves on record for its key: the instants later than the
      cutoff, then `now` if the request was admitted. */
  function Updated(requests: seq<int>, now: int, cutoff: int, allowed: bool): seq<int> {
    Retained(requests, cutoff) + if allowed then [now] else []
  }

  /** No key holds more instants than the limit. */
  ghost predicate WithinLimit(store: map<string, seq<int>>, maxRequests: nat) {
    forall key | key in store :: |store[key]| <= maxRequests
  }

  /** Sorted, and nothing later than `now`. */
  ghost predicate InOrderUpTo(requests: seq<int>, now: int) {
    Sorted(requests) && forall i | 0 <= i < |requests| :: requests[i] <= now
  }

  ghost predicate ChronologicalStore(store: map<string, seq<int>>, now: int) {
    forall key | key in store :: InOrderUpTo(store[key], now)
  }

  /** The record of `key` is its admissions later than its last cutoff, and that
      cutoff is not beyond `bound`. */
  ghost predicate TrackedKey(store: map<string, seq<int>>, admitted: map<string, seq<int>>,
                             cutoffs: map<string, int>, key: string, bound: int)
    requires key in store
  {
    && key in admitted && key in cutoffs
    && store[key] == Retained(admitted[key], cutoffs[key])
    && cutoffs[key] <= bound
  }

  ghost predicate TrackedStore(store: map<string, seq<int>>, admitted: map<string, seq<int>>,
                               cutoffs: map<string, int>, bound: int) {
    && (forall key | key in admitted :: key in store)
    && (forall key | key in store :: TrackedKey(store, admitted, cutoffs, key, bound))
  }

  class RateLimiter {
    const maxRequests: nat
    const window: nat
    /** Per client key, the instants of its admitted requests still on record. */
    var store: map<string, seq<int>>
    /** Every admission ever made, per key (a proof device, never pruned). */
    ghost var admitted: map<string, seq<int>>
    /** The cutoff applied to each key at its last request. */
    ghost var cutoffs: map<string, int>

    /** No key ever holds more instants than the limit. */
    ghost predicate Valid()
      reads this
    {
      WithinLimit(store, maxRequests)
    }

    /** During a run of calls whose latest was at `last`: every record is in
        order and not later than `last`, and is what the window of its key's
        last call keeps of that key's admissions. */
    ghost predicate InRun(last: int)
      reads this
    {
      && Valid()
      && ChronologicalStore(store, last)
      && TrackedStore(store, admitted, cutoffs, last - window)
    }

    /** `RateLimiter::new`: an empty store. */
    constructor (maxRequests: nat, window: nat)
      ensures this.maxRequests == maxRequests && this.window == window
      ensures store == map[] && admitted == map[] && cutoffs == map[]
      ensures Valid()
    {
      this.maxRequests := maxRequests;
      this.window := window;
      store := map[];
      admitted := map[];
      cutoffs := map[];
    }

    /** The instants on record for `key`. */
    function Requests(key: string): seq<int>
      reads this
    {
      Entry(store, key)
    }

    /** `RateLimiter::is_allowed` at instant `now`. The invariants a sequence
        of calls keeps are the lemmas on `Updated` below. */
    method IsAllowed(key: string, now: int) returns (allowed: bool)
      requires Valid()
      modifies this
      ensures Valid()
      // admitted iff fewer than the limit are strictly later than the cutoff
      ensures allowed <==> |Retained(old(Requests(key)), now - window)| < maxRequests
      // the key's record is pruned, and `now` is appended exactly when admitted;
      // no other key changes, and the queried key is present even after a denial
      ensures store == old(store)[key := Updated(old(Requests(key)), now, now - window, allowed)]
      ensures admitted == old(admitted)[key := Entry(old(admitted), key) + if allowed then [now] else []]
      ensures cutoffs == old(cutoffs)[key := now - window]
    {
      var cutoff := now - window;
      // `entry(key).or_insert(...)`: a key never seen starts empty
      var requests := Entry(store, key);
      ghost var before := requests;
      requests := Retained(requests, cutoff);
      if |requests| < maxRequests {
        requests := requests + [now];
        allowed := true;
      } else {
        allowed := false;
      }
      WithinLimitStep(store, key, now, cutoff, maxRequests, allowed);
      assert requests == Updated(before, now, cutoff, allowed);
      store := store[key := requests];
      admitted := admitted[key := Entry(admitted, key) + if allowed then [now] else []];
      cutoffs := cutoffs[key := cutoff];
    }
  }

  /** One call keeps every key within the limit. */
  lemma WithinLimitStep(store: map<string, seq<int>>, key: string, now: int, cutoff: int,
                        maxRequests: nat, allowed: bool)
    requires WithinLimit(store, maxRequests)
    requires allowed <==> |Retained(Entry(store, key), cutoff)| < maxRequests
    ensures WithinLimit(store[key := Updated(Entry(store, key), now, cutoff, allowed)], maxRequests)
  {
  }

  /** One call at an instant not before `previous` keeps every record in
      order and not later than the new instant. */
  lemma ChronologicalStoreStep(store: map<string, seq<int>>, store': map<string, seq<int>>,
                               key: string, previous: int, now: int, cutoff: int, allowed: bool)
    requires ChronologicalStore(store, previous) && previous <= now
    requires store' == store[key := Updated(Entry(store, key), now, cutoff, allowed)]
    ensures ChronologicalStore(store', now)
  {
    forall k | k in store' ensures InOrderUpTo(store'[k], now) {
      if k == key {
        assert InOrderUpTo(Entry(store, key), now) by {
          if key in store {
            assert InOrderUpTo(store[key], previous);
          }
        }
        ChronologicalStep(Entry(store, key), now, cutoff, allowed);
      } else {
        assert InOrderUpTo(store[k], previous);
      }
    }
  }

  /** One call at a cutoff not before the previous one keeps every record
      equal to its admissions after the latest cutoff, so the admissions of
      the key in the current window never exceed the limit. */
  lemma TrackedStoreStep(store: map<string, seq<int>>, admitted: map<string, seq<int>>, cutoffs: map<string, int>,
                         store': map<string, seq<int>>, admitted': map<string, seq<int>>, cutoffs': map<string, int>,
                         key: string, previous: int, now: int, cutoff: int, maxRequests: nat, allowed: bool)
    requires previous <= cutoff < now
    requires WithinLimit(store, maxRequests)
    requires TrackedStore(store, admitted, cutoffs, previous)
    requires allowed <==> |Retained(Entry(store, key), cutoff)| < maxRequests
    requires store' == store[key := Updated(Entry(store, key), now, cutoff, allowed)]
    requires admitted' == admitted[key := Entry(admitted, key) + if allowed then [now] else []]
    requires cutoffs' == cutoffs[key := cutoff]
    ensures TrackedStore(store', admitted', cutoffs', cutoff)
    ensures key in admitted' && |Retained(admitted'[key], cutoff)| <= maxRequests
  {
    var known := key in store;
    var last := if key in cutoffs then cutoffs[key] else cutoff;
    if known {
      assert TrackedKey(store, admitted, cutoffs, key, previous);
    } else {
      assert key !in admitted;
    }
    TrackedStep(Entry(store, key), Entry(admitted, key), last, now, cutoff, allowed, known);
    assert TrackedKey(store', admitted', cutoffs', key, cutoff);
    forall k | k in store' ensures TrackedKey(store', admitted', cutoffs', k, cutoff) {
      if k != key {
        assert TrackedKey(store, admitted, cutoffs, k, previous);
      }
    }
    WithinLimitStep(store, key, now, cutoff, maxRequests, allowed);
  }

  /** The instants of the admitted requests among the first `n`, given the
      instants of all the requests and the decision for each. */
  function AdmittedTimes(times: seq<int>, admitted: seq<bool>, n: nat): (r: seq<int>)
    requires n <= |times| && n <= |admitted|
    ensures |r| <= n
  {
    if n == 0 then []
    else AdmittedTimes(times, admitted, n - 1) + if admitted[n - 1] then [times[n - 1]] else []
  }

  /** One call of a run, at an instant not before the previous call's: the
      invariants of the store carry over to the new instant. */
  method InOrderCall(limiter: RateLimiter, key: string, ghost previous: int, now: int) returns (allowed: bool)
    requires limiter.InRun(previous) && 0 < limiter.window && previous <= now
    modifies limiter
    ensures limiter.InRun(now)
    ensures Entry(limiter.admitted, key) == Entry(old(limiter.admitted), key) + if allowed then [now] else []
    ensures |Retained(Entry(limiter.admitted, key), now - limiter.window)| <= limiter.maxRequests
  {
    ghost var store, history, cutoffs := limiter.store, limiter.admitted, limiter.cutoffs;
    allowed := limiter.IsAllowed(key, now);
    ChronologicalStoreStep(store, limiter.store, key, previous, now, now - limiter.window, allowed);
    TrackedStoreStep(store, history, cutoffs, limiter.store, limiter.admitted, limiter.cutoffs,
                     key, previous - limiter.window, now, now - limiter.window, limiter.maxRequests, allowed);
  }

  /** Later decisions do not change the admissions among the first `n`. */
  lemma {:induction false} AdmittedTimesPrefix(times: seq<int>, admitted: seq<bool>, ok: bool, n: nat)
    requires n <= |admitted| < |times|
    ensures AdmittedTimes(times, admitted + [ok], n) == AdmittedTimes(times, admitted, n)
  {
    if n > 0 {
      AdmittedTimesPrefix(times, admitted, ok, n - 1);
      assert (admitted + [ok])[n - 1] == admitted[n - 1];
    }
  }

  /** Call `i` of a run, at `times[i]`: the record of admissions grows by
      that call's outcome. */
  method RunCall(limiter: RateLimiter, key: string, times: seq<int>, admitted: seq<bool>, i: nat, ghost last: int)
    returns (ok: bool)
    requires i < |times| && |admitted| == i && last <= times[i]
    requires limiter.InRun(last) && 0 < limiter.window
    requires Entry(limiter.admitted, key) == AdmittedTimes(times, admitted, i)
    modifies limiter
    ensures limiter.InRun(times[i])
    ensures Entry(limiter.admitted, key) == AdmittedTimes(times, admitted + [ok], i + 1)
    ensures |Retained(AdmittedTimes(times, admitted + [ok], i + 1), times[i] - limiter.window)| <= limiter.maxRequests
  {
    ok := InOrderCall(limiter, key, last, times[i]);
    AdmittedTimesPrefix(times, admitted, ok, i);
  }

  /** Requests from one key at non-decreasing instants, on a fresh limiter:
      the requests admitted in the window that ends at the last one are never
      more than the limit. */
  method AdmitRun(maxRequests: nat, window: nat, key: string, times: seq<int>) returns (admitted: seq<bool>)
    requires 0 < window
    requires forall i | 0 < i < |times| :: times[i - 1] <= times[i]
    ensures |admitted| == |times|
    ensures times != [] ==>
              |Retained(AdmittedTimes(times, admitted, |times|), times[|times| - 1] - window)| <= maxRequests
  {
    var limiter := new RateLimiter(maxRequests, window);
    admitted := [];
    ghost var last := if times == [] then 0 else times[0];
    var i := 0;
    while i < |times|
      invariant 0 <= i <= |times| && |admitted| == i
      invariant limiter.maxRequests == maxRequests && limiter.window == window
      invariant i < |times| ==> last <= times[i]
      invariant Entry(limiter.admitted, key) == AdmittedTimes(times, admitted, i)
      invariant limiter.InRun(last)
      invariant i > 0 ==> |Retained(AdmittedTimes(times, admitted, i), times[i - 1] - window)| <= maxRequests
    {
      var ok := RunCall(limiter, key, times, admitted, i, last);
      admitted := admitted + [ok];
      last := times[i];
      i := i + 1;
      assert i < |times| ==> times[i - 1] <= times[i];
    }
  }

  /** One call keeps a key's record sorted and not later than `now`. */
  lemma ChronologicalStep(requests: seq<int>, now: int, cutoff: int, allowed: bool)
    requires InOrderUpTo(requests, now)
    ensures InOrderUpTo(Retained(requests, cutoff) + if allowed then [now] else [], now)
  {
    RetainedSorted(requests, cutoff);
    RetainedMembers(requests, cutoff);
    var kept := Retained(requests, cutoff);
    assert forall i | 0 <= i < |kept| :: kept[i] <= now by {
      forall i | 0 <= i < |kept| ensures kept[i] <= now {
        assert kept[i] in requests;
      }
    }
    var r := kept + if allowed then [now] else [];
    forall i, j | 0 <= i <= j < |r| ensures r[i] <= r[j] {
      if j < |kept| {
        assert r[i] == kept[i] && r[j] == kept[j];
      } else {
        assert r[j] == now;
      }
    }
  }

  /** One call keeps a key's record equal to its admissions after the latest cutoff. */
  lemma TrackedStep(requests: seq<int>, history: seq<int>, previous: int, now: int, cutoff: int,
                    allowed: bool, known: bool)
    requires cutoff < now
    requires known ==> requests == Retained(history, previous) && previous <= cutoff
    requires !known ==> requests == [] && history == []
    ensures Retained(requests, cutoff) + (if allowed then [now] else []) ==
            Retained(history + if allowed then [now] else [], cutoff)
  {
    var added := if allowed then [now] else [];
    assert Retained(requests, cutoff) == Retained(history, cutoff) by {
      if known {
        RetainedTwice(history, previous, cutoff);
      }
    }
    assert Retained(added, cutoff) == added by {
      if allowed {
        assert added[1..] == [];
      }
    }
    RetainedAppend(history, added, cutoff);
  }

  /** The request as the middleware sees it: the user id an earlier middleware
      may have attached, and the peer's IP address as text. */
  datatype ServiceRequest = ServiceRequest(userId: Option<Uuid>, peerIp: Option<string>)

  const UNKNOWN_KEY := "unknown"
  const RATE_LIMIT_MESSAGE := "Rate limit execeeded. Please try again later"

  /** The limiter key: the user id, else the peer IP, else "unknown". */
  function RequestKey(req: ServiceRequest): (key: string)
    ensures req.userId.Some? ==> key == req.userId.value.ToString()
    ensures req.userId.None? && req.peerIp.Some? ==> key == req.peerIp.value
    ensures req.userId.None? && req.peerIp.None? ==> key == UNKNOWN_KEY
  {
    match (req.userId, req.peerIp)
    case (Some(id), _) => id.ToString()
    case (None, Some(ip)) => ip
    case (None, None) => UNKNOWN_KEY
  }

  /** An authenticated user is limited as one client whatever address it comes
      from, and anonymous requests from one address share one budget. */
  lemma KeyFollowsIdentity(a: ServiceRequest, b: ServiceRequest)
    requires a.userId == b.userId
    requires a.userId.None? ==> a.peerIp == b.peerIp
    ensures RequestKey(a) == RequestKey(b)
  {
  }

  function TooManyRequests(): (r: Response)
    ensures r.status == TOO_MANY_REQUESTS
    ensures r.body == Json([("error", RATE_LIMIT_MESSAGE)])
  {
    Response(TOO_MANY_REQUESTS, Json([("error", RATE_LIMIT_MESSAGE)]))
  }

  /** The middleware around an inner service; every middleware built from one
      limiter shares its store (the source's `Arc<Mutex<…>>`). */
  class RateLimiterMiddleware {
    const service: ServiceRequest -> Response
    const limiter: RateLimiter

    constructor (service: ServiceRequest -> Response, limiter: RateLimiter)
      ensures this.service == service && this.limiter == limiter
    {
      this.service := service;
      this.limiter := limiter;
    }

    /** `RateLimiterMiddleware::call`; `forwarded` records whether the inner
        service was called. */
    method Call(req: ServiceRequest, now: int) returns (resp: Response, ghost forwarded: bool)
      requires limiter.Valid()
      modifies limiter
      ensures limiter.Valid()
      ensures forwarded <==>
                |Retained(old(limiter.Requests(RequestKey(req))), now - limiter.window)| < limiter.maxRequests
      ensures resp == if forwarded then service(req) else TooManyRequests()
      ensures limiter.store == old(limiter.store)[RequestKey(req) :=
                Retained(old(limiter.Requests(RequestKey(req))), now - limiter.window) + if forwarded then [now] else []]
    {
      var key := RequestKey(req);
      var allowed := limiter.IsAllowed(key, now);
      forwarded := allowed;
      if !allowed {
        resp := TooManyRequests();
        return;
      }
      resp := service(req);
    }
  }

  /** `n` requests at instant `t`. */
  function Repeat(t: int, n: nat): (r: seq<int>)
    ensures |r| == n && forall i | 0 <= i < n :: r[i] == t
  {
    if n == 0 then [] else Repeat(t, n - 1) + [t]
  }

  /** `count` requests from one key at one instant `now`, on a limiter that
      had none from it; all pass while the limit allows. */
  method AdmitAtOnce(limiter: RateLimiter, key: string, now: int, count: nat) returns (admitted: seq<bool>)
    requires limiter.Valid() && 0 < limiter.window && count <= limiter.maxRequests
    requires limiter.Requests(key) == []
    modifies limiter
    ensures limiter.Valid()
    ensures limiter.Requests(key) == Repeat(now, count)
    ensures |admitted| == count && forall i | 0 <= i < count :: admitted[i]
  {
    admitted := [];
    var i := 0;
    while i < count
      invariant 0 <= i <= count
      invariant |admitted| == i && forall j | 0 <= j < i :: admitted[j]
      invariant limiter.Valid() && limiter.Requests(key) == Repeat(now, i)
    {
      RetainedAll(Repeat(now, i), now - limiter.window);
      var ok := limiter.IsAllowed(key, now);
      admitted := admitted + [ok];
      i := i + 1;
    }
  }

  /** With a limit of `limit`, `limit` requests at one instant all pass and
      the next one is refused. */
  method BlocksOverLimit(limit: nat) returns (admitted: seq<bool>, refused: bool)
    ensures |admitted| == limit && forall i | 0 <= i < limit :: admitted[i]
    ensures refused
  {
    var limiter := new RateLimiter(limit, 60);
    admitted := AdmitAtOnce(limiter, UNKNOWN_KEY, 0, limit);
    RetainedAll(Repeat(0, limit), -60);
    var ok := limiter.IsAllowed(UNKNOWN_KEY, 0);
    refused := !ok;
  }

  lemma RetainedAll(requests: seq<int>, cutoff: int)
    requires forall i | 0 <= i < |requests| :: cutoff < requests[i]
    ensures Retained(requests, cutoff) == requests
  {
    if requests != [] {
      RetainedAll(requests[1..], cutoff);
      assert requests == [requests[0]] + requests[1..];
    }
  }

  /** An exhausted key does not affect another key. */
  method KeysIndependent() returns (exhausted: bool, independent: bool)
    ensures !exhausted && independent
  {
    var a, b := "10.0.0.1", "10.0.0.2";
    assert a != b by { assert a[7] != b[7]; }
    var limiter := new RateLimiter(1, 60);
    var first := limiter.IsAllowed(a, 0);
    exhausted := limiter.IsAllowed(a, 0);
    independent := limiter.IsAllowed(b, 0);
  }

  /** Once the window has slid past them, the earlier admissions no longer
      count; an instant equal to the cutoff is dropped. */
  method WindowSlides() returns (justBefore: bool, atBoundary: bool)
    ensures !justBefore && atBoundary
  {
    var limiter := new RateLimiter(1, 60);
    var first := limiter.IsAllowed(UNKNOWN_KEY, 0);
    justBefore := limiter.IsAllowed(UNKNOWN_KEY, 59);
    atBoundary := limiter.IsAllowed(UNKNOWN_KEY, 60);
  }

  /** A limit of zero admits nothing. */
  method ZeroLimitAdmitsNothing(key: string, now: int) returns (allowed: bool)
    ensures !allowed
  {
    var limiter := new RateLimiter(0, 60);
    allowed := limiter.IsAllowed(key, now);
  }
}
