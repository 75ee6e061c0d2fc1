/** The rate limiter and the client-address rule of the contact endpoint
    (app/api/contact/route.ts). The limiter keeps, per client identifier,
    how many requests it allowed in the current window and when that window
    ends; every check first sweeps out the windows that have ended. The
    current time is a parameter. */
module ContactRoute {
  import opened Wrappers
  import opened Text

  const MAX_REQUESTS: int := 5
  const WINDOW_MS: int := 3600000

  datatype RateLimitEntry = RateLimitEntry(count: int, resetTime: int)

  datatype RateLimitResult = RateLimitResult(allowed: bool, remaining: int, resetTime: int)

  /** An entry is live up to and including its reset time. */
  predicate Expired(e: RateLimitEntry, now: int) {
    now > e.resetTime
  }

  /** The store without the entries that have expired at `now`. */
  function Sweep(store: map<string, RateLimitEntry>, now: int): (swept: map<string, RateLimitEntry>)
    ensures forall k :: k in swept <==> k in store && !Expired(store[k], now)
    ensures forall k :: k in swept ==> swept[k] == store[k]
  {
    map k | k in store && !Expired(store[k], now) :: store[k]
  }

  /** One call of `checkRateLimit(identifier)` at time `now`: the answer and
      the new store. The entry is read before the sweep; an entry that is
      missing or expired opens a new window, a full one is refused, and
      otherwise its count goes up by one. */
  function Step(store: map<string, RateLimitEntry>, identifier: string, now: int)
    : (r: (RateLimitResult, map<string, RateLimitEntry>))
    ensures identifier in r.1 && r.0.resetTime == r.1[identifier].resetTime
    ensures r.0.allowed ==> r.0.remaining == MAX_REQUESTS - r.1[identifier].count
    ensures !r.0.allowed <==> identifier in store && !Expired(store[identifier], now)
                              && store[identifier].count >= MAX_REQUESTS
    ensures !r.0.allowed ==> r.0.remaining == 0 && r.1 == Sweep(store, now)
  {
    var swept := Sweep(store, now);
    if identifier !in store || Expired(store[identifier], now) then
      var resetTime := now + WINDOW_MS;
      (RateLimitResult(true, MAX_REQUESTS - 1, resetTime), swept[identifier := RateLimitEntry(1, resetTime)])
    else
      var entry := store[identifier];
      if entry.count >= MAX_REQUESTS then
        (RateLimitResult(false, 0, entry.resetTime), swept)
      else
        var count := entry.count + 1;
        (RateLimitResult(true, MAX_REQUESTS - count, entry.resetTime),
         swept[identifier := RateLimitEntry(count, entry.resetTime)])
  }

  class RateLimiter {
    var store: map<string, RateLimitEntry>

    constructor()
      ensures store == map[]
    {
      store := map[];
    }

    /** `checkRateLimit`; the sweep deletes from the store while visiting
        its entries one at a time. */
    method CheckRateLimit(identifier: string, now: int) returns (result: RateLimitResult)
      modifies this
      ensures (result, store) == Step(old(store), identifier, now)
    {
      var entry := if identifier in store then Some(store[identifier]) else None;
      var keys := store.Keys;
      while keys != {}
        invariant keys <= old(store).Keys
        invariant store == map k | k in old(store) && (k in keys || !Expired(old(store)[k], now)) :: old(store)[k]
        decreases |keys|
      {
        var key :| key in keys;
        if Expired(store[key], now) {
          store := store - {key};
        }
        keys := keys - {key};
      }
      assert store == Sweep(old(store), now);
      if entry.None? || Expired(entry.value, now) {
        var resetTime := now + WINDOW_MS;
        store := store[identifier := RateLimitEntry(1, resetTime)];
        return RateLimitResult(true, MAX_REQUESTS - 1, resetTime);
      }
      if entry.value.count >= MAX_REQUESTS {
        return RateLimitResult(false, 0, entry.value.resetTime);
      }
      var updated := entry.value.(count := entry.value.count + 1);
      store := store[identifier := updated];
      return RateLimitResult(true, MAX_REQUESTS - updated.count, updated.resetTime);
    }
  }

  // ---- what one call does ---------------------------------------------------

  /** Every stored count lies in 1..MAX_REQUESTS. */
  predicate CountsBounded(store: map<string, RateLimitEntry>) {
    forall k :: k in store ==> 1 <= store[k].count <= MAX_REQUESTS
  }

  /** A call keeps the counts in range, and the remaining allowance it
      reports is MAX_REQUESTS minus the stored count, never negative. */
  lemma StepKeepsCounts(store: map<string, RateLimitEntry>, identifier: string, now: int)
    requires CountsBounded(store)
    ensures var (result, next) := Step(store, identifier, now);
      && CountsBounded(next)
      && identifier in next
      && 0 <= result.remaining < MAX_REQUESTS
      && (result.allowed ==> result.remaining == MAX_REQUESTS - next[identifier].count)
      && result.resetTime == next[identifier].resetTime
  {
  }

  /** The entries of other identifiers are the swept ones, unchanged: only
      the expired ones go. */
  lemma StepOthers(store: map<string, RateLimitEntry>, identifier: string, now: int, other: string)
    requires other != identifier
    ensures var next := Step(store, identifier, now).1;
      && (other in next <==> other in store && store[other].resetTime >= now)
      && (other in next ==> next[other] == store[other])
  {
  }

  /** A refused call changes nothing but the sweep. */
  lemma RefusalKeepsEntry(store: map<string, RateLimitEntry>, identifier: string, now: int)
    requires !Step(store, identifier, now).0.allowed
    ensures var (result, next) := Step(store, identifier, now);
      && identifier in store && next == Sweep(store, now)
      && store[identifier].count >= MAX_REQUESTS && result.remaining == 0
      && result.resetTime == store[identifier].resetTime
  {
  }

  // ---- how many calls a window allows ---------------------------------------

  /** The answers to successive calls for one identifier at the given times. */
  function Run(store: map<string, RateLimitEntry>, identifier: string, times: seq<int>): (allowed: seq<bool>)
    ensures |allowed| == |times|
    decreases |times|
  {
    if times == [] then []
    else
      var (result, next) := Step(store, identifier, times[0]);
      [result.allowed] + Run(next, identifier, times[1..])
  }

  /** Inside a live window that has allowed `count` calls, the i-th further
      call is allowed exactly when count + i < MAX_REQUESTS. */
  lemma {:induction false} RunInWindow(store: map<string, RateLimitEntry>, identifier: string, times: seq<int>)
    requires identifier in store && 1 <= store[identifier].count <= MAX_REQUESTS
    requires forall i :: 0 <= i < |times| ==> times[i] <= store[identifier].resetTime
    ensures forall i :: 0 <= i < |times| ==>
      (Run(store, identifier, times)[i] <==> store[identifier].count + i < MAX_REQUESTS)
    decreases |times|
  {
    if times != [] {
      var next := Step(store, identifier, times[0]).1;
      var entry := store[identifier];
      assert next[identifier].resetTime == entry.resetTime;
      assert next[identifier].count == if entry.count < MAX_REQUESTS then entry.count + 1 else entry.count;
      RunInWindow(next, identifier, times[1..]);
      var allowed, rest := Run(store, identifier, times), Run(next, identifier, times[1..]);
      assert allowed == [entry.count < MAX_REQUESTS] + rest;
      forall i | 1 <= i < |allowed| ensures allowed[i] <==> entry.count + i < MAX_REQUESTS {
        assert allowed[i] == rest[i - 1];
      }
    }
  }

  /** From a fresh or expired entry, the calls made within one window of the
      first are allowed for the first MAX_REQUESTS of them and refused
      after: at most five per window. */
  lemma FreshWindow(store: map<string, RateLimitEntry>, identifier: string, times: seq<int>)
    requires |times| >= 1
    requires identifier !in store || Expired(store[identifier], times[0])
    requires forall i :: 0 <= i < |times| ==> times[i] <= times[0] + WINDOW_MS
    ensures forall i :: 0 <= i < |times| ==> (Run(store, identifier, times)[i] <==> i < MAX_REQUESTS)
  {
    var next := Step(store, identifier, times[0]).1;
    assert next[identifier] == RateLimitEntry(1, times[0] + WINDOW_MS);
    RunInWindow(next, identifier, times[1..]);
    var allowed, rest := Run(store, identifier, times), Run(next, identifier, times[1..]);
    assert allowed == [true] + rest;
    forall i | 1 <= i < |allowed| ensures allowed[i] <==> i < MAX_REQUESTS {
      assert allowed[i] == rest[i - 1];
    }
  }

  // ---- the client address ---------------------------------------------------

  /** A header that is there and not ''; `Headers.get` gives null for a
      missing one and '' is falsy. */
  predicate Present(headers: map<string, string>, name: string) {
    name in headers && headers[name] != ""
  }

  /** `getClientIP`: the first comma-separated address of x-forwarded-for,
      trimmed, else x-real-ip, else cf-connecting-ip, else 'unknown'. */
  function GetClientIP(headers: map<string, string>): (ip: string)
    ensures Present(headers, "x-forwarded-for") ==>
      ip == [] || (!IsWhitespace(ip[0]) && !IsWhitespace(ip[|ip| - 1]))
  {
    if Present(headers, "x-forwarded-for") then Trim(Split(headers["x-forwarded-for"], ',')[0])
    else if Present(headers, "x-real-ip") then headers["x-real-ip"]
    else if Present(headers, "cf-connecting-ip") then headers["cf-connecting-ip"]
    else "unknown"
  }

  /** The address taken from x-forwarded-for is the text before its first
      comma with surrounding whitespace trimmed: it holds no comma and
      neither starts nor ends with whitespace. */
  lemma ForwardedAddress(headers: map<string, string>)
    requires Present(headers, "x-forwarded-for")
    ensures var v, ip := headers["x-forwarded-for"], GetClientIP(headers);
      var first := Split(v, ',')[0];
      && first == v[..|first|] && ',' !in first && (|first| < |v| ==> v[|first|] == ',')
      && ip == Trim(first)
      && ',' !in ip
      && (ip == [] || (!IsWhitespace(ip[0]) && !IsWhitespace(ip[|ip| - 1])))
  {
    var v := headers["x-forwarded-for"];
    var first := Split(v, ',')[0];
    SplitFirst(v, ',');
    TrimInfix(first);
  }

  /** x-forwarded-for, when present, decides alone; the other two headers
      are consulted in their order only without it. */
  lemma HeaderPrecedence(headers: map<string, string>, name: string, value: string)
    requires name != "x-forwarded-for"
    requires Present(headers, "x-forwarded-for")
    ensures GetClientIP(headers[name := value]) == GetClientIP(headers)
  {
  }

  /** Without x-forwarded-for, x-real-ip decides; without both,
      cf-connecting-ip; without any of the three, 'unknown'. */
  lemma HeaderFallback(headers: map<string, string>)
    ensures !Present(headers, "x-forwarded-for") && Present(headers, "x-real-ip") ==>
      GetClientIP(headers) == headers["x-real-ip"]
    ensures !Present(headers, "x-forwarded-for") && !Present(headers, "x-real-ip")
            && Present(headers, "cf-connecting-ip") ==>
      GetClientIP(headers) == headers["cf-connecting-ip"]
    ensures !Present(headers, "x-forwarded-for") && !Present(headers, "x-real-ip")
            && !Present(headers, "cf-connecting-ip") ==>
      GetClientIP(headers) == "unknown"
  {
  }

  /** An empty header value counts as no header. */
  lemma EmptyIsAbsent(headers: map<string, string>, name: string)
    ensures GetClientIP(headers[name := ""]) == GetClientIP(headers - {name})
  {
  }
}
