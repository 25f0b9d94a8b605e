/**
 The per-client sliding-window rate limiter that guards every authenticated API
 endpoint: at most `RequestLimit` requests per client in any `Window` seconds.
 Time is an integer number of seconds supplied by the caller (the clock is not
 part of the model); client histories live in an immutable map.
 */
module RateLimit {

  /** Requests a client may make inside one window. */
  const RequestLimit: nat := 100

  /** The window length, in seconds (one hour). */
  const Window: int := 3600

  /** A client is identified by its forwarded or remote address. */
  type Client = string

  /** Request times per client. A client without an entry has the empty history,
      as a `defaultdict(list)` would report. */
  type Log = map<Client, seq<int>>

  function History(log: Log, c: Client): seq<int> {
    if c in log then log[c] else []
  }

  /** The times of `ts` that are still inside the window ending at `now`, in order. */
  function Recent(ts: seq<int>, now: int): (r: seq<int>)
    ensures |r| <= |ts|
    ensures forall t :: t in r <==> t in ts && now - t < Window
  {
    if ts == [] then []
    else
      var rest := Recent(ts[..|ts| - 1], now);
      var t := ts[|ts| - 1];
      if now - t < Window then rest + [t] else rest
  }

  /** Outcome of one rate-limit check: whether the request may proceed, and the new log. */
  datatype Decision = Decision(allowed: bool, log: Log)

  /** Prunes the client's history to the window, refuses when the pruned history is
      already full, and otherwise records `now`. Pruning is stored even on a refusal. */
  function CheckRateLimit(log: Log, client: Client, now: int): (d: Decision)
    ensures d.log.Keys == log.Keys + {client}
    ensures forall c :: c in log && c != client ==> d.log[c] == log[c]
    ensures d.allowed <==> |Recent(History(log, client), now)| < RequestLimit
    ensures forall t :: t in d.log[client] <==>
      (t in History(log, client) && now - t < Window) || (d.allowed && t == now)
    ensures !d.allowed ==> d.log[client] == Recent(History(log, client), now)
    ensures d.allowed ==> d.log[client] == Recent(History(log, client), now) + [now]
    ensures d.allowed ==> |d.log[client]| <= RequestLimit
  {
    var kept := Recent(History(log, client), now);
    if |kept| >= RequestLimit then Decision(false, log[client := kept])
    else Decision(true, log[client := kept + [now]])
  }

  /** No client holds more than `RequestLimit` recorded times. */
  predicate WithinLimit(log: Log) {
    forall c :: c in log ==> |log[c]| <= RequestLimit
  }

  /** The stored history of a client never grows beyond the limit. */
  lemma CheckPreservesLimit(log: Log, client: Client, now: int)
    requires WithinLimit(log)
    ensures WithinLimit(CheckRateLimit(log, client, now).log)
  {
    var d := CheckRateLimit(log, client, now);
    forall c | c in d.log
      ensures |d.log[c]| <= RequestLimit
    {
      if c == client && !d.allowed {
        assert |d.log[c]| <= |History(log, client)|;
      }
    }
  }

  /** Filtering to the window distributes over concatenation. */
  lemma {:induction false} RecentAppend(a: seq<int>, b: seq<int>, now: int)
    ensures Recent(a + b, now) == Recent(a, now) + Recent(b, now)
    decreases |b|
  {
    if b == [] {
      assert a + b == a;
    } else {
      var b' := b[..|b| - 1];
      assert (a + b)[..|a + b| - 1] == a + b';
      RecentAppend(a, b', now);
    }
  }

  /** Filtering to a later window after an earlier one is the same as filtering to the later one. */
  lemma {:induction false} RecentLater(ts: seq<int>, early: int, late: int)
    requires early <= late
    ensures Recent(Recent(ts, early), late) == Recent(ts, late)
    ensures |Recent(ts, late)| <= |Recent(ts, early)|
    decreases |ts|
  {
    if ts != [] {
      var p := ts[..|ts| - 1];
      var t := ts[|ts| - 1];
      RecentLater(p, early, late);
      if early - t < Window {
        RecentAppend(Recent(p, early), [t], late);
      }
    }
  }

  /** One incoming request. */
  datatype Request = Request(client: Client, time: int)

  /** Requests arrive in nondecreasing time order. */
  predicate Chronological(reqs: seq<Request>) {
    forall i, j :: 0 <= i < j < |reqs| ==> reqs[i].time <= reqs[j].time
  }

  /** Runs every request through the limiter, starting from an empty log, and
      returns the final log with the decision taken for each request. */
  function Replay(reqs: seq<Request>): (res: (Log, seq<bool>))
    ensures |res.1| == |reqs|
  {
    if reqs == [] then (map[], [])
    else
      var prev := Replay(reqs[..|reqs| - 1]);
      var r := reqs[|reqs| - 1];
      var d := CheckRateLimit(prev.0, r.client, r.time);
      (d.log, prev.1 + [d.allowed])
  }

  /** The times of the requests of `c` that were let through, in arrival order. */
  function AllowedTimes(reqs: seq<Request>, ds: seq<bool>, c: Client): seq<int>
    requires |ds| == |reqs|
  {
    if reqs == [] then []
    else
      var rest := AllowedTimes(reqs[..|reqs| - 1], ds[..|ds| - 1], c);
      if reqs[|reqs| - 1].client == c && ds[|ds| - 1] then rest + [reqs[|reqs| - 1].time] else rest
  }

  /** Appending one request extends the allowed times of its client alone. */
  lemma AllowedTimesStep(p: seq<Request>, ds: seq<bool>, r: Request, allowed: bool, c: Client)
    requires |ds| == |p|
    ensures AllowedTimes(p + [r], ds + [allowed], c)
      == AllowedTimes(p, ds, c) + (if r.client == c && allowed then [r.time] else [])
  {
    assert (p + [r])[..|p|] == p;
    assert (ds + [allowed])[..|ds|] == ds;
  }

  /** One check keeps the stored history of the checked client in step with the
      times let through, inside every window ending at or after the check. */
  lemma CheckKeepsHistory(log: Log, c: Client, now: int, a: seq<int>, t: int)
    requires now <= t
    requires Recent(History(log, c), t) == Recent(a, t)
    requires Recent(History(log, c), now) == Recent(a, now)
    requires |Recent(a, t)| <= RequestLimit
    ensures var d := CheckRateLimit(log, c, now);
      var a' := a + (if d.allowed then [now] else []);
      Recent(History(d.log, c), t) == Recent(a', t) && |Recent(a', t)| <= RequestLimit
  {
    var d := CheckRateLimit(log, c, now);
    var h := History(log, c);
    var x: seq<int> := if d.allowed then [now] else [];
    assert History(d.log, c) == Recent(h, now) + x;
    RecentAppend(Recent(h, now), x, t);
    RecentLater(h, now, t);
    RecentAppend(a, x, t);
    RecentLater(a, now, t);
    if d.allowed {
      assert |Recent(x, t)| <= 1;
    }
  }

  /** After any chronological run, the stored history of each client agrees, inside
      every window ending at or after the last request, with the requests actually
      let through, and those never number more than `RequestLimit`. */
  lemma {:induction false} ReplayInvariant(reqs: seq<Request>, c: Client, t: int)
    requires Chronological(reqs)
    requires reqs != [] ==> reqs[|reqs| - 1].time <= t
    ensures Recent(History(Replay(reqs).0, c), t) == Recent(AllowedTimes(reqs, Replay(reqs).1, c), t)
    ensures |Recent(AllowedTimes(reqs, Replay(reqs).1, c), t)| <= RequestLimit
    decreases |reqs|
  {
    if reqs != [] {
      var p := reqs[..|reqs| - 1];
      var r := reqs[|reqs| - 1];
      assert reqs == p + [r];
      var prev := Replay(p);
      var d := CheckRateLimit(prev.0, r.client, r.time);
      assert Replay(reqs) == (d.log, prev.1 + [d.allowed]);
      assert Chronological(p);
      ReplayInvariant(p, c, t);
      ReplayInvariant(p, c, r.time);
      AllowedTimesStep(p, prev.1, r, d.allowed, c);
      if r.client == c {
        CheckKeepsHistory(prev.0, c, r.time, AllowedTimes(p, prev.1, c), t);
      } else {
        assert History(d.log, c) == History(prev.0, c);
      }
    }
  }

  /** The rate-limiting guarantee: whatever the request pattern, at any moment from the
      last request on, a client has had at most `RequestLimit` requests
      let through during the preceding window. */
  lemma RateLimitHolds(reqs: seq<Request>, c: Client, t: int)
    requires Chronological(reqs)
    requires reqs != [] ==> reqs[|reqs| - 1].time <= t
    ensures |Recent(AllowedTimes(reqs, Replay(reqs).1, c), t)| <= RequestLimit
  {
    ReplayInvariant(reqs, c, t);
  }
}
