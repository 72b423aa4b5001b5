/** The sliding-window rate limiter. */
module RateLimiting {
  import opened Prelude

  type Table = map<string, seq<int>>

  function Fresh(now: int, windowSecs: int): int -> bool {
    (ts: int) => now - ts < windowSecs
  }

  function Entry(table: Table, key: string): seq<int> {
    if key in table then table[key] else []
  }

  function Retained(table: Table, key: string, now: int, windowSecs: int): seq<int> {
    Filter(Entry(table, key), Fresh(now, windowSecs))
  }

  predicate Grants(table: Table, key: string, now: int, limit: nat, windowSecs: int) {
    |Retained(table, key, now, windowSecs)| < limit
  }

  function After(table: Table, key: string, now: int, limit: nat, windowSecs: int): Table {
    var kept := Retained(table, key, now, windowSecs);
    table[key := if |kept| < limit then kept + [now] else kept]
  }

  class RateLimiter {
    var requests: Table

    constructor ()
      ensures requests == map[]
    {
      requests := map[];
    }

    method CheckLimit(key: string, limit: nat, windowSecs: int, now: int) returns (granted: bool)
      modifies this
      ensures granted == Grants(old(requests), key, now, limit, windowSecs)
      ensures requests == After(old(requests), key, now, limit, windowSecs)
    {
      if key !in requests {
        requests := requests[key := []];
      }
      var entry := Filter(requests[key], Fresh(now, windowSecs));
      if |entry| >= limit {
        granted := false;
      } else {
        entry := entry + [now];
        granted := true;
      }
      requests := requests[key := entry];
    }
  }

  // Runs. Every key keeps one limit and one window.

  datatype Call = Call(key: string, now: int)

  datatype Policy = Policy(limit: string -> nat, window: string -> int)

  function TableAfter(p: Policy, calls: seq<Call>): Table {
    if calls == [] then map[]
    else
      var n := |calls| - 1;
      After(TableAfter(p, calls[..n]), calls[n].key, calls[n].now, p.limit(calls[n].key), p.window(calls[n].key))
  }

  predicate Granted(p: Policy, calls: seq<Call>, c: Call) {
    Grants(TableAfter(p, calls), c.key, c.now, p.limit(c.key), p.window(c.key))
  }

  /** The times of all grants to `key` during a run. */
  function GrantTimes(p: Policy, calls: seq<Call>, key: string): seq<int> {
    if calls == [] then []
    else
      var n := |calls| - 1;
      GrantTimes(p, calls[..n], key)
      + (if calls[n].key == key && Granted(p, calls[..n], calls[n]) then [calls[n].now] else [])
  }

  function Within(from: int, to: int): int -> bool {
    (ts: int) => from <= ts < to
  }

  /** How many of the times lie in the window of `windowSecs` seconds from `from` on. */
  function InWindow(times: seq<int>, from: int, windowSecs: int): nat {
    |Filter(times, Within(from, from + windowSecs))|
  }

  // One key on its own: what the table keeps, and everything ever granted.

  datatype Track = Track(entry: seq<int>, grants: seq<int>)

  function Admit(t: Track, now: int, limit: nat, windowSecs: int): Track {
    var kept := Filter(t.entry, Fresh(now, windowSecs));
    if |kept| < limit then Track(kept + [now], t.grants + [now]) else Track(kept, t.grants)
  }

  function TrackOf(times: seq<int>, limit: nat, windowSecs: int): Track {
    if times == [] then Track([], [])
    else
      var n := |times| - 1;
      Admit(TrackOf(times[..n], limit, windowSecs), times[n], limit, windowSecs)
  }

  function TimesOf(calls: seq<Call>, key: string): seq<int> {
    if calls == [] then []
    else
      var n := |calls| - 1;
      if calls[n].key == key then TimesOf(calls[..n], key) + [calls[n].now] else TimesOf(calls[..n], key)
  }

  /** Keys do not affect each other: what the table holds for a key, and what it was
      granted, is what its own calls alone would have led to. */
  lemma {:induction false} KeysAreIndependent(p: Policy, calls: seq<Call>, key: string)
    ensures Entry(TableAfter(p, calls), key) == TrackOf(TimesOf(calls, key), p.limit(key), p.window(key)).entry
    ensures GrantTimes(p, calls, key) == TrackOf(TimesOf(calls, key), p.limit(key), p.window(key)).grants
  {
    if calls == [] {
    } else {
      var n := |calls| - 1;
      KeysAreIndependent(p, calls[..n], key);
      if calls[n].key == key {
        var own := TimesOf(calls[..n], key);
        assert (own + [calls[n].now])[..|own|] == own;
      }
    }
  }

  lemma RetainTwice(times: seq<int>, earlier: int, now: int, windowSecs: int)
    requires earlier <= now
    ensures Filter(Filter(times, Fresh(earlier, windowSecs)), Fresh(now, windowSecs))
         == Filter(times, Fresh(now, windowSecs))
  {
    FilterTwice(times, Fresh(earlier, windowSecs), Fresh(now, windowSecs), Fresh(now, windowSecs));
  }

  ghost predicate AllUpTo(times: seq<int>, now: int) {
    forall i :: 0 <= i < |times| ==> times[i] <= now
  }

  /** Although old entries are dropped for good, what is retained at any later time
      is exactly what would be retained of the full history of grants. */
  ghost predicate Remembers(t: Track, last: int, windowSecs: int) {
    forall now :: now >= last ==> Filter(t.entry, Fresh(now, windowSecs)) == Filter(t.grants, Fresh(now, windowSecs))
  }

  ghost predicate WindowsWithin(grants: seq<int>, limit: nat, windowSecs: int) {
    forall from :: InWindow(grants, from, windowSecs) <= limit
  }

  lemma RememberAt(t: Track, now: int, later: int, limit: nat, windowSecs: int)
    requires now <= later
    requires Filter(t.entry, Fresh(later, windowSecs)) == Filter(t.grants, Fresh(later, windowSecs))
    ensures Filter(Admit(t, now, limit, windowSecs).entry, Fresh(later, windowSecs))
         == Filter(Admit(t, now, limit, windowSecs).grants, Fresh(later, windowSecs))
  {
    RetainTwice(t.entry, now, later, windowSecs);
    FilterSnoc(Filter(t.entry, Fresh(now, windowSecs)), now, Fresh(later, windowSecs));
    FilterSnoc(t.grants, now, Fresh(later, windowSecs));
  }

  lemma RememberStep(t: Track, last: int, now: int, limit: nat, windowSecs: int)
    requires last <= now && Remembers(t, last, windowSecs)
    ensures Remembers(Admit(t, now, limit, windowSecs), now, windowSecs)
  {
    forall later | later >= now
      ensures Filter(Admit(t, now, limit, windowSecs).entry, Fresh(later, windowSecs))
           == Filter(Admit(t, now, limit, windowSecs).grants, Fresh(later, windowSecs))
    {
      RememberAt(t, now, later, limit, windowSecs);
    }
  }

  lemma {:induction false} NoMoreThanCurrent(times: seq<int>, now: int, from: int, windowSecs: int)
    requires AllUpTo(times, now) && from <= now < from + windowSecs
    ensures InWindow(times, from, windowSecs) <= InWindow(times, now - windowSecs + 1, windowSecs)
  {
    if times == [] {
    } else {
      NoMoreThanCurrent(times[..|times| - 1], now, from, windowSecs);
    }
  }

  /** What is fresh at `now` is what lies in the window that ends at `now`. */
  lemma FreshIsCurrentWindow(times: seq<int>, now: int, windowSecs: int)
    requires AllUpTo(times, now)
    ensures |Filter(times, Fresh(now, windowSecs))| == InWindow(times, now - windowSecs + 1, windowSecs)
  {
    FilterSame(times, Fresh(now, windowSecs), Within(now - windowSecs + 1, now + 1));
  }

  /** A grant goes into windows that held fewer than `limit` before. */
  lemma GrantFits(grants: seq<int>, now: int, limit: nat, windowSecs: int, from: int)
    requires AllUpTo(grants, now) && |Filter(grants, Fresh(now, windowSecs))| < limit
    requires InWindow(grants, from, windowSecs) <= limit
    ensures InWindow(grants + [now], from, windowSecs) <= limit
  {
    FilterSnoc(grants, now, Within(from, from + windowSecs));
    if from <= now < from + windowSecs {
      FreshIsCurrentWindow(grants, now, windowSecs);
      NoMoreThanCurrent(grants, now, from, windowSecs);
    }
  }

  lemma WindowStep(t: Track, last: int, now: int, limit: nat, windowSecs: int)
    requires last <= now && AllUpTo(t.grants, last) && Remembers(t, last, windowSecs)
    requires WindowsWithin(t.grants, limit, windowSecs)
    ensures AllUpTo(Admit(t, now, limit, windowSecs).grants, now)
    ensures WindowsWithin(Admit(t, now, limit, windowSecs).grants, limit, windowSecs)
  {
    if |Filter(t.entry, Fresh(now, windowSecs))| < limit {
      forall from
        ensures InWindow(t.grants + [now], from, windowSecs) <= limit
      {
        GrantFits(t.grants, now, limit, windowSecs, from);
      }
    }
  }

  ghost predicate NonDecreasing(times: seq<int>) {
    forall i, j :: 0 <= i < j < |times| ==> times[i] <= times[j]
  }

  lemma {:induction false} TrackInvariant(times: seq<int>, limit: nat, windowSecs: int, last: int)
    requires NonDecreasing(times) && AllUpTo(times, last)
    ensures var t := TrackOf(times, limit, windowSecs);
      AllUpTo(t.grants, last) && Remembers(t, last, windowSecs) && WindowsWithin(t.grants, limit, windowSecs)
  {
    if times == [] {
    } else {
      var n := |times| - 1;
      var t := TrackOf(times[..n], limit, windowSecs);
      TrackInvariant(times[..n], limit, windowSecs, times[n]);
      WindowStep(t, times[n], times[n], limit, windowSecs);
      RememberStep(t, times[n], times[n], limit, windowSecs);
    }
  }

  lemma FullExactlyWhenDenied(t: Track, now: int, limit: nat, windowSecs: int)
    requires AllUpTo(t.grants, now) && Remembers(t, now, windowSecs) && WindowsWithin(t.grants, limit, windowSecs)
    ensures |Filter(t.entry, Fresh(now, windowSecs))| >= limit
       <==> InWindow(t.grants, now - windowSecs + 1, windowSecs) == limit
  {
    FreshIsCurrentWindow(t.grants, now, windowSecs);
  }

  lemma TrackDenies(times: seq<int>, now: int, limit: nat, windowSecs: int)
    requires NonDecreasing(times) && AllUpTo(times, now)
    ensures |Filter(TrackOf(times, limit, windowSecs).entry, Fresh(now, windowSecs))| >= limit
       <==> InWindow(TrackOf(times, limit, windowSecs).grants, now - windowSecs + 1, windowSecs) == limit
  {
    TrackInvariant(times, limit, windowSecs, now);
    FullExactlyWhenDenied(TrackOf(times, limit, windowSecs), now, limit, windowSecs);
  }

  // Whole runs over all keys, with a clock that never goes back.

  ghost predicate Monotone(calls: seq<Call>) {
    forall i, j :: 0 <= i < j < |calls| ==> calls[i].now <= calls[j].now
  }

  lemma {:induction false} OwnTimes(calls: seq<Call>, key: string, last: int)
    requires Monotone(calls) && forall i :: 0 <= i < |calls| ==> calls[i].now <= last
    ensures NonDecreasing(TimesOf(calls, key)) && AllUpTo(TimesOf(calls, key), last)
  {
    if calls == [] {
    } else {
      var n := |calls| - 1;
      OwnTimes(calls[..n], key, calls[n].now);
    }
  }

  /** No window of `window` seconds, wherever it starts, holds more than `limit` grants. */
  lemma NoWindowExceedsTheLimit(p: Policy, calls: seq<Call>, key: string, from: int)
    requires Monotone(calls)
    ensures InWindow(GrantTimes(p, calls, key), from, p.window(key)) <= p.limit(key)
  {
    KeysAreIndependent(p, calls, key);
    var last := if calls == [] then 0 else calls[|calls| - 1].now;
    OwnTimes(calls, key, last);
    TrackInvariant(TimesOf(calls, key), p.limit(key), p.window(key), last);
  }

  lemma GrantedByTrack(p: Policy, calls: seq<Call>, c: Call)
    ensures Granted(p, calls, c)
       <==> var t := TrackOf(TimesOf(calls, c.key), p.limit(c.key), p.window(c.key));
            |Filter(t.entry, Fresh(c.now, p.window(c.key)))| < p.limit(c.key)
  {
    KeysAreIndependent(p, calls, c.key);
  }

  lemma DeniedByTrack(p: Policy, calls: seq<Call>, c: Call, times: seq<int>)
    requires times == TimesOf(calls, c.key) && NonDecreasing(times) && AllUpTo(times, c.now)
    ensures !Granted(p, calls, c)
       <==> var t := TrackOf(times, p.limit(c.key), p.window(c.key));
            InWindow(t.grants, c.now - p.window(c.key) + 1, p.window(c.key)) == p.limit(c.key)
  {
    GrantedByTrack(p, calls, c);
    TrackDenies(times, c.now, p.limit(c.key), p.window(c.key));
  }

  /** A call is denied exactly when `limit` grants lie in the window that ends now. */
  lemma DeniedExactlyWhenFull(p: Policy, calls: seq<Call>, c: Call)
    requires Monotone(calls) && forall i :: 0 <= i < |calls| ==> calls[i].now <= c.now
    ensures !Granted(p, calls, c)
       <==> InWindow(GrantTimes(p, calls, c.key), c.now - p.window(c.key) + 1, p.window(c.key)) == p.limit(c.key)
  {
    OwnTimes(calls, c.key, c.now);
    var times := TimesOf(calls, c.key);
    DeniedByTrack(p, calls, c, times);
    assert GrantTimes(p, calls, c.key) == TrackOf(times, p.limit(c.key), p.window(c.key)).grants by {
      KeysAreIndependent(p, calls, c.key);
    }
  }
}
