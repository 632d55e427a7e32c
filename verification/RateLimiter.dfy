/** The in-memory rate limiter. Times are nanoseconds of one clock; calls are serialized by the limiter's mutex. */
module RateLimiter {
  import opened Common

  type Time = int

  datatype Client = Client(requests: nat, lastSeen: Time)

  /** The idle time after which the cleanup pass drops an entry: ten minutes. */
  const IDLE: int := 10 * 60 * 1_000_000_000

  /** What happens to the map: a request reads the clock twice, a cleanup pass drops some idle keys. */
  datatype Event =
    | Arrive(key: string, check: Time, stamp: Time)
    | Sweep(dropped: set<string>, now: Time)

  function Last(events: seq<Event>): Time {
    if events == [] then 0
    else
      match events[|events| - 1]
      case Arrive(_, _, stamp) => stamp
      case Sweep(_, now) => now
  }

  // ---------------------------------------------------------------------------------------------------
  // The map
  // ---------------------------------------------------------------------------------------------------

  function Apply(window: int, clients: map<string, Client>, e: Event): map<string, Client> {
    match e
    case Arrive(key, check, stamp) =>
      var before := if key in clients && check - clients[key].lastSeen <= window then clients[key].requests else 0;
      clients[key := Client(before + 1, stamp)]
    case Sweep(dropped, _) => clients - dropped
  }

  function Run(window: int, events: seq<Event>): map<string, Client> {
    if events == [] then map[] else Apply(window, Run(window, events[..|events| - 1]), events[|events| - 1])
  }

  /** The clock does not go back, and only idle keys are dropped. */
  predicate Can(clients: map<string, Client>, before: seq<Event>, e: Event) {
    match e
    case Arrive(_, check, stamp) => (before == [] || Last(before) <= check) && check <= stamp
    case Sweep(dropped, now) =>
      && (before == [] || Last(before) <= now)
      && forall k :: k in dropped ==> k in clients && now - clients[k].lastSeen > IDLE
  }

  predicate Possible(window: int, events: seq<Event>) {
    events == [] ||
    var before := events[..|events| - 1];
    Possible(window, before) && Can(Run(window, before), before, events[|events| - 1])
  }

  // ---------------------------------------------------------------------------------------------------
  // What the counter means
  // ---------------------------------------------------------------------------------------------------

  datatype Arrival = Arrival(check: Time, stamp: Time)

  /** The requests of one key, cleanup passes left out. */
  function ArrivalsOf(events: seq<Event>, key: string): seq<Arrival> {
    if events == [] then []
    else
      var before, e := ArrivalsOf(events[..|events| - 1], key), events[|events| - 1];
      if e.Arrive? && e.key == key then before + [Arrival(e.check, e.stamp)] else before
  }

  /** No gap between the adjacent arrivals i, ..., |a| - 1 exceeds the window. */
  ghost predicate Unbroken(window: int, a: seq<Arrival>, i: int) {
    forall k :: 0 <= i < k < |a| ==> a[k].check - a[k - 1].stamp <= window
  }

  /** n arrivals at the end of a form a burst, and n + 1 do not. */
  ghost predicate LongestBurst(window: int, a: seq<Arrival>, n: nat) {
    n <= |a| && (a != [] ==> n > 0) && Unbroken(window, a, |a| - n) && (n < |a| ==> !Unbroken(window, a, |a| - n - 1))
  }

  lemma LongestBurstIsUnique(window: int, a: seq<Arrival>, n: nat, m: nat)
    requires LongestBurst(window, a, n) && LongestBurst(window, a, m)
    ensures n == m
  {
    if n < m { assert Unbroken(window, a, |a| - n - 1); }
    if m < n { assert Unbroken(window, a, |a| - m - 1); }
  }

  lemma BurstGrows(window: int, a: seq<Arrival>, n: nat, x: Arrival)
    requires LongestBurst(window, a, n)
    requires a == [] || x.check - a[|a| - 1].stamp <= window
    ensures LongestBurst(window, a + [x], n + 1)
  {
    var b := a + [x];
    forall k | 0 <= |a| - n < k < |b| ensures b[k].check - b[k - 1].stamp <= window {
      if k < |a| { assert b[k] == a[k] && b[k - 1] == a[k - 1]; }
    }
    assert Unbroken(window, b, |b| - (n + 1));
    if n < |a| && Unbroken(window, b, |a| - n - 1) {
      forall k | 0 <= |a| - n - 1 < k < |a| ensures a[k].check - a[k - 1].stamp <= window {
        assert b[k] == a[k] && b[k - 1] == a[k - 1];
      }
      assert Unbroken(window, a, |a| - n - 1);
    }
  }

  lemma BurstBreaks(window: int, a: seq<Arrival>, x: Arrival)
    requires a != [] && x.check - a[|a| - 1].stamp > window
    ensures LongestBurst(window, a + [x], 1)
  {
    var b := a + [x];
    assert b[|a|].check - b[|a| - 1].stamp > window;
  }

  /** The entry of key, or its absence, given its arrivals. */
  ghost predicate Tells(window: int, events: seq<Event>, key: string) {
    var a, clients := ArrivalsOf(events, key), Run(window, events);
    if key in clients then
      a != [] && LongestBurst(window, a, clients[key].requests) && clients[key].lastSeen == a[|a| - 1].stamp
    else a == [] || Last(events) - a[|a| - 1].stamp > IDLE
  }

  /**
   Cleanup passes at any moment do not show: a counter is the length of the longest burst at the end of its key's
   arrivals, and a missing entry means that a longer gap than the window has begun.
   */
  lemma {:induction false} CountersAreBursts(window: int, events: seq<Event>, key: string)
    requires window <= IDLE && Possible(window, events)
    ensures Tells(window, events, key)
  {
    if events != [] {
      var before, e := events[..|events| - 1], events[|events| - 1];
      CountersAreBursts(window, before, key);
      var a := ArrivalsOf(before, key);
      if e.Arrive? && e.key == key {
        var x := Arrival(e.check, e.stamp);
        if a == [] || x.check - a[|a| - 1].stamp <= window {
          if a == [] { assert LongestBurst(window, a, 0); }
          BurstGrows(window, a, if a == [] then 0 else Run(window, before)[key].requests, x);
        } else {
          BurstBreaks(window, a, x);
        }
      }
    }
  }

  lemma Appended(window: int, before: seq<Event>, e: Event, key: string)
    ensures Run(window, before + [e]) == Apply(window, Run(window, before), e)
    ensures Possible(window, before + [e]) <==> Possible(window, before) && Can(Run(window, before), before, e)
    ensures ArrivalsOf(before + [e], key) ==
            ArrivalsOf(before, key) + if e.Arrive? && e.key == key then [Arrival(e.check, e.stamp)] else []
  {
    assert (before + [e])[..|before|] == before;
  }

  /** A longer window shows: the second of two requests within one window is counted as the first. */
  lemma LongWindowsForget(window: int) returns (events: seq<Event>)
    requires window > IDLE
    ensures Possible(window, events) && !Tells(window, events, "a")
  {
    var first, sweep, second := Arrive("a", 0, 0), Sweep({"a"}, IDLE + 1), Arrive("a", IDLE + 1, IDLE + 1);
    events := [] + [first] + [sweep] + [second];
    Appended(window, [], first, "a");
    Appended(window, [] + [first], sweep, "a");
    Appended(window, [] + [first] + [sweep], second, "a");
    var a := ArrivalsOf(events, "a");
    assert a == [Arrival(0, 0), Arrival(IDLE + 1, IDLE + 1)];
    assert Unbroken(window, a, 0);
    assert !LongestBurst(window, a, 1);
  }

  /** Counters are bursts, whatever the cleanup passes do, exactly when the window is at most ten minutes. */
  lemma CleanupIsInvisibleExactly(window: int)
    ensures window <= 600_000_000_000 <==> forall events, key :: Possible(window, events) ==> Tells(window, events, key)
  {
    if window <= IDLE {
      forall events, key | Possible(window, events) ensures Tells(window, events, key) {
        CountersAreBursts(window, events, key);
      }
    } else {
      var events := LongWindowsForget(window);
    }
  }

  lemma SweepIsPossible(window: int, events: seq<Event>, clients: map<string, Client>, now: Time)
    requires Possible(window, events) && clients.Keys <= Run(window, events).Keys
    requires forall k :: k in clients ==> clients[k] == Run(window, events)[k]
    requires forall k :: k in Run(window, events) && k !in clients ==> now - Run(window, events)[k].lastSeen > IDLE
    requires events != [] ==> Last(events) <= now
    ensures var es := events + [Sweep(Run(window, events).Keys - clients.Keys, now)];
            Possible(window, es) && Run(window, es) == clients
  {
    var e := Sweep(Run(window, events).Keys - clients.Keys, now);
    assert (events + [e])[..|events|] == events;
    assert clients == Apply(window, Run(window, events), e);
  }

  // ---------------------------------------------------------------------------------------------------
  // The limit
  // ---------------------------------------------------------------------------------------------------

  /** The request that arrives last in events is served. */
  predicate Admits(window: int, limit: int, events: seq<Event>)
    requires events != [] && events[|events| - 1].Arrive?
  {
    var e := events[|events| - 1];
    Apply(window, Run(window, events[..|events| - 1]), e)[e.key].requests <= limit
  }

  /** At the moment k a request of key arrives and is served. */
  predicate ServedAt(window: int, limit: int, events: seq<Event>, key: string, k: nat)
    requires k < |events|
  {
    events[k].Arrive? && events[k].key == key && Admits(window, limit, events[..k + 1])
  }

  /** Those moments among i, ..., j - 1. */
  function Served(window: int, limit: int, events: seq<Event>, key: string, i: nat, j: nat): set<nat>
    requires i <= j <= |events|
  {
    set k: nat | i <= k < j && ServedAt(window, limit, events, key, k)
  }

  lemma {:induction false} PossiblePrefix(window: int, events: seq<Event>, n: nat)
    requires Possible(window, events) && n <= |events|
    ensures Possible(window, events[..n])
    decreases |events|
  {
    if n < |events| {
      PossiblePrefix(window, events[..|events| - 1], n);
      assert events[..|events| - 1][..n] == events[..n];
    } else {
      assert events[..n] == events;
    }
  }

  function From(e: Event): Time {
    if e.Arrive? then e.check else e.now
  }

  function To(e: Event): Time {
    if e.Arrive? then e.stamp else e.now
  }

  /** The clock along the events. */
  lemma {:induction false} Ordered(window: int, events: seq<Event>, i: nat, j: nat)
    requires Possible(window, events) && i < j < |events|
    ensures From(events[i]) <= To(events[i]) <= From(events[j])
    decreases j
  {
    PossiblePrefix(window, events, j + 1);
    PossiblePrefix(window, events, j);
    assert events[..j + 1][..j] == events[..j] && events[..j][..j - 1] == events[..j - 1];
    if i < j - 1 { Ordered(window, events, i, j - 1); }
  }

  lemma ServedGrows(window: int, limit: int, events: seq<Event>, key: string, i: nat, n: nat)
    requires i <= n < |events|
    ensures |Served(window, limit, events, key, i, n + 1)| ==
            |Served(window, limit, events, key, i, n)| + if ServedAt(window, limit, events, key, n) then 1 else 0
  {
    hide ServedAt;
    var s, t := Served(window, limit, events, key, i, n), Served(window, limit, events, key, i, n + 1);
    if ServedAt(window, limit, events, key, n) { assert t == s + {n}; } else { assert t == s; }
  }

  lemma ServedNone(window: int, limit: int, events: seq<Event>, key: string, i: nat)
    requires i <= |events|
    ensures Served(window, limit, events, key, i, i) == {}
  {
    hide ServedAt;
  }

  lemma StepOf(window: int, events: seq<Event>, n: nat)
    requires Possible(window, events) && 0 < n <= |events|
    ensures var clients := Run(window, events[..n - 1]);
            Run(window, events[..n]) == Apply(window, clients, events[n - 1]) && Can(clients, events[..n - 1], events[n - 1])
  {
    assert events[..n][..n - 1] == events[..n - 1];
    PossiblePrefix(window, events, n);
  }

  /** Within one window of the request i, the entry of its key is kept and counts every request of the key. */
  lemma {:induction false} CountsUp(window: int, limit: int, events: seq<Event>, key: string, i: nat, n: nat, j: nat)
    requires window <= IDLE && Possible(window, events) && i < n <= j <= |events|
    requires events[i].Arrive? && events[i].key == key && From(events[j - 1]) - events[i].stamp <= window
    ensures var clients, served := Run(window, events[..n]), |Served(window, limit, events, key, i, n)|;
            && key in clients && clients[key].lastSeen >= events[i].stamp
            && served <= clients[key].requests && (served > 0 ==> served <= limit)
    decreases n
  {
    hide Served, Possible, Run;
    StepOf(window, events, n);
    assert events[..n][..n - 1] == events[..n - 1];
    ServedGrows(window, limit, events, key, i, n - 1);
    if n - 1 == i {
      ServedNone(window, limit, events, key, i);
    } else {
      CountsUp(window, limit, events, key, i, n - 1, j);
      Ordered(window, events, i, n - 1);
      if n < j { Ordered(window, events, n - 1, j - 1); }
    }
  }

  /** Any stretch of time no longer than the window serves at most maxRequests requests of a key. */
  lemma AtMostTheLimit(window: int, limit: int, events: seq<Event>, key: string, i: nat, j: nat)
    requires window <= IDLE && Possible(window, events) && i < j <= |events|
    requires events[i].Arrive? && events[i].key == key && From(events[j - 1]) - events[i].stamp <= window
    ensures |Served(window, limit, events, key, i, j)| <= if limit < 0 then 0 else limit
  {
    CountsUp(window, limit, events, key, i, j, j);
  }

  /** A request is served exactly when the burst that it ends is no longer than the limit. */
  lemma ServedExactly(window: int, limit: int, events: seq<Event>, n: nat)
    requires window <= IDLE && Possible(window, events) && events != [] && events[|events| - 1].Arrive?
    requires LongestBurst(window, ArrivalsOf(events, events[|events| - 1].key), n)
    ensures Admits(window, limit, events) <==> n <= limit
  {
    var key := events[|events| - 1].key;
    CountersAreBursts(window, events, key);
    LongestBurstIsUnique(window, ArrivalsOf(events, key), n, Run(window, events)[key].requests);
  }

  class Limiter {
    const maxRequests: int
    const window: int
    var clients: map<string, Client>
    ghost var events: seq<Event>

    ghost predicate Valid()
      reads this
    {
      Possible(window, events) && clients == Run(window, events)
    }

    constructor (maxRequests: int, window: int)
      ensures Valid() && this.maxRequests == maxRequests && this.window == window && events == []
    {
      this.maxRequests, this.window, clients, events := maxRequests, window, map[], [];
    }

    /** One request: check is the clock reading of the window test, stamp the one that is stored. */
    method Limit(key: string, check: Time, stamp: Time) returns (served: bool)
      requires Valid() && (events == [] || Last(events) <= check) && check <= stamp
      modifies this
      ensures Valid() && events == old(events) + [Arrive(key, check, stamp)]
      ensures served == Admits(window, maxRequests, events)
    {
      ghost var e := Arrive(key, check, stamp);
      assert (events + [e])[..|events|] == events;
      if key !in clients { clients := clients[key := Client(0, check)]; }
      if check - clients[key].lastSeen > window { clients := clients[key := clients[key].(requests := 0)]; }
      clients := clients[key := Client(clients[key].requests + 1, stamp)];
      var requests := clients[key].requests;
      assert clients == Apply(window, old(clients), e);
      events := events + [e];
      served := requests <= maxRequests;
    }

    /** One cleanup pass; clock has a reading for every entry, in the order in which the map yields them. */
    method Cleanup(clock: seq<Time>)
      requires Valid() && |clock| == |clients|
      requires forall i, j :: 0 <= i < j < |clock| ==> clock[i] <= clock[j]
      requires forall i :: 0 <= i < |clock| && events != [] ==> Last(events) <= clock[i]
      modifies this
      ensures Valid() && clients.Keys <= old(clients).Keys
      ensures forall k :: k in clients ==>
                clients[k] == old(clients)[k] && clock[0] - clients[k].lastSeen <= IDLE
      ensures forall k :: k in old(clients) && k !in clients ==> clock[|clock| - 1] - old(clients)[k].lastSeen > IDLE
      ensures if clock == [] then events == old(events)
              else events == old(events) + [Sweep(old(clients).Keys - clients.Keys, clock[|clock| - 1])]
    {
      hide Possible, Run;
      var keys, i := clients.Keys, 0;
      while keys != {}
        invariant |keys| + i == |clock| && keys <= clients.Keys <= old(clients).Keys && events == old(events)
        invariant forall k :: k in clients ==> clients[k] == old(clients)[k]
        invariant forall k :: k in clients && k !in keys ==> clock[0] - clients[k].lastSeen <= IDLE
        invariant forall k :: k in old(clients) && k !in clients ==> clock[|clock| - 1] - old(clients)[k].lastSeen > IDLE
      {
        var k :| k in keys;
        keys := keys - {k};
        if clock[i] - clients[k].lastSeen > IDLE { clients := clients - {k}; }
        i := i + 1;
      }
      if clock != [] {
        SweepIsPossible(window, events, clients, clock[|clock| - 1]);
        events := events + [Sweep(old(clients).Keys - clients.Keys, clock[|clock| - 1])];
      }
    }
  }
}
