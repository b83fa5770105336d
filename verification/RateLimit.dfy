/**
 The per-client request limit: a fixed one-minute window counted in a shared store whose
 keys expire.
 */
module RateLimit {
  import opened Basics

  const WINDOW := 60.0
  const LIFETIME := 120.0

  datatype Key = Key(client: string, window: int)

  /** A counter and the time at which the store forgets it. */
  datatype Counter = Counter(count: nat, expires: real)

  /** One answered request: the clock reading that named its window, and when the store ran it. */
  datatype Event = Event(client: string, stamp: real, ran: real, admitted: bool)

  /** `int(time // 60)` */
  function WindowOf(stamp: real): int {
    (stamp / WINDOW).Floor
  }

  predicate InWindow(e: Event, client: string, window: int) {
    e.client == client && WindowOf(e.stamp) == window
  }

  /** How many requests of a client the window has seen. */
  function Seen(log: seq<Event>, client: string, window: int): nat {
    if log == [] then 0 else
    var one := if InWindow(log[|log| - 1], client, window) then 1 else 0;
    Seen(log[..|log| - 1], client, window) + one
  }

  /** How many of them were admitted. */
  function Admitted(log: seq<Event>, client: string, window: int): nat {
    if log == [] then 0 else
    var e := log[|log| - 1];
    var one := if InWindow(e, client, window) && e.admitted then 1 else 0;
    Admitted(log[..|log| - 1], client, window) + one
  }

  /** How many requests of a client stamped in the half-open interval were admitted. */
  function AdmittedBetween(log: seq<Event>, client: string, start: real, end: real): nat {
    if log == [] then 0 else
    var e := log[|log| - 1];
    var one := if e.client == client && start <= e.stamp < end && e.admitted then 1 else 0;
    AdmittedBetween(log[..|log| - 1], client, start, end) + one
  }

  /** In each window exactly the first `limit` requests of a client are admitted. */
  ghost predicate FirstOnes(log: seq<Event>, limit: int) {
    forall i :: 0 <= i < |log| ==>
      (log[i].admitted <==> Seen(log[..i], log[i].client, WindowOf(log[i].stamp)) < limit)
  }

  lemma {:induction false} AdmittedCount(log: seq<Event>, limit: int, client: string, window: int)
    requires FirstOnes(log, limit)
    ensures Admitted(log, client, window) == Min(Max(0, limit), Seen(log, client, window))
    decreases |log|
  {
    if log != [] {
      var init := log[..|log| - 1];
      assert forall i :: 0 <= i < |init| ==> init[..i] == log[..i];
      AdmittedCount(init, limit, client, window);
      assert log[..|log| - 1] == init;
    }
  }

  /** An interval no longer than a window meets at most two windows. */
  lemma {:induction false} TwoWindows(log: seq<Event>, client: string, start: real, end: real)
    requires end <= start + WINDOW
    ensures AdmittedBetween(log, client, start, end) <=
      Admitted(log, client, WindowOf(start)) + Admitted(log, client, WindowOf(start) + 1)
    decreases |log|
  {
    if log != [] {
      TwoWindows(log[..|log| - 1], client, start, end);
      var e := log[|log| - 1];
      if start <= e.stamp < end {
        var w := WindowOf(e.stamp);
        assert w == WindowOf(start) || w == WindowOf(start) + 1;
      }
    }
  }

  /** At most `limit` per aligned minute, so at most twice that in any minute. */
  lemma RateBound(log: seq<Event>, limit: nat, client: string, start: real, end: real)
    requires FirstOnes(log, limit) && end <= start + WINDOW
    ensures forall w :: Admitted(log, client, w) <= limit
    ensures AdmittedBetween(log, client, start, end) <= 2 * limit
  {
    forall w
      ensures Admitted(log, client, w) <= limit
    {
      AdmittedCount(log, limit, client, w);
    }
    TwoWindows(log, client, start, end);
  }

  // ------------------------------------------------------------- what is counted

  /** Windows are the aligned minutes. */
  lemma WindowMeaning(stamp: real, window: int)
    ensures WindowOf(stamp) == window <==> 60.0 * (window as real) <= stamp < 60.0 * (window as real) + 60.0
  {
  }

  /** The places in the log of what satisfies a condition on client, time and verdict. */
  function PlacesIn(log: seq<Event>, client: string, window: int): set<int> {
    set i | 0 <= i < |log| && log[i].client == client && WindowOf(log[i].stamp) == window
  }

  function AdmittedIn(log: seq<Event>, client: string, window: int): set<int> {
    set i | 0 <= i < |log| && log[i].client == client && WindowOf(log[i].stamp) == window && log[i].admitted
  }

  function AdmittedFrom(log: seq<Event>, client: string, start: real, end: real): set<int> {
    set i | 0 <= i < |log| && log[i].client == client && start <= log[i].stamp < end && log[i].admitted
  }

  lemma PlacesNext(log: seq<Event>, client: string, window: int, start: real, end: real)
    requires log != []
    ensures var n := |log| - 1;
      var init, e := log[..n], log[n];
      && PlacesIn(log, client, window) == PlacesIn(init, client, window) + (if InWindow(e, client, window) then {n} else {})
      && AdmittedIn(log, client, window) ==
           AdmittedIn(init, client, window) + (if InWindow(e, client, window) && e.admitted then {n} else {})
      && AdmittedFrom(log, client, start, end) ==
           AdmittedFrom(init, client, start, end) + (if e.client == client && start <= e.stamp < end && e.admitted then {n} else {})
  {
  }

  /** What the limiter counts: requests of a client in a window, those admitted, and those admitted in an interval. */
  lemma {:induction false} CountsMeaning(log: seq<Event>, client: string, window: int, start: real, end: real)
    ensures Seen(log, client, window) == |PlacesIn(log, client, window)|
    ensures Admitted(log, client, window) == |AdmittedIn(log, client, window)|
    ensures AdmittedBetween(log, client, start, end) == |AdmittedFrom(log, client, start, end)|
    decreases |log|
  {
    if log != [] {
      CountsMeaning(log[..|log| - 1], client, window, start, end);
      PlacesNext(log, client, window, start, end);
    }
  }

  /** The store shared by all replicas. */
  class Store {
    var counters: map<Key, Counter>

    constructor ()
      ensures counters == map[]
    {
      counters := map[];
    }

    /** INCR and EXPIRE as one transaction at time `now`: a forgotten counter starts again. */
    method Increment(key: Key, now: real) returns (count: nat)
      modifies this
      ensures count == 1 + if key in old(counters) && now < old(counters)[key].expires then old(counters)[key].count else 0
      ensures counters == old(counters)[key := Counter(count, now + 120.0)]
    {
      count := 1;
      if key in counters && now < counters[key].expires {
        count := counters[key].count + 1;
      }
      counters := counters[key := Counter(count, now + LIFETIME)];
    }
  }

  /** Requests run in time, after they read the clock. */
  ghost predicate Timed(log: seq<Event>, now: real) {
    forall e :: e in log ==> 0.0 <= e.stamp <= e.ran <= now
  }

  /** A counter lives for its full lifetime after the last request it counted. */
  ghost predicate Lives(log: seq<Event>, counters: map<Key, Counter>) {
    forall e :: e in log ==>
      KeyOf(e) in counters && e.ran + LIFETIME <= counters[KeyOf(e)].expires
  }

  ghost predicate Counts(log: seq<Event>, counters: map<Key, Counter>) {
    forall key :: key in counters ==> counters[key].count == Seen(log, key.client, key.window)
  }

  function KeyOf(e: Event): Key {
    Key(e.client, WindowOf(e.stamp))
  }

  lemma StoreSnoc(log: seq<Event>, counters: map<Key, Counter>, e: Event, c: Counter)
    requires Timed(log, e.ran) && Lives(log, counters) && Counts(log, counters)
    requires c.count == Seen(log, e.client, WindowOf(e.stamp)) + 1 && c.expires == e.ran + LIFETIME
    ensures Lives(log + [e], counters[KeyOf(e) := c]) && Counts(log + [e], counters[KeyOf(e) := c])
  {
    SeenSnoc(log, e);
  }

  class Limiter {
    const enabled: bool
    const limit: int
    const store: Store
    /** Every answered request, in the order the store ran them. */
    ghost var log: seq<Event>
    ghost var now: real

    ghost predicate Valid()
      reads this, store
    {
      FirstOnes(log, limit) && Timed(log, now) && Lives(log, store.counters) && Counts(log, store.counters)
    }

    constructor (enabled: bool, limit: int)
      ensures Valid() && fresh(store) && this.limit == limit && this.enabled == enabled && log == []
    {
      this.enabled, this.limit := enabled, limit;
      store := new Store();
      log, now := [], 0.0;
    }

    /**
     One request on some replica. `stamp` is its reading of the clock, `ran` the time the
     store runs the transaction, less than a minute later and after every earlier one. When
     the store does not answer, or the limit is switched off, the request passes.
     */
    method RateLimited(client: string, stamp: real, ran: real, answers: bool) returns (limited: bool)
      requires Valid() && 0.0 <= stamp <= ran < stamp + WINDOW && now <= ran
      modifies this`log, this`now, store
      ensures Valid() && now == ran
      ensures !enabled || !answers ==> !limited && log == old(log)
      ensures enabled && answers ==> log == old(log) + [Event(client, stamp, ran, !limited)]
      ensures enabled && answers ==> (limited <==> Seen(old(log), client, WindowOf(stamp)) >= limit)
    {
      now := ran;
      if !enabled || !answers { return false; }
      var key := Key(client, WindowOf(stamp));
      ghost var seen := Seen(log, client, WindowOf(stamp));
      NextCount(log, store.counters, client, stamp, ran);
      var count := store.Increment(key, ran);
      limited := count > limit;
      ghost var e := Event(client, stamp, ran, !limited);
      StoreSnoc(log, old(store.counters), e, Counter(count, ran + LIFETIME));
      FirstOnesSnoc(log, e, limit);
      log := log + [e];
    }
  }

  /** A window's counter has not expired while the window can still be counted. */
  lemma CounterLives(log: seq<Event>, counters: map<Key, Counter>, client: string, stamp: real, ran: real)
    requires Lives(log, counters) && ran < stamp + WINDOW && forall e :: e in log ==> e.stamp <= e.ran
    ensures var key := Key(client, WindowOf(stamp));
      Seen(log, client, key.window) > 0 ==> key in counters && ran < counters[key].expires
  {
    if Seen(log, client, WindowOf(stamp)) > 0 {
      var i := SeenSome(log, client, WindowOf(stamp));
      var e := log[i];
      assert e in log && KeyOf(e) == Key(client, WindowOf(stamp));
      SameWindow(e.stamp, stamp);
    }
  }

  /** So counting goes on from what the window has seen. */
  lemma NextCount(log: seq<Event>, counters: map<Key, Counter>, client: string, stamp: real, ran: real)
    requires Lives(log, counters) && Counts(log, counters) && ran < stamp + WINDOW
    requires forall e :: e in log ==> e.stamp <= e.ran
    ensures var key := Key(client, WindowOf(stamp));
      (if key in counters && ran < counters[key].expires then counters[key].count else 0) == Seen(log, client, key.window)
  {
    CounterLives(log, counters, client, stamp, ran);
  }

  lemma SameWindow(a: real, b: real)
    requires WindowOf(a) == WindowOf(b)
    ensures b < a + WINDOW
  {
  }

  lemma {:induction false} SeenSome(log: seq<Event>, client: string, window: int) returns (i: nat)
    requires Seen(log, client, window) > 0
    ensures i < |log| && InWindow(log[i], client, window)
    decreases |log|
  {
    if InWindow(log[|log| - 1], client, window) {
      i := |log| - 1;
    } else {
      i := SeenSome(log[..|log| - 1], client, window);
    }
  }

  lemma SeenSnoc(log: seq<Event>, e: Event)
    ensures forall client, w :: Seen(log + [e], client, w) == Seen(log, client, w) + if InWindow(e, client, w) then 1 else 0
  {
    assert (log + [e])[..|log|] == log;
  }

  lemma FirstOnesSnoc(log: seq<Event>, e: Event, limit: int)
    requires FirstOnes(log, limit)
    requires e.admitted <==> Seen(log, e.client, WindowOf(e.stamp)) < limit
    ensures FirstOnes(log + [e], limit)
  {
    var more := log + [e];
    assert forall i :: 0 <= i <= |log| ==> more[..i] == log[..i];
  }

  /** A request as it reaches some replica. */
  datatype Arrival = Arrival(client: string, stamp: real, ran: real, answers: bool)

  /** The answered requests of a run with their verdicts, when the limit is on. */
  function Answered(enabled: bool, arrivals: seq<Arrival>, limited: seq<bool>): seq<Event>
    requires |limited| == |arrivals|
  {
    if arrivals == [] then []
    else
      var n := |arrivals| - 1;
      var a := arrivals[n];
      Answered(enabled, arrivals[..n], limited[..n]) +
      if enabled && a.answers then [Event(a.client, a.stamp, a.ran, !limited[n])] else []
  }

  lemma AnsweredNext(enabled: bool, arrivals: seq<Arrival>, limited: seq<bool>, l: bool, before: seq<Event>, log: seq<Event>)
    requires |limited| < |arrivals| && log == before + Answered(enabled, arrivals[..|limited|], limited)
    ensures var a := arrivals[|limited|];
      (if enabled && a.answers then log + [Event(a.client, a.stamp, a.ran, !l)] else log) ==
      before + Answered(enabled, arrivals[..|limited| + 1], limited + [l])
  {
    var k := |limited|;
    assert arrivals[..k + 1][..k] == arrivals[..k] && (limited + [l])[..k] == limited;
    var a := arrivals[k];
    var more := if enabled && a.answers then [Event(a.client, a.stamp, a.ran, !l)] else [];
    SeqAssoc(before, Answered(enabled, arrivals[..k], limited), more);
  }

  lemma Bounded(log: seq<Event>, limit: nat)
    requires FirstOnes(log, limit)
    ensures forall client, w :: Admitted(log, client, w) <= limit
    ensures forall client, start: real, end: real :: end <= start + WINDOW ==>
      AdmittedBetween(log, client, start, end) <= 2 * limit
  {
    forall client, w
      ensures Admitted(log, client, w) <= limit
    {
      RateBound(log, limit, client, 0.0, 0.0);
    }
    forall client, start: real, end: real | end <= start + WINDOW
      ensures AdmittedBetween(log, client, start, end) <= 2 * limit
    {
      RateBound(log, limit, client, start, end);
    }
  }

  /** The requests of one store run in time, each less than a minute after it read the clock. */
  ghost predicate InTime(arrivals: seq<Arrival>, now: real) {
    && (forall i :: 0 <= i < |arrivals| ==>
          0.0 <= arrivals[i].stamp <= arrivals[i].ran < arrivals[i].stamp + WINDOW && now <= arrivals[i].ran)
    && (forall i, j :: 0 <= i < j < |arrivals| ==> arrivals[i].ran <= arrivals[j].ran)
  }

  /** Without an answer, or with the limit off, a request is not limited. */
  predicate OthersPass(enabled: bool, arrivals: seq<Arrival>, limited: seq<bool>) {
    && |limited| <= |arrivals|
    && forall k :: 0 <= k < |limited| && !(enabled && arrivals[k].answers) ==> !limited[k]
  }

  lemma OthersPassNext(enabled: bool, arrivals: seq<Arrival>, limited: seq<bool>, l: bool)
    requires OthersPass(enabled, arrivals, limited) && |limited| < |arrivals|
    requires !(enabled && arrivals[|limited|].answers) ==> !l
    ensures OthersPass(enabled, arrivals, limited + [l])
  {
  }

  /**
   Any run over all replicas logs exactly its answered requests with the verdicts given, lets
   the others pass, and keeps the bound for every client and every minute.
   */
  method RateRun(limiter: Limiter, arrivals: seq<Arrival>) returns (limited: seq<bool>)
    requires limiter.Valid() && limiter.limit >= 0 && InTime(arrivals, limiter.now)
    modifies limiter`log, limiter`now, limiter.store
    ensures limiter.Valid() && |limited| == |arrivals|
    ensures limiter.log == old(limiter.log) + Answered(limiter.enabled, arrivals, limited)
    ensures OthersPass(limiter.enabled, arrivals, limited)
    ensures forall client, w :: Admitted(limiter.log, client, w) <= limiter.limit
    ensures forall client, start: real, end: real :: end <= start + WINDOW ==>
      AdmittedBetween(limiter.log, client, start, end) <= 2 * limiter.limit
  {
    limited := [];
    ghost var before := limiter.log;
    assert before + [] == before;
    for k := 0 to |arrivals|
      invariant limiter.Valid() && |limited| == k
      invariant k < |arrivals| ==> limiter.now <= arrivals[k].ran
      invariant limiter.log == before + Answered(limiter.enabled, arrivals[..k], limited)
      invariant OthersPass(limiter.enabled, arrivals, limited)
    {
      var a := arrivals[k];
      ghost var log := limiter.log;
      var l := limiter.RateLimited(a.client, a.stamp, a.ran, a.answers);
      AnsweredNext(limiter.enabled, arrivals, limited, l, before, log);
      OthersPassNext(limiter.enabled, arrivals, limited, l);
      limited := limited + [l];
    }
    assert arrivals[..|arrivals|] == arrivals;
    Bounded(limiter.log, limiter.limit);
  }
}
