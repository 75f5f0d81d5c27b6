/**
 The sliding-window rate limiter: a list of recent hits per key, pruned at every check, against the
 reference that never forgets a hit.
 */
module RateLimit {

  datatype Call = Call(key: string, max: nat, window: nat, now: int)

  /** The times still inside the window that ends at `now`. */
  function Kept(ts: seq<int>, now: int, window: nat): (r: seq<int>)
    ensures |r| <= |ts|
  {
    if ts == [] then []
    else
      var last := ts[|ts| - 1];
      Kept(ts[..|ts| - 1], now, window) + if now - last < window then [last] else []
  }

  function Get(hits: map<string, seq<int>>, key: string): seq<int> {
    if key in hits then hits[key] else []
  }

  predicate Allows(hits: map<string, seq<int>>, c: Call) {
    |Kept(Get(hits, c.key), c.now, c.window)| < c.max
  }

  function After(hits: map<string, seq<int>>, c: Call): map<string, seq<int>> {
    var kept := Kept(Get(hits, c.key), c.now, c.window);
    hits[c.key := if |kept| < c.max then kept + [c.now] else kept]
  }

  class RateLimiter {
    var hits: map<string, seq<int>>

    constructor ()
      ensures hits == map[]
    {
      hits := map[];
    }

    method Check(key: string, max: nat, window: nat, now: int) returns (allowed: bool)
      modifies this
      ensures allowed == Allows(old(hits), Call(key, max, window, now))
      ensures hits == After(old(hits), Call(key, max, window, now))
    {
      if key !in hits {
        hits := hits[key := []];
      }
      hits := hits[key := Kept(hits[key], now, window)];
      if |hits[key]| >= max {
        allowed := false;
      } else {
        hits := hits[key := hits[key] + [now]];
        allowed := true;
      }
    }
  }

  /** The limiter after a run of calls. */
  function State(calls: seq<Call>): map<string, seq<int>> {
    if calls == [] then map[] else After(State(calls[..|calls| - 1]), calls[|calls| - 1])
  }

  /** Every hit on `key` the limiter ever accepted. */
  function Own(calls: seq<Call>, key: string): (ts: seq<int>)
    ensures |ts| <= |calls|
  {
    if calls == [] then []
    else
      var front, c := calls[..|calls| - 1], calls[|calls| - 1];
      Own(front, key) + if c.key == key && Allows(State(front), c) then [c.now] else []
  }

  /** The reference, which never forgets: a hit is accepted when fewer than its `max` earlier accepted
      hits lie inside its window. */
  function Log(calls: seq<Call>, key: string): (ts: seq<int>)
    ensures |ts| <= |calls|
  {
    if calls == [] then []
    else
      var c, before := calls[|calls| - 1], Log(calls[..|calls| - 1], key);
      if c.key == key then LogStep(before, c) else before
  }

  function LogStep(log: seq<int>, c: Call): seq<int> {
    if |Kept(log, c.now, c.window)| < c.max then log + [c.now] else log
  }

  lemma OneMore(calls: seq<Call>, c: Call, key: string)
    ensures State(calls + [c]) == After(State(calls), c)
    ensures Log(calls + [c], key) == if c.key == key then LogStep(Log(calls, key), c) else Log(calls, key)
    ensures Own(calls + [c], key) == Own(calls, key) + if c.key == key && Allows(State(calls), c) then [c.now] else []
  {
    assert (calls + [c])[..|calls|] == calls;
  }

  // -- What pruning forgets --------------------------------------------------------------------

  predicate InWindow(t: int, c: Call) {
    c.now - t < c.window
  }

  /** `d` prunes nothing that lies in the window of `c`. */
  predicate Spares(ts: seq<int>, d: Call, c: Call) {
    forall i :: 0 <= i < |ts| && InWindow(ts[i], c) ==> InWindow(ts[i], d)
  }

  lemma KeptAppend(ts: seq<int>, t: int, now: int, window: nat)
    ensures Kept(ts + [t], now, window) == Kept(ts, now, window) + if now - t < window then [t] else []
  {
    assert (ts + [t])[..|ts|] == ts;
  }

  lemma Cancel(a: seq<int>, b: seq<int>, x: seq<int>)
    ensures a + x == b + x <==> a == b
  {
    if a + x == b + x {
      assert (a + x)[..|a + x| - |x|] == a && (b + x)[..|b + x| - |x|] == b;
    }
  }

  lemma {:induction false} KeptShorter(ts: seq<int>, d: Call, c: Call)
    ensures |Kept(Kept(ts, d.now, d.window), c.now, c.window)| <= |Kept(ts, c.now, c.window)|
  {
    if ts != [] {
      KeptShorter(ts[..|ts| - 1], d, c);
      var k := Kept(ts[..|ts| - 1], d.now, d.window);
      KeptAppend(k, ts[|ts| - 1], c.now, c.window);
      assert k + [] == k;
    }
  }

  /** Pruning for `d` first leaves `c` fewer hits, or all of them; all if and only if `d` spares them. */
  lemma {:induction false} KeptTwiceIff(ts: seq<int>, d: Call, c: Call)
    ensures
      var twice, once := Kept(Kept(ts, d.now, d.window), c.now, c.window), Kept(ts, c.now, c.window);
      (twice == once <==> Spares(ts, d, c)) && (|twice| == |once| ==> twice == once)
  {
    if ts != [] {
      var front, last := ts[..|ts| - 1], ts[|ts| - 1];
      var k := Kept(front, d.now, d.window);
      KeptTwiceIff(front, d, c);
      KeptShorter(front, d, c);
      KeptAppend(k, last, c.now, c.window);
      assert k + [] == k;
      Cancel(Kept(k, c.now, c.window), Kept(front, c.now, c.window), [last]);
      SparesMore(ts, d, c);
    }
  }

  lemma SparesMore(ts: seq<int>, d: Call, c: Call)
    requires ts != []
    ensures
      var front, last := ts[..|ts| - 1], ts[|ts| - 1];
      Spares(ts, d, c) <==> Spares(front, d, c) && (InWindow(last, c) ==> InWindow(last, d))
  {
    var front := ts[..|ts| - 1];
    assert forall i :: 0 <= i < |front| ==> front[i] == ts[i];
  }

  lemma {:induction false} KeptIn(ts: seq<int>, c: Call, t: int)
    ensures t in Kept(ts, c.now, c.window) <==> t in ts && InWindow(t, c)
  {
    if ts != [] {
      var front, last := ts[..|ts| - 1], ts[|ts| - 1];
      KeptIn(front, c, t);
      assert ts == front + [last];
    }
  }

  lemma SparesSame(a: seq<int>, b: seq<int>, d: Call, c: Call)
    requires Kept(a, c.now, c.window) == Kept(b, c.now, c.window) && Spares(a, d, c)
    ensures Spares(b, d, c)
  {
    forall i | 0 <= i < |b| && InWindow(b[i], c) ensures InWindow(b[i], d) {
      KeptIn(b, c, b[i]);
      KeptIn(a, c, b[i]);
      assert b[i] in b;
    }
  }

  /** No earlier call on the key pruned an accepted hit that lies in the window of `c`. */
  ghost predicate NothingForgotten(calls: seq<Call>, c: Call) {
    forall j :: 0 <= j < |calls| && calls[j].key == c.key ==> Spares(Own(calls[..j], c.key), calls[j], c)
  }

  lemma ForgottenMore(front: seq<Call>, d: Call, c: Call)
    ensures NothingForgotten(front + [d], c) <==>
      NothingForgotten(front, c) && (d.key == c.key ==> Spares(Own(front, c.key), d, c))
  {
    var calls := front + [d];
    assert calls[|front|] == d && calls[..|front|] == front;
    assert forall j :: 0 <= j < |front| ==> calls[j] == front[j] && calls[..j] == front[..j];
  }

  /** Of the window of `c` the list holds no more than the history does, and `all` says whether it holds
      everything. */
  ghost predicate SeenOk(list: seq<int>, own: seq<int>, c: Call, all: bool) {
    var seen, window := Kept(list, c.now, c.window), Kept(own, c.now, c.window);
    && |seen| <= |window|
    && (|seen| == |window| ==> seen == window)
    && (all <==> seen == window)
  }

  /** One more call `d` on the same key. */
  lemma StepSeen(list: seq<int>, own: seq<int>, x: seq<int>, d: Call, c: Call, all: bool)
    requires (x == [d.now] || x == []) && SeenOk(list, own, c, all)
    ensures SeenOk(Kept(list, d.now, d.window) + x, own + x, c, all && Spares(own, d, c))
  {
    var k := Kept(list, d.now, d.window);
    KeptShorter(list, d, c);
    KeptTwiceIff(list, d, c);
    KeptAppend(k, d.now, c.now, c.window);
    KeptAppend(own, d.now, c.now, c.window);
    assert k + [] == k && own + [] == own;
    Cancel(Kept(k, c.now, c.window), Kept(own, c.now, c.window), [d.now]);
    if all {
      if Spares(list, d, c) {
        SparesSame(list, own, d, c);
      } else if Spares(own, d, c) {
        SparesSame(own, list, d, c);
      }
    }
  }

  lemma ListStep(front: seq<Call>, d: Call, key: string)
    ensures
      var x := if Allows(State(front), d) then [d.now] else [];
      if d.key == key then
        && Get(State(front + [d]), key) == Kept(Get(State(front), key), d.now, d.window) + x
        && Own(front + [d], key) == Own(front, key) + x
      else
        Get(State(front + [d]), key) == Get(State(front), key) && Own(front + [d], key) == Own(front, key)
  {
    OneMore(front, d, key);
  }

  /** Over any run at all, in whatever order the calls read the clock and whatever their windows: a call
      sees at most the accepted hits of its window, and all of them if and only if no earlier call pruned
      one. */
  lemma {:induction false} WindowSeenIff(calls: seq<Call>, c: Call)
    ensures SeenOk(Get(State(calls), c.key), Own(calls, c.key), c, NothingForgotten(calls, c))
  {
    if calls != [] {
      var front, d := calls[..|calls| - 1], calls[|calls| - 1];
      assert calls == front + [d];
      WindowSeenIff(front, c);
      ForgottenMore(front, d, c);
      ListStep(front, d, c.key);
      if d.key == c.key {
        var x := if Allows(State(front), d) then [d.now] else [];
        StepSeen(Get(State(front), c.key), Own(front, c.key), x, d, c, NothingForgotten(front, c));
      }
    }
  }

  // -- The limiter as the reference -----------------------------------------------------------

  /** The calls on the key took the lock in the order in which they read the clock. */
  predicate InOrder(calls: seq<Call>, key: string) {
    forall i, j :: 0 <= i < j < |calls| && calls[i].key == key == calls[j].key ==> calls[i].now <= calls[j].now
  }

  /** The key's window never grows. A fixed window per key is the case in use. */
  predicate Steady(calls: seq<Call>, key: string) {
    forall i, j :: 0 <= i < j < |calls| && calls[i].key == key == calls[j].key ==> calls[j].window <= calls[i].window
  }

  lemma OrderForgetsNothing(calls: seq<Call>, c: Call)
    requires InOrder(calls + [c], c.key) && Steady(calls + [c], c.key)
    ensures NothingForgotten(calls, c)
  {
    var run := calls + [c];
    assert run[|calls|] == c;
    forall j | 0 <= j < |calls| && calls[j].key == c.key ensures Spares(Own(calls[..j], c.key), calls[j], c) {
      assert run[j] == calls[j];
    }
  }

  lemma ShorterRun(front: seq<Call>, c: Call, key: string)
    requires InOrder(front + [c], key) && Steady(front + [c], key)
    ensures InOrder(front, key) && Steady(front, key)
  {
    assert forall i :: 0 <= i < |front| ==> (front + [c])[i] == front[i];
  }

  /** In an ordered run the limiter accepts exactly what the reference accepts. */
  lemma {:induction false} OwnIsLog(calls: seq<Call>, key: string)
    requires InOrder(calls, key) && Steady(calls, key)
    ensures Own(calls, key) == Log(calls, key)
  {
    if calls != [] {
      var front, c := calls[..|calls| - 1], calls[|calls| - 1];
      assert calls == front + [c];
      ShorterRun(front, c, key);
      OwnIsLog(front, key);
      if c.key == key {
        OrderForgetsNothing(front, c);
        WindowSeenIff(front, c);
      }
    }
  }

  /** At every call of an ordered run the pruned list holds exactly the accepted hits inside the window. */
  lemma PrunedListIsWindow(calls: seq<Call>, c: Call)
    requires InOrder(calls + [c], c.key) && Steady(calls + [c], c.key)
    ensures Kept(Get(State(calls), c.key), c.now, c.window) == Kept(Log(calls, c.key), c.now, c.window)
  {
    ShorterRun(calls, c, c.key);
    OwnIsLog(calls, c.key);
    OrderForgetsNothing(calls, c);
    WindowSeenIff(calls, c);
  }

  /** The limiter refuses a call exactly when `max` accepted hits lie inside its window. */
  lemma LimiterRefinesLog(calls: seq<Call>, c: Call)
    requires InOrder(calls + [c], c.key) && Steady(calls + [c], c.key)
    ensures Allows(State(calls), c) <==> |Kept(Log(calls, c.key), c.now, c.window)| < c.max
  {
    PrunedListIsWindow(calls, c);
  }

  /** Its list after the call is those hits and, if it allowed the call, the new one. */
  lemma LimiterKeepsWindow(calls: seq<Call>, c: Call)
    requires InOrder(calls + [c], c.key) && Steady(calls + [c], c.key)
    ensures Get(State(calls + [c]), c.key) ==
      Kept(Log(calls, c.key), c.now, c.window) + if Allows(State(calls), c) then [c.now] else []
  {
    PrunedListIsWindow(calls, c);
    OneMore(calls, c, c.key);
  }

  // -- A call that reads the clock before it gets the lock -------------------------------------

  lemma KeptOne(t: int, now: int, window: nat)
    ensures Kept([t], now, window) == if now - t < window then [t] else []
  {
    KeptAppend([], t, now, window);
    assert [] + [t] == [t];
  }

  lemma FirstHit(c: Call)
    requires c.max > 0
    ensures Log([c], c.key) == [c.now] && Get(State([c]), c.key) == [c.now]
  {
    OneMore([], c, c.key);
    assert [] + [c] == [c] && [] + [c.now] == [c.now];
    assert Kept([], c.now, c.window) == [];
  }

  lemma SecondHit(c: Call, d: Call)
    requires c.key == d.key && c.max > 0 && d.max > 0 && c.now + d.window <= d.now
    ensures Log([c, d], c.key) == [c.now, d.now] && Get(State([c, d]), c.key) == [d.now]
  {
    FirstHit(c);
    assert [c] + [d] == [c, d] && [c.now] + [d.now] == [c.now, d.now] && [] + [d.now] == [d.now];
    OneMore([c], d, c.key);
    KeptOne(c.now, d.now, d.window);
  }

  /** What that costs: with a maximum of two, a hit at `t`, one at least a window later, and then a call
      that had read the clock inside the window of `t` are all allowed, although the third is the third
      accepted hit inside its own window. */
  lemma LateCallAdmitted(key: string, window: nat, t: int, late: int, early: int)
    requires t <= early < t + window <= late
    ensures
      var calls, c := [Call(key, 2, window, t), Call(key, 2, window, late)], Call(key, 2, window, early);
      && InOrder(calls, key) && Allows(State(calls), c)
      && Log(calls, key) == [t, late] && Kept(Log(calls, key), early, window) == [t, late]
  {
    SecondHit(Call(key, 2, window, t), Call(key, 2, window, late));
    KeptOne(late, early, window);
    KeptOne(t, early, window);
    KeptAppend([t], late, early, window);
    assert [t] + [late] == [t, late];
  }

  // -- The promised bound ----------------------------------------------------------------

  predicate Fixed(calls: seq<Call>, key: string, max: nat, window: nat) {
    forall i :: 0 <= i < |calls| && calls[i].key == key ==> calls[i].max == max && calls[i].window == window
  }

  predicate Ordered(ts: seq<int>) {
    forall i, j :: 0 <= i < j < |ts| ==> ts[i] <= ts[j]
  }

  ghost predicate IsHit(calls: seq<Call>, key: string, t: int) {
    exists j :: 0 <= j < |calls| && calls[j].key == key && calls[j].now == t
  }

  lemma HitStays(calls: seq<Call>, key: string, t: int)
    requires calls != [] && IsHit(calls[..|calls| - 1], key, t)
    ensures IsHit(calls, key, t)
  {
    var front := calls[..|calls| - 1];
    var j :| 0 <= j < |front| && front[j].key == key && front[j].now == t;
    assert calls[j] == front[j];
  }

  lemma {:induction false} LogHits(calls: seq<Call>, key: string, i: nat)
    requires i < |Log(calls, key)|
    ensures IsHit(calls, key, Log(calls, key)[i])
  {
    var front := calls[..|calls| - 1];
    if i < |Log(front, key)| {
      LogHits(front, key, i);
      HitStays(calls, key, Log(calls, key)[i]);
    } else {
      assert calls[|calls| - 1].now == Log(calls, key)[i];
    }
  }

  lemma {:induction false} LogOrdered(calls: seq<Call>, key: string)
    requires InOrder(calls, key)
    ensures Ordered(Log(calls, key))
  {
    if calls != [] {
      var front, c := calls[..|calls| - 1], calls[|calls| - 1];
      LogOrdered(front, key);
      var before := Log(front, key);
      forall i | 0 <= i < |before| && c.key == key ensures before[i] <= c.now {
        LogHits(front, key, i);
        var j :| 0 <= j < |front| && front[j].key == key && front[j].now == before[i];
        assert calls[j] == front[j];
      }
    }
  }

  /** If the `m`-th newest time is still inside the window, at least `m` are. */
  lemma {:induction false} NewestKept(ts: seq<int>, now: int, window: nat, m: nat)
    requires Ordered(ts) && m <= |ts| && (m > 0 ==> now - ts[|ts| - m] < window)
    ensures |Kept(ts, now, window)| >= m
    decreases m
  {
    if m > 0 {
      NewestKept(ts[..|ts| - 1], now, window, m - 1);
    }
  }

  /** However calls interleave over keys, `max + 1` accepted hits on one key never fit into less than
      its window. */
  lemma {:induction false} AcceptedHitsSpread(calls: seq<Call>, key: string, max: nat, window: nat, i: nat)
    requires InOrder(calls, key) && Fixed(calls, key, max, window) && i + max < |Log(calls, key)|
    ensures max > 0 && Log(calls, key)[i + max] - Log(calls, key)[i] >= window
  {
    var front, c := calls[..|calls| - 1], calls[|calls| - 1];
    var before := Log(front, key);
    LogOrdered(front, key);
    if i + max < |before| {
      AcceptedHitsSpread(front, key, max, window, i);
    } else if c.now - before[i] < window {
      NewestKept(before, c.now, window, max);
      assert false;
    }
  }

  lemma FixedSteady(calls: seq<Call>, key: string, max: nat, window: nat)
    requires Fixed(calls, key, max, window)
    ensures Steady(calls, key)
  {
  }

  /** The promise, of the limiter's own answers: `max + 1` hits it allows never fit into less than the
      window. */
  lemma AllowedHitsSpread(calls: seq<Call>, key: string, max: nat, window: nat, i: nat)
    requires InOrder(calls, key) && Fixed(calls, key, max, window) && i + max < |Own(calls, key)|
    ensures max > 0 && Own(calls, key)[i + max] - Own(calls, key)[i] >= window
  {
    FixedSteady(calls, key, max, window);
    OwnIsLog(calls, key);
    AcceptedHitsSpread(calls, key, max, window, i);
  }

  // -- Keys are independent ----------------------------------------------------------------

  function Only(calls: seq<Call>, key: string): seq<Call> {
    if calls == [] then []
    else
      var c, rest := calls[|calls| - 1], Only(calls[..|calls| - 1], key);
      if c.key == key then rest + [c] else rest
  }

  lemma OnlyMore(calls: seq<Call>, d: Call, key: string)
    ensures Only(calls + [d], key) == if d.key == key then Only(calls, key) + [d] else Only(calls, key)
  {
    assert (calls + [d])[..|calls|] == calls;
  }

  lemma {:induction false} SameList(calls: seq<Call>, key: string)
    ensures Get(State(calls), key) == Get(State(Only(calls, key)), key)
  {
    if calls != [] {
      var front, d := calls[..|calls| - 1], calls[|calls| - 1];
      assert calls == front + [d];
      SameList(front, key);
      OnlyMore(front, d, key);
      OneMore(front, d, key);
      OneMore(Only(front, key), d, key);
    }
  }

  /** What a key's callers see does not depend on the other keys. */
  lemma KeysIndependent(calls: seq<Call>, c: Call)
    ensures Get(State(calls), c.key) == Get(State(Only(calls, c.key)), c.key)
    ensures Allows(State(calls), c) == Allows(State(Only(calls, c.key)), c)
  {
    SameList(calls, c.key);
  }
}
