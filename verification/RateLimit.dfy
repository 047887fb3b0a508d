/**
 The in-process sliding-window limiter. It keeps one pruned queue of hit times
 per tracked key and may evict a key to stay within `maxKeys`. The plain log of
 all hits is what it stands for: a key's queue is compared with the key's hits
 since its last eviction.
 */
module RateLimit {
  import opened Wrappers

  type Key = string

  type Queues = map<Key, seq<real>>

  // ---- hit times ----------------------------------------------------------

  ghost predicate Sorted(s: seq<real>) { forall i, k :: 0 <= i < k < |s| ==> s[i] <= s[k] }

  /** How many of the times lie after a cutoff. */
  function CountAfter(s: seq<real>, cutoff: real): nat {
    if s == [] then 0
    else CountAfter(s[..|s| - 1], cutoff) + (if s[|s| - 1] > cutoff then 1 else 0)
  }

  lemma {:induction false} CountBound(s: seq<real>, c: real)
    ensures CountAfter(s, c) <= |s|
    ensures (forall i :: 0 <= i < |s| ==> s[i] <= c) ==> CountAfter(s, c) == 0
  {
    if s == [] {
    } else {
      CountBound(s[..|s| - 1], c);
    }
  }

  /** In a sorted list, m times lie after a cutoff iff the m-th last one does. */
  lemma {:induction false} CountAfterSorted(s: seq<real>, c: real, m: int)
    requires Sorted(s) && 1 <= m <= |s|
    ensures CountAfter(s, c) >= m <==> s[|s| - m] > c
  {
    var t, x := s[..|s| - 1], s[|s| - 1];
    if x <= c {
      assert forall i :: 0 <= i < |s| ==> s[i] <= c;
      CountBound(s, c);
    } else if m > 1 {
      CountAfterSorted(t, c, m - 1);
    }
  }

  /** The loop of _prune: pop times up to the cutoff from the front. */
  function DropUpTo(q: seq<real>, cutoff: real): seq<real> {
    if q != [] && q[0] <= cutoff then DropUpTo(q[1..], cutoff) else q
  }

  /** `q` is `counted` without some times that no window reaches any more. */
  ghost predicate Trails(q: seq<real>, counted: seq<real>, cutoff: real) {
    && |q| <= |counted| && q == counted[|counted| - |q|..]
    && (forall i :: 0 <= i < |counted| - |q| ==> counted[i] <= cutoff)
  }

  lemma {:induction false} DropTrails(q: seq<real>, counted: seq<real>, c: real)
    requires Trails(q, counted, c)
    ensures Trails(DropUpTo(q, c), counted, c)
    ensures DropUpTo(q, c) != [] ==> DropUpTo(q, c)[0] > c
    decreases |q|
  {
    if q == [] || q[0] > c {
    } else {
      assert counted[|counted| - |q|] == q[0];
      DropTrails(q[1..], counted, c);
    }
  }

  /** A pruned queue holds exactly the counted times inside the window. */
  lemma WindowIsQueue(q: seq<real>, counted: seq<real>, c: real)
    requires Sorted(counted) && Trails(q, counted, c) && (q != [] ==> q[0] > c)
    ensures CountAfter(counted, c) == |q|
  {
    CountBound(counted, c);
    if q != [] { CountAfterSorted(counted, c, |q|); }
    if |q| < |counted| { CountAfterSorted(counted, c, |q| + 1); }
  }

  /** What holds of a key's queue and the hits it stands for at a clock reading. */
  ghost predicate QueueOk(q: seq<real>, counted: seq<real>, window: real, clock: real) {
    && Sorted(counted)
    && (forall i :: 0 <= i < |counted| ==> counted[i] <= clock)
    && Trails(q, counted, clock - window)
  }

  lemma QueueOkPruned(q: seq<real>, counted: seq<real>, window: real, clock: real, now: real)
    requires QueueOk(q, counted, window, clock) && clock <= now
    ensures QueueOk(q, counted, window, now)
    ensures QueueOk(DropUpTo(q, now - window), counted, window, now)
    ensures CountAfter(counted, now - window) == |DropUpTo(q, now - window)|
  {
    DropTrails(q, counted, now - window);
    WindowIsQueue(DropUpTo(q, now - window), counted, now - window);
  }

  lemma QueueOkSnoc(q: seq<real>, counted: seq<real>, window: real, now: real)
    requires QueueOk(q, counted, window, now)
    ensures QueueOk(q + [now], counted + [now], window, now)
  {
    var n := |counted| - |q|;
    assert (counted + [now])[n..] == counted[n..] + [now];
  }

  // ---- what the answers mean ---------------------------------------------

  /** At instant t, `maxEvents` of the times lie in (t - window, t]. */
  ghost predicate Limited(times: seq<real>, window: real, maxEvents: int, t: real) {
    CountAfter(times, t - window) >= maxEvents
  }

  /** With no further hit, the key stops being limited at instant e. */
  ghost predicate StopsAt(times: seq<real>, window: real, maxEvents: int, now: real, e: real) {
    now < e && forall t: real :: t >= now ==> (Limited(times, window, maxEvents, t) <==> t < e)
  }

  /** 0 when not limited; otherwise now + seconds is past the instant the key
      stops being limited, by at most one second. */
  ghost predicate TightWait(times: seq<real>, window: real, maxEvents: int, now: real, seconds: int) {
    if !Limited(times, window, maxEvents, now) then seconds == 0
    else seconds >= 1 && exists e: real :: StopsAt(times, window, maxEvents, now, e)
                                           && now + seconds as real - 1.0 <= e < now + seconds as real
  }

  /** A limited key stays so until its maxEvents-th youngest hit leaves the window. */
  lemma LimitedUntil(times: seq<real>, window: real, maxEvents: int, now: real)
    requires maxEvents >= 1 && Sorted(times) && Limited(times, window, maxEvents, now)
    ensures |times| >= maxEvents && StopsAt(times, window, maxEvents, now, times[|times| - maxEvents] + window)
  {
    CountBound(times, now - window);
    forall t: real ensures Limited(times, window, maxEvents, t) <==> t < times[|times| - maxEvents] + window {
      CountAfterSorted(times, t - window, maxEvents);
    }
  }

  /** What retry_after computes from its pruned queue. None stands for the
      IndexError raised when the limiter has a non-positive `maxEvents`. */
  function Wait(q: seq<real>, window: real, maxEvents: int, now: real): Option<int> {
    if |q| < maxEvents then Some(0)
    else if maxEvents <= 0 then None
    else
      var s := (q[|q| - maxEvents] + window - now).Floor + 1;
      Some(if s > 1 then s else 1)
  }

  lemma WaitIsTight(q: seq<real>, counted: seq<real>, window: real, maxEvents: int, clock: real, now: real)
    requires QueueOk(q, counted, window, clock) && clock <= now
    ensures
      var w := Wait(DropUpTo(q, now - window), window, maxEvents, now);
      && (w.None? <==> maxEvents <= 0)
      && (maxEvents >= 1 ==> TightWait(counted, window, maxEvents, now, w.value))
  {
    var p := DropUpTo(q, now - window);
    QueueOkPruned(q, counted, window, clock, now);
    DropTrails(q, counted, now - window);
    if 1 <= maxEvents <= |p| {
      LimitedUntil(counted, window, maxEvents, now);
      SameFromTheEnd(p, counted, now - window, maxEvents);
      RoundedWait(counted, window, maxEvents, now, counted[|counted| - maxEvents] + window);
    }
  }

  lemma SameFromTheEnd(q: seq<real>, counted: seq<real>, cutoff: real, m: nat)
    requires Trails(q, counted, cutoff) && 1 <= m <= |q|
    ensures q[|q| - m] == counted[|counted| - m]
  {
  }

  /** Rounding the wait up to a whole second overshoots by at most one. */
  lemma RoundedWait(times: seq<real>, window: real, maxEvents: int, now: real, e: real)
    requires Limited(times, window, maxEvents, now) && StopsAt(times, window, maxEvents, now, e)
    ensures (e - now).Floor + 1 >= 1
    ensures TightWait(times, window, maxEvents, now, (e - now).Floor + 1)
  {
    var s := (e - now).Floor + 1;
    assert now + s as real - 1.0 <= e < now + s as real;
  }

  // ---- the limiter's state --------------------------------------------------

  /** The queues, and the history they stand for: every hit per key since reset,
      how many of them precede the key's last eviction, the latest clock reading. */
  datatype Lim = Lim(events: Queues, hits: map<Key, seq<real>>, lost: map<Key, nat>, clock: real)
  {
    function Queue(key: Key): seq<real> { if key in events then events[key] else [] }

    function AllHits(key: Key): seq<real> { if key in hits then hits[key] else [] }

    /** The hits of a key the limiter answers for: all since its last eviction. */
    function Counted(key: Key): seq<real> {
      if key in lost && lost[key] <= |AllHits(key)| then AllHits(key)[lost[key]..] else AllHits(key)
    }
  }

  ghost predicate KeyOk(st: Lim, window: real, key: Key) {
    && (key in st.events ==> st.events[key] != [])
    && (key in st.lost ==> st.lost[key] <= |st.AllHits(key)|)
    && QueueOk(st.Queue(key), st.Counted(key), window, st.clock)
  }

  ghost predicate LimOk(st: Lim, window: real, maxKeys: int) {
    |st.events| <= maxKeys && forall k: Key :: KeyOk(st, window, k)
  }

  function PruneKey(events: Queues, key: Key, cutoff: real): Queues {
    var q := DropUpTo(if key in events then events[key] else [], cutoff);
    if q == [] then events - {key} else events[key := q]
  }

  function SweepAll(events: Queues, cutoff: real): Queues {
    map k | k in events && DropUpTo(events[k], cutoff) != [] :: DropUpTo(events[k], cutoff)
  }

  /** A sweep with the keys in `rest` still to do. */
  ghost function Partial(events: Queues, rest: set<Key>, cutoff: real): Queues {
    map k | k in events && (k in rest || DropUpTo(events[k], cutoff) != []) ::
      if k in rest then events[k] else DropUpTo(events[k], cutoff)
  }

  lemma PartialStep(events: Queues, rest: set<Key>, cutoff: real, k: Key)
    requires k in rest && rest <= events.Keys
    ensures Partial(events, rest - {k}, cutoff) == PruneKey(Partial(events, rest, cutoff), k, cutoff)
    ensures k in Partial(events, rest, cutoff)
  {
  }

  lemma PartialEnds(events: Queues, cutoff: real)
    ensures Partial(events, events.Keys, cutoff) == events
    ensures Partial(events, {}, cutoff) == SweepAll(events, cutoff)
  {
  }

  lemma PruneKeyOk(st: Lim, window: real, key: Key, now: real, k: Key)
    requires KeyOk(st, window, k) && now >= st.clock
    ensures KeyOk(st.(events := PruneKey(st.events, key, now - window), clock := now), window, k)
  {
    var st' := st.(events := PruneKey(st.events, key, now - window), clock := now);
    assert st'.AllHits(k) == st.AllHits(k) && st'.Counted(k) == st.Counted(k);
    assert st'.Queue(k) == if k == key then DropUpTo(st.Queue(k), now - window) else st.Queue(k);
    QueueOkPruned(st.Queue(k), st.Counted(k), window, st.clock, now);
  }

  lemma SweepKeyOk(st: Lim, window: real, now: real, k: Key)
    requires KeyOk(st, window, k) && now >= st.clock
    ensures KeyOk(st.(events := SweepAll(st.events, now - window), clock := now), window, k)
  {
    var st' := st.(events := SweepAll(st.events, now - window), clock := now);
    assert st'.AllHits(k) == st.AllHits(k) && st'.Counted(k) == st.Counted(k);
    assert st'.Queue(k) == DropUpTo(st.Queue(k), now - window);
    QueueOkPruned(st.Queue(k), st.Counted(k), window, st.clock, now);
  }

  lemma SubsetIsNoLarger(a: Queues, b: Queues)
    requires a.Keys <= b.Keys
    ensures |a| <= |b|
  {
    assert |b.Keys| == |a.Keys| + |b.Keys - a.Keys| by { assert b.Keys == a.Keys + (b.Keys - a.Keys); }
  }

  lemma PruneOk(st: Lim, window: real, maxKeys: int, key: Key, now: real)
    requires LimOk(st, window, maxKeys) && now >= st.clock
    ensures LimOk(st.(events := PruneKey(st.events, key, now - window), clock := now), window, maxKeys)
  {
    var st' := st.(events := PruneKey(st.events, key, now - window), clock := now);
    forall k: Key ensures KeyOk(st', window, k) {
      PruneKeyOk(st, window, key, now, k);
    }
    SubsetIsNoLarger(PruneKey(st.events, key, now - window), st.events);
  }

  lemma SweepOk(st: Lim, window: real, maxKeys: int, now: real)
    requires LimOk(st, window, maxKeys) && now >= st.clock
    ensures LimOk(st.(events := SweepAll(st.events, now - window), clock := now), window, maxKeys)
  {
    var st' := st.(events := SweepAll(st.events, now - window), clock := now);
    forall k: Key ensures KeyOk(st', window, k) {
      SweepKeyOk(st, window, now, k);
    }
    SubsetIsNoLarger(SweepAll(st.events, now - window), st.events);
  }

  lemma CountIsQueue(st: Lim, window: real, maxKeys: int, key: Key, now: real)
    requires LimOk(st, window, maxKeys) && now >= st.clock
    ensures CountAfter(st.Counted(key), now - window) == |DropUpTo(st.Queue(key), now - window)|
  {
    assert KeyOk(st, window, key);
    QueueOkPruned(st.Queue(key), st.Counted(key), window, st.clock, now);
  }

  lemma {:induction false} CountSuffix(s: seq<real>, c: real, n: nat)
    requires n <= |s|
    ensures CountAfter(s[n..], c) <= CountAfter(s, c)
  {
    if n < |s| {
      CountSuffix(s[..|s| - 1], c, n);
      assert s[n..][..|s[n..]| - 1] == s[..|s| - 1][n..];
    }
  }

  /** The limiter never counts more than the plain log does, and counts exactly
      that for a key that was never evicted. */
  lemma NeverOvercounts(st: Lim, window: real, maxKeys: int, key: Key, now: real)
    requires LimOk(st, window, maxKeys) && now >= st.clock
    ensures |DropUpTo(st.Queue(key), now - window)| <= CountAfter(st.AllHits(key), now - window)
    ensures key !in st.lost ==> |DropUpTo(st.Queue(key), now - window)| == CountAfter(st.AllHits(key), now - window)
  {
    CountIsQueue(st, window, maxKeys, key, now);
    if key in st.lost && st.lost[key] <= |st.AllHits(key)| {
      CountSuffix(st.AllHits(key), now - window, st.lost[key]);
    }
  }

  lemma WaitOk(st: Lim, window: real, maxKeys: int, maxEvents: int, key: Key, now: real)
    requires LimOk(st, window, maxKeys) && now >= st.clock
    ensures
      var w := Wait(DropUpTo(st.Queue(key), now - window), window, maxEvents, now);
      && (w.None? <==> maxEvents <= 0)
      && (maxEvents >= 1 ==> TightWait(st.Counted(key), window, maxEvents, now, w.value))
  {
    assert KeyOk(st, window, key);
    WaitIsTight(st.Queue(key), st.Counted(key), window, maxEvents, st.clock, now);
  }

  function EvictKey(st: Lim, key: Key): Lim {
    st.(events := st.events - {key}, lost := st.lost[key := |st.AllHits(key)|])
  }

  lemma EvictOk(st: Lim, window: real, maxKeys: int, key: Key)
    requires LimOk(st, window, maxKeys) && key in st.events
    ensures LimOk(EvictKey(st, key), window, maxKeys - 1)
  {
    forall k: Key ensures KeyOk(EvictKey(st, key), window, k) {
      assert KeyOk(st, window, k);
    }
    assert (st.events - {key}).Keys == st.events.Keys - {key};
  }

  function AppendHit(st: Lim, key: Key): Lim {
    st.(events := st.events[key := st.Queue(key) + [st.clock]],
        hits := st.hits[key := st.AllHits(key) + [st.clock]])
  }

  lemma AppendCounts(st: Lim, window: real, key: Key)
    requires KeyOk(st, window, key)
    ensures AppendHit(st, key).Queue(key) == st.Queue(key) + [st.clock]
    ensures AppendHit(st, key).AllHits(key) == st.AllHits(key) + [st.clock]
    ensures AppendHit(st, key).Counted(key) == st.Counted(key) + [st.clock]
  {
  }

  lemma AppendKeyOk(st: Lim, window: real, key: Key, k: Key)
    requires KeyOk(st, window, k)
    ensures KeyOk(AppendHit(st, key), window, k)
  {
    var st' := AppendHit(st, key);
    if k == key {
      AppendCounts(st, window, key);
      QueueOkSnoc(st.Queue(k), st.Counted(k), window, st.clock);
    } else {
      assert st'.Queue(k) == st.Queue(k) && st'.Counted(k) == st.Counted(k);
    }
  }

  lemma AppendOk(st: Lim, window: real, maxKeys: int, key: Key)
    requires LimOk(st, window, maxKeys) && (key in st.events || |st.events| < maxKeys)
    ensures LimOk(AppendHit(st, key), window, maxKeys)
  {
    forall k: Key ensures KeyOk(AppendHit(st, key), window, k) {
      AppendKeyOk(st, window, key, k);
    }
    assert AppendHit(st, key).events.Keys == st.events.Keys + {key};
  }

  // ---- eviction ------------------------------------------------------------

  function Last(q: seq<real>): real { if q == [] then 0.0 else q[|q| - 1] }

  ghost predicate IsStalest(events: Queues, k: Key) {
    k in events && forall j :: j in events ==> Last(events[k]) <= Last(events[j])
  }

  /** Dropping `gone` is the only way to make room: even swept, `maxKeys` keys
      remain, and `gone` has the oldest latest hit of them. */
  ghost predicate EvictionDue(events: Queues, gone: Key, maxKeys: int, cutoff: real) {
    |SweepAll(events, cutoff)| >= maxKeys && IsStalest(SweepAll(events, cutoff), gone)
  }

  lemma {:induction false} DropKeepsLast(q: seq<real>, c: real)
    requires Sorted(q)
    ensures DropUpTo(q, c) != [] <==> q != [] && Last(q) > c
    ensures DropUpTo(q, c) != [] ==> Last(DropUpTo(q, c)) == Last(q)
    decreases |q|
  {
    if q == [] || q[0] > c {
    } else {
      DropKeepsLast(q[1..], c);
    }
  }

  /** What a sweep keeps: the keys whose latest hit is inside the window, with
      that hit still last. */
  lemma SweepKeepsLive(st: Lim, window: real, maxKeys: int, cutoff: real, k: Key)
    requires LimOk(st, window, maxKeys)
    ensures k in SweepAll(st.events, cutoff) <==> k in st.events && Last(st.events[k]) > cutoff
    ensures k in SweepAll(st.events, cutoff) ==> Last(SweepAll(st.events, cutoff)[k]) == Last(st.events[k])
  {
    assert KeyOk(st, window, k);
    DropKeepsLast(st.Queue(k), cutoff);
  }

  lemma StalestExists(events: Queues, ks: set<Key>)
    requires ks != {} && ks <= events.Keys
    ensures exists k :: k in ks && forall j :: j in ks ==> Last(events[k]) <= Last(events[j])
    decreases |ks|
  {
    var a :| a in ks;
    if ks != {a} {
      StalestExists(events, ks - {a});
      var b :| b in ks - {a} && forall j :: j in ks - {a} ==> Last(events[b]) <= Last(events[j]);
      var k := if Last(events[a]) <= Last(events[b]) then a else b;
      assert forall j :: j in ks ==> Last(events[k]) <= Last(events[j]);
    }
  }

  // ---- the limiter ---------------------------------------------------------

  class SlidingWindowLimiter {
    const maxEvents: int
    const window: real
    const maxKeys: int
    var events: Queues
    ghost var hits: map<Key, seq<real>>
    ghost var lost: map<Key, nat>
    ghost var clock: real

    ghost function State(): Lim
      reads this
    {
      Lim(events, hits, lost, clock)
    }

    ghost predicate Valid()
      reads this
    {
      maxKeys >= 1 && LimOk(State(), window, maxKeys)
    }

    constructor (maxEvents: int, window: real, maxKeys: int, now: real)
      requires maxKeys >= 1
      ensures Valid() && State() == Lim(map[], map[], map[], now)
      ensures this.maxEvents == maxEvents && this.window == window && this.maxKeys == maxKeys
    {
      this.maxEvents, this.window, this.maxKeys := maxEvents, window, maxKeys;
      events, hits, lost, clock := map[], map[], map[], now;
    }

    static method PopExpired(queue: seq<real>, cutoff: real) returns (q: seq<real>)
      ensures q == DropUpTo(queue, cutoff)
    {
      q := queue;
      while q != [] && q[0] <= cutoff
        invariant DropUpTo(q, cutoff) == DropUpTo(queue, cutoff)
        decreases |q|
      {
        q := q[1..];
      }
    }

    /** _prune. */
    method Prune(key: Key, now: real) returns (q: seq<real>)
      requires Valid() && now >= clock
      modifies this`events, this`clock
      ensures Valid()
      ensures State() == old(State()).(events := PruneKey(old(events), key, now - window), clock := now)
      ensures q == DropUpTo(old(State()).Queue(key), now - window)
    {
      ghost var next := State().(events := PruneKey(events, key, now - window), clock := now);
      PruneOk(State(), window, maxKeys, key, now);
      q := PopExpired(if key in events then events[key] else [], now - window);
      if q == [] { events := events - {key}; } else { events := events[key := q]; }
      clock := now;
      assert State() == next;
    }

    /** _sweep: prune every key. */
    method Sweep(now: real)
      requires Valid() && now >= clock
      modifies this`events, this`clock
      ensures Valid()
      ensures State() == old(State()).(events := SweepAll(old(events), now - window), clock := now)
    {
      SweepOk(State(), window, maxKeys, now);
      PartialEnds(events, now - window);
      var rest := events.Keys;
      while rest != {}
        invariant events == Partial(old(events), rest, now - window)
        invariant rest <= old(events).Keys
        decreases |rest|
      {
        var k :| k in rest;
        PartialStep(old(events), rest, now - window, k);
        rest := rest - {k};
        var q := PopExpired(events[k], now - window);
        if q == [] { events := events - {k}; } else { events := events[k := q]; }
      }
      clock := now;
    }

    /** min(self._events, key=...): any key whose last event is least. */
    method Stalest() returns (stalest: Key)
      requires events != map[]
      ensures IsStalest(events, stalest)
    {
      StalestExists(events, events.Keys);
      stalest :| stalest in events.Keys && forall k :: k in events.Keys ==> Last(events[stalest]) <= Last(events[k]);
    }

    /** hit: record one event, making room for a new key if need be. A key is
        evicted only when one is due. */
    method Hit(key: Key, now: real) returns (ghost evicted: Option<Key>)
      requires Valid() && now >= clock
      modifies this
      ensures Valid() && clock == now && key in events
      ensures hits == old(hits)[key := old(State()).AllHits(key) + [now]]
      ensures evicted.None? ==> lost == old(lost)
      ensures evicted.Some? ==> lost == old(lost)[evicted.value := |old(State()).AllHits(evicted.value)|]
      ensures evicted.Some? ==> EvictionDue(old(events) - {key}, evicted.value, maxKeys, now - window)
    {
      evicted := None;
      var _ := Prune(key, now);
      if key !in events && |events| >= maxKeys {
        assert events == old(events) - {key};
        evicted := MakeRoom(now);
      }
      AppendOk(State(), window, maxKeys, key);
      events := events[key := (if key in events then events[key] else []) + [now]];
      hits := hits[key := (if key in hits then hits[key] else []) + [now]];
    }

    /** Sweep and, if that frees nothing, drop the key with the stalest latest hit. */
    method MakeRoom(now: real) returns (ghost evicted: Option<Key>)
      requires Valid() && now == clock && |events| >= maxKeys
      modifies this`events, this`lost, this`clock
      ensures Valid() && clock == now && |events| < maxKeys && events.Keys <= old(events).Keys
      ensures evicted.None? ==> lost == old(lost)
      ensures evicted.Some? ==> lost == old(lost)[evicted.value := |State().AllHits(evicted.value)|]
      ensures evicted.Some? ==> EvictionDue(old(events), evicted.value, maxKeys, now - window)
    {
      evicted := None;
      Sweep(now);
      if |events| >= maxKeys {
        var stalest := Stalest();
        EvictOk(State(), window, maxKeys, stalest);
        ghost var swept := State();
        events := events - {stalest};
        lost := lost[stalest := |swept.AllHits(stalest)|];
        evicted := Some(stalest);
        assert State() == EvictKey(swept, stalest);
      }
    }

    method Len() returns (n: nat)
      requires Valid()
      ensures n == |events| <= maxKeys
    {
      n := |events|;
    }

    /** is_limited. */
    method IsLimited(key: Key, now: real) returns (limited: bool)
      requires Valid() && now >= clock
      modifies this`events, this`clock
      ensures Valid() && hits == old(hits) && lost == old(lost) && clock == now
      ensures limited <==> Limited(State().Counted(key), window, maxEvents, now)
    {
      CountIsQueue(State(), window, maxKeys, key, now);
      var q := Prune(key, now);
      limited := |q| >= maxEvents;
    }

    /** retry_after. */
    method RetryAfter(key: Key, now: real) returns (seconds: Option<int>)
      requires Valid() && now >= clock
      modifies this`events, this`clock
      ensures Valid() && hits == old(hits) && lost == old(lost) && clock == now
      ensures seconds.None? <==> maxEvents <= 0
      ensures seconds.Some? ==> TightWait(State().Counted(key), window, maxEvents, now, seconds.value)
    {
      WaitOk(State(), window, maxKeys, maxEvents, key, now);
      var q := Prune(key, now);
      seconds := Wait(q, window, maxEvents, now);
    }

    method Reset()
      requires Valid()
      modifies this`events, this`hits, this`lost
      ensures Valid() && State() == Lim(map[], map[], map[], clock)
    {
      events, hits, lost := map[], map[], map[];
    }
  }
}
