/** The fixed-window rate limiter (internal/ratelimit/ratelimit.go). Times are integers. */
module RateLimit {
  import opened Tables

  type Key = string

  datatype Window = Window(count: nat, reset: int)

  /** One event against a key's window: a window strictly past its reset starts again. */
  function Hit(entry: Option<Window>, now: int, w: int): Window {
    if entry.None? || now > entry.value.reset then Window(1, now + w)
    else Window(entry.value.count + 1, entry.value.reset)
  }

  function Expired(windows: map<Key, Window>, now: int): set<Key> {
    set k | k in windows && now > windows[k].reset
  }

  function Entry(windows: map<Key, Window>, key: Key): Option<Window> {
    if key in windows then Some(windows[key]) else None
  }

  class Memory {
    var windows: map<Key, Window>

    constructor ()
      ensures windows == map[]
    {
      windows := map[];
    }

    method Allow(key: Key, limit: int, w: int, now: int) returns (ok: bool)
      modifies this
      ensures windows == old(windows)[key := Hit(Entry(old(windows), key), now, w)]
      ensures windows[key] == if key !in old(windows) || now > old(windows)[key].reset then Window(1, now + w)
                              else Window(old(windows)[key].count + 1, old(windows)[key].reset)
      ensures windows - {key} == old(windows) - {key}
      ensures ok <==> windows[key].count <= limit
    {
      var entry := Window(0, now + w);
      if key in windows && now <= windows[key].reset {
        entry := windows[key];
      }
      entry := entry.(count := entry.count + 1);
      windows := windows[key := entry];
      return entry.count <= limit;
    }

    /** Goes over the keys in whatever order the map yields them. */
    method Sweep(now: int)
      modifies this
      ensures windows == old(windows) - Expired(old(windows), now)
      ensures forall k :: k in windows <==> k in old(windows) && now <= old(windows)[k].reset
      ensures forall k :: k in windows ==> windows[k] == old(windows)[k]
    {
      var begun := windows;
      var todo := windows.Keys;
      while todo != {}
        invariant todo <= begun.Keys
        invariant windows == begun - (Expired(begun, now) - todo)
        decreases todo
      {
        var k :| k in todo;
        if now > windows[k].reset {
          windows := windows - {k};
        }
        todo := todo - {k};
      }
    }
  }

  // The bound

  predicate Sorted(ts: seq<int>) {
    forall i, j :: 0 <= i <= j < |ts| ==> ts[i] <= ts[j]
  }

  /** How many events at times `ts`, all on one key, are allowed within `[a, a + w]`. */
  function AllowedIn(entry: Option<Window>, ts: seq<int>, limit: int, w: int, a: int): nat
    decreases |ts|
  {
    if ts == [] then 0
    else
      var next := Hit(entry, ts[0], w);
      Bit(next.count <= limit && a <= ts[0] <= a + w) + AllowedIn(Some(next), ts[1..], limit, w, a)
  }

  function Spare(limit: int, count: int): nat {
    if count < limit then limit - count else 0
  }

  lemma {:induction false} NoneAfterInterval(entry: Option<Window>, ts: seq<int>, limit: int, w: int, a: int)
    requires forall i :: 0 <= i < |ts| ==> ts[i] > a + w
    ensures AllowedIn(entry, ts, limit, w, a) == 0
    decreases |ts|
  {
    if ts != [] {
      NoneAfterInterval(Some(Hit(entry, ts[0], w)), ts[1..], limit, w, a);
    }
  }

  /** While one window covers the rest of the interval, only its spare allowance is left. */
  lemma {:induction false} OneWindow(e: Window, ts: seq<int>, limit: int, w: int, a: int)
    requires Sorted(ts) && e.reset >= a + w
    ensures AllowedIn(Some(e), ts, limit, w, a) <= Spare(limit, e.count)
    decreases |ts|
  {
    if ts != [] {
      if ts[0] > a + w {
        NoneAfterInterval(Some(e), ts, limit, w, a);
      } else {
        OneWindow(Hit(Some(e), ts[0], w), ts[1..], limit, w, a);
      }
    }
  }

  /** Inside the interval at most one new window can start. */
  lemma {:induction false} TwoWindows(e: Window, ts: seq<int>, limit: int, w: int, a: int)
    requires Sorted(ts) && (ts == [] || a <= ts[0])
    ensures AllowedIn(Some(e), ts, limit, w, a) <= Spare(limit, e.count) + Spare(limit, 0)
    decreases |ts|
  {
    if ts != [] {
      var next := Hit(Some(e), ts[0], w);
      if ts[0] > e.reset {
        OneWindow(next, ts[1..], limit, w, a);
      } else {
        TwoWindows(next, ts[1..], limit, w, a);
      }
    }
  }

  /** In any interval as long as the window, a key is allowed at most twice its limit less one. */
  lemma {:induction false} TwiceLimitLessOne(entry: Option<Window>, ts: seq<int>, limit: int, w: int, a: int)
    requires Sorted(ts) && (entry.Some? ==> entry.value.count >= 1)
    ensures AllowedIn(entry, ts, limit, w, a) <= Spare(2 * limit - 1, 0)
    decreases |ts|
  {
    if ts != [] {
      var next := Hit(entry, ts[0], w);
      if ts[0] < a {
        TwiceLimitLessOne(Some(next), ts[1..], limit, w, a);
      } else if entry.Some? {
        TwoWindows(entry.value, ts, limit, w, a);
      } else {
        OneWindow(next, ts[1..], limit, w, a);
      }
    }
  }

  function Times(t: int, n: nat): seq<int> {
    seq(n, i => t)
  }

  lemma {:induction false} AllAllowed(e: Window, t: int, n: nat, rest: seq<int>, limit: int, w: int, a: int)
    requires a <= t <= a + w && t <= e.reset && e.count + n <= limit
    ensures AllowedIn(Some(e), Times(t, n) + rest, limit, w, a)
      == n + AllowedIn(Some(Window(e.count + n, e.reset)), rest, limit, w, a)
    decreases n
  {
    if n == 0 {
      assert Times(t, 0) + rest == rest;
    } else {
      var ts := Times(t, n) + rest;
      assert ts[1..] == Times(t, n - 1) + rest;
      AllAllowed(Window(e.count + 1, e.reset), t, n - 1, rest, limit, w, a);
    }
  }

  /** Just after a window has expired, a whole limit of calls is allowed at once. */
  lemma FreshWindowFills(e: Window, limit: int, w: int)
    requires limit >= 1 && w >= 1 && e.reset == w
    ensures AllowedIn(Some(e), Times(w + 1, limit), limit, w, w) == limit
  {
    var rest := Times(w + 1, limit - 1);
    assert Times(w + 1, limit)[1..] == rest;
    assert rest + [] == rest;
    AllAllowed(Window(1, w + 1 + w), w + 1, limit - 1, [], limit, w, w);
  }

  /** The bound is met for every limit and every window. */
  lemma BoundIsReached(limit: int, w: int)
    requires limit >= 1 && w >= 1
    ensures var ts := [0] + Times(w, limit - 1) + Times(w + 1, limit);
      Sorted(ts) && AllowedIn(None, ts, limit, w, w) == 2 * limit - 1
  {
    var early, late := Times(w, limit - 1), Times(w + 1, limit);
    var ts := [0] + early + late;
    assert ts[1..] == early + late;
    AllAllowed(Window(1, w), w, limit - 1, late, limit, w, w);
    FreshWindowFills(Window(limit, w), limit, w);
  }

  // Many keys, with sweeping

  datatype Event = Call(key: Key, limit: int, w: int, now: int) | Tick(now: int)

  predicate ClockRuns(events: seq<Event>) {
    forall i, j :: 0 <= i <= j < |events| ==> events[i].now <= events[j].now
  }

  function Next(windows: map<Key, Window>, e: Event): map<Key, Window> {
    match e
    case Call(key, _, w, now) => windows[key := Hit(Entry(windows, key), now, w)]
    case Tick(now) => windows - Expired(windows, now)
  }

  /** The answers to the calls of a run, in order. */
  function Answers(windows: map<Key, Window>, events: seq<Event>): seq<bool>
    decreases |events|
  {
    if events == [] then []
    else
      var after := Next(windows, events[0]);
      (if events[0].Call? then [after[events[0].key].count <= events[0].limit] else []) + Answers(after, events[1..])
  }

  function CallsOnly(events: seq<Event>): seq<Event> {
    if events == [] then []
    else (if events[0].Call? then [events[0]] else []) + CallsOnly(events[1..])
  }

  /** The swept table lacks only windows that have expired. */
  ghost predicate SweptOf(swept: map<Key, Window>, full: map<Key, Window>, now: int) {
    && (forall k :: k in swept ==> k in full && swept[k] == full[k])
    && (forall k :: k in full && k !in swept ==> now > full[k].reset)
  }

  /** Sweeping, however often and whenever it runs, never changes an answer. */
  lemma {:induction false} SweepingChangesNoAnswer(swept: map<Key, Window>, full: map<Key, Window>, events: seq<Event>)
    requires ClockRuns(events) && (events != [] ==> SweptOf(swept, full, events[0].now))
    ensures Answers(swept, events) == Answers(full, CallsOnly(events))
    decreases |events|
  {
    if events != [] {
      var e, rest := events[0], events[1..];
      var full' := if e.Call? then Next(full, e) else full;
      SweepingChangesNoAnswer(Next(swept, e), full', rest);
      if e.Call? {
        assert CallsOnly(events)[1..] == CallsOnly(rest);
      } else {
        assert CallsOnly(events) == CallsOnly(rest);
      }
    }
  }

  function TimesOf(events: seq<Event>, key: Key): seq<int> {
    if events == [] then []
    else (if events[0].Call? && events[0].key == key then [events[0].now] else []) + TimesOf(events[1..], key)
  }

  predicate FixedPolicy(events: seq<Event>, key: Key, limit: int, w: int) {
    forall i :: 0 <= i < |events| && events[i].Call? && events[i].key == key ==>
      events[i].limit == limit && events[i].w == w
  }

  /** How many calls on `key` a run of the whole limiter allows within `[a, a + w]`. */
  function AllowedFor(windows: map<Key, Window>, events: seq<Event>, key: Key, w: int, a: int): nat
    decreases |events|
  {
    if events == [] then 0
    else
      var after := Next(windows, events[0]);
      (if events[0].Call? && events[0].key == key
       then Bit(after[key].count <= events[0].limit && a <= events[0].now <= a + w) else 0)
      + AllowedFor(after, events[1..], key, w, a)
  }

  /** Other keys and sweeps do not matter to a key. */
  lemma {:induction false} KeysAreIndependent(windows: map<Key, Window>, entry: Option<Window>, events: seq<Event>,
                                              key: Key, limit: int, w: int, a: int)
    requires ClockRuns(events) && FixedPolicy(events, key, limit, w)
    requires Entry(windows, key) == entry
      || (key !in windows && entry.Some? && (events != [] ==> events[0].now > entry.value.reset))
    ensures AllowedFor(windows, events, key, w, a) == AllowedIn(entry, TimesOf(events, key), limit, w, a)
    decreases |events|
  {
    if events != [] {
      var e, rest := events[0], events[1..];
      if e.Call? && e.key == key {
        assert TimesOf(events, key)[1..] == TimesOf(rest, key);
        KeysAreIndependent(Next(windows, e), Some(Hit(entry, e.now, w)), rest, key, limit, w, a);
      } else {
        assert TimesOf(events, key) == TimesOf(rest, key);
        KeysAreIndependent(Next(windows, e), entry, rest, key, limit, w, a);
      }
    }
  }

  lemma {:induction false} TimesSorted(events: seq<Event>, key: Key)
    requires ClockRuns(events)
    ensures Sorted(TimesOf(events, key))
    ensures forall t :: t in TimesOf(events, key) ==> events != [] && events[0].now <= t
  {
    if events != [] {
      TimesSorted(events[1..], key);
      var rest := TimesOf(events[1..], key);
      assert forall i :: 0 <= i < |rest| ==> rest[i] in rest;
    }
  }

  /** The limiter as a whole: with a clock that never runs backwards, a key with limit `limit`
    and window `w` is allowed at most `2 * limit - 1` calls in any interval of length `w`. */
  lemma LimiterBound(events: seq<Event>, key: Key, limit: int, w: int, a: int)
    requires ClockRuns(events) && FixedPolicy(events, key, limit, w)
    ensures AllowedFor(map[], events, key, w, a) <= Spare(2 * limit - 1, 0)
  {
    KeysAreIndependent(map[], None, events, key, limit, w, a);
    TimesSorted(events, key);
    TwiceLimitLessOne(None, TimesOf(events, key), limit, w, a);
  }

  // The shared counter

  /** Redis: INCR, then EXPIRE on every call, so the expiry slides. */
  function RedisHit(entry: Option<Window>, now: int, w: int): Window {
    Window(Hit(entry, now, w).count, now + w)
  }

  function MemoryAnswers(entry: Option<Window>, ts: seq<int>, limit: int, w: int): (r: seq<bool>)
    ensures |r| == |ts|
    decreases |ts|
  {
    if ts == [] then []
    else
      var next := Hit(entry, ts[0], w);
      [next.count <= limit] + MemoryAnswers(Some(next), ts[1..], limit, w)
  }

  function RedisAnswers(entry: Option<Window>, ts: seq<int>, limit: int, w: int): (r: seq<bool>)
    ensures |r| == |ts|
    decreases |ts|
  {
    if ts == [] then []
    else
      var next := RedisHit(entry, ts[0], w);
      [next.count <= limit] + RedisAnswers(Some(next), ts[1..], limit, w)
  }

  /** At least `n` calls up to and including the i-th came each within a window of the one before. */
  predicate Burst(ts: seq<int>, w: int, i: nat, n: nat)
    requires i < |ts|
  {
    n <= i + 1 && forall j :: i - n + 1 < j <= i ==> ts[j] <= ts[j - 1] + w
  }

  /** The burst up to call `i` has used up the limit, with the `n` calls before these if it reaches
    back to them, the last of them at `last`. */
  predicate UsedUp(n: nat, last: int, ts: seq<int>, limit: nat, w: int, i: nat)
    requires i < |ts|
  {
    Burst(ts, w, i, limit + 1) || (limit < n + i + 1 && ts[0] <= last + w && Burst(ts, w, i, i + 1))
  }

  lemma UsedUpNext(n: nat, last: int, ts: seq<int>, limit: nat, w: int, i: nat)
    requires n >= 1 && 0 < i < |ts|
    ensures UsedUp(n, last, ts, limit, w, i)
       <==> UsedUp(if ts[0] > last + w then 1 else n + 1, ts[0], ts[1..], limit, w, i - 1)
  {
    BurstFromFirst(ts, w, i);
    if limit < i {
      BurstTail(ts, w, i, limit + 1);
    }
  }

  lemma {:induction false} HeldKeyRefusesBursts(n: nat, last: int, ts: seq<int>, limit: nat, w: int, i: nat)
    requires n >= 1 && i < |ts|
    ensures !RedisAnswers(Some(Window(n, last + w)), ts, limit, w)[i] <==> UsedUp(n, last, ts, limit, w, i)
    decreases |ts|
  {
    if i > 0 {
      UsedUpNext(n, last, ts, limit, w, i);
      HeldKeyRefusesBursts(if ts[0] > last + w then 1 else n + 1, ts[0], ts[1..], limit, w, i - 1);
    }
  }

  /** Redis refuses a call exactly when the limit is used up on calls that each came within a window
    of the one before: the counter starts again only after a gap longer than the window. */
  lemma RedisRefusesBursts(ts: seq<int>, limit: nat, w: int, i: nat)
    requires i < |ts|
    ensures !RedisAnswers(None, ts, limit, w)[i] <==> Burst(ts, w, i, limit + 1)
  {
    if i > 0 {
      HeldKeyRefusesBursts(1, ts[0], ts[1..], limit, w, i - 1);
      BurstFromFirst(ts, w, i);
      if limit < i {
        BurstTail(ts, w, i, limit + 1);
      }
    }
  }

  lemma BurstTail(ts: seq<int>, w: int, i: nat, n: nat)
    requires 0 < i < |ts| && n <= i
    ensures Burst(ts[1..], w, i - 1, n) <==> Burst(ts, w, i, n)
  {
  }

  lemma BurstFromFirst(ts: seq<int>, w: int, i: nat)
    requires 0 < i < |ts|
    ensures Burst(ts, w, i, i + 1) <==> ts[1] <= ts[0] + w && Burst(ts[1..], w, i - 1, i)
  {
    BurstTail(ts, w, i, i);
    assert ts[1..][0] == ts[1];
  }

  lemma {:induction false} FallbackNoStricter(memory: Option<Window>, redis: Option<Window>, ts: seq<int>, limit: int,
                                              w: int, i: nat)
    requires Sorted(ts) && i < |ts|
    requires memory.Some? <==> redis.Some?
    requires memory.Some? ==> memory.value.count <= redis.value.count && memory.value.reset <= redis.value.reset
    requires memory.Some? ==> memory.value.reset <= ts[0] + w
    ensures RedisAnswers(redis, ts, limit, w)[i] ==> MemoryAnswers(memory, ts, limit, w)[i]
    decreases |ts|
  {
    if i > 0 {
      FallbackNoStricter(Some(Hit(memory, ts[0], w)), Some(RedisHit(redis, ts[0], w)), ts[1..], limit, w, i - 1);
    }
  }

  /** The in-process fallback is never stricter than the shared counter: on one stream of
    events, whatever Redis allows the memory limiter allows too. */
  lemma FallbackAllowsWhatRedisAllows(ts: seq<int>, limit: int, w: int, i: nat)
    requires Sorted(ts) && i < |ts|
    ensures RedisAnswers(None, ts, limit, w)[i] ==> MemoryAnswers(None, ts, limit, w)[i]
  {
    FallbackNoStricter(None, None, ts, limit, w, i);
  }
}
