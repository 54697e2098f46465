/**
 The opt-in rate limiter: one fixed-window bucket per key, with opportunistic
 eviction of expired buckets. Times are milliseconds.
 */
module RateLimit {
  import opened Wrappers
  import opened Text
  import opened Times

  type Key = nat
  datatype Options = Options(limit: nat, window: nat)
  datatype Bucket = Bucket(count: nat, resetAt: int)
  type Buckets = map<Key, Bucket>

  /** One request: its key, the clock, the route's options, and whether the
      random draw asks for eviction. */
  datatype Request = Request(key: Key, now: int, options: Option<Options>, draw: bool)

  const EVICTION_THRESHOLD := 10_000

  predicate Expired(b: Buckets, key: Key, now: int) {
    key !in b || b[key].resetAt <= now
  }

  function Evicted(b: Buckets, now: int): Buckets {
    map k | k in b && b[k].resetAt > now :: b[k]
  }

  /** A fresh bucket, and perhaps an eviction. */
  function Opened(b: Buckets, r: Request, window: nat): Buckets {
    var updated := b[r.key := Bucket(1, r.now + window)];
    if |updated| < EVICTION_THRESHOLD || !r.draw then updated else Evicted(updated, r.now)
  }

  function Step(b: Buckets, r: Request): (Buckets, bool) {
    if r.options.None? then (b, true)
    else
      var o := r.options.value;
      if Expired(b, r.key, r.now) then (Opened(b, r, o.window), true)
      else if b[r.key].count >= o.limit then (b, false)
      else (b[r.key := b[r.key].(count := b[r.key].count + 1)], true)
  }

  function Answers(b: Buckets, rs: seq<Request>): (a: seq<bool>)
    ensures |a| == |rs|
    decreases |rs|
  {
    if rs == [] then [] else [Step(b, rs[0]).1] + Answers(Step(b, rs[0]).0, rs[1..])
  }

  predicate ClockFrom(now: int, rs: seq<Request>) {
    && (forall i | 0 <= i < |rs| :: now <= rs[i].now)
    && (forall i, j | 0 <= i < j < |rs| :: rs[i].now <= rs[j].now)
  }

  // ----- one request -----

  /** A route without options admits everything and keeps no count. */
  lemma NoOptionsAdmits(b: Buckets, r: Request)
    requires r.options == None
    ensures Step(b, r) == (b, true)
  {
  }

  /** With options a request is admitted exactly when its key has no bucket, or one
      whose time is up, or one with room; and is counted in a bucket that lasts one
      window from its first request. */
  lemma StepIs(b: Buckets, r: Request, o: Options)
    requires r.options == Some(o)
    ensures Step(b, r).1 <==> r.key !in b || b[r.key].resetAt <= r.now || b[r.key].count < o.limit
    ensures r.key in b && b[r.key].resetAt > r.now ==>
              Step(b, r).0 == if b[r.key].count < o.limit then b[r.key := Bucket(b[r.key].count + 1, b[r.key].resetAt)] else b
    ensures (r.key !in b || b[r.key].resetAt <= r.now) && o.window > 0 ==>
              r.key in Step(b, r).0 && Step(b, r).0[r.key] == Bucket(1, r.now + o.window)
    ensures forall k | k in b && k != r.key && b[k].resetAt > r.now :: k in Step(b, r).0 && Step(b, r).0[k] == b[k]
    ensures forall k | k in Step(b, r).0 && k != r.key :: k in b && b[k] == Step(b, r).0[k]
  {
  }

  // ----- eviction is invisible -----

  /** At this moment the two maps hold the same unexpired buckets. */
  ghost predicate SameLive(b: Buckets, c: Buckets, now: int) {
    forall k: Key ::
      (Expired(b, k, now) <==> Expired(c, k, now)) && (!Expired(b, k, now) ==> b[k] == c[k])
  }

  lemma EvictedSame(b: Buckets, now: int)
    ensures SameLive(b, Evicted(b, now), now)
  {
  }

  lemma OpenedSame(b: Buckets, c: Buckets, r: Request, q: Request, window: nat)
    requires SameLive(b, c, r.now) && q.key == r.key && q.now == r.now
    ensures SameLive(Opened(b, r, window), Opened(c, q, window), r.now)
  {
    var bucket := Bucket(1, r.now + window);
    var d, e := b[r.key := bucket], c[r.key := bucket];
    SetSame(b, c, r.key, bucket, r.now);
    EvictedSame(d, r.now);
    EvictedSame(e, r.now);
    SameLiveTransitive(Evicted(d, r.now), d, e, r.now);
    SameLiveTransitive(Evicted(d, r.now), e, Evicted(e, r.now), r.now);
    SameLiveTransitive(d, e, Evicted(e, r.now), r.now);
  }

  lemma SameLiveTransitive(b: Buckets, c: Buckets, d: Buckets, now: int)
    requires (SameLive(b, c, now) || SameLive(c, b, now)) && SameLive(c, d, now)
    ensures SameLive(b, d, now)
  {
    forall k: Key ensures (Expired(b, k, now) <==> Expired(d, k, now)) && (!Expired(b, k, now) ==> b[k] == d[k]) {
      assert Expired(b, k, now) <==> Expired(c, k, now);
    }
  }

  lemma StepSame(b: Buckets, c: Buckets, r: Request, draw: bool, now: int)
    requires SameLive(b, c, now) && now <= r.now
    ensures Step(b, r).1 == Step(c, r.(draw := draw)).1
    ensures SameLive(Step(b, r).0, Step(c, r.(draw := draw)).0, r.now)
  {
    LiveLater(b, c, now, r.now);
    if r.options.Some? && Expired(b, r.key, r.now) {
      OpenedSame(b, c, r, r.(draw := draw), r.options.value.window);
    } else if r.options.Some? {
      SetSame(b, c, r.key, b[r.key].(count := b[r.key].count + 1), r.now);
    }
  }

  lemma LiveLater(b: Buckets, c: Buckets, now: int, later: int)
    requires SameLive(b, c, now) && now <= later
    ensures SameLive(b, c, later)
  {
    forall k: Key ensures (Expired(b, k, later) <==> Expired(c, k, later)) && (!Expired(b, k, later) ==> b[k] == c[k]) {
      assert Expired(b, k, now) <==> Expired(c, k, now);
    }
  }

  lemma SetSame(b: Buckets, c: Buckets, key: Key, bucket: Bucket, now: int)
    requires SameLive(b, c, now)
    ensures SameLive(b[key := bucket], c[key := bucket], now)
  {
    var d, e := b[key := bucket], c[key := bucket];
    forall k: Key ensures (Expired(d, k, now) <==> Expired(e, k, now)) && (!Expired(d, k, now) ==> d[k] == e[k]) {
      assert Expired(b, k, now) <==> Expired(c, k, now);
    }
  }

  /** Evicting at any moments, or never, gives the same answers, as long as the
      clock does not run backwards. */
  lemma {:induction false} EvictionInvisible(b: Buckets, c: Buckets, rs: seq<Request>, qs: seq<Request>, now: int)
    requires SameLive(b, c, now) && ClockFrom(now, rs)
    requires |rs| == |qs| && forall i | 0 <= i < |rs| :: rs[i] == qs[i].(draw := rs[i].draw)
    ensures Answers(b, rs) == Answers(c, qs)
    decreases |rs|
  {
    if rs != [] {
      StepSame(b, c, rs[0], qs[0].draw, now);
      assert qs[0] == rs[0].(draw := qs[0].draw);
      EvictionInvisible(Step(b, rs[0]).0, Step(c, qs[0]).0, rs[1..], qs[1..], rs[0].now);
    }
  }

  // ----- how many calls are accepted -----

  /** Times at which calls for `key` were accepted. */
  function AcceptedTimes(b: Buckets, rs: seq<Request>, key: Key): seq<int>
    decreases |rs|
  {
    if rs == [] then []
    else
      var rest := AcceptedTimes(Step(b, rs[0]).0, rs[1..], key);
      if rs[0].key == key && Step(b, rs[0]).1 then [rs[0].now] + rest else rest
  }

  // ----- one key does not hear of another -----

  /** The requests of one key. */
  function Own(rs: seq<Request>, key: Key): seq<Request> {
    if rs == [] then [] else (if rs[0].key == key then [rs[0]] else []) + Own(rs[1..], key)
  }

  predicate SameFor(b: Buckets, c: Buckets, key: Key, now: int) {
    (Expired(b, key, now) <==> Expired(c, key, now)) && (!Expired(b, key, now) ==> b[key] == c[key])
  }

  lemma OwnStepSame(b: Buckets, c: Buckets, r: Request, now: int)
    requires SameFor(b, c, r.key, now) && now <= r.now
    ensures Step(b, r).1 == Step(c, r).1 && SameFor(Step(b, r).0, Step(c, r).0, r.key, r.now)
  {
  }

  lemma OthersStepSame(b: Buckets, c: Buckets, r: Request, key: Key, now: int)
    requires SameFor(b, c, key, now) && now <= r.now && r.key != key
    ensures SameFor(Step(b, r).0, c, key, r.now)
  {
  }

  /** The calls accepted for a key are those that would be if there were no other
      keys: one source cannot use up another's allowance. */
  lemma {:induction false} OtherKeysDoNotMatter(b: Buckets, c: Buckets, rs: seq<Request>, key: Key, now: int)
    requires SameFor(b, c, key, now) && ClockFrom(now, rs)
    ensures AcceptedTimes(b, rs, key) == AcceptedTimes(c, Own(rs, key), key)
    decreases |rs|
  {
    if rs != [] {
      var r := rs[0];
      if r.key == key {
        OwnStepSame(b, c, r, now);
        OtherKeysDoNotMatter(Step(b, r).0, Step(c, r).0, rs[1..], key, r.now);
        assert Own(rs, key)[0] == r && Own(rs, key)[1..] == Own(rs[1..], key);
      } else {
        OthersStepSame(b, c, r, key, now);
        OtherKeysDoNotMatter(Step(b, r).0, c, rs[1..], key, r.now);
        assert Own(rs, key) == Own(rs[1..], key);
      }
    }
  }

  /** A fresh bucket always admits its first call, so a limit of 0 acts as 1. */
  function Cap(o: Options): nat {
    if o.limit == 0 then 1 else o.limit
  }

  /** The most calls for a key in any interval of one window length. */
  function WindowMax(o: Options): nat {
    if o.window <= 1 then Cap(o) else 2 * Cap(o) - 1
  }

  /** The accepted times so far, seen from the key's bucket. */
  ghost predicate History(ts: seq<int>, b: Buckets, key: Key, o: Options, now: int) {
    && (key !in b ==> ts == [])
    && (key in b ==>
          var start := b[key].resetAt - o.window;
          && start <= now
          && (forall i | 0 <= i < |ts| :: ts[i] < b[key].resetAt)
          && 1 <= b[key].count <= Cap(o)
          && Count(ts, start, b[key].resetAt) == b[key].count
          && Count(ts, start, start + 1) >= 1
          && (forall t | start - o.window < t <= start :: Count(ts, t, start) < Cap(o)))
    && (forall t :: InWindow(ts, t, o.window) <= WindowMax(o))
  }

  predicate Uses(rs: seq<Request>, key: Key, o: Options) {
    forall i | 0 <= i < |rs| && rs[i].key == key :: rs[i].options == Some(o)
  }

  predicate NoDraw(rs: seq<Request>) {
    forall i | 0 <= i < |rs| :: !rs[i].draw
  }

  lemma OpenKeepsWindows(ts: seq<int>, b: Buckets, key: Key, o: Options, now: int, n: int, t: int)
    requires History(ts, b, key, o, now) && o.window > 0 && now <= n && Expired(b, key, n)
    ensures InWindow(ts + [n], t, o.window) <= WindowMax(o)
  {
    CountAppend(ts, n, t, t + o.window);
    assert InWindow(ts, t, o.window) <= WindowMax(o);
    if t <= n < t + o.window { OneOldBucket(ts, b, key, o, now, t, t + o.window); }
  }

  lemma OpenKeepsBucket(ts: seq<int>, b: Buckets, key: Key, o: Options, now: int, n: int)
    requires History(ts, b, key, o, now) && o.window > 0 && now <= n && Expired(b, key, n)
    ensures var us := ts + [n];
            && (forall i | 0 <= i < |us| :: us[i] < n + o.window)
            && Count(us, n, n + o.window) == 1 && Count(us, n, n + 1) == 1
            && forall t | n - o.window < t <= n :: Count(us, t, n) < Cap(o)
  {
    var us, w := ts + [n], o.window;
    CountAppend(ts, n, n, n + w);
    CountAppend(ts, n, n, n + 1);
    CountNone(ts, n, n + w);
    CountNone(ts, n, n + 1);
    forall t | n - w < t <= n ensures Count(us, t, n) < Cap(o) {
      CountAppend(ts, n, t, n);
      OneOldBucket(ts, b, key, o, now, t, n);
    }
  }

  lemma OpenKeepsHistory(ts: seq<int>, b: Buckets, key: Key, o: Options, now: int, r: Request)
    requires History(ts, b, key, o, now) && o.window > 0
    requires r.key == key && r.options == Some(o) && !r.draw && now <= r.now && Expired(b, key, r.now)
    ensures History(ts + [r.now], Step(b, r).0, key, o, r.now)
  {
    OpenKeepsBucket(ts, b, key, o, now, r.now);
    forall t ensures InWindow(ts + [r.now], t, o.window) <= WindowMax(o) {
      OpenKeepsWindows(ts, b, key, o, now, r.now, t);
    }
  }

  /** Accepted calls later than the start of an expired bucket are its own, and
      the call that opened it is not among them. */
  lemma OneOldBucket(ts: seq<int>, b: Buckets, key: Key, o: Options, now: int, lo: int, hi: int)
    requires History(ts, b, key, o, now) && o.window > 0
    requires key in b ==> b[key].resetAt - o.window < lo
    ensures Count(ts, lo, hi) < Cap(o)
  {
    if key in b {
      var start, reset := b[key].resetAt - o.window, b[key].resetAt;
      CountSplit(ts, start, start + 1, reset);
      CountWithin(ts, lo, hi, start + 1, reset);
    }
  }

  lemma CountUpKeepsHistory(ts: seq<int>, b: Buckets, key: Key, o: Options, now: int, r: Request)
    requires History(ts, b, key, o, now) && o.window > 0
    requires r.key == key && r.options == Some(o) && now <= r.now
    requires !Expired(b, key, r.now) && b[key].count < o.limit
    ensures History(ts + [r.now], Step(b, r).0, key, o, r.now)
  {
    var us := ts + [r.now];
    var n, w := r.now, o.window;
    var reset := b[key].resetAt;
    var start := reset - w;
    forall lo, hi ensures Count(us, lo, hi) == Count(ts, lo, hi) + if lo <= n < hi then 1 else 0 {
      CountAppend(ts, n, lo, hi);
    }
    forall t ensures InWindow(us, t, w) <= WindowMax(o) {
      assert InWindow(ts, t, w) <= WindowMax(o);
      if t <= n < t + w {
        if t == start {
          CountWithin(us, t, t + w, start, reset);
        } else if t < start {
          CountSplit(us, t, start, t + w);
          CountWithin(us, start, t + w, start, reset);
          assert Count(ts, t, start) < Cap(o);
        } else {
          CountWithin(us, t, t + w, start, reset);
        }
      }
    }
  }

  function After(b: Buckets, rs: seq<Request>): Buckets
    decreases |rs|
  {
    if rs == [] then b else After(Step(b, rs[0]).0, rs[1..])
  }

  /** The accepted times after one more request. */
  function Grown(ts: seq<int>, b: Buckets, r: Request, key: Key): seq<int> {
    if r.key == key && Step(b, r).1 then ts + [r.now] else ts
  }

  lemma StepKeepsHistory(ts: seq<int>, b: Buckets, key: Key, o: Options, now: int, r: Request)
    requires History(ts, b, key, o, now) && o.window > 0 && now <= r.now && !r.draw
    requires r.key == key ==> r.options == Some(o)
    ensures History(Grown(ts, b, r, key), Step(b, r).0, key, o, r.now)
  {
    if r.key != key || !Step(b, r).1 {
      OtherKeepsHistory(ts, b, key, o, now, r);
    } else if Expired(b, key, r.now) {
      OpenKeepsHistory(ts, b, key, o, now, r);
    } else {
      CountUpKeepsHistory(ts, b, key, o, now, r);
    }
  }

  lemma AcceptedUnfold(ts: seq<int>, b: Buckets, rs: seq<Request>, key: Key)
    requires rs != []
    ensures ts + AcceptedTimes(b, rs, key) == Grown(ts, b, rs[0], key) + AcceptedTimes(Step(b, rs[0]).0, rs[1..], key)
  {
    Assoc(ts, [rs[0].now], AcceptedTimes(Step(b, rs[0]).0, rs[1..], key));
  }

  /** What has been accepted after some requests, and the state they leave. */
  lemma {:induction false} HistoryAfter(ts: seq<int>, b: Buckets, rs: seq<Request>, key: Key, o: Options, now: int, end: int)
    requires History(ts, b, key, o, now) && o.window > 0
    requires ClockFrom(now, rs) && Uses(rs, key, o) && NoDraw(rs)
    requires end == if rs == [] then now else rs[|rs| - 1].now
    ensures History(ts + AcceptedTimes(b, rs, key), After(b, rs), key, o, end)
    decreases |rs|
  {
    if rs == [] {
      assert ts + [] == ts;
    } else {
      StepKeepsHistory(ts, b, key, o, now, rs[0]);
      HistoryAfter(Grown(ts, b, rs[0], key), Step(b, rs[0]).0, rs[1..], key, o, rs[0].now, end);
      AcceptedUnfold(ts, b, rs, key);
    }
  }

  lemma OtherKeepsHistory(ts: seq<int>, b: Buckets, key: Key, o: Options, now: int, r: Request)
    requires History(ts, b, key, o, now) && now <= r.now && !r.draw
    requires r.key != key || !Step(b, r).1
    ensures History(ts, Step(b, r).0, key, o, r.now)
  {
    assert key in b <==> key in Step(b, r).0;
    assert key in b ==> Step(b, r).0[key] == b[key];
  }

  function WithoutDraws(rs: seq<Request>): (qs: seq<Request>)
    ensures |qs| == |rs| && forall i | 0 <= i < |rs| :: qs[i] == rs[i].(draw := false)
  {
    seq(|rs|, i requires 0 <= i < |rs| => rs[i].(draw := false))
  }

  lemma {:induction false} TimesFromAnswers(b: Buckets, c: Buckets, rs: seq<Request>, qs: seq<Request>, key: Key)
    requires |rs| == |qs| && Answers(b, rs) == Answers(c, qs)
    requires forall i | 0 <= i < |rs| :: rs[i].key == qs[i].key && rs[i].now == qs[i].now
    ensures AcceptedTimes(b, rs, key) == AcceptedTimes(c, qs, key)
    decreases |rs|
  {
    if rs != [] {
      var x, y := Answers(b, rs), Answers(c, qs);
      assert x[0] == y[0] && x[1..] == y[1..];
      TimesFromAnswers(Step(b, rs[0]).0, Step(c, qs[0]).0, rs[1..], qs[1..], key);
    }
  }

  lemma HistoryFromFresh(qs: seq<Request>, key: Key, o: Options, start: int) returns (end: int)
    requires ClockFrom(start, qs) && Uses(qs, key, o) && NoDraw(qs) && o.window > 0
    ensures History(AcceptedTimes(map[], qs, key), After(map[], qs), key, o, end)
    ensures end == if qs == [] then start else qs[|qs| - 1].now
  {
    end := if qs == [] then start else qs[|qs| - 1].now;
    var ts := AcceptedTimes(map[], qs, key);
    HistoryAfter([], map[], qs, key, o, start, end);
    assert [] + ts == ts;
  }

  lemma BoundWithoutDraws(qs: seq<Request>, key: Key, o: Options, start: int, t: int)
    requires ClockFrom(start, qs) && Uses(qs, key, o) && NoDraw(qs)
    ensures InWindow(AcceptedTimes(map[], qs, key), t, o.window) <= WindowMax(o)
  {
    if o.window > 0 {
      var end := HistoryFromFresh(qs, key, o, start);
    } else {
      CountNone(AcceptedTimes(map[], qs, key), t, t + o.window);
    }
  }

  lemma {:induction false} AnswerAt(b: Buckets, rs: seq<Request>, i: nat)
    requires i < |rs|
    ensures Answers(b, rs)[i] == Step(After(b, rs[..i]), rs[i]).1
    decreases |rs|
  {
    if i > 0 {
      AnswerAt(Step(b, rs[0]).0, rs[1..], i - 1);
      assert rs[..i][1..] == rs[1..][..i - 1];
    }
  }

  /** A call is refused only in a window that has already admitted its full cap:
      one that began at or before the call and has not ended. */
  lemma RefusedOnlyWhenFull(rs: seq<Request>, key: Key, o: Options, start: int, i: nat)
    requires ClockFrom(start, rs) && Uses(rs, key, o)
    requires i < |rs| && rs[i].key == key && !Answers(map[], rs)[i]
    ensures exists s :: s <= rs[i].now < s + o.window
                     && InWindow(AcceptedTimes(map[], rs[..i], key), s, o.window) == Cap(o)
  {
    var qs := WithoutDraws(rs);
    EvictionInvisible(map[], map[], rs, qs, start);
    EvictionInvisible(map[], map[], rs[..i], qs[..i], start);
    TimesFromAnswers(map[], map[], rs[..i], qs[..i], key);
    AnswerAt(map[], qs, i);
    FullWhenRefused(qs, key, o, start, i);
  }

  lemma FullWhenRefused(qs: seq<Request>, key: Key, o: Options, start: int, i: nat)
    requires ClockFrom(start, qs) && Uses(qs, key, o) && NoDraw(qs)
    requires i < |qs| && qs[i].key == key && !Step(After(map[], qs[..i]), qs[i]).1
    ensures exists s :: s <= qs[i].now < s + o.window
                     && InWindow(AcceptedTimes(map[], qs[..i], key), s, o.window) == Cap(o)
  {
    var b := After(map[], qs[..i]);
    if o.window == 0 {
      NoWindowNoRefusal(map[], qs[..i], key, o, start, if i == 0 then start else qs[i - 1].now);
    } else {
      var end := HistoryFromFresh(qs[..i], key, o, start);
      assert end <= qs[i].now;
      var s := b[key].resetAt - o.window;
      assert s <= qs[i].now < s + o.window;
      assert InWindow(AcceptedTimes(map[], qs[..i], key), s, o.window) == b[key].count;
    }
  }

  /** A window of no length has ended as soon as it begins. */
  lemma {:induction false} NoWindowNoRefusal(b: Buckets, rs: seq<Request>, key: Key, o: Options, now: int, end: int)
    requires Expired(b, key, now) && ClockFrom(now, rs) && Uses(rs, key, o) && o.window == 0
    requires end == if rs == [] then now else rs[|rs| - 1].now
    ensures Expired(After(b, rs), key, end)
    decreases |rs|
  {
    if rs != [] {
      NoWindowNoRefusal(Step(b, rs[0]).0, rs[1..], key, o, rs[0].now, end);
    }
  }

  lemma SameWithoutDraws(rs: seq<Request>, key: Key, o: Options, start: int)
    requires ClockFrom(start, rs) && Uses(rs, key, o)
    ensures var qs := WithoutDraws(rs);
            && ClockFrom(start, qs) && Uses(qs, key, o) && NoDraw(qs)
            && AcceptedTimes(map[], rs, key) == AcceptedTimes(map[], qs, key)
  {
    var qs := WithoutDraws(rs);
    EvictionInvisible(map[], map[], rs, qs, start);
    TimesFromAnswers(map[], map[], rs, qs, key);
  }

  /** The key's bucket has admitted as many calls as it counts, its cap at most. */
  lemma BucketBound(rs: seq<Request>, key: Key, o: Options, start: int)
    requires ClockFrom(start, rs) && Uses(rs, key, o) && o.window > 0
    ensures var b := After(map[], WithoutDraws(rs));
            key in b ==> InWindow(AcceptedTimes(map[], rs, key), b[key].resetAt - o.window, o.window) == b[key].count <= Cap(o)
  {
    SameWithoutDraws(rs, key, o, start);
    var end := HistoryFromFresh(WithoutDraws(rs), key, o, start);
  }

  /** From a fresh guard, with a clock that does not run backwards and eviction
      at any moments: in every half-open interval of one window length fewer
      than twice the limit of calls for a key are accepted. */
  lemma WindowBound(rs: seq<Request>, key: Key, o: Options, start: int, t: int)
    requires ClockFrom(start, rs) && Uses(rs, key, o)
    ensures InWindow(AcceptedTimes(map[], rs, key), t, o.window) <= WindowMax(o)
  {
    SameWithoutDraws(rs, key, o, start);
    BoundWithoutDraws(WithoutDraws(rs), key, o, start, t);
  }

  // ----- the bound is reached -----

  /** n calls for the key at one moment. */
  function Burst(key: Key, o: Options, t: int, n: nat): (rs: seq<Request>)
    ensures |rs| == n && forall i | 0 <= i < n :: rs[i] == Request(key, t, Some(o), false)
  {
    seq(n, i => Request(key, t, Some(o), false))
  }

  function Repeat(t: int, n: nat): (ts: seq<int>)
    ensures |ts| == n && forall i | 0 <= i < n :: ts[i] == t
  {
    seq(n, i => t)
  }

  lemma {:induction false} CountRepeat(t: int, n: nat, lo: int, hi: int)
    ensures Count(Repeat(t, n), lo, hi) == if lo <= t < hi then n else 0
  {
    if n > 0 {
      assert Repeat(t, n)[..n - 1] == Repeat(t, n - 1);
      CountRepeat(t, n - 1, lo, hi);
    }
  }

  lemma {:induction false} AcceptedAppend(b: Buckets, rs: seq<Request>, qs: seq<Request>, key: Key)
    ensures AcceptedTimes(b, rs + qs, key) == AcceptedTimes(b, rs, key) + AcceptedTimes(After(b, rs), qs, key)
    ensures After(b, rs + qs) == After(After(b, rs), qs)
    decreases |rs|
  {
    if rs == [] {
      assert rs + qs == qs;
    } else {
      assert (rs + qs)[0] == rs[0] && (rs + qs)[1..] == rs[1..] + qs;
      AcceptedAppend(Step(b, rs[0]).0, rs[1..], qs, key);
    }
  }

  /** An open bucket with room takes the whole burst. */
  lemma {:induction false} BurstFits(b: Buckets, key: Key, o: Options, t: int, n: nat)
    requires key in b && t < b[key].resetAt && (n > 0 ==> b[key].count + n <= o.limit)
    ensures AcceptedTimes(b, Burst(key, o, t, n), key) == Repeat(t, n)
    ensures After(b, Burst(key, o, t, n)) == b[key := b[key].(count := b[key].count + n)]
    decreases n
  {
    var rs := Burst(key, o, t, n);
    if n == 0 {
      assert b[key := b[key]] == b;
    } else {
      var c := b[key := b[key].(count := b[key].count + 1)];
      assert rs[1..] == Burst(key, o, t, n - 1) && Step(b, rs[0]) == (c, true);
      BurstFits(c, key, o, t, n - 1);
      assert Repeat(t, n) == [t] + Repeat(t, n - 1);
    }
  }

  /** A burst that finds the bucket expired opens it and fills it up to its cap. */
  lemma BurstOpens(b: Buckets, key: Key, o: Options, t: int, n: nat)
    requires Expired(b, key, t) && o.window > 0 && 1 <= n <= Cap(o)
    ensures AcceptedTimes(b, Burst(key, o, t, n), key) == Repeat(t, n)
    ensures After(b, Burst(key, o, t, n)) == b[key := Bucket(n, t + o.window)]
  {
    var rs := Burst(key, o, t, n);
    var c := b[key := Bucket(1, t + o.window)];
    assert rs[1..] == Burst(key, o, t, n - 1) && Step(b, rs[0]) == (c, true);
    BurstFits(c, key, o, t, n - 1);
    assert Repeat(t, n) == [t] + Repeat(t, n - 1);
    assert c[key := Bucket(n, t + o.window)] == b[key := Bucket(n, t + o.window)];
  }

  /** One call opens a window, the rest of its cap comes in its last moment, and
      a full cap at its end. */
  function Straddle(key: Key, o: Options): seq<Request> {
    Burst(key, o, 0, 1) + (Burst(key, o, o.window - 1, Cap(o) - 1) + Burst(key, o, o.window, Cap(o)))
  }

  lemma StraddleAccepted(key: Key, o: Options)
    requires o.window > 0
    ensures AcceptedTimes(map[], Straddle(key, o), key)
         == Repeat(0, 1) + (Repeat(o.window - 1, Cap(o) - 1) + Repeat(o.window, Cap(o)))
  {
    var b: Buckets := map[];
    var first := Burst(key, o, 0, 1);
    var middle := Burst(key, o, o.window - 1, Cap(o) - 1);
    var last := Burst(key, o, o.window, Cap(o));
    BurstOpens(b, key, o, 0, 1);
    AcceptedAppend(b, first, middle + last, key);
    var c := After(b, first);
    BurstFits(c, key, o, o.window - 1, Cap(o) - 1);
    AcceptedAppend(c, middle, last, key);
    BurstOpens(After(c, middle), key, o, o.window, Cap(o));
  }

  /** For every limit, and every window of at least two clock ticks, the bound
      is reached: all but one call of a full bucket and all of the next one. */
  lemma WindowBoundTight(key: Key, o: Options)
    requires o.window >= 2
    ensures ClockFrom(0, Straddle(key, o)) && Uses(Straddle(key, o), key, o)
    ensures InWindow(AcceptedTimes(map[], Straddle(key, o), key), 1, o.window) == WindowMax(o) == 2 * Cap(o) - 1
  {
    var w, n := o.window, Cap(o);
    StraddleAccepted(key, o);
    CountThree(0, 1, w - 1, n - 1, w, n, 1, 1 + w);
  }

  lemma CountThree(t: int, k: nat, u: int, m: nat, v: int, n: nat, lo: int, hi: int)
    ensures Count(Repeat(t, k) + (Repeat(u, m) + Repeat(v, n)), lo, hi)
         == (if lo <= t < hi then k else 0) + (if lo <= u < hi then m else 0) + if lo <= v < hi then n else 0
  {
    CountConcat(Repeat(t, k), Repeat(u, m) + Repeat(v, n), lo, hi);
    CountConcat(Repeat(u, m), Repeat(v, n), lo, hi);
    CountRepeat(t, k, lo, hi);
    CountRepeat(u, m, lo, hi);
    CountRepeat(v, n, lo, hi);
  }

  /** In no run are more calls than the limit accepted in a window length. */
  ghost predicate NeverOverLimit(key: Key, o: Options) {
    forall rs, start, t | ClockFrom(start, rs) && Uses(rs, key, o) ::
      InWindow(AcceptedTimes(map[], rs, key), t, o.window) <= o.limit
  }

  lemma LimitZeroAdmitsOne(key: Key, o: Options)
    requires o.limit == 0 && o.window > 0
    ensures !NeverOverLimit(key, o)
  {
    var rs := Burst(key, o, 0, 1);
    BurstOpens(map[], key, o, 0, 1);
    CountRepeat(0, 1, 0, o.window);
    assert ClockFrom(0, rs) && Uses(rs, key, o);
    assert InWindow(AcceptedTimes(map[], rs, key), 0, o.window) == 1;
  }

  /** The fixed window keeps the sliding-window promise exactly when windows are
      empty, or at least one call is allowed and either it is the only one or a
      window is a single clock tick. */
  lemma SlidingPromiseHoldsExactlyWhen(key: Key, o: Options)
    ensures NeverOverLimit(key, o)
       <==> o.window == 0 || (o.limit >= 1 && (o.limit == 1 || o.window == 1))
  {
    if o.window == 0 {
      forall rs, start, t | ClockFrom(start, rs) && Uses(rs, key, o)
        ensures InWindow(AcceptedTimes(map[], rs, key), t, o.window) <= o.limit
      {
        CountNone(AcceptedTimes(map[], rs, key), t, t);
      }
    } else if o.limit == 0 {
      LimitZeroAdmitsOne(key, o);
    } else if o.limit == 1 || o.window == 1 {
      forall rs, start, t | ClockFrom(start, rs) && Uses(rs, key, o)
        ensures InWindow(AcceptedTimes(map[], rs, key), t, o.window) <= o.limit
      {
        WindowBound(rs, key, o, start, t);
      }
    } else {
      WindowBoundTight(key, o);
    }
  }

  // ----- a clock that steps back -----

  /** m calls of other keys at time 0. */
  function Crowd(key: Key, o: Options, m: nat): (rs: seq<Request>)
    ensures |rs| == m && forall i | 0 <= i < m :: rs[i] == Request(key + 1 + i, 0, Some(o), false)
  {
    seq(m, i requires 0 <= i < m => Request(key + 1 + i, 0, Some(o), false))
  }

  function Evictor(key: Key): Key {
    key + EVICTION_THRESHOLD + 1
  }

  /** The map fills up, a later call evicts what has expired by then, and the clock
      steps back to 0 for a call of the key. */
  function Round(key: Key, o: Options, now: int): seq<Request> {
    Crowd(key, o, EVICTION_THRESHOLD) + [Request(Evictor(key), now, Some(o), true), Request(key, 0, Some(o), false)]
  }

  function Rounds(key: Key, o: Options, now: int, n: nat): seq<Request>
    decreases n
  {
    if n == 0 then [] else Round(key, o, now) + Rounds(key, o, now + o.window, n - 1)
  }

  lemma {:induction false} CrowdFills(b: Buckets, key: Key, o: Options, m: nat, now: int)
    requires o.window <= now && forall k | k in b :: b[k].resetAt <= now && !(key < k <= key + m)
    ensures var c := After(b, Crowd(key, o, m));
            |c| >= m && forall k | k in c :: c[k].resetAt <= now && (k in b || key < k <= key + m)
    ensures AcceptedTimes(b, Crowd(key, o, m), key) == []
    decreases m
  {
    if m > 0 {
      var rs, last := Crowd(key, o, m - 1), Request(key + m, 0, Some(o), false);
      assert Crowd(key, o, m) == rs + [last];
      CrowdFills(b, key, o, m - 1, now);
      AcceptedAppend(b, rs, [last], key);
      AfterOne(After(b, rs), last, key);
    }
  }

  lemma AfterOne(b: Buckets, r: Request, key: Key)
    ensures After(b, [r]) == Step(b, r).0
    ensures AcceptedTimes(b, [r], key) == if r.key == key && Step(b, r).1 then [r.now] else []
  {
    assert [r][1..] == [];
    assert After(Step(b, r).0, []) == Step(b, r).0 && AcceptedTimes(Step(b, r).0, [], key) == [];
  }

  /** Before a round the map holds at most the key and the evictor, both expired
      when the evictor calls. */
  predicate Ready(b: Buckets, key: Key, now: int) {
    forall k | k in b :: (k == key || k == Evictor(key)) && b[k].resetAt <= now
  }

  lemma EvictsAll(c: Buckets, key: Key, o: Options, now: int)
    requires o.window > 0 && |c| >= EVICTION_THRESHOLD && forall k | k in c :: c[k].resetAt <= now
    ensures Step(c, Request(Evictor(key), now, Some(o), true)) == (map[Evictor(key) := Bucket(1, now + o.window)], true)
  {
    var updated := c[Evictor(key) := Bucket(1, now + o.window)];
    SubsetSize(c.Keys, updated.Keys);
    assert |updated| == |updated.Keys| >= |c.Keys| == |c|;
    assert Evicted(updated, now) == map[Evictor(key) := Bucket(1, now + o.window)];
  }

  lemma SubsetSize<T>(a: set<T>, b: set<T>)
    requires a <= b
    ensures |a| <= |b|
  {
    assert b == a + (b - a);
  }

  lemma RoundAdmits(b: Buckets, key: Key, o: Options, now: int)
    requires Ready(b, key, now) && 0 < o.window <= now
    ensures AcceptedTimes(b, Round(key, o, now), key) == [0]
    ensures Ready(After(b, Round(key, o, now)), key, now + o.window)
  {
    var crowd, evict, call := Crowd(key, o, EVICTION_THRESHOLD), Request(Evictor(key), now, Some(o), true), Request(key, 0, Some(o), false);
    CrowdFills(b, key, o, EVICTION_THRESHOLD, now);
    AcceptedAppend(b, crowd, [evict, call], key);
    var c := After(b, crowd);
    EvictsAll(c, key, o, now);
    assert [evict, call] == [evict] + [call];
    AcceptedAppend(c, [evict], [call], key);
    AfterOne(c, evict, key);
    AfterOne(Step(c, evict).0, call, key);
  }

  lemma {:induction false} RoundsAdmit(b: Buckets, key: Key, o: Options, now: int, n: nat)
    requires Ready(b, key, now) && 0 < o.window <= now
    ensures AcceptedTimes(b, Rounds(key, o, now, n), key) == Repeat(0, n)
    ensures Uses(Rounds(key, o, now, n), key, o)
    decreases n
  {
    if n > 0 {
      var first, rest := Round(key, o, now), Rounds(key, o, now + o.window, n - 1);
      RoundAdmits(b, key, o, now);
      AcceptedAppend(b, first, rest, key);
      RoundsAdmit(After(b, first), key, o, now + o.window, n - 1);
      assert Repeat(0, n) == [0] + Repeat(0, n - 1);
    }
  }

  /** No run, whatever its clock, has more than m calls accepted in a window length. */
  ghost predicate BoundedOnAnyClock(key: Key, o: Options, m: nat) {
    forall rs, t | Uses(rs, key, o) :: InWindow(AcceptedTimes(map[], rs, key), t, o.window) <= m
  }

  /** The bound on a window rests on the clock: if it may step back, then no
      number bounds the calls accepted in a window length, unless windows are
      empty. */
  lemma AnyClockBoundedExactlyWhen(key: Key, o: Options, m: nat)
    ensures BoundedOnAnyClock(key, o, m) <==> o.window == 0
  {
    if o.window == 0 {
      forall rs, t | Uses(rs, key, o) ensures InWindow(AcceptedTimes(map[], rs, key), t, o.window) <= m {
        CountNone(AcceptedTimes(map[], rs, key), t, t);
      }
    } else {
      var rs := Rounds(key, o, o.window, m + 1);
      RoundsAdmit(map[], key, o, o.window, m + 1);
      CountRepeat(0, m + 1, 0, o.window);
      assert InWindow(AcceptedTimes(map[], rs, key), 0, o.window) == m + 1;
    }
  }

  function RaiseZero(r: Request): Request {
    if r.options.Some? && r.options.value.limit == 0 then r.(options := Some(r.options.value.(limit := 1))) else r
  }

  function Raised(rs: seq<Request>): (qs: seq<Request>)
    ensures |qs| == |rs| && forall i | 0 <= i < |rs| :: qs[i] == RaiseZero(rs[i])
  {
    seq(|rs|, i requires 0 <= i < |rs| => RaiseZero(rs[i]))
  }

  predicate Counted(b: Buckets) {
    forall k | k in b :: b[k].count >= 1
  }

  /** A limit of 0 admits one call per window: it acts as a limit of 1. */
  lemma {:induction false} ZeroActsAsOne(b: Buckets, rs: seq<Request>)
    requires Counted(b)
    ensures Answers(b, rs) == Answers(b, Raised(rs))
    decreases |rs|
  {
    if rs != [] {
      var c := Step(b, rs[0]).0;
      assert Step(b, RaiseZero(rs[0])) == Step(b, rs[0]) && Counted(c);
      ZeroActsAsOne(c, rs[1..]);
      assert Raised(rs)[1..] == Raised(rs[1..]);
    }
  }

  // ----- the code -----

  class RateLimitGuard {
    var buckets: Buckets

    constructor ()
      ensures buckets == map[]
    {
      buckets := map[];
    }

    /** Returns true to admit the request, false for a 429. */
    method CanActivate(r: Request) returns (admitted: bool)
      modifies this
      ensures (buckets, admitted) == Step(old(buckets), r)
      ensures r.options == None ==> admitted && buckets == old(buckets)
    {
      if r.options.None? { return true; }
      var options := r.options.value;
      if r.key !in buckets || buckets[r.key].resetAt <= r.now {
        buckets := buckets[r.key := Bucket(1, r.now + options.window)];
        MaybeEvictExpired(r.now, r.draw);
        return true;
      }
      var existing := buckets[r.key];
      if existing.count >= options.limit { return false; }
      buckets := buckets[r.key := existing.(count := existing.count + 1)];
      return true;
    }

    method MaybeEvictExpired(now: int, draw: bool)
      modifies this
      ensures buckets == if |old(buckets)| < EVICTION_THRESHOLD || !draw then old(buckets) else Evicted(old(buckets), now)
      ensures forall k :: k in buckets <==> k in old(buckets) && (|old(buckets)| < 10_000 || !draw || old(buckets)[k].resetAt > now)
      ensures forall k | k in buckets :: buckets[k] == old(buckets)[k]
    {
      if |buckets| < EVICTION_THRESHOLD || !draw { return; }
      ghost var all := buckets;
      var todo := buckets.Keys;
      while todo != {}
        invariant todo <= all.Keys
        invariant buckets == map k | k in all && (k in todo || all[k].resetAt > now) :: all[k]
        decreases |todo|
      {
        var key :| key in todo;
        if buckets[key].resetAt <= now {
          buckets := buckets - {key};
        }
        todo := todo - {key};
      }
    }
  }
}
