/** Counting the moments of a sequence that fall in an interval. */
module Times {

  /** How many of the times lie in [lo, hi). */
  function Count(ts: seq<int>, lo: int, hi: int): nat {
    if ts == [] then 0
    else Count(ts[..|ts| - 1], lo, hi) + if lo <= ts[|ts| - 1] < hi then 1 else 0
  }

  /** How many lie in the half-open interval of length w that starts at t. */
  function InWindow(ts: seq<int>, t: int, w: nat): nat {
    Count(ts, t, t + w)
  }

  lemma CountAppend(ts: seq<int>, t: int, lo: int, hi: int)
    ensures Count(ts + [t], lo, hi) == Count(ts, lo, hi) + if lo <= t < hi then 1 else 0
  {
    assert (ts + [t])[..|ts|] == ts;
  }

  lemma {:induction false} CountConcat(a: seq<int>, b: seq<int>, lo: int, hi: int)
    ensures Count(a + b, lo, hi) == Count(a, lo, hi) + Count(b, lo, hi)
  {
    if b == [] {
      assert a + b == a;
    } else {
      assert (a + b)[..|a + b| - 1] == a + b[..|b| - 1];
      CountConcat(a, b[..|b| - 1], lo, hi);
    }
  }

  lemma {:induction false} CountSplit(ts: seq<int>, lo: int, mid: int, hi: int)
    requires lo <= mid <= hi
    ensures Count(ts, lo, hi) == Count(ts, lo, mid) + Count(ts, mid, hi)
  {
    if ts != [] { CountSplit(ts[..|ts| - 1], lo, mid, hi); }
  }

  lemma {:induction false} CountWithin(ts: seq<int>, lo: int, hi: int, lo': int, hi': int)
    requires forall i | 0 <= i < |ts| :: lo <= ts[i] < hi ==> lo' <= ts[i] < hi'
    ensures Count(ts, lo, hi) <= Count(ts, lo', hi')
  {
    if ts != [] { CountWithin(ts[..|ts| - 1], lo, hi, lo', hi'); }
  }

  lemma {:induction false} CountNone(ts: seq<int>, lo: int, hi: int)
    requires forall i | 0 <= i < |ts| :: !(lo <= ts[i] < hi)
    ensures Count(ts, lo, hi) == 0
  {
    if ts != [] { CountNone(ts[..|ts| - 1], lo, hi); }
  }

  /** Each moment comes at least `gap` after the one before. */
  predicate Spaced(ts: seq<int>, gap: nat) {
    forall i | 0 < i < |ts| :: ts[i - 1] + gap <= ts[i]
  }

  lemma {:induction false} SpacedMonotone(ts: seq<int>, gap: nat, i: nat)
    requires Spaced(ts, gap) && i < |ts|
    ensures ts[i] <= ts[|ts| - 1]
    decreases |ts| - i
  {
    if i + 1 < |ts| { SpacedMonotone(ts, gap, i + 1); }
  }

  /** Moments spaced by `gap` fall at most n times in a half-open interval of
      n gaps. */
  lemma {:induction false} CountSpaced(ts: seq<int>, gap: nat, lo: int, n: nat)
    requires Spaced(ts, gap) && gap > 0
    ensures Count(ts, lo, lo + n * gap) <= n
    decreases |ts|, n
  {
    if ts != [] {
      var last := ts[|ts| - 1];
      var before := ts[..|ts| - 1];
      var hi := lo + n * gap;
      if last < lo || hi <= last {
        CountSpaced(before, gap, lo, n);
      } else {
        var earlier := lo + (n - 1) * gap;
        assert earlier + gap == hi;
        CountSpaced(before, gap, lo, n - 1);
        forall i | 0 <= i < |before| ensures lo <= before[i] < hi ==> lo <= before[i] < earlier {
          SpacedMonotone(before, gap, i);
          assert before[|before| - 1] + gap <= last;
        }
        CountWithin(before, lo, hi, lo, earlier);
      }
    }
  }
}
