/** What it means for a stream of timed amounts to respect a rate and a burst. */
module RateWindows {

  /** What the rate brings in a span of time. */
  function Gain(span: real, rate: real): real {
    span * rate
  }

  lemma GainIs(span: real, rate: real)
    ensures Gain(span, rate) == span * rate
  {
  }

  lemma GainAdds(a: real, b: real, rate: real)
    ensures Gain(a + b, rate) == Gain(a, rate) + Gain(b, rate)
    ensures Gain(0.0, rate) == 0.0
  {
  }

  lemma GainGrows(a: real, b: real, rate: real)
    requires rate >= 0.0 && a <= b
    ensures Gain(a, rate) <= Gain(b, rate)
  {
    var d := b - a;
    assert d * rate >= 0.0;
    assert b * rate == a * rate + d * rate;
  }

  function Total(xs: seq<real>): real {
    if xs == [] then 0.0 else xs[0] + Total(xs[1..])
  }

  predicate Nondecreasing(ts: seq<real>) {
    forall i, j :: 0 <= i <= j < |ts| ==> ts[i] <= ts[j]
  }

  predicate NonNegative(xs: seq<real>) {
    forall i :: 0 <= i < |xs| ==> xs[i] >= 0.0
  }

  /** From any of the events to any later one, both included, no more than a burst plus what
      the rate allows for the time between them. */
  ghost predicate Bounded(ts: seq<real>, xs: seq<real>, rate: real, burst: real)
    requires |ts| == |xs|
  {
    forall i, j :: 0 <= i <= j < |ts| ==> Total(xs[i..j + 1]) <= burst + Gain(ts[j] - ts[i], rate)
  }

  /** The sum of the amounts whose time lies in [lo, hi]. */
  function TotalWithin(ts: seq<real>, xs: seq<real>, lo: real, hi: real): real
    requires |ts| == |xs|
  {
    if ts == [] then 0.0
    else (if lo <= ts[0] <= hi then xs[0] else 0.0) + TotalWithin(ts[1..], xs[1..], lo, hi)
  }

  lemma {:induction false} TotalAppend(xs: seq<real>, ys: seq<real>)
    ensures Total(xs + ys) == Total(xs) + Total(ys)
  {
    if xs == [] {
      assert xs + ys == ys;
    } else {
      assert (xs + ys)[1..] == xs[1..] + ys;
      TotalAppend(xs[1..], ys);
    }
  }

  /** The events of a window are consecutive. */
  lemma {:induction false} WindowIsSlice(ts: seq<real>, xs: seq<real>, lo: real, hi: real) returns (i: nat, j: nat)
    requires |ts| == |xs| && Nondecreasing(ts) && lo <= hi
    ensures i <= j <= |ts| && TotalWithin(ts, xs, lo, hi) == Total(xs[i..j])
    ensures forall k :: i <= k < j ==> lo <= ts[k] <= hi
    ensures ts != [] && lo <= ts[0] ==> i == 0
    ensures ts != [] && hi < ts[0] ==> j == 0
    decreases |ts|
  {
    if ts == [] {
      i, j := 0, 0;
    } else {
      var a, b := WindowIsSlice(ts[1..], xs[1..], lo, hi);
      if ts[0] < lo {
        i, j := a + 1, b + 1;
        TailSlice(xs, a, b);
      } else if ts[0] <= hi {
        i, j := 0, b + 1;
        assert ts[1..] != [] ==> lo <= ts[1..][0];
        assert a == 0;
        TailSlice(xs, 0, b);
        assert xs[0..j] == [xs[0]] + xs[1..j];
        assert xs[1..][0..b] == xs[1..j];
        TotalAppend([xs[0]], xs[1..][0..b]);
        assert xs[0..j][1..] == xs[1..][0..b];
      } else {
        i, j := 0, 0;
        assert ts[1..] != [] ==> hi < ts[1..][0];
        assert xs[1..][a..b] == [];
      }
    }
  }

  lemma TailSlice<T>(xs: seq<T>, a: nat, b: nat)
    requires xs != [] && a <= b < |xs|
    ensures xs[1..][a..b] == xs[a + 1..b + 1]
  {
  }

  /** Every window of length hi - lo holds at most a burst plus the rate times its length. */
  lemma {:induction false} WindowTotal(ts: seq<real>, xs: seq<real>, rate: real, burst: real, lo: real, hi: real)
    requires |ts| == |xs| && Nondecreasing(ts) && Bounded(ts, xs, rate, burst)
    requires rate >= 0.0 && burst >= 0.0 && lo <= hi
    ensures TotalWithin(ts, xs, lo, hi) <= burst + Gain(hi - lo, rate)
  {
    hide Gain;
    var i, j := WindowIsSlice(ts, xs, lo, hi);
    GainAdds(0.0, 0.0, rate);
    if i < j {
      var last := j - 1;
      assert xs[i..last + 1] == xs[i..j];
      assert Total(xs[i..last + 1]) <= burst + Gain(ts[last] - ts[i], rate);
      GainGrows(ts[last] - ts[i], hi - lo, rate);
    } else {
      assert xs[i..j] == [];
      GainGrows(0.0, hi - lo, rate);
    }
  }
}
