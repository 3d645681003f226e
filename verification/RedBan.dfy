/** redban's reserving token bucket, whose state is a file. Instead of refusing, Take says
    how long to wait: it moves `last` to the moment the tokens will be there. Times are
    reals in seconds; the clock is a parameter and does not run backwards. */
module RedBan {
  import opened Common
  import opened RateWindows

  datatype Saved = Saved(tokens: real, at: real)

  /** The files of the machine; "" names no file. */
  class Disk {
    var files: map<string, Saved>
  }

  /** Take on the two state fields. */
  function TakeStep(b: Saved, n: real, now: real, rate: real, burst: real): (Saved, real)
    requires rate > 0.0
  {
    var tokens := Min(burst, b.tokens + Gain(now - b.at, rate));
    if tokens >= n then (Saved(tokens - n, now), 0.0)
    else
      var wait := (n - tokens) / rate;
      (Saved(0.0, now + wait), wait)
  }

  class Bucket {
    const rate: real
    const burst: real
    const file: string
    var tokens: real
    var last: real

    ghost function Value(): Saved
      reads this
    {
      Saved(tokens, last)
    }

    /** A file that is there always holds a time, so only a missing file leaves `last` unset. */
    constructor Open(path: string, perMinute: real, burst: real, now: real, disk: Disk)
      ensures rate == perMinute / 60.0 && this.burst == burst && file == path
      ensures Value() == Opened(disk.files, path, burst, now)
    {
      rate, this.burst, file := perMinute / 60.0, burst, path;
      if path != "" && path in disk.files {
        tokens, last := disk.files[path].tokens, disk.files[path].at;
      } else {
        tokens, last := burst, now;
      }
    }

    method Take(n: real, now: real, disk: Disk) returns (wait: real)
      requires rate > 0.0
      modifies this, disk
      ensures (Value(), wait) == TakeStep(old(Value()), n, now, rate, burst)
      ensures disk.files == Written(old(disk.files), file, Value())
    {
      var elapsed := now - last;
      tokens := tokens + Gain(elapsed, rate);
      if tokens > burst {
        tokens := burst;
      }
      last := now;
      if tokens >= n {
        tokens := tokens - n;
        SaveLocked(disk);
        return 0.0;
      }
      var need := n - tokens;
      wait := need / rate;
      tokens := 0.0;
      last := now + wait;
      SaveLocked(disk);
    }

    method SaveLocked(disk: Disk)
      modifies disk
      ensures disk.files == Written(old(disk.files), file, Value())
    {
      if file != "" {
        disk.files := disk.files[file := Saved(tokens, last)];
      }
    }
  }

  function Opened(files: map<string, Saved>, path: string, burst: real, now: real): Saved {
    if path != "" && path in files then files[path] else Saved(burst, now)
  }

  function Written(files: map<string, Saved>, path: string, b: Saved): map<string, Saved> {
    if path != "" then files[path := b] else files
  }

  // ---------- one rule for both branches ----------

  /** The balance at any time, as if tokens had kept arriving since `at`: negative while
      earlier takes are still owed. */
  function Balance(b: Saved, t: real, rate: real): real {
    b.tokens + Gain(t - b.at, rate)
  }

  lemma QuotientGain(x: real, rate: real)
    requires rate > 0.0
    ensures Gain(x / rate, rate) == x
    ensures x >= 0.0 ==> x / rate >= 0.0
    ensures x > 0.0 ==> x / rate > 0.0
  {
  }

  /** Both branches of Take apply one rule: cap the balance, subtract n, and wait until what
      is left is no longer negative. */
  lemma OneRule(b: Saved, n: real, now: real, rate: real, burst: real)
    requires rate > 0.0
    ensures var (b', wait) := TakeStep(b, n, now, rate, burst);
            && Balance(b', now, rate) == Min(burst, Balance(b, now, rate)) - n
            && wait == (if Balance(b', now, rate) < 0.0 then -Balance(b', now, rate) / rate else 0.0)
            && wait >= 0.0
  {
    hide Gain;
    var tokens := Min(burst, Balance(b, now, rate));
    GainAdds(0.0, 0.0, rate);
    if tokens < n {
      var wait := (n - tokens) / rate;
      QuotientGain(n - tokens, rate);
      GainAdds(wait, -wait, rate);
      assert wait + -wait == 0.0;
      assert now - (now + wait) == -wait;
      assert TakeStep(b, n, now, rate, burst).0 == Saved(0.0, now + wait);
      assert Balance(TakeStep(b, n, now, rate, burst).0, now, rate) == tokens - n;
    } else {
      assert now - now == 0.0;
    }
  }

  // ---------- runs ----------

  datatype Taking = Taking(n: real, at: real)

  /** The state after a run of takes and the moments at which each may go ahead. */
  function Run(b: Saved, takes: seq<Taking>, rate: real, burst: real): (r: (Saved, seq<real>))
    requires rate > 0.0
    ensures |r.1| == |takes|
  {
    if takes == [] then (b, [])
    else
      var (before, releases) := Run(b, takes[..|takes| - 1], rate, burst);
      var last := takes[|takes| - 1];
      var (after, wait) := TakeStep(before, last.n, last.at, rate, burst);
      (after, releases + [last.at + wait])
  }

  function Amounts(takes: seq<Taking>): (r: seq<real>)
    ensures |r| == |takes| && forall i :: 0 <= i < |r| ==> r[i] == takes[i].n
  {
    seq(|takes|, i requires 0 <= i < |takes| => takes[i].n)
  }

  /** The clock does not run backwards and nobody takes a negative amount. */
  predicate Proper(takes: seq<Taking>) {
    && (forall i, j :: 0 <= i <= j < |takes| ==> takes[i].at <= takes[j].at)
    && (forall i :: 0 <= i < |takes| ==> takes[i].n >= 0.0)
  }

  /** At its release a take leaves what is left of the balance, and never less than zero. */
  lemma AtRelease(b: Saved, take: Taking, rate: real, burst: real)
    requires rate > 0.0
    ensures var (b', wait) := TakeStep(b, take.n, take.at, rate, burst);
            var now := Balance(b', take.at, rate);
            Balance(b', take.at + wait, rate) == if now < 0.0 then 0.0 else now
  {
    OneRule(b, take.n, take.at, rate, burst);
    var (b', wait) := TakeStep(b, take.n, take.at, rate, burst);
    QuotientGain(-Balance(b', take.at, rate), rate);
    BalanceLater(b', take.at, take.at + wait, rate);
    hide Gain, TakeStep;
    assert take.at + wait - take.at == wait;
    GainAdds(0.0, 0.0, rate);
  }

  lemma BalanceLater(b: Saved, t: real, u: real, rate: real)
    ensures Balance(b, u, rate) == Balance(b, t, rate) + Gain(u - t, rate)
  {
    hide Gain;
    GainAdds(t - b.at, u - t, rate);
    assert (t - b.at) + (u - t) == u - b.at;
  }

  /** Two takes in a row: the second is released no earlier, and the balance at its release
      is at most the balance at the first release plus the gain minus the amount. */
  lemma NextRelease(b: Saved, first: Taking, second: Taking, rate: real, burst: real)
    requires rate > 0.0 && first.at <= second.at && second.n >= 0.0
    ensures var (b1, w1) := TakeStep(b, first.n, first.at, rate, burst);
            var (b2, w2) := TakeStep(b1, second.n, second.at, rate, burst);
            && first.at + w1 <= second.at + w2
            && Balance(b2, second.at + w2, rate) <=
               Balance(b1, first.at + w1, rate) + Gain(second.at + w2 - (first.at + w1), rate) - second.n
  {
    var (b1, w1) := TakeStep(b, first.n, first.at, rate, burst);
    var (b2, w2) := TakeStep(b1, second.n, second.at, rate, burst);
    var r1, r2 := first.at + w1, second.at + w2;
    OneRule(b1, second.n, second.at, rate, burst);
    AtRelease(b, first, rate, burst);
    AtRelease(b1, second, rate, burst);
    OneRule(b, first.n, first.at, rate, burst);
    BalanceLater(b1, r1, second.at, rate);
    BalanceLater(b2, second.at, r2, rate);
    hide Gain, TakeStep, Balance;
    GainAdds(second.at - r1, r2 - second.at, rate);
    assert (second.at - r1) + (r2 - second.at) == r2 - r1;
    if r2 < r1 {
      GainNegative(r2 - r1, rate);
      assert false;
    }
  }

  lemma GainNegative(span: real, rate: real)
    requires rate > 0.0 && span < 0.0
    ensures Gain(span, rate) < 0.0
  {
  }

  lemma ProperPrefix(takes: seq<Taking>, m: nat)
    requires Proper(takes) && m <= |takes|
    ensures Proper(takes[..m])
  {
  }

  /** The balance at the release of the last take. */
  function AtLast(b: Saved, takes: seq<Taking>, rate: real, burst: real): real
    requires rate > 0.0 && takes != []
  {
    var (after, releases) := Run(b, takes, rate, burst);
    Balance(after, releases[|takes| - 1], rate)
  }

  lemma LastBounds(b: Saved, takes: seq<Taking>, rate: real, burst: real)
    requires rate > 0.0 && takes != []
    ensures AtLast(b, takes, rate, burst) >= 0.0
    ensures takes[|takes| - 1].n <= burst ==> AtLast(b, takes, rate, burst) <= burst - takes[|takes| - 1].n
  {
    var last := takes[|takes| - 1];
    var before := Run(b, takes[..|takes| - 1], rate, burst).0;
    hide Gain, TakeStep, Balance;
    AtRelease(before, last, rate, burst);
    OneRule(before, last.n, last.at, rate, burst);
  }

  lemma RunMore(b: Saved, takes: seq<Taking>, rate: real, burst: real)
    requires rate > 0.0 && takes != []
    ensures var m := |takes|;
            var (before, releases) := Run(b, takes[..m - 1], rate, burst);
            var (after, wait) := TakeStep(before, takes[m - 1].n, takes[m - 1].at, rate, burst);
            Run(b, takes, rate, burst) == (after, releases + [takes[m - 1].at + wait])
  {
  }

  /** The last two takes of a run. */
  lemma LastTwo(b: Saved, takes: seq<Taking>, rate: real, burst: real)
    requires rate > 0.0 && Proper(takes) && |takes| > 1
    ensures var m := |takes|;
            var releases := Run(b, takes, rate, burst).1;
            && Run(b, takes[..m - 1], rate, burst).1 == releases[..m - 1]
            && releases[m - 2] <= releases[m - 1]
            && AtLast(b, takes, rate, burst) <=
               AtLast(b, takes[..m - 1], rate, burst) + Gain(releases[m - 1] - releases[m - 2], rate) - takes[m - 1].n
  {
    var m := |takes|;
    var shorter := takes[..m - 1];
    assert shorter[..m - 2] == takes[..m - 2] && shorter[m - 2] == takes[m - 2];
    hide Gain, TakeStep, Balance, Run;
    RunMore(b, takes, rate, burst);
    RunMore(b, shorter, rate, burst);
    NextRelease(Run(b, takes[..m - 2], rate, burst).0, takes[m - 2], takes[m - 1], rate, burst);
  }

  /** Releases never go backwards. */
  lemma {:induction false} ReleasesInOrder(b: Saved, takes: seq<Taking>, rate: real, burst: real)
    requires rate > 0.0 && Proper(takes)
    ensures Nondecreasing(Run(b, takes, rate, burst).1)
    decreases |takes|
  {
    if |takes| > 1 {
      var m := |takes|;
      var releases := Run(b, takes, rate, burst).1;
      ReleasesInOrder(b, takes[..m - 1], rate, burst);
      LastTwo(b, takes, rate, burst);
      hide Run, Gain, AtLast;
      forall i, j | 0 <= i <= j < m ensures releases[i] <= releases[j] {
        if i < j == m - 1 {
          assert releases[..m - 1][i] <= releases[..m - 1][m - 2];
        } else if j < m - 1 {
          assert releases[..m - 1][i] <= releases[..m - 1][j];
        }
      }
    }
  }

  /** Between two releases at most the gain is handed out beyond what was left. */
  lemma {:induction false} HandedOut(b: Saved, takes: seq<Taking>, i: nat, rate: real, burst: real)
    requires rate > 0.0 && Proper(takes) && i < |takes|
    ensures var m := |takes|;
            var releases := Run(b, takes, rate, burst).1;
            && Run(b, takes[..i + 1], rate, burst).1 == releases[..i + 1]
            && AtLast(b, takes, rate, burst) <=
               AtLast(b, takes[..i + 1], rate, burst) + Gain(releases[m - 1] - releases[i], rate)
               - Total(Amounts(takes)[i + 1..])
    decreases |takes|
  {
    var m := |takes|;
    var releases := Run(b, takes, rate, burst).1;
    if i == m - 1 {
      assert takes[..i + 1] == takes;
      assert Amounts(takes)[i + 1..] == [] && releases[..i + 1] == releases;
      assert releases[m - 1] - releases[i] == 0.0;
      hide Run, AtLast;
      GainAdds(0.0, 0.0, rate);
    } else {
      var shorter := takes[..m - 1];
      HandedOut(b, shorter, i, rate, burst);
      LastTwo(b, takes, rate, burst);
      hide Run, AtLast, Gain, Amounts;
      assert shorter[..i + 1] == takes[..i + 1];
      AmountsSplit(takes, i + 1);
      assert releases[..m - 1][..i + 1] == releases[..i + 1];
      GainAdds(releases[m - 2] - releases[i], releases[m - 1] - releases[m - 2], rate);
      assert (releases[m - 2] - releases[i]) + (releases[m - 1] - releases[m - 2]) == releases[m - 1] - releases[i];
    }
  }

  lemma AmountsSplit(takes: seq<Taking>, k: nat)
    requires k < |takes|
    ensures Total(Amounts(takes)[k..]) == Total(Amounts(takes[..|takes| - 1])[k..]) + takes[|takes| - 1].n
  {
    var xs, ys := Amounts(takes)[k..], Amounts(takes[..|takes| - 1])[k..];
    var last := [takes[|takes| - 1].n];
    assert xs == ys + last;
    TotalAppend(ys, last);
    assert last[1..] == [];
  }

  /** From any take to any later one, both counted. */
  lemma SliceBound(b: Saved, takes: seq<Taking>, i: nat, j: nat, rate: real, burst: real)
    requires rate > 0.0 && Proper(takes) && i <= j < |takes| && takes[i].n <= burst
    ensures var releases := Run(b, takes, rate, burst).1;
            Total(Amounts(takes)[i..j + 1]) <= burst + Gain(releases[j] - releases[i], rate)
  {
    hide AtLast, Gain, Amounts, Total, TakeStep, Balance;
    var upTo := takes[..j + 1];
    var releases := Run(b, takes, rate, burst).1;
    ProperPrefix(takes, j + 1);
    HandedOut(b, takes, j, rate, burst);
    HandedOut(b, upTo, i, rate, burst);
    LastBounds(b, upTo, rate, burst);
    assert upTo[..i + 1][i] == takes[i];
    LastBounds(b, upTo[..i + 1], rate, burst);
    AmountsSlice(takes, i, j);
    hide Run;
    assert releases[..j + 1][i] == releases[i] && releases[..j + 1][j] == releases[j];
  }

  lemma AmountsSlice(takes: seq<Taking>, i: nat, j: nat)
    requires i <= j < |takes|
    ensures Total(Amounts(takes)[i..j + 1]) == takes[i].n + Total(Amounts(takes[..j + 1])[i + 1..])
  {
    var xs := Amounts(takes)[i..j + 1];
    assert xs[1..] == Amounts(takes[..j + 1])[i + 1..];
  }

  /** Takes of at most the burst each, and only those, keep every window of releases within
      the burst plus the gain of the window. */
  lemma BoundedIffSmallTakes(b: Saved, takes: seq<Taking>, rate: real, burst: real)
    requires rate > 0.0 && Proper(takes)
    ensures Bounded(Run(b, takes, rate, burst).1, Amounts(takes), rate, burst) <==>
            forall k :: 0 <= k < |takes| ==> takes[k].n <= burst
  {
    var releases, xs := Run(b, takes, rate, burst).1, Amounts(takes);
    if forall k :: 0 <= k < |takes| ==> takes[k].n <= burst {
      forall i, j | 0 <= i <= j < |takes|
        ensures Total(xs[i..j + 1]) <= burst + Gain(releases[j] - releases[i], rate)
      {
        SliceBound(b, takes, i, j, rate, burst);
      }
    }
    if Bounded(releases, xs, rate, burst) {
      forall k | 0 <= k < |takes| ensures takes[k].n <= burst {
        BoundedSingle(releases, xs, k, rate, burst);
      }
    }
  }

  lemma BoundedSingle(ts: seq<real>, xs: seq<real>, k: nat, rate: real, burst: real)
    requires |ts| == |xs| && Bounded(ts, xs, rate, burst) && k < |xs|
    ensures xs[k] <= burst
  {
    var t := ts[k];
    assert Total(xs[k..k + 1]) <= burst + Gain(t - t, rate);
    SingleSlice(xs, k);
  }

  lemma SingleSlice(xs: seq<real>, k: nat)
    requires k < |xs|
    ensures Total(xs[k..k + 1]) == xs[k]
  {
    assert xs[k..k + 1] == [xs[k]];
    assert [xs[k]][1..] == [];
  }

  /** Any window of time of any length. */
  lemma WindowBound(b: Saved, takes: seq<Taking>, rate: real, burst: real, lo: real, hi: real)
    requires rate > 0.0 && burst >= 0.0 && Proper(takes) && lo <= hi
    requires forall k :: 0 <= k < |takes| ==> takes[k].n <= burst
    ensures TotalWithin(Run(b, takes, rate, burst).1, Amounts(takes), lo, hi) <= burst + (hi - lo) * rate
  {
    hide *;
    GainIs(hi - lo, rate);
    BoundedIffSmallTakes(b, takes, rate, burst);
    ReleasesInOrder(b, takes, rate, burst);
    WindowTotal(Run(b, takes, rate, burst).1, Amounts(takes), rate, burst, lo, hi);
  }

  // ---------- restarts ----------

  datatype Event = TakeAt(n: real, at: real) | RestartAt(at: real)

  /** The process's bucket, the files, and the waits handed out so far; a restart forgets
      the bucket and opens the file again. */
  function RunWithRestarts(files: map<string, Saved>, path: string, start: real, events: seq<Event>,
                           rate: real, burst: real): (Saved, map<string, Saved>, seq<real>)
    requires rate > 0.0
  {
    if events == [] then (Opened(files, path, burst, start), files, [])
    else
      var (b, now, waits) := RunWithRestarts(files, path, start, events[..|events| - 1], rate, burst);
      match events[|events| - 1]
      case RestartAt(at) => (Opened(now, path, burst, at), now, waits)
      case TakeAt(n, at) =>
        var (after, wait) := TakeStep(b, n, at, rate, burst);
        (after, Written(now, path, after), waits + [wait])
  }

  /** The same run of a process that is never restarted. */
  function TakesOf(events: seq<Event>): seq<Event> {
    if events == [] then []
    else
      var earlier, last := TakesOf(events[..|events| - 1]), events[|events| - 1];
      if last.TakeAt? then earlier + [last] else earlier
  }

  predicate Ordered(start: real, events: seq<Event>) {
    && (forall i, j :: 0 <= i <= j < |events| ==> events[i].at <= events[j].at)
    && (forall i :: 0 <= i < |events| ==> start <= events[i].at)
  }

  /** Two buckets no later take can tell apart. */
  predicate Alike(a: Saved, b: Saved, now: real, burst: real) {
    a == b || (a.tokens == b.tokens == burst && a.at <= now && b.at <= now)
  }

  lemma AlikeTake(a: Saved, b: Saved, n: real, now: real, rate: real, burst: real)
    requires rate > 0.0 && Alike(a, b, now, burst)
    ensures TakeStep(a, n, now, rate, burst) == TakeStep(b, n, now, rate, burst)
  {
    hide Gain;
    GainAdds(0.0, 0.0, rate);
    if a != b {
      GainGrows(0.0, now - a.at, rate);
      GainGrows(0.0, now - b.at, rate);
    }
  }

  lemma {:induction false} StaysAlike(
      files: map<string, Saved>, path: string, start: real, events: seq<Event>, rate: real, burst: real)
    requires rate > 0.0 && path != "" && Ordered(start, events)
    ensures var (b, now, waits) := RunWithRestarts(files, path, start, events, rate, burst);
            var (c, _, plain) := RunWithRestarts(files, path, start, TakesOf(events), rate, burst);
            && waits == plain
            && (path in now ==> now[path] == b == c)
            && (path !in now ==>
                  && Alike(b, c, if events == [] then start else events[|events| - 1].at, burst)
                  && b.tokens == burst && c.tokens == burst)
    decreases |events|
  {
    if events != [] {
      var earlier, last := events[..|events| - 1], events[|events| - 1];
      StaysAlike(files, path, start, earlier, rate, burst);
      var (b, now, _) := RunWithRestarts(files, path, start, earlier, rate, burst);
      var (c, _, _) := RunWithRestarts(files, path, start, TakesOf(earlier), rate, burst);
      assert earlier != [] ==> earlier[|earlier| - 1] == events[|events| - 2] && events[|events| - 2].at <= last.at;
      if last.TakeAt? {
        assert (TakesOf(earlier) + [last])[..|TakesOf(earlier)|] == TakesOf(earlier);
        AlikeTake(b, c, last.n, last.at, rate, burst);
      }
    }
  }

  /** Restarting at any moments changes no answer. */
  ghost predicate RestartsInvisible(path: string, rate: real, burst: real)
    requires rate > 0.0
  {
    forall files, start, events :: Ordered(start, events) ==>
      RunWithRestarts(files, path, start, events, rate, burst).2 ==
      RunWithRestarts(files, path, start, TakesOf(events), rate, burst).2
  }

  /** Restarts are invisible exactly when the bucket has a file. */
  lemma RestartsInvisibleIffFile(path: string, rate: real, burst: real)
    requires rate > 0.0 && burst > 0.0
    ensures RestartsInvisible(path, rate, burst) <==> path != ""
  {
    if path != "" {
      forall files, start, events | Ordered(start, events)
        ensures RunWithRestarts(files, path, start, events, rate, burst).2 ==
                RunWithRestarts(files, path, start, TakesOf(events), rate, burst).2
      {
        StaysAlike(files, path, start, events, rate, burst);
      }
    } else {
      ForgetsWithoutFile(rate, burst);
    }
  }

  /** Without a file two full takes around a restart both go ahead at once. */
  lemma ForgetsWithoutFile(rate: real, burst: real)
    requires rate > 0.0 && burst > 0.0
    ensures !RestartsInvisible("", rate, burst)
  {
    var take := TakeAt(burst, 0.0);
    var once, cut := [take], [take, RestartAt(0.0)];
    var events, plain := [take, RestartAt(0.0), take], [take, take];
    var none: map<string, Saved> := map[];
    GainAdds(0.0, 0.0, rate);
    assert once[..0] == [] && cut[..1] == once && events[..2] == cut && plain[..1] == once;
    var zero := [0.0];
    assert [] + zero == zero && zero + zero == [0.0, 0.0];
    assert Opened(none, "", burst, 0.0) == Saved(burst, 0.0);
    assert TakeStep(Saved(burst, 0.0), burst, 0.0, rate, burst) == (Saved(0.0, 0.0), 0.0);
    assert RunWithRestarts(none, "", 0.0, [], rate, burst) == (Saved(burst, 0.0), none, []);
    assert RunWithRestarts(none, "", 0.0, once, rate, burst) == (Saved(0.0, 0.0), none, [0.0]);
    assert RunWithRestarts(none, "", 0.0, cut, rate, burst) == (Saved(burst, 0.0), none, [0.0]);
    assert RunWithRestarts(none, "", 0.0, events, rate, burst).2 == [0.0, 0.0];
    QuotientGain(burst, rate);
    assert RunWithRestarts(none, "", 0.0, plain, rate, burst).2 == [0.0, burst / rate];
    assert [] + [take] == once && once + [take] == plain;
    assert once[..|once| - 1] == [] && cut[..|cut| - 1] == once && events[..|events| - 1] == cut;
    assert TakesOf(once) == once;
    assert TakesOf(cut) == once;
    assert TakesOf(events) == plain;
    assert Ordered(0.0, events);
  }
}
