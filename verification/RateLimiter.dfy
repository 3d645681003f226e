/** The forward proxy's rate limiter: one token bucket per client address. Time and tokens
    are reals; the clock is a parameter and does not run backwards. */
module RateLimiting {
  import opened Common
  import opened RateWindows

  datatype Bucket = Bucket(tokens: real, lastUpdate: real)

  /** Tokens on hand for a request at `now`, before it is decided. */
  function Refill(b: Option<Bucket>, now: real, rate: real, burst: int): real {
    match b
    case None => burst as real
    case Some(b) => Min(burst as real, b.tokens + Gain(now - b.lastUpdate, rate))
  }

  /** One request to one address. */
  function AllowOne(b: Option<Bucket>, now: real, rate: real, burst: int): (Bucket, bool) {
    var tokens := Refill(b, now, rate, burst);
    if tokens >= 1.0 then (Bucket(tokens - 1.0, now), true) else (Bucket(tokens, now), false)
  }

  class RateLimiter {
    var ips: map<string, Bucket>
    const rate: real
    const burst: int

    constructor (rate: real, burst: int)
      ensures ips == map[] && this.rate == rate && this.burst == burst
    {
      ips := map[];
      this.rate, this.burst := rate, burst;
    }

    method Allow(ip: string, now: real) returns (ok: bool)
      modifies this
      ensures ok == AllowOne(Find(old(ips), ip), now, rate, burst).1
      ensures ips == old(ips)[ip := AllowOne(Find(old(ips), ip), now, rate, burst).0]
    {
      var bucket;
      if ip !in ips {
        bucket := Bucket(burst as real, now);
      } else {
        bucket := ips[ip];
        var elapsed := now - bucket.lastUpdate;
        bucket := bucket.(tokens := bucket.tokens + Gain(elapsed, rate));
        if bucket.tokens > burst as real {
          bucket := bucket.(tokens := burst as real);
        }
        bucket := bucket.(lastUpdate := now);
      }
      if bucket.tokens >= 1.0 {
        bucket := bucket.(tokens := bucket.tokens - 1.0);
        ok := true;
      } else {
        ok := false;
      }
      ips := ips[ip := bucket];
    }
  }

  function Find(ips: map<string, Bucket>, ip: string): Option<Bucket> {
    if ip in ips then Some(ips[ip]) else None
  }

  // ---------- one address ----------

  /** The bucket after requests at the given times, and the times of those granted. */
  function KeyRun(times: seq<real>, rate: real, burst: int): (r: (Option<Bucket>, seq<real>))
    ensures r.0.Some? <==> times != []
    ensures times != [] ==> r.0.value.lastUpdate == times[|times| - 1]
  {
    if times == [] then (None, [])
    else
      var now := times[|times| - 1];
      var (before, grants) := KeyRun(times[..|times| - 1], rate, burst);
      var (after, ok) := AllowOne(before, now, rate, burst);
      (Some(after), if ok then grants + [now] else grants)
  }

  /** What is left at `now` of the allowance counted from the i-th grant. */
  function Slack(grants: seq<real>, i: nat, now: real, rate: real, burst: int): real
    requires i < |grants|
  {
    burst as real + Gain(now - grants[i], rate) - (|grants| - i) as real
  }

  /** The level is the least of the burst and all the slacks. */
  ghost predicate IsLevel(level: real, grants: seq<real>, now: real, rate: real, burst: int) {
    && level <= burst as real
    && (forall i :: 0 <= i < |grants| ==> level <= Slack(grants, i, now, rate, burst))
    && (level == burst as real || exists i :: 0 <= i < |grants| && level == Slack(grants, i, now, rate, burst))
  }

  /** Waiting raises the level at the rate, up to the burst. */
  lemma LevelLater(level: real, grants: seq<real>, t: real, now: real, rate: real, burst: int)
    requires IsLevel(level, grants, t, rate, burst) && t <= now && rate >= 0.0
    ensures IsLevel(Min(burst as real, level + Gain(now - t, rate)), grants, now, rate, burst)
  {
    hide Gain;
    GainAdds(0.0, 0.0, rate);
    GainGrows(0.0, now - t, rate);
    forall i | 0 <= i < |grants|
      ensures Slack(grants, i, now, rate, burst) == Slack(grants, i, t, rate, burst) + Gain(now - t, rate)
    {
      GainAdds(t - grants[i], now - t, rate);
      assert (t - grants[i]) + (now - t) == now - grants[i];
    }
  }

  /** A grant lowers every slack by one and adds its own. */
  lemma LevelGranted(level: real, grants: seq<real>, now: real, rate: real, burst: int)
    requires IsLevel(level, grants, now, rate, burst)
    ensures IsLevel(level - 1.0, grants + [now], now, rate, burst)
  {
    hide Gain;
    GainAdds(0.0, 0.0, rate);
    var longer := grants + [now];
    forall i | 0 <= i < |grants|
      ensures Slack(longer, i, now, rate, burst) == Slack(grants, i, now, rate, burst) - 1.0
    {
      assert longer[i] == grants[i];
    }
    assert Slack(longer, |grants|, now, rate, burst) == burst as real - 1.0;
    if level != burst as real {
      var i :| 0 <= i < |grants| && level == Slack(grants, i, now, rate, burst);
      assert level - 1.0 == Slack(longer, i, now, rate, burst);
    }
  }

  lemma {:induction false} RunLevel(times: seq<real>, rate: real, burst: int)
    requires Nondecreasing(times) && times != [] && rate >= 0.0
    ensures var (b, grants) := KeyRun(times, rate, burst);
            IsLevel(b.value.tokens, grants, times[|times| - 1], rate, burst)
    decreases |times|, 0
  {
    var earlier, now := times[..|times| - 1], times[|times| - 1];
    assert earlier + [now] == times;
    var (before, grants) := KeyRun(earlier, rate, burst);
    RefillLevel(earlier, now, rate, burst);
    var level := Refill(before, now, rate, burst);
    if level >= 1.0 {
      LevelGranted(level, grants, now, rate, burst);
    }
  }

  lemma RefillLevel(earlier: seq<real>, now: real, rate: real, burst: int)
    requires Nondecreasing(earlier + [now]) && rate >= 0.0
    ensures var (before, grants) := KeyRun(earlier, rate, burst);
            IsLevel(Refill(before, now, rate, burst), grants, now, rate, burst)
    decreases |earlier|, 1
  {
    if earlier != [] {
      var last := earlier[|earlier| - 1];
      InOrderAppend(earlier, now);
      RunLevel(earlier, rate, burst);
      hide KeyRun, IsLevel, Gain;
      var (before, grants) := KeyRun(earlier, rate, burst);
      LevelLater(before.value.tokens, grants, last, now, rate, burst);
    }
  }

  lemma InOrderAppend(earlier: seq<real>, now: real)
    requires Nondecreasing(earlier + [now])
    ensures Nondecreasing(earlier) && (earlier != [] ==> earlier[|earlier| - 1] <= now)
  {
    var all := earlier + [now];
    assert all[|earlier|] == now;
    assert forall i :: 0 <= i < |earlier| ==> earlier[i] == all[i];
  }

  /** Counting this request too, no earlier grant has seen more than the burst plus the rate
      times the time since. */
  ghost predicate Permitted(grants: seq<real>, now: real, rate: real, burst: int) {
    && burst >= 1
    && forall i :: 0 <= i < |grants| ==> (|grants| - i + 1) as real <= burst as real + (now - grants[i]) * rate
  }

  ghost predicate WithinGain(grants: seq<real>, now: real, rate: real, burst: int) {
    && burst >= 1
    && forall i :: 0 <= i < |grants| ==> (|grants| - i + 1) as real <= burst as real + Gain(now - grants[i], rate)
  }

  lemma PermittedIs(grants: seq<real>, now: real, rate: real, burst: int)
    ensures Permitted(grants, now, rate, burst) <==> WithinGain(grants, now, rate, burst)
  {
  }

  /** A request is granted exactly when the windows that end with it permit it. Denied
      requests do not appear on the right-hand side, so they cost nothing. */
  lemma GrantedIffPermitted(earlier: seq<real>, now: real, rate: real, burst: int)
    requires Nondecreasing(earlier + [now]) && rate >= 0.0
    ensures var (before, grants) := KeyRun(earlier, rate, burst);
            AllowOne(before, now, rate, burst).1 <==> Permitted(grants, now, rate, burst)
  {
    hide Gain, Permitted;
    RefillLevel(earlier, now, rate, burst);
    var (before, grants) := KeyRun(earlier, rate, burst);
    PermittedIs(grants, now, rate, burst);
    var level := Refill(before, now, rate, burst);
    if level >= 1.0 {
      forall i | 0 <= i < |grants|
        ensures (|grants| - i + 1) as real <= burst as real + Gain(now - grants[i], rate)
      {
        assert level <= Slack(grants, i, now, rate, burst);
      }
    } else if burst >= 1 {
      var i :| 0 <= i < |grants| && level == Slack(grants, i, now, rate, burst);
      assert (|grants| - i + 1) as real > burst as real + Gain(now - grants[i], rate);
    }
  }

  /** One unit for every grant. */
  function Ones(n: nat): (r: seq<real>)
    ensures |r| == n && forall i :: 0 <= i < n ==> r[i] == 1.0
  {
    seq(n, _ => 1.0)
  }

  lemma {:induction false} TotalOnes(xs: seq<real>)
    requires forall i :: 0 <= i < |xs| ==> xs[i] == 1.0
    ensures Total(xs) == |xs| as real
  {
    if xs != [] {
      TotalOnes(xs[1..]);
    }
  }

  /** From the i-th grant to the j-th, both counted. */
  ghost predicate Paced(grants: seq<real>, rate: real, burst: int) {
    forall i, j :: 0 <= i <= j < |grants| ==> (j - i + 1) as real <= burst as real + Gain(grants[j] - grants[i], rate)
  }

  lemma PacedMore(grants: seq<real>, now: real, rate: real, burst: int)
    requires Paced(grants, rate, burst) && Permitted(grants, now, rate, burst)
    ensures Paced(grants + [now], rate, burst)
  {
    hide Gain, Permitted;
    PermittedIs(grants, now, rate, burst);
    GainAdds(0.0, 0.0, rate);
    var longer := grants + [now];
    forall i, j | 0 <= i <= j < |longer|
      ensures (j - i + 1) as real <= burst as real + Gain(longer[j] - longer[i], rate)
    {
      if j < |grants| {
        assert longer[i] == grants[i] && longer[j] == grants[j];
      } else if i < |grants| {
        assert longer[i] == grants[i];
      } else {
        assert longer[j] - longer[i] == 0.0;
      }
    }
  }

  lemma {:induction false} GrantsPaced(times: seq<real>, rate: real, burst: int)
    requires Nondecreasing(times) && rate >= 0.0
    ensures Paced(KeyRun(times, rate, burst).1, rate, burst)
    decreases |times|
  {
    if times != [] {
      var earlier, now := times[..|times| - 1], times[|times| - 1];
      assert earlier + [now] == times;
      GrantsPaced(earlier, rate, burst);
      GrantedIffPermitted(earlier, now, rate, burst);
      if AllowOne(KeyRun(earlier, rate, burst).0, now, rate, burst).1 {
        PacedMore(KeyRun(earlier, rate, burst).1, now, rate, burst);
      }
    }
  }

  lemma {:induction false} GrantsInOrder(times: seq<real>, rate: real, burst: int)
    requires Nondecreasing(times)
    ensures var grants := KeyRun(times, rate, burst).1;
            Nondecreasing(grants) && forall t :: t in grants ==> times != [] && t <= times[|times| - 1]
    decreases |times|
  {
    if times != [] {
      var earlier, now := times[..|times| - 1], times[|times| - 1];
      GrantsInOrder(earlier, rate, burst);
      var grants := KeyRun(earlier, rate, burst).1;
      assert earlier != [] ==> earlier[|earlier| - 1] == times[|times| - 2] <= now;
      assert forall i :: 0 <= i < |grants| ==> grants[i] in grants;
    }
  }

  /** No window of any length holds more than burst + rate * length grants to an address. */
  lemma WindowBound(times: seq<real>, rate: real, burst: int, lo: real, hi: real)
    requires Nondecreasing(times) && rate >= 0.0 && burst >= 0 && lo <= hi
    ensures var grants := KeyRun(times, rate, burst).1;
            TotalWithin(grants, Ones(|grants|), lo, hi) <= burst as real + (hi - lo) * rate
  {
    hide *;
    GainIs(hi - lo, rate);
    var grants := KeyRun(times, rate, burst).1;
    var ones := Ones(|grants|);
    GrantsPaced(times, rate, burst);
    GrantsInOrder(times, rate, burst);
    PacedIsBounded(grants, ones, rate, burst);
    WindowTotal(grants, ones, rate, burst as real, lo, hi);
  }

  lemma PacedIsBounded(grants: seq<real>, ones: seq<real>, rate: real, burst: int)
    requires Paced(grants, rate, burst) && ones == Ones(|grants|)
    ensures Bounded(grants, ones, rate, burst as real)
  {
    forall i, j | 0 <= i <= j < |grants|
      ensures Total(ones[i..j + 1]) <= burst as real + Gain(grants[j] - grants[i], rate)
    {
      TotalOnes(ones[i..j + 1]);
    }
  }

  // ---------- all addresses ----------

  datatype Request = Request(ip: string, at: real)

  /** The limiter's map after a run of requests. */
  function Run(reqs: seq<Request>, rate: real, burst: int): map<string, Bucket> {
    if reqs == [] then map[]
    else
      var before, r := Run(reqs[..|reqs| - 1], rate, burst), reqs[|reqs| - 1];
      before[r.ip := AllowOne(Find(before, r.ip), r.at, rate, burst).0]
  }

  predicate Granted(reqs: seq<Request>, r: Request, rate: real, burst: int) {
    AllowOne(Find(Run(reqs, rate, burst), r.ip), r.at, rate, burst).1
  }

  /** The times of the requests to one address, and of those granted. */
  function TimesOf(reqs: seq<Request>, ip: string): seq<real> {
    if reqs == [] then []
    else
      var earlier, r := TimesOf(reqs[..|reqs| - 1], ip), reqs[|reqs| - 1];
      if r.ip == ip then earlier + [r.at] else earlier
  }

  function GrantsOf(reqs: seq<Request>, ip: string, rate: real, burst: int): seq<real> {
    if reqs == [] then []
    else
      var before, r := reqs[..|reqs| - 1], reqs[|reqs| - 1];
      var earlier := GrantsOf(before, ip, rate, burst);
      if r.ip == ip && Granted(before, r, rate, burst) then earlier + [r.at] else earlier
  }

  /** The addresses do not affect each other. */
  lemma {:induction false} KeysIndependent(reqs: seq<Request>, ip: string, rate: real, burst: int)
    ensures KeyRun(TimesOf(reqs, ip), rate, burst) ==
            (Find(Run(reqs, rate, burst), ip), GrantsOf(reqs, ip, rate, burst))
  {
    if reqs != [] {
      var before, r := reqs[..|reqs| - 1], reqs[|reqs| - 1];
      KeysIndependent(before, ip, rate, burst);
      var times := TimesOf(before, ip);
      assert (times + [r.at])[..|times|] == times;
    }
  }

  predicate InOrder(reqs: seq<Request>) {
    forall i, j :: 0 <= i <= j < |reqs| ==> reqs[i].at <= reqs[j].at
  }

  lemma {:induction false} TimesInOrder(reqs: seq<Request>, ip: string)
    requires InOrder(reqs)
    ensures Nondecreasing(TimesOf(reqs, ip))
    ensures forall t :: t in TimesOf(reqs, ip) ==> reqs != [] && t <= reqs[|reqs| - 1].at
  {
    if reqs != [] {
      var before, last := reqs[..|reqs| - 1], reqs[|reqs| - 1];
      TimesInOrder(before, ip);
      var times := TimesOf(before, ip);
      assert forall t :: t in times ==> t <= last.at;
      assert forall i :: 0 <= i < |times| ==> times[i] in times;
    }
  }

  /** Any request, in any run over any mix of addresses. */
  lemma AllowIff(reqs: seq<Request>, r: Request, rate: real, burst: int)
    requires InOrder(reqs + [r]) && rate >= 0.0
    ensures Granted(reqs, r, rate, burst) <==> Permitted(GrantsOf(reqs, r.ip, rate, burst), r.at, rate, burst)
  {
    var all := reqs + [r];
    assert forall i :: 0 <= i < |reqs| ==> reqs[i] == all[i];
    assert all[|reqs|] == r;
    TimesInOrder(reqs, r.ip);
    var times := TimesOf(reqs, r.ip);
    assert forall i :: 0 <= i < |times| ==> times[i] in times;
    assert Nondecreasing(times + [r.at]);
    KeysIndependent(reqs, r.ip, rate, burst);
    GrantedIffPermitted(TimesOf(reqs, r.ip), r.at, rate, burst);
  }
}
