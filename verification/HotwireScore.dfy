/** hotwire's registry of agents and the scoring of its backends. Rates, times and weights
    are reals; a report time of None is Go's zero time. */
module HotwireScore {
  import opened Common
  import opened HotwireSums

  datatype Agent = Agent(
    id: string, p50: real, p99: real, errorRate: real, inflight: int, rps: real,
    lastReport: Option<real>)

  type Agents = map<string, Agent>

  // ---------- the registry ----------

  class Registry {
    var agents: Agents
    const staleAfter: real

    ghost predicate Valid()
      reads this
    {
      Keyed(agents)
    }

    constructor (staleAfter: real)
      ensures Valid() && agents == map[]
      ensures this.staleAfter == if staleAfter <= 0.0 then 3.0 else staleAfter
    {
      agents := map[];
      this.staleAfter := if staleAfter <= 0.0 then 3.0 else staleAfter;
    }

    method Update(m: Agent, now: real)
      requires Valid()
      modifies this
      ensures Valid()
      ensures agents == old(agents)[m.id := if m.lastReport.None? then m.(lastReport := Some(now)) else m]
    {
      var report := m;
      if m.lastReport.None? {
        report := m.(lastReport := Some(now));
      }
      agents := agents[m.id := report];
    }

    method Remove(id: string)
      requires Valid()
      modifies this
      ensures Valid() && agents == old(agents) - {id}
    {
      agents := agents - {id};
    }

    /** The agents in whatever order the map gives them. */
    method Snapshot() returns (out: seq<Agent>)
      requires Valid()
      ensures IsSnapshot(out, agents)
    {
      out := [];
      var left := agents.Keys;
      while left != {}
        invariant left <= agents.Keys
        invariant IsSnapshot(out, agents - left)
        decreases |left|
      {
        var k :| k in left;
        SnapshotMore(out, agents - left, agents[k], agents - (left - {k}));
        out := out + [agents[k]];
        left := left - {k};
      }
      assert agents - left == agents;
    }
  }

  ghost predicate Keyed(agents: Agents) {
    forall k :: k in agents ==> agents[k].id == k
  }

  /** Each agent once, and nothing else. */
  ghost predicate IsSnapshot(list: seq<Agent>, agents: Agents) {
    && Keyed(agents)
    && (forall a :: a in list ==> a.id in agents && agents[a.id] == a)
    && (forall k :: k in agents ==> agents[k] in list)
    && (forall i, j :: 0 <= i < j < |list| ==> list[i].id != list[j].id)
  }

  lemma SnapshotMore(list: seq<Agent>, agents: Agents, a: Agent, agents': Agents)
    requires IsSnapshot(list, agents) && a.id !in agents && agents' == agents[a.id := a]
    ensures IsSnapshot(list + [a], agents')
  {
    assert forall i :: 0 <= i < |list| ==> list[i] in list;
  }

  predicate IsStale(a: Agent, now: real, staleAfter: real) {
    a.lastReport.None? || now - a.lastReport.value > staleAfter
  }

  // ---------- what a score table is ----------

  function RawScore(a: Agent): (s: real)
    ensures s >= 0.0
    ensures s > 0.0 <==> a.errorRate < 1.0
  {
    var p99 := if a.p99 > 1.0 then a.p99 else 1.0;
    var errors := 1.0 - (if a.errorRate < 1.0 then a.errorRate else 1.0);
    ProductSign(1.0 / p99, errors);
    (1.0 / p99) * errors
  }

  lemma ProductSign(a: real, b: real)
    requires a > 0.0 && b >= 0.0
    ensures a * b >= 0.0 && (a * b > 0.0 <==> b > 0.0)
  {}

  function Part(a: Agent, now: real, staleAfter: real): (s: real)
    ensures s >= 0.0
  {
    if IsStale(a, now, staleAfter) then 0.0 else RawScore(a)
  }

  function Parts(agents: Agents, now: real, staleAfter: real): (m: Weights)
    ensures m.Keys == agents.Keys
  {
    map k | k in agents :: Part(agents[k], now, staleAfter)
  }

  ghost function Total(agents: Agents, now: real, staleAfter: real): real {
    SumOf(Parts(agents, now, staleAfter))
  }

  datatype Backend = Backend(agent: Agent, weight: real, score: real, stale: bool)

  datatype ScoreResult = ScoreResult(backends: seq<Backend>, reason: string)

  function Share(part: real, total: real): real {
    if total > 0.0 then part / total else 0.0
  }

  ghost function Scored(a: Agent, agents: Agents, now: real, staleAfter: real): Backend {
    var part := Part(a, now, staleAfter);
    Backend(a, Share(part, Total(agents, now, staleAfter)), part, IsStale(a, now, staleAfter))
  }

  ghost predicate Ascending(list: seq<Backend>) {
    forall i, j :: 0 <= i < j < |list| ==> Before(list[i].agent.id, list[j].agent.id)
  }

  ghost predicate Covers(list: seq<Backend>, agents: Agents, now: real, staleAfter: real) {
    && (forall b :: b in list ==>
        b.agent.id in agents && b == Scored(agents[b.agent.id], agents, now, staleAfter))
    && (forall k :: k in agents ==> Scored(agents[k], agents, now, staleAfter) in list)
  }

  ghost function Reason(agents: Agents, now: real, staleAfter: real): string {
    if agents == map[] then "no_backends"
    else if exists k :: k in agents && IsStale(agents[k], now, staleAfter) then "rebalance_with_stale"
    else "rebalance"
  }

  /** The table for a set of agents: one entry each, in order of name. */
  ghost predicate IsTable(r: ScoreResult, agents: Agents, now: real, staleAfter: real) {
    && Ascending(r.backends)
    && Covers(r.backends, agents, now, staleAfter)
    && r.reason == Reason(agents, now, staleAfter)
  }

  // ---------- Score ----------

  datatype Raw = Raw(agent: Agent, score: real, stale: bool)

  function RawOf(a: Agent, now: real, staleAfter: real): Raw {
    Raw(a, Part(a, now, staleAfter), IsStale(a, now, staleAfter))
  }

  /** The first loop: every agent's score, their total, and the number of stale ones. */
  method ScoreAll(list: seq<Agent>, agents: Agents, now: real, staleAfter: real)
    returns (raws: seq<Raw>, total: real, staleCount: nat)
    requires IsSnapshot(list, agents)
    ensures |raws| == |list|
    ensures forall i :: 0 <= i < |list| ==> raws[i] == RawOf(list[i], now, staleAfter)
    ensures total == Total(agents, now, staleAfter)
    ensures staleCount > 0 <==> exists i :: 0 <= i < |list| && IsStale(list[i], now, staleAfter)
  {
    raws, total, staleCount := [], 0.0, 0;
    ghost var parts: Weights := map[];
    assert PartsOf(list, 0, parts, now, staleAfter) && SumOf(parts) == 0.0;
    hide SumOf, RawScore, PartsOf, IsStale;
    for i := 0 to |list|
      invariant |raws| == i
      invariant forall j :: 0 <= j < i ==> raws[j] == RawOf(list[j], now, staleAfter)
      invariant PartsOf(list, i, parts, now, staleAfter)
      invariant total == SumOf(parts)
      invariant staleCount > 0 <==> exists j :: 0 <= j < i && IsStale(list[j], now, staleAfter)
    {
      var a := list[i];
      var part := 0.0;
      if IsStale(a, now, staleAfter) {
        staleCount := staleCount + 1;
        raws := raws + [Raw(a, 0.0, true)];
      } else {
        part := RawScore(a);
        total := total + part;
        raws := raws + [Raw(a, part, false)];
      }
      PartsMore(list, i, agents, parts, now, staleAfter);
      SumAdd(parts, a.id, part);
      parts := parts[a.id := part];
    }
    AllParts(list, agents, parts, now, staleAfter);
  }

  /** The scores of the first i agents of a list, by name. */
  ghost predicate PartsOf(list: seq<Agent>, i: nat, parts: Weights, now: real, staleAfter: real)
    requires i <= |list|
  {
    && (forall k :: k in parts <==> exists j :: 0 <= j < i && list[j].id == k)
    && (forall j :: 0 <= j < i ==> parts[list[j].id] == Part(list[j], now, staleAfter))
  }

  lemma PartsMore(list: seq<Agent>, i: nat, agents: Agents, parts: Weights, now: real, staleAfter: real)
    requires IsSnapshot(list, agents) && i < |list| && PartsOf(list, i, parts, now, staleAfter)
    ensures list[i].id !in parts
    ensures PartsOf(list, i + 1, parts[list[i].id := Part(list[i], now, staleAfter)], now, staleAfter)
  {
    hide Part;
  }

  lemma AllParts(list: seq<Agent>, agents: Agents, parts: Weights, now: real, staleAfter: real)
    requires IsSnapshot(list, agents)
    requires PartsOf(list, |list|, parts, now, staleAfter)
    ensures parts == Parts(agents, now, staleAfter)
  {
    hide Part;
    forall k
      ensures k in parts <==> k in agents
      ensures k in agents ==> parts[k] == Part(agents[k], now, staleAfter)
    {
      if k in agents {
        var j :| 0 <= j < |list| && list[j] == agents[k];
      }
      if k in parts {
        var j :| 0 <= j < |list| && list[j].id == k;
        assert list[j] in list;
      }
    }
  }

  // The library sort by name, as insertion.

  function Insert(r: Raw, s: seq<Raw>): seq<Raw> {
    if s == [] then [r]
    else if Before(r.agent.id, s[0].agent.id) then [r] + s
    else [s[0]] + Insert(r, s[1..])
  }

  function SortById(s: seq<Raw>): seq<Raw> {
    if s == [] then [] else Insert(s[0], SortById(s[1..]))
  }

  ghost predicate InOrder(s: seq<Raw>) {
    forall i, j :: 0 <= i < j < |s| ==> Before(s[i].agent.id, s[j].agent.id)
  }

  lemma {:induction false} InsertKeeps(r: Raw, s: seq<Raw>)
    requires InOrder(s) && forall x :: x in s ==> x.agent.id != r.agent.id
    ensures InOrder(Insert(r, s))
    ensures forall x :: x in Insert(r, s) <==> x == r || x in s
    ensures |Insert(r, s)| == |s| + 1
  {
    if s != [] {
      BeforeTotal(r.agent.id, s[0].agent.id);
      if Before(r.agent.id, s[0].agent.id) {
        forall j | 0 < j < |s|
          ensures Before(r.agent.id, s[j].agent.id)
        {
          BeforeChain(r.agent.id, s[0].agent.id, s[j].agent.id);
        }
        hide Before;
      } else {
        hide Before;
        InsertKeeps(r, s[1..]);
        var t := Insert(r, s[1..]);
        forall j | 0 <= j < |t|
          ensures Before(s[0].agent.id, t[j].agent.id)
        {
          assert t[j] in t;
        }
        assert forall x :: x in s <==> x == s[0] || x in s[1..];
      }
    }
  }

  lemma {:induction false} SortKeeps(s: seq<Raw>)
    requires forall i, j :: 0 <= i < j < |s| ==> s[i].agent.id != s[j].agent.id
    ensures InOrder(SortById(s)) && |SortById(s)| == |s|
    ensures forall x :: x in SortById(s) <==> x in s
  {
    hide Before, Insert;
    if s != [] {
      SortKeeps(s[1..]);
      assert forall x :: x in s <==> x == s[0] || x in s[1..];
      InsertKeeps(s[0], SortById(s[1..]));
    }
  }

  method Score(registry: Registry, now: real) returns (r: ScoreResult)
    requires registry.Valid()
    ensures IsTable(r, registry.agents, now, registry.staleAfter)
  {
    hide SumOf, RawScore, Total, Before, SortById, Insert;
    var agents, staleAfter := registry.agents, registry.staleAfter;
    var list := registry.Snapshot();
    var raws, total, staleCount := ScoreAll(list, agents, now, staleAfter);
    SortKeeps(raws);
    var sorted := SortById(raws);
    assert forall x :: x in sorted ==> x in raws;
    var out := [];
    for i := 0 to |sorted|
      invariant |out| == i
      invariant forall j :: 0 <= j < i ==> out[j] == Backend(
          sorted[j].agent,
          if sorted[j].stale then 0.0 else Share(sorted[j].score, total), sorted[j].score, sorted[j].stale)
    {
      var raw := sorted[i];
      var weight := 0.0;
      if !raw.stale && total > 0.0 {
        weight := raw.score / total;
      }
      out := out + [Backend(raw.agent, weight, raw.score, raw.stale)];
    }
    TableFrom(list, raws, sorted, out, agents, now, staleAfter, total);
    var reason := "rebalance";
    if staleCount > 0 {
      reason := "rebalance_with_stale";
    }
    if |out| == 0 {
      reason := "no_backends";
    }
    ReasonFrom(list, agents, now, staleAfter);
    r := ScoreResult(out, reason);
  }

  lemma ReasonFrom(list: seq<Agent>, agents: Agents, now: real, staleAfter: real)
    requires IsSnapshot(list, agents)
    ensures Reason(agents, now, staleAfter) ==
            if list == [] then "no_backends"
            else if exists i :: 0 <= i < |list| && IsStale(list[i], now, staleAfter) then "rebalance_with_stale"
            else "rebalance"
  {
    if list == [] {
      assert agents == map[];
    } else {
      assert list[0] in list;
    }
    forall k | k in agents && IsStale(agents[k], now, staleAfter)
      ensures exists i :: 0 <= i < |list| && IsStale(list[i], now, staleAfter)
    {
      var i :| 0 <= i < |list| && list[i] == agents[k];
    }
    forall i | 0 <= i < |list| && IsStale(list[i], now, staleAfter)
      ensures exists k :: k in agents && IsStale(agents[k], now, staleAfter)
    {
      assert list[i] in list;
      assert agents[list[i].id] == list[i];
    }
  }

  lemma TableFrom(
      list: seq<Agent>, raws: seq<Raw>, sorted: seq<Raw>, out: seq<Backend>, agents: Agents,
      now: real, staleAfter: real, total: real)
    requires IsSnapshot(list, agents) && |raws| == |list| && total == Total(agents, now, staleAfter)
    requires forall i :: 0 <= i < |list| ==> raws[i] == RawOf(list[i], now, staleAfter)
    requires InOrder(sorted) && forall x :: x in sorted <==> x in raws
    requires |out| == |sorted|
    requires forall j :: 0 <= j < |sorted| ==> out[j] == Backend(
        sorted[j].agent,
        if sorted[j].stale then 0.0 else Share(sorted[j].score, total), sorted[j].score, sorted[j].stale)
    ensures Ascending(out) && Covers(out, agents, now, staleAfter)
  {
    hide Total, Before, RawScore;
    forall j | 0 <= j < |out|
      ensures out[j].agent.id in agents && out[j] == Scored(agents[out[j].agent.id], agents, now, staleAfter)
    {
      assert sorted[j] in sorted;
      var i :| 0 <= i < |raws| && raws[i] == sorted[j];
      assert list[i] in list;
    }
    forall k | k in agents
      ensures Scored(agents[k], agents, now, staleAfter) in out
    {
      var i :| 0 <= i < |list| && list[i] == agents[k];
      assert raws[i] in raws;
      var j :| 0 <= j < |sorted| && sorted[j] == raws[i];
      assert out[j] == Scored(agents[k], agents, now, staleAfter);
    }
  }

  // ---------- what the table is worth ----------

  ghost predicate SomeUseful(agents: Agents, now: real, staleAfter: real) {
    exists k :: k in agents && !IsStale(agents[k], now, staleAfter) && agents[k].errorRate < 1.0
  }

  /** The weights a table gives, by name. */
  ghost function WeightsFor(agents: Agents, now: real, staleAfter: real): (m: Weights)
    ensures m.Keys == agents.Keys
  {
    map k | k in agents :: Scored(agents[k], agents, now, staleAfter).weight
  }

  lemma TotalSign(agents: Agents, now: real, staleAfter: real)
    ensures Total(agents, now, staleAfter) >= 0.0
    ensures Total(agents, now, staleAfter) > 0.0 <==> SomeUseful(agents, now, staleAfter)
  {
    var parts := Parts(agents, now, staleAfter);
    hide RawScore;
    SumSign(parts);
    if SomeUseful(agents, now, staleAfter) {
      var k :| k in agents && !IsStale(agents[k], now, staleAfter) && agents[k].errorRate < 1.0;
      assert parts[k] > 0.0;
    }
    if SomePositive(parts) {
      var k :| k in parts && parts[k] > 0.0;
      assert !IsStale(agents[k], now, staleAfter) && agents[k].errorRate < 1.0;
    }
  }

  /** The weights are never negative and sum to one exactly when some fresh backend still
      answers some requests; otherwise all of them are zero. */
  lemma WeightsSum(agents: Agents, now: real, staleAfter: real, m: Weights)
    requires m == WeightsFor(agents, now, staleAfter)
    ensures NonNegative(m)
    ensures SomeUseful(agents, now, staleAfter) ==> SumOf(m) == 1.0
    ensures !SomeUseful(agents, now, staleAfter) ==> !SomePositive(m)
  {
    var t := Total(agents, now, staleAfter);
    TotalSign(agents, now, staleAfter);
    var parts := Parts(agents, now, staleAfter);
    assert t == SumOf(parts);
    hide SumOf, RawScore, Total, SomeUseful;
    if t > 0.0 {
      forall k | k in m
        ensures m[k] >= 0.0 && Times(m[k], t) == Part(agents[k], now, staleAfter)
      {
        Quotient(Part(agents[k], now, staleAfter), t);
      }
      SumScale(parts, m, t);
      Whole(SumOf(m), t);
    }
  }

  lemma Quotient(part: real, t: real)
    requires t > 0.0 && part >= 0.0
    ensures part / t >= 0.0 && Times(part / t, t) == part
  {}

  lemma Whole(s: real, t: real)
    requires t > 0.0 && Times(s, t) == t
    ensures s == 1.0
  {}

  // ---------- one table for each set of agents ----------

  lemma {:induction false} SameList(a: seq<Backend>, b: seq<Backend>)
    requires Ascending(a) && Ascending(b) && forall x :: x in a <==> x in b
    ensures a == b
  {
    hide Before;
    if a != [] {
      assert a[0] in a;
    }
    if b != [] {
      assert b[0] in b;
    }
    if a != [] && b != [] {
      SameFirst(a, b);
      forall x
        ensures x in a[1..] <==> x in b[1..]
      {
        BeforeTotal(a[0].agent.id, a[0].agent.id);
        assert x in a <==> x == a[0] || x in a[1..];
        assert x in b <==> x == b[0] || x in b[1..];
      }
      SameList(a[1..], b[1..]);
      assert a == [a[0]] + a[1..] && b == [b[0]] + b[1..];
    }
  }

  lemma SameFirst(a: seq<Backend>, b: seq<Backend>)
    requires Ascending(a) && Ascending(b) && forall x :: x in a <==> x in b
    requires a != [] && b != []
    ensures a[0] == b[0]
  {
    var x, y := a[0].agent.id, b[0].agent.id;
    BeforeTotal(x, y);
    hide Before;
    assert a[0] in a && b[0] in b;
    var j :| 0 <= j < |b| && b[j] == a[0];
    var i :| 0 <= i < |a| && a[i] == b[0];
    if j > 0 && i > 0 {
      assert false;
    }
  }

  /** The order in which the map hands out its agents does not show in the table. */
  lemma OneTable(r: ScoreResult, r': ScoreResult, agents: Agents, now: real, staleAfter: real)
    requires Keyed(agents)
    requires IsTable(r, agents, now, staleAfter) && IsTable(r', agents, now, staleAfter)
    ensures r == r'
  {
    hide Before, Scored, Reason;
    assert forall x :: x in r.backends <==> x in r'.backends by {
      SameEntries(r.backends, r'.backends, agents, now, staleAfter);
      SameEntries(r'.backends, r.backends, agents, now, staleAfter);
    }
    SameList(r.backends, r'.backends);
  }

  lemma SameEntries(a: seq<Backend>, b: seq<Backend>, agents: Agents, now: real, staleAfter: real)
    requires Covers(a, agents, now, staleAfter) && Covers(b, agents, now, staleAfter)
    ensures forall x :: x in a ==> x in b
  {
    hide Scored;
  }

  // ---------- better backends get more ----------

  lemma ScoreOrder(a: Agent, b: Agent)
    requires a.p99 <= b.p99 && a.errorRate <= b.errorRate
    ensures RawScore(a) >= RawScore(b)
    ensures a.errorRate < 1.0 && (a.errorRate < b.errorRate || (a.p99 < b.p99 && b.p99 > 1.0)) ==>
            RawScore(a) > RawScore(b)
  {
    var p, q := (if a.p99 > 1.0 then a.p99 else 1.0), (if b.p99 > 1.0 then b.p99 else 1.0);
    var e, f := 1.0 - (if a.errorRate < 1.0 then a.errorRate else 1.0),
                1.0 - (if b.errorRate < 1.0 then b.errorRate else 1.0);
    Reciprocals(p, q);
    ProductOrder(1.0 / p, e, 1.0 / q, f);
  }

  lemma Reciprocals(p: real, q: real)
    requires 1.0 <= p <= q
    ensures 0.0 < 1.0 / q <= 1.0 / p
    ensures p < q ==> 1.0 / q < 1.0 / p
  {}

  lemma ProductOrder(a: real, e: real, b: real, f: real)
    requires 0.0 < b <= a && 0.0 <= f <= e
    ensures a * e >= b * f
    ensures e > 0.0 && (f < e || b < a) ==> a * e > b * f
  {
    MulOrder(b, a, e);
    MulOrder(f, e, b);
  }

  lemma MulOrder(x: real, y: real, z: real)
    requires x <= y && z >= 0.0
    ensures x * z <= y * z
    ensures x < y && z > 0.0 ==> x * z < y * z
  {
    if x < y && z > 0.0 {
      ProductSign(y - x, z);
      assert y * z - x * z == (y - x) * z;
    }
  }

  /** A fresh backend that is no slower and fails no more often gets no less, and strictly
      more if it is better in one of the two and answers at all. */
  lemma Favours(agents: Agents, now: real, staleAfter: real, i: string, j: string, m: Weights)
    requires i in agents && j in agents && m == WeightsFor(agents, now, staleAfter)
    requires !IsStale(agents[i], now, staleAfter) && !IsStale(agents[j], now, staleAfter)
    requires agents[i].p99 <= agents[j].p99 && agents[i].errorRate <= agents[j].errorRate
    ensures m[i] >= m[j]
    ensures agents[i].errorRate < 1.0 &&
            (agents[i].errorRate < agents[j].errorRate || (agents[i].p99 < agents[j].p99 && agents[j].p99 > 1.0))
            ==> m[i] > m[j]
  {
    var a, b, t := agents[i], agents[j], Total(agents, now, staleAfter);
    ScoreOrder(a, b);
    TotalSign(agents, now, staleAfter);
    assert a.errorRate < 1.0 ==> SomeUseful(agents, now, staleAfter);
    hide RawScore, SomeUseful, Total;
    if t > 0.0 {
      ShareOrder(RawScore(a), RawScore(b), t);
    }
  }

  lemma ShareOrder(x: real, y: real, t: real)
    requires x >= y && t > 0.0
    ensures x / t >= y / t
    ensures x > y ==> x / t > y / t
  {}

  // ---------- the table in terms of the reports ----------

  /** The entry of a backend, from the time of its last report alone: silent for longer than
      the threshold, or never heard of, it is stale and gets nothing; otherwise it is not
      stale, and gets something exactly when it does not fail every request. */
  lemma EntryIs(r: ScoreResult, agents: Agents, now: real, staleAfter: real, b: Backend)
    requires Keyed(agents) && IsTable(r, agents, now, staleAfter) && b in r.backends
    ensures b.agent.id in agents && b.agent == agents[b.agent.id]
    ensures b.agent.lastReport == None ==> b.stale && b.weight == 0.0 && b.score == 0.0
    ensures b.agent.lastReport.Some? && now > b.agent.lastReport.value + staleAfter ==>
              b.stale && b.weight == 0.0 && b.score == 0.0
    ensures b.agent.lastReport.Some? && now <= b.agent.lastReport.value + staleAfter ==>
              && !b.stale
              && (b.agent.errorRate < 1.0 ==> b.score > 0.0 && b.weight > 0.0)
              && (b.agent.errorRate >= 1.0 ==> b.score == 0.0 && b.weight == 0.0)
  {
    var a := agents[b.agent.id];
    TotalSign(agents, now, staleAfter);
    var part, t := Part(a, now, staleAfter), Total(agents, now, staleAfter);
    assert b == Scored(a, agents, now, staleAfter);
    assert a.id in agents && agents[a.id] == a;
    assert !IsStale(a, now, staleAfter) && a.errorRate < 1.0 ==> SomeUseful(agents, now, staleAfter);
    hide Total, RawScore, SomeUseful, IsTable;
    if t > 0.0 {
      QuotientSign(part, t);
    }
  }

  lemma QuotientSign(part: real, t: real)
    requires t > 0.0
    ensures part > 0.0 ==> part / t > 0.0
    ensures part == 0.0 ==> part / t == 0.0
  {
  }

  /** Every agent has an entry, and the reason tells of agents that fell silent. */
  lemma ReasonIs(r: ScoreResult, agents: Agents, now: real, staleAfter: real, k: string)
    requires Keyed(agents) && IsTable(r, agents, now, staleAfter)
    ensures k in agents ==> exists b :: b in r.backends && b.agent == agents[k]
    ensures r.reason == "no_backends" <==> agents == map[]
    ensures k in agents && (agents[k].lastReport == None || now > agents[k].lastReport.value + staleAfter) ==>
              r.reason == "rebalance_with_stale"
    ensures r.reason == "rebalance_with_stale" ==>
              exists j :: j in agents &&
                (agents[j].lastReport == None || now > agents[j].lastReport.value + staleAfter)
    ensures r.reason in {"no_backends", "rebalance_with_stale", "rebalance"}
  {
    hide Total, RawScore;
    if k in agents {
      var b := Scored(agents[k], agents, now, staleAfter);
      assert b in r.backends && b.agent == agents[k];
    }
    if r.reason == "rebalance_with_stale" {
      var j :| j in agents && IsStale(agents[j], now, staleAfter);
      assert agents[j].lastReport == None || now > agents[j].lastReport.value + staleAfter;
    }
  }

  lemma IsScored(r: ScoreResult, agents: Agents, now: real, staleAfter: real, b: Backend)
    requires Keyed(agents) && IsTable(r, agents, now, staleAfter) && b in r.backends
    ensures b.weight == Share(b.score, Total(agents, now, staleAfter))
    ensures !b.stale ==> b.score == RawScore(b.agent)
  {
    hide Total, RawScore, Share;
    assert b == Scored(agents[b.agent.id], agents, now, staleAfter);
  }

  /** The score of a backend that reports: the share of requests it answers, over the latency
      of its slow requests, which counts as no less than one. */
  lemma ScoreIs(r: ScoreResult, agents: Agents, now: real, staleAfter: real, b: Backend)
    requires Keyed(agents) && IsTable(r, agents, now, staleAfter) && b in r.backends && !b.stale
    requires b.agent.errorRate <= 1.0
    ensures b.agent.p99 >= 1.0 ==> b.score * b.agent.p99 == 1.0 - b.agent.errorRate
    ensures b.agent.p99 <= 1.0 ==> b.score == 1.0 - b.agent.errorRate
  {
    hide *;
    IsScored(r, agents, now, staleAfter, b);
    RawIs(b.agent);
  }

  lemma RawIs(a: Agent)
    requires a.errorRate <= 1.0
    ensures a.p99 >= 1.0 ==> RawScore(a) * a.p99 == 1.0 - a.errorRate
    ensures a.p99 <= 1.0 ==> RawScore(a) == 1.0 - a.errorRate
  {
    if a.p99 > 1.0 {
      Division(a.p99, 1.0 - a.errorRate);
    }
  }

  lemma Division(p: real, e: real)
    requires p >= 1.0
    ensures ((1.0 / p) * e) * p == e
  {
    assert (1.0 / p) * p == 1.0;
    assert ((1.0 / p) * e) * p == ((1.0 / p) * p) * e;
  }

  /** Weights are in proportion to the scores. */
  lemma Proportional(r: ScoreResult, agents: Agents, now: real, staleAfter: real, a: Backend, b: Backend)
    requires Keyed(agents) && IsTable(r, agents, now, staleAfter) && a in r.backends && b in r.backends
    ensures a.weight * b.score == b.weight * a.score
  {
    hide *;
    IsScored(r, agents, now, staleAfter, a);
    IsScored(r, agents, now, staleAfter, b);
    Proportion(a.score, b.score, Total(agents, now, staleAfter));
  }

  lemma Proportion(x: real, y: real, t: real)
    ensures Share(x, t) * y == Share(y, t) * x
  {
    if t > 0.0 {
      assert (x / t) * y == (x * y) / t == (y / t) * x;
    }
  }
}
