/** hotwire's control plane: it compares each new score table with the last one it announced,
    and hands changed tables to its subscribers. */
module HotwireServer {
  import opened Common
  import opened HotwireSums
  import opened HotwireScore

  datatype BackendWeight = BackendWeight(id: string, weight: real, score: real, p99: real, errorRate: real)
  datatype Update = Update(weights: seq<BackendWeight>, reason: string, time: real)
  datatype Assignment = Assignment(id: string, weight: real, time: real)
  datatype Fingerprint = Fingerprint(reason: string, weights: Weights)

  const UPDATE_SLOTS := 4
  const ASSIGNMENT_SLOTS := 8

  // ---------- tables as messages ----------

  function EntryOf(b: Backend): BackendWeight {
    BackendWeight(b.agent.id, b.weight, b.score, b.agent.p99, b.agent.errorRate)
  }

  function Entries(list: seq<Backend>): (s: seq<BackendWeight>)
    ensures |s| == |list|
  {
    seq(|list|, i requires 0 <= i < |list| => EntryOf(list[i]))
  }

  function UpdateOf(r: ScoreResult, now: real): Update {
    Update(Entries(r.backends), r.reason, now)
  }

  function AssignmentsOf(list: seq<Backend>, now: real): (s: seq<Assignment>)
    ensures |s| == |list|
  {
    seq(|list|, i requires 0 <= i < |list| => Assignment(list[i].agent.id, list[i].weight, now))
  }

  method ToUpdate(r: ScoreResult, now: real) returns (u: Update)
    ensures u == UpdateOf(r, now)
    ensures u.reason == r.reason && u.time == now && |u.weights| == |r.backends|
    ensures forall i :: 0 <= i < |r.backends| ==>
              var b := r.backends[i];
              u.weights[i] == BackendWeight(b.agent.id, b.weight, b.score, b.agent.p99, b.agent.errorRate)
  {
    var weights := [];
    for i := 0 to |r.backends|
      invariant |weights| == i && forall j :: 0 <= j < i ==> weights[j] == EntryOf(r.backends[j])
    {
      weights := weights + [EntryOf(r.backends[i])];
    }
    u := Update(weights, r.reason, now);
    assert weights == Entries(r.backends);
  }

  method ToAssignments(r: ScoreResult, now: real) returns (out: seq<Assignment>)
    ensures out == AssignmentsOf(r.backends, now)
    ensures |out| == |r.backends|
    ensures forall i :: 0 <= i < |out| ==> out[i] == Assignment(r.backends[i].agent.id, r.backends[i].weight, now)
  {
    out := [];
    for i := 0 to |r.backends|
      invariant |out| == i
      invariant forall j :: 0 <= j < i ==> out[j] == Assignment(r.backends[j].agent.id, r.backends[j].weight, now)
    {
      out := out + [Assignment(r.backends[i].agent.id, r.backends[i].weight, now)];
    }
  }

  // ---------- fingerprints ----------

  /** The weights a list of entries gives by name, the last entry of a name winning. */
  function ByName(s: seq<BackendWeight>): Weights {
    if s == [] then map[]
    else ByName(s[..|s| - 1])[s[|s| - 1].id := s[|s| - 1].weight]
  }

  function PrintOf(r: ScoreResult): Fingerprint {
    Fingerprint(r.reason, ByName(Entries(r.backends)))
  }

  method FingerprintFrom(r: ScoreResult) returns (f: Fingerprint)
    ensures f == PrintOf(r)
  {
    var weights: Weights := map[];
    ghost var all := Entries(r.backends);
    for i := 0 to |r.backends|
      invariant weights == ByName(all[..i])
    {
      var b := r.backends[i];
      assert all[..i + 1][..i] == all[..i];
      weights := weights[b.agent.id := b.weight];
    }
    assert all[..|r.backends|] == all;
    f := Fingerprint(r.reason, weights);
  }

  ghost predicate SamePrint(f: Fingerprint, o: Fingerprint) {
    f.reason == o.reason && |f.weights| == |o.weights| && AgreesOn(f.weights, o.weights)
  }

  method Equal(f: Fingerprint, o: Fingerprint) returns (r: bool)
    ensures r <==> SamePrint(f, o)
    ensures r <==> f.reason == o.reason && |f.weights| == |o.weights| &&
                   forall k :: k in f.weights ==> (if k in o.weights then o.weights[k] else 0.0) == f.weights[k]
  {
    if f.reason != o.reason || |f.weights| != |o.weights| {
      return false;
    }
    var left := f.weights.Keys;
    while left != {}
      invariant left <= f.weights.Keys
      invariant forall k :: k in f.weights && k !in left ==> Look(o.weights, k) == f.weights[k]
      decreases |left|
    {
      var k :| k in left;
      if Look(o.weights, k) != f.weights[k] {
        return false;
      }
      left := left - {k};
    }
    return true;
  }

  lemma {:induction false} ByNameEntries(list: seq<Backend>, m: Weights)
    requires forall b :: b in list ==> b.agent.id in m && m[b.agent.id] == b.weight
    ensures forall k :: k in ByName(Entries(list)) <==> exists b :: b in list && b.agent.id == k
    ensures forall k :: k in ByName(Entries(list)) ==> k in m && ByName(Entries(list))[k] == m[k]
  {
    if list != [] {
      var front, last := list[..|list| - 1], list[|list| - 1];
      assert Entries(list)[..|list| - 1] == Entries(front);
      assert forall b :: b in list <==> b == last || b in front;
      ByNameEntries(front, m);
    }
  }

  /** A score table's fingerprint holds every backend's weight. */
  lemma PrintOfTable(r: ScoreResult, agents: Agents, now: real, staleAfter: real)
    requires Keyed(agents) && IsTable(r, agents, now, staleAfter)
    ensures PrintOf(r).weights == WeightsFor(agents, now, staleAfter)
  {
    var m := WeightsFor(agents, now, staleAfter);
    assert forall b :: b in r.backends ==> b.agent.id in m && m[b.agent.id] == b.weight by {
      hide Share, Part, Total;
    }
    ByNameEntries(r.backends, m);
    hide ByName, Share, Part, Total;
    forall k | k in agents
      ensures exists b :: b in r.backends && b.agent.id == k
    {
      var b := Scored(agents[k], agents, now, staleAfter);
      assert b in r.backends && b.agent.id == k;
    }
  }

  // ---------- when comparing fingerprints is right ----------

  /** What every score table's weights satisfy. */
  ghost predicate Normal(m: Weights) {
    NonNegative(m) && (SomePositive(m) ==> SumOf(m) == 1.0)
  }

  /** To a reader for whom a missing backend weighs nothing, both say the same. */
  ghost predicate SameEffect(f: Weights, o: Weights) {
    forall k :: Look(f, k) == Look(o, k)
  }

  lemma TablesNormal(r: ScoreResult, agents: Agents, now: real, staleAfter: real)
    requires Keyed(agents) && IsTable(r, agents, now, staleAfter)
    ensures Normal(PrintOf(r).weights)
  {
    PrintOfTable(r, agents, now, staleAfter);
    WeightsSum(agents, now, staleAfter, WeightsFor(agents, now, staleAfter));
  }

  lemma SumPart(o: Weights, k: string)
    requires NonNegative(o) && k in o
    ensures o[k] <= SumOf(o)
  {
    SumRemove(o, k);
    SumSign(o - {k});
  }

  /** When the comparison finds no difference, none of the effective weights differs, if and
      only if the new table has a positive weight or the old one has none. */
  lemma UnchangedIff(f: Weights, o: Weights)
    requires Normal(f) && Normal(o) && AgreesOn(f, o)
    ensures SameEffect(f, o) <==> SomePositive(f) || !SomePositive(o)
  {
    hide SumOf;
    if SomePositive(f) {
      var p :| p in f && f[p] > 0.0;
      assert Look(o, p) > 0.0;
      SumAgree(f, o);
      var rest := o - f.Keys;
      forall k
        ensures Look(f, k) == Look(o, k)
      {
        if k !in f && k in o {
          assert k in rest;
          SumPart(rest, k);
        }
      }
    } else if SomePositive(o) {
      var p :| p in o && o[p] > 0.0;
      assert Look(f, p) <= 0.0 < Look(o, p);
    }
  }

  /** The other case happens: one backend is replaced by one that always fails, and the
      change is not seen. */
  lemma MissedChange(before: Agents, after: Agents, r: ScoreResult, r': ScoreResult)
    requires before == map["a" := Agent("a", 1.0, 1.0, 0.0, 0, 1.0, Some(0.0))]
    requires after == map["b" := Agent("b", 1.0, 1.0, 1.0, 0, 1.0, Some(0.0))]
    requires IsTable(r, before, 0.0, 3.0) && IsTable(r', after, 0.0, 3.0)
    ensures SamePrint(PrintOf(r'), PrintOf(r))
    ensures Look(PrintOf(r).weights, "a") == 1.0 && Look(PrintOf(r').weights, "a") == 0.0
  {
    Alone("a", before["a"], before, r);
    Alone("b", after["b"], after, r');
    hide *;
    CountOne("a", PrintOf(r).weights);
    CountOne("b", PrintOf(r').weights);
    OneEach(PrintOf(r), PrintOf(r'));
  }

  lemma Alone(k: string, a: Agent, agents: Agents, r: ScoreResult)
    requires agents == map[k := a] && a.id == k && a.lastReport == Some(0.0) && a.errorRate >= 0.0
    requires IsTable(r, agents, 0.0, 3.0)
    ensures PrintOf(r).reason == "rebalance" && PrintOf(r).weights.Keys == {k}
    ensures PrintOf(r).weights[k] == if a.errorRate < 1.0 then 1.0 else 0.0
  {
    PrintOfTable(r, agents, 0.0, 3.0);
    var m := PrintOf(r).weights;
    WeightsSum(agents, 0.0, 3.0, m);
    hide WeightsFor, PrintOf, Covers, Ascending;
    assert agents[k] == a;
    SumRemove(m, k);
    assert m - {k} == map[];
    assert m[k] == SumOf(m);
  }

  lemma CountOne(k: string, m: Weights)
    requires m.Keys == {k}
    ensures |m| == 1 && forall j :: j in m ==> j == k
  {
    assert |m| == |m.Keys|;
  }

  lemma OneEach(f: Fingerprint, f': Fingerprint)
    requires f.reason == f'.reason && |f.weights| == |f'.weights| == 1
    requires f.weights.Keys == {"a"} && f'.weights.Keys == {"b"}
    requires f.weights["a"] == 1.0 && f'.weights["b"] == 0.0
    ensures SamePrint(f', f) && Look(f.weights, "a") == 1.0 && Look(f'.weights, "a") == 0.0
  {
    assert "a" != "b";
    assert "a" !in f'.weights && "b" !in f.weights;
  }

  // ---------- the server ----------

  /** What a subscriber has seen: where in the announcements it joined, and what it received. */
  datatype Reader = Reader(start: nat, got: seq<Update>)

  /** Received and queued together are all announcements since joining, none skipped. */
  ghost predicate CaughtUp(reader: Reader, queue: seq<Update>, log: seq<Update>) {
    reader.start <= |log| && reader.got + queue == log[reader.start..]
  }

  class Server {
    const registry: Registry
    var subscribers: map<int, seq<Update>>
    var metricStreams: map<string, seq<Assignment>>
    var nextSubID: nat
    var lastUpdate: Fingerprint
    ghost var log: seq<Update>
    ghost var readers: map<int, Reader>

    ghost predicate Valid()
      reads this, registry
    {
      && registry.Valid()
      && Normal(lastUpdate.weights)
      && (log == [] ==> lastUpdate == Fingerprint("", map[]))
      && (log != [] ==> lastUpdate == Announced(log[|log| - 1]))
      && SubscribersOk(subscribers, readers, log, nextSubID)
    }

    constructor (registry: Registry)
      requires registry.Valid()
      ensures Valid() && log == [] && this.registry == registry
    {
      this.registry := registry;
      subscribers, metricStreams, nextSubID := map[], map[], 0;
      lastUpdate := Fingerprint("", map[]);
      log, readers := [], map[];
    }

    method AddSubscriber() returns (id: int)
      requires Valid()
      modifies this
      ensures Valid() && id !in old(subscribers)
      ensures subscribers == old(subscribers)[id := []] && readers == old(readers)[id := Reader(|log|, [])]
      ensures log == old(log) && lastUpdate == old(lastUpdate) && metricStreams == old(metricStreams)
    {
      nextSubID := nextSubID + 1;
      id := nextSubID;
      subscribers := subscribers[id := []];
      readers := readers[id := Reader(|log|, [])];
    }

    method RemoveSubscriber(id: int)
      requires Valid()
      modifies this
      ensures Valid() && subscribers == old(subscribers) - {id}
      ensures readers == old(readers) && log == old(log) && lastUpdate == old(lastUpdate)
      ensures metricStreams == old(metricStreams) && nextSubID == old(nextSubID)
    {
      subscribers := subscribers - {id};
    }

    /** A subscriber's stream takes the next update from its channel. */
    method Receive(id: int) returns (u: Update)
      requires Valid() && id in subscribers && subscribers[id] != []
      modifies this
      ensures Valid() && u == old(subscribers[id][0])
      ensures subscribers == old(subscribers)[id := old(subscribers[id][1..])]
      ensures readers == old(readers)[id := Reader(old(readers[id].start), old(readers[id].got) + [u])]
      ensures log == old(log) && lastUpdate == old(lastUpdate)
      ensures metricStreams == old(metricStreams) && nextSubID == old(nextSubID)
    {
      u := subscribers[id][0];
      ghost var r := readers[id];
      assert r.got + subscribers[id] == r.got + [u] + subscribers[id][1..];
      readers := readers[id := Reader(r.start, r.got + [u])];
      subscribers := subscribers[id := subscribers[id][1..]];
    }

    /** Announces the current table unless its fingerprint equals the last announced one. */
    method Rebalance(now: real) returns (ghost table: ScoreResult)
      requires Valid()
      modifies this
      ensures Valid() && IsTable(table, registry.agents, now, registry.staleAfter)
      ensures nextSubID == old(nextSubID) && readers == old(readers)
      ensures SamePrint(PrintOf(table), old(lastUpdate)) ==>
              subscribers == old(subscribers) && metricStreams == old(metricStreams) &&
              lastUpdate == old(lastUpdate) && log == old(log)
      ensures !SamePrint(PrintOf(table), old(lastUpdate)) ==>
              && lastUpdate == PrintOf(table)
              && log == old(log) + [UpdateOf(table, now)]
              && Delivered(old(subscribers), subscribers, UpdateOf(table, now))
              && Pushed(old(metricStreams), metricStreams, AssignmentsOf(table.backends, now))
      ensures SomePositive(PrintOf(table).weights) || !SomePositive(old(lastUpdate.weights)) ==>
              SameEffect(PrintOf(table).weights, lastUpdate.weights)
    {
      hide IsTable, SumOf, ByName;
      var result := Score(registry, now);
      table := result;
      var fp := FingerprintFrom(result);
      TablesNormal(result, registry.agents, now, registry.staleAfter);
      var same := Equal(fp, lastUpdate);
      if same {
        UnchangedIff(fp.weights, lastUpdate.weights);
        return;
      }
      var update := ToUpdate(result, now);
      var assignments := ToAssignments(result, now);
      lastUpdate := fp;
      log := log + [update];
      DeliverAll(update);
      PushAll(assignments);
    }

    /** Every channel with room gets the update; a subscriber whose channel is full is dropped. */
    method DeliverAll(update: Update)
      requires log != [] && log[|log| - 1] == update
      requires SubscribersOk(subscribers, readers, log[..|log| - 1], nextSubID)
      modifies this`subscribers
      ensures Delivered(old(subscribers), subscribers, update)
      ensures SubscribersOk(subscribers, readers, log, nextSubID)
    {
      hide SubscribersOk, Announced;
      var left := subscribers.Keys;
      while left != {}
        invariant left <= old(subscribers.Keys)
        invariant forall id :: id in left ==> id in subscribers && subscribers[id] == old(subscribers)[id]
        invariant subscribers.Keys <= old(subscribers.Keys)
        invariant forall id :: id in old(subscribers) && id !in left ==>
            DeliveredTo(old(subscribers)[id], id, subscribers, update)
        decreases |left|
      {
        var id := AnyOf(left);
        if |subscribers[id]| < UPDATE_SLOTS {
          subscribers := subscribers[id := subscribers[id] + [update]];
        } else {
          subscribers := subscribers - {id};
        }
        left := left - {id};
      }
      DeliveredOk(old(subscribers), subscribers, readers, log, nextSubID);
    }

    /** Each metric stream with room gets its own backend's new weight. */
    method PushAll(assignments: seq<Assignment>)
      modifies this`metricStreams
      ensures Pushed(old(metricStreams), metricStreams, assignments)
    {
      var left := metricStreams.Keys;
      while left != {}
        invariant left <= metricStreams.Keys == old(metricStreams.Keys)
        invariant forall id :: id in left ==> metricStreams[id] == old(metricStreams)[id]
        invariant forall id :: id in metricStreams && id !in left ==>
            metricStreams[id] == PushTo(old(metricStreams)[id], id, assignments)
        decreases |left|
      {
        var id :| id in left;
        var i := 0;
        while i < |assignments| && assignments[i].id != id
          invariant 0 <= i <= |assignments|
          invariant PushTo(metricStreams[id], id, assignments) == PushTo(metricStreams[id], id, assignments[i..])
        {
          i := i + 1;
        }
        if i < |assignments| && |metricStreams[id]| < ASSIGNMENT_SLOTS {
          metricStreams := metricStreams[id := metricStreams[id] + [assignments[i]]];
        }
        left := left - {id};
      }
    }
  }

  lemma NotEmpty(s: set<int>)
    requires s != {}
    ensures exists y :: y in s
  {
    assert (forall y :: y !in s) ==> s == {};
  }

  /** The next key of a map's iteration: any one that is left. */
  method AnyOf(s: set<int>) returns (x: int)
    requires s != {}
    ensures x in s
  {
    NotEmpty(s);
    x :| x in s;
  }

  ghost function Announced(u: Update): Fingerprint {
    Fingerprint(u.reason, ByName(u.weights))
  }

  ghost predicate SubscribersOk(
      subscribers: map<int, seq<Update>>, readers: map<int, Reader>, log: seq<Update>, nextSubID: nat)
  {
    forall id :: id in subscribers ==>
      && id <= nextSubID && id in readers
      && |subscribers[id]| <= UPDATE_SLOTS
      && CaughtUp(readers[id], subscribers[id], log)
  }

  predicate DeliveredTo(queue: seq<Update>, id: int, after: map<int, seq<Update>>, update: Update) {
    if |queue| < UPDATE_SLOTS then id in after && after[id] == queue + [update] else id !in after
  }

  predicate Delivered(before: map<int, seq<Update>>, after: map<int, seq<Update>>, update: Update) {
    && (forall id :: id in before ==> DeliveredTo(before[id], id, after, update))
    && (forall id :: id in after ==> id in before)
  }

  lemma DeliveredOk(
      before: map<int, seq<Update>>, after: map<int, seq<Update>>, readers: map<int, Reader>,
      log: seq<Update>, nextSubID: nat)
    requires log != [] && SubscribersOk(before, readers, log[..|log| - 1], nextSubID)
    requires Delivered(before, after, log[|log| - 1])
    ensures SubscribersOk(after, readers, log, nextSubID)
  {
    forall id | id in after
      ensures CaughtUp(readers[id], after[id], log)
    {
      var r, u := readers[id], log[|log| - 1];
      assert DeliveredTo(before[id], id, after, u);
      assert log[r.start..] == log[..|log| - 1][r.start..] + [u];
    }
  }

  /** A stream's queue after a push: the first assignment of its own name, if there is room. */
  function PushTo(queue: seq<Assignment>, id: string, assignments: seq<Assignment>): seq<Assignment> {
    if assignments == [] then queue
    else if assignments[0].id == id then
      if |queue| < ASSIGNMENT_SLOTS then queue + [assignments[0]] else queue
    else PushTo(queue, id, assignments[1..])
  }

  predicate Pushed(
      before: map<string, seq<Assignment>>, after: map<string, seq<Assignment>>, assignments: seq<Assignment>)
  {
    && before.Keys == after.Keys
    && forall id :: id in after ==> after[id] == PushTo(before[id], id, assignments)
  }

  /** A subscriber that is still registered and has emptied its channel holds the latest
      announcement, if there was any since it joined. */
  lemma DrainedHasLatest(reader: Reader, log: seq<Update>)
    requires CaughtUp(reader, [], log) && reader.start < |log|
    ensures reader.got != [] && reader.got[|reader.got| - 1] == log[|log| - 1]
  {
    assert reader.got == log[reader.start..];
  }

  /** A delivery in terms of the channels: fewer than four waiting updates leave room. */
  lemma DeliveredIs(before: map<int, seq<Update>>, after: map<int, seq<Update>>, update: Update, id: int)
    requires Delivered(before, after, update)
    ensures id in before && |before[id]| < 4 ==> id in after && after[id] == before[id] + [update]
    ensures id in before && |before[id]| >= 4 ==> id !in after
    ensures id !in before ==> id !in after
  {
  }

  /** A push in terms of the table: a backend's stream with fewer than eight waiting
      assignments gets that backend's weight; all other streams stay. */
  lemma PushedWeight(
      before: map<string, seq<Assignment>>, after: map<string, seq<Assignment>>, table: ScoreResult,
      agents: Agents, now: real, staleAfter: real, id: string)
    requires Keyed(agents) && IsTable(table, agents, now, staleAfter)
    requires Pushed(before, after, AssignmentsOf(table.backends, now))
    ensures before.Keys == after.Keys
    ensures id in before && id in agents && |before[id]| < 8 ==>
              after[id] == before[id] + [Assignment(id, WeightsFor(agents, now, staleAfter)[id], now)]
    ensures id in before && (id !in agents || |before[id]| >= 8) ==> after[id] == before[id]
  {
    hide IsTable, WeightsFor;
    if id in before {
      TableListing(table, agents, now, staleAfter, id);
      PushFinds(before[id], id, table.backends, now, Look(WeightsFor(agents, now, staleAfter), id));
    }
  }

  lemma TableListing(r: ScoreResult, agents: Agents, now: real, staleAfter: real, id: string)
    requires Keyed(agents) && IsTable(r, agents, now, staleAfter)
    ensures id in agents <==> Lists(r.backends, id)
    ensures forall b :: b in r.backends && b.agent.id == id ==>
              id in agents && b.weight == WeightsFor(agents, now, staleAfter)[id]
  {
    hide Total, Part, Share;
    if id in agents {
      var b := Scored(agents[id], agents, now, staleAfter);
      assert b in r.backends && b.agent.id == id;
    }
  }

  ghost predicate Lists(list: seq<Backend>, id: string) {
    exists b :: b in list && b.agent.id == id
  }

  lemma {:induction false} PushFinds(queue: seq<Assignment>, id: string, list: seq<Backend>, now: real, weight: real)
    requires forall b :: b in list && b.agent.id == id ==> b.weight == weight
    ensures !Lists(list, id) || |queue| >= 8 ==> PushTo(queue, id, AssignmentsOf(list, now)) == queue
    ensures Lists(list, id) && |queue| < 8 ==>
              PushTo(queue, id, AssignmentsOf(list, now)) == queue + [Assignment(id, weight, now)]
    decreases |list|
  {
    if list != [] {
      assert AssignmentsOf(list, now)[1..] == AssignmentsOf(list[1..], now);
      assert forall b :: b in list <==> b == list[0] || b in list[1..];
      PushFinds(queue, id, list[1..], now, weight);
    }
  }
}
