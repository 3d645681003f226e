/** What a subscriber gets, in every run of relay's store. */
module RelayHandoff {
  import opened Common
  import opened RelayRing
  import opened RelayStore

  // ---------- the plan in terms of the logs ----------

  ghost predicate Covers(topics: map<string, Topic>, start: map<string, nat>, list: seq<string>) {
    forall t :: t in list ==> t in topics && t in start && start[t] <= |topics[t].log|
  }

  /** What was retained of the topic when the subscriber joined, from its offset on. */
  function Owed(topics: map<string, Topic>, start: map<string, nat>, t: string, from: int): seq<Event>
    requires t in topics && t in start && start[t] <= |topics[t].log|
  {
    if from <= 0 then [] else Suffix(topics[t].log[..start[t]], DEFAULT_SIZE, from)
  }

  function LogPlan(topics: map<string, Topic>, start: map<string, nat>, list: seq<string>, from: int): seq<Event>
    requires Covers(topics, start, list)
  {
    if list == [] then []
    else
      LogPlan(topics, start, list[..|list| - 1], from) + Owed(topics, start, list[|list| - 1], from)
  }

  ghost predicate PlanOk(topics: map<string, Topic>, sub: Sub) {
    && Covers(topics, sub.start, sub.list)
    && (forall t :: t in sub.topics <==> t in sub.list)
    && sub.plan == LogPlan(topics, sub.start, sub.list, sub.from)
  }

  ghost predicate PlansOk(s: State) {
    forall id :: id in s.subs ==> PlanOk(s.topics, s.subs[id])
  }

  /** Logs only grow. */
  ghost predicate Grows(before: map<string, Topic>, after: map<string, Topic>) {
    forall t :: t in before ==> t in after && before[t].log <= after[t].log
  }

  lemma {:induction false} LogPlanGrows(before: map<string, Topic>, after: map<string, Topic>, start: map<string, nat>,
                                        list: seq<string>, from: int)
    requires Covers(before, start, list) && Grows(before, after)
    ensures Covers(after, start, list) && LogPlan(after, start, list, from) == LogPlan(before, start, list, from)
  {
    if list != [] {
      var t := list[|list| - 1];
      LogPlanGrows(before, after, start, list[..|list| - 1], from);
      assert after[t].log[..start[t]] == before[t].log[..start[t]];
    }
  }

  /** What Subscribe collects is what the logs owe. */
  lemma {:induction false} PlanIsLogPlan(
      s: State, list: seq<string>, from: int, start: map<string, nat>, after: map<string, Topic>)
    requires Inv(s) && RingsOk(s.topics) && Covers(after, start, list)
    requires forall t :: t in list ==>
               start[t] == |TopicAt(s.topics, t).log| && after[t].log == TopicAt(s.topics, t).log
    ensures PlanFor(s.topics, list, from) == LogPlan(after, start, list, from)
  {
    if list != [] {
      var t := list[|list| - 1];
      PlanIsLogPlan(s, list[..|list| - 1], from, start, after);
      TopicAtOk(s, t);
      var topic := TopicAt(s.topics, t);
      ReplayAgrees(topic.ring, topic.log, from);
      assert after[t].log[..start[t]] == topic.log;
    }
  }

  lemma StepGrows(s: State, op: Op)
    requires Inv(s) && RingsOk(s.topics) && Enabled(s, op)
    ensures Grows(s.topics, Step(s, op).topics)
  {
  }

  lemma NewPlanOk(s: State, id: SubId, list: seq<string>, from: int)
    requires Inv(s) && RingsOk(s.topics) && id !in s.subs
    ensures var s' := SubscribeStep(s, id, list, from); PlanOk(s'.topics, s'.subs[id])
  {
    var s' := SubscribeStep(s, id, list, from);
    var sub := s'.subs[id];
    forall t | t in list ensures sub.start[t] == |TopicAt(s.topics, t).log| {
      TopicAtOk(s, t);
    }
    PlanIsLogPlan(s, list, from, sub.start, s'.topics);
  }

  /** A step changes no subscriber's arguments, starts or plan. */
  predicate SameTerms(a: Sub, b: Sub) {
    a.list == b.list && a.from == b.from && a.start == b.start && a.plan == b.plan && a.topics == b.topics
  }

  lemma StepTerms(s: State, op: Op, id: SubId)
    requires Inv(s) && RingsOk(s.topics) && Enabled(s, op) && id in s.subs
    ensures id in Step(s, op).subs && SameTerms(s.subs[id], Step(s, op).subs[id])
  {
    hide Inv, RingsOk, PlanFor, Join, Append;
    match op
    case Publish(ev) => hide TopicAt;
    case _ =>
  }

  lemma PlansKept(s: State, op: Op)
    requires Inv(s) && RingsOk(s.topics) && Enabled(s, op) && PlansOk(s)
    ensures PlansOk(Step(s, op))
  {
    var s' := Step(s, op);
    StepGrows(s, op);
    forall id | id in s'.subs ensures PlanOk(s'.topics, s'.subs[id]) {
      if id in s.subs {
        StepTerms(s, op, id);
        var sub := s.subs[id];
        LogPlanGrows(s.topics, s'.topics, sub.start, sub.list, sub.from);
      } else {
        assert op.Subscribe? && op.id == id;
        NewPlanOk(s, id, op.list, op.from);
      }
    }
  }

  // ---------- runs ----------

  /** The store after the operations; an impossible one changes nothing. */
  function Exec(ops: seq<Op>): State {
    if ops == [] then EMPTY
    else
      var before, op := Exec(ops[..|ops| - 1]), ops[|ops| - 1];
      if RingsOk(before.topics) && Enabled(before, op) then Step(before, op) else before
  }

  lemma {:induction false} Reachable(ops: seq<Op>)
    ensures Inv(Exec(ops)) && RingsOk(Exec(ops).topics) && PlansOk(Exec(ops))
  {
    if ops != [] {
      var before, op := Exec(ops[..|ops| - 1]), ops[|ops| - 1];
      Reachable(ops[..|ops| - 1]);
      if Enabled(before, op) {
        StepKeeps(before, op);
        PlansKept(before, op);
        hide Inv, PlansOk, Step;
        InvRings(Step(before, op));
      }
    }
  }

  // ---------- one topic of one subscriber ----------

  function OfTopic(evs: seq<Event>, t: string): seq<Event> {
    if evs == [] then []
    else OfTopic(evs[..|evs| - 1], t) + if evs[|evs| - 1].topic == t then [evs[|evs| - 1]] else []
  }

  lemma {:induction false} OfTopicAppend(a: seq<Event>, b: seq<Event>, t: string)
    ensures OfTopic(a + b, t) == OfTopic(a, t) + OfTopic(b, t)
  {
    if b == [] {
      assert a + b == a;
    } else {
      assert (a + b)[..|a + b| - 1] == a + b[..|b| - 1];
      OfTopicAppend(a, b[..|b| - 1], t);
    }
  }

  lemma {:induction false} OfTopicSame(evs: seq<Event>, t: string)
    requires forall k :: 0 <= k < |evs| ==> evs[k].topic == t
    ensures OfTopic(evs, t) == evs
  {
    if evs != [] {
      OfTopicSame(evs[..|evs| - 1], t);
    }
  }

  lemma {:induction false} OfTopicOther(evs: seq<Event>, t: string)
    requires forall k :: 0 <= k < |evs| ==> evs[k].topic != t
    ensures OfTopic(evs, t) == []
  {
    if evs != [] {
      OfTopicOther(evs[..|evs| - 1], t);
    }
  }

  lemma OwedTopic(s: State, start: map<string, nat>, u: string, from: int, t: string)
    requires Inv(s) && u in s.topics && u in start && start[u] <= |s.topics[u].log|
    ensures OfTopic(Owed(s.topics, start, u, from), t) == if u == t then Owed(s.topics, start, u, from) else []
  {
    assert TopicOk(u, s.topics[u]);
    var owed := Owed(s.topics, start, u, from);
    assert forall k :: 0 <= k < |owed| ==> owed[k].topic == u;
    if u == t {
      OfTopicSame(owed, t);
    } else {
      OfTopicOther(owed, t);
    }
  }

  /** With distinct topics each is replayed once. */
  lemma {:induction false} PlanOfTopic(s: State, start: map<string, nat>, list: seq<string>, from: int, t: string)
    requires Inv(s) && Covers(s.topics, start, list) && Distinct(list)
    ensures OfTopic(LogPlan(s.topics, start, list, from), t) == if t in list then Owed(s.topics, start, t, from) else []
  {
    if list != [] {
      var u, shorter := list[|list| - 1], list[..|list| - 1];
      assert Distinct(shorter) && u !in shorter;
      assert t in list <==> t in shorter || t == u;
      PlanOfTopic(s, start, shorter, from, t);
      OwedTopic(s, start, u, from, t);
      OfTopicAppend(LogPlan(s.topics, start, shorter, from), Owed(s.topics, start, u, from), t);
    }
  }

  /** The events of topic t put live. */
  function LiveEvents(trace: seq<Mark>, t: string): seq<Event> {
    if trace == [] then []
    else
      var last := trace[|trace| - 1];
      LiveEvents(trace[..|trace| - 1], t) + if last.Live? && last.ev.topic == t then [last.ev] else []
  }

  predicate NoDrop(trace: seq<Mark>, t: string) {
    forall k :: 0 <= k < |trace| ==> !(trace[k].Dropped? && trace[k].ev.topic == t)
  }

  function Only(keep: bool, e: Event): seq<Event> {
    if keep then [e] else []
  }

  lemma OfTopicStep(evs: seq<Event>, keep: bool, e: Event, t: string)
    ensures OfTopic(evs + Only(keep, e), t) == OfTopic(evs, t) + Only(keep && e.topic == t, e)
  {
    OfTopicAppend(evs, Only(keep, e), t);
    assert [e][..0] == [];
  }

  /** One more mark adds the same event to both sides, or none. */
  lemma MarkSplits(trace: seq<Mark>, m: Mark, t: string)
    ensures OfTopic(PutEvents(trace + [m]), t) ==
            OfTopic(PutEvents(trace), t) + Only(!m.Dropped? && m.ev.topic == t, m.ev)
    ensures OfTopic(ReplayedEvents(trace + [m]), t) ==
            OfTopic(ReplayedEvents(trace), t) + Only(m.Replayed? && m.ev.topic == t, m.ev)
    ensures LiveEvents(trace + [m], t) == LiveEvents(trace, t) + Only(m.Live? && m.ev.topic == t, m.ev)
  {
    TraceAppend(trace, m, t);
    assert (trace + [m])[..|trace|] == trace;
    OfTopicStep(PutEvents(trace), !m.Dropped?, m.ev, t);
    OfTopicStep(ReplayedEvents(trace), m.Replayed?, m.ev, t);
    hide OfTopic, PutEvents, ReplayedEvents;
  }

  ghost predicate Splits(trace: seq<Mark>, t: string) {
    multiset(OfTopic(PutEvents(trace), t)) ==
    multiset(OfTopic(ReplayedEvents(trace), t)) + multiset(LiveEvents(trace, t))
  }

  /** The channel's events of a topic are those replayed and those put live. */
  lemma {:induction false} PutSplits(trace: seq<Mark>, t: string)
    ensures Splits(trace, t)
  {
    if trace != [] {
      hide *;
      var shorter, last := trace[..|trace| - 1], trace[|trace| - 1];
      assert shorter + [last] == trace;
      PutSplits(shorter, t);
      SplitsMore(shorter, last, t);
    }
  }

  lemma SplitsMore(trace: seq<Mark>, m: Mark, t: string)
    requires Splits(trace, t)
    ensures Splits(trace + [m], t)
  {
    hide OfTopic, PutEvents, ReplayedEvents, LiveEvents;
    MarkSplits(trace, m, t);
    var mine := m.ev.topic == t;
    MultisetStep(OfTopic(PutEvents(trace), t), OfTopic(ReplayedEvents(trace), t), LiveEvents(trace, t),
                 Only(!m.Dropped? && mine, m.ev), Only(m.Replayed? && mine, m.ev), Only(m.Live? && mine, m.ev));
  }

  lemma MultisetStep<T>(p: seq<T>, r: seq<T>, l: seq<T>, x: seq<T>, y: seq<T>, z: seq<T>)
    requires multiset(p) == multiset(r) + multiset(l)
    requires multiset(x) == multiset(y) + multiset(z)
    ensures multiset(p + x) == multiset(r + y) + multiset(l + z)
  {
  }

  /** The events of offsets below the cut, and those from it on, each in the order given. */
  function Early(evs: seq<Event>, cut: nat): seq<Event> {
    if evs == [] then []
    else
      var last := evs[|evs| - 1];
      Early(evs[..|evs| - 1], cut) + Only(last.offset < cut, last)
  }

  function Late(evs: seq<Event>, cut: nat): seq<Event> {
    if evs == [] then []
    else
      var last := evs[|evs| - 1];
      Late(evs[..|evs| - 1], cut) + Only(last.offset >= cut, last)
  }

  /** evs interleaves early and late, whose offsets lie on the two sides of the cut. */
  ghost predicate Interleaves(evs: seq<Event>, early: seq<Event>, late: seq<Event>, cut: nat) {
    Early(evs, cut) == early && Late(evs, cut) == late
  }

  lemma InterleavesMore(
      evs: seq<Event>, early: seq<Event>, late: seq<Event>, cut: nat, keep: bool, isLate: bool, e: Event)
    requires Interleaves(evs, early, late, cut) && (keep ==> (e.offset >= cut <==> isLate))
    ensures Interleaves(evs + Only(keep, e), early + Only(keep && !isLate, e), late + Only(keep && isLate, e), cut)
  {
    assert (evs + [e])[..|evs|] == evs;
    assert evs + [] == evs;
  }

  /** The replayed events of t lie below the cut and its live events do not. */
  ghost predicate Sided(trace: seq<Mark>, t: string, cut: nat) {
    && (forall e :: e in OfTopic(ReplayedEvents(trace), t) ==> e.offset < cut)
    && (forall e :: e in LiveEvents(trace, t) ==> e.offset >= cut)
  }

  ghost predicate TraceInterleaves(trace: seq<Mark>, t: string, cut: nat) {
    Interleaves(OfTopic(PutEvents(trace), t), OfTopic(ReplayedEvents(trace), t), LiveEvents(trace, t), cut)
  }

  lemma SidedMore(trace: seq<Mark>, m: Mark, t: string, cut: nat)
    requires Sided(trace + [m], t, cut)
    ensures Sided(trace, t, cut)
    ensures m.ev.topic == t && !m.Dropped? ==> (m.ev.offset >= cut <==> m.Live?)
  {
    hide OfTopic, PutEvents, ReplayedEvents, LiveEvents;
    MarkSplits(trace, m, t);
    var all := trace + [m];
    assert forall e :: e in OfTopic(ReplayedEvents(trace), t) ==> e in OfTopic(ReplayedEvents(all), t);
    assert forall e :: e in LiveEvents(trace, t) ==> e in LiveEvents(all, t);
    if m.ev.topic == t && m.Replayed? {
      assert m.ev in OfTopic(ReplayedEvents(all), t);
    }
    if m.ev.topic == t && m.Live? {
      assert m.ev in LiveEvents(all, t);
    }
  }

  lemma TraceInterleavesMore(trace: seq<Mark>, m: Mark, t: string, cut: nat)
    requires TraceInterleaves(trace, t, cut)
    requires m.ev.topic == t && !m.Dropped? ==> (m.ev.offset >= cut <==> m.Live?)
    ensures TraceInterleaves(trace + [m], t, cut)
  {
    hide OfTopic, PutEvents, ReplayedEvents, LiveEvents, Interleaves;
    MarkSplits(trace, m, t);
    InterleavesMore(OfTopic(PutEvents(trace), t), OfTopic(ReplayedEvents(trace), t), LiveEvents(trace, t), cut,
                    !m.Dropped? && m.ev.topic == t, m.Live?, m.ev);
  }

  /** The replay and the live sends each put their events in order, one at a time. */
  lemma {:induction false} PutInterleaves(trace: seq<Mark>, t: string, cut: nat)
    requires Sided(trace, t, cut)
    ensures TraceInterleaves(trace, t, cut)
  {
    if trace != [] {
      hide *;
      var shorter, m := trace[..|trace| - 1], trace[|trace| - 1];
      assert shorter + [m] == trace;
      SidedMore(shorter, m, t, cut);
      PutInterleaves(shorter, t, cut);
      TraceInterleavesMore(shorter, m, t, cut);
    }
  }

  ghost predicate DistinctOffsets(evs: seq<Event>) {
    forall i, j :: 0 <= i < j < |evs| ==> evs[i].offset != evs[j].offset
  }

  lemma {:induction false} PartsIff(evs: seq<Event>, cut: nat, e: Event)
    ensures e in Early(evs, cut) <==> e in evs && e.offset < cut
    ensures e in Late(evs, cut) <==> e in evs && e.offset >= cut
  {
    if evs != [] {
      var shorter, last := evs[..|evs| - 1], evs[|evs| - 1];
      PartsIff(shorter, cut, e);
      assert e in evs <==> e in shorter || e == last;
    }
  }

  lemma DistinctMore(evs: seq<Event>, last: Event)
    ensures DistinctOffsets(evs + [last]) <==> DistinctOffsets(evs) && forall e :: e in evs ==> e.offset != last.offset
  {
    var all := evs + [last];
    if DistinctOffsets(all) {
      assert forall i :: 0 <= i < |evs| ==> all[i] == evs[i] && all[i].offset != all[|evs|].offset;
    }
  }

  /** No offset occurs twice exactly when none does on either side of the cut. */
  lemma {:induction false} DistinctParts(evs: seq<Event>, cut: nat)
    ensures DistinctOffsets(evs) <==> DistinctOffsets(Early(evs, cut)) && DistinctOffsets(Late(evs, cut))
  {
    if evs != [] {
      var shorter, last := evs[..|evs| - 1], evs[|evs| - 1];
      assert evs == shorter + [last];
      assert Early(evs, cut) == Early(shorter, cut) + Only(last.offset < cut, last);
      assert Late(evs, cut) == Late(shorter, cut) + Only(last.offset >= cut, last);
      hide Early, Late, DistinctOffsets;
      DistinctParts(shorter, cut);
      DistinctMore(shorter, last);
      DistinctMore(Early(shorter, cut), last);
      DistinctMore(Late(shorter, cut), last);
      forall e
        ensures e in Early(shorter, cut) <==> e in shorter && e.offset < cut
        ensures e in Late(shorter, cut) <==> e in shorter && e.offset >= cut
      {
        PartsIff(shorter, cut, e);
      }
      assert Early(shorter, cut) + [] == Early(shorter, cut) && Late(shorter, cut) + [] == Late(shorter, cut);
    }
  }

  lemma IncreasingDistinct(evs: seq<Event>)
    requires Increasing(evs)
    ensures DistinctOffsets(evs)
  {
  }

  /** Those put live are among those offered; all of them, when none was dropped. */
  lemma {:induction false} LiveOffered(trace: seq<Mark>, t: string)
    ensures multiset(LiveEvents(trace, t)) <= multiset(Offered(trace, t))
    ensures NoDrop(trace, t) ==> LiveEvents(trace, t) == Offered(trace, t)
  {
    if trace != [] {
      LiveOffered(trace[..|trace| - 1], t);
    }
  }

  ghost predicate Increasing(evs: seq<Event>) {
    forall i, j :: 0 <= i < j < |evs| ==> evs[i].offset < evs[j].offset
  }

  /** Dropping events keeps the others in order. */
  lemma {:induction false} LiveInOrder(trace: seq<Mark>, t: string)
    requires Increasing(Offered(trace, t))
    ensures Increasing(LiveEvents(trace, t))
    ensures forall e :: e in LiveEvents(trace, t) ==> e in Offered(trace, t)
  {
    if trace != [] {
      var shorter, last := trace[..|trace| - 1], trace[|trace| - 1];
      var offers, lives := Offered(shorter, t), LiveEvents(shorter, t);
      assert forall i :: 0 <= i < |offers| ==> Offered(trace, t)[i] == offers[i];
      LiveInOrder(shorter, t);
      if last.Live? && last.ev.topic == t {
        assert Offered(trace, t)[|offers|] == last.ev;
        forall i | 0 <= i < |lives| ensures lives[i].offset < last.ev.offset {
          assert lives[i] in offers;
        }
      }
    }
  }

  /** The first offset a subscriber of topic t may see. */
  function First(topics: map<string, Topic>, sub: Sub, t: string): (first: nat)
    requires t in topics && t in sub.start && sub.start[t] <= |topics[t].log|
    ensures first <= sub.start[t]
  {
    var n := sub.start[t];
    if sub.from <= 0 then n
    else
      var oldest := n - (if n < DEFAULT_SIZE then n else DEFAULT_SIZE);
      var first := if sub.from < oldest then oldest else sub.from;
      if first < n then first else n
  }

  lemma OwedIsRange(topics: map<string, Topic>, sub: Sub, t: string)
    requires t in topics && t in sub.start && sub.start[t] <= |topics[t].log|
    ensures Owed(topics, sub.start, t, sub.from) == topics[t].log[First(topics, sub, t)..sub.start[t]]
  {
    var log, n := topics[t].log, sub.start[t];
    assert |log[..n]| == n;
    if sub.from > 0 && First(topics, sub, t) < n {
      assert log[..n][First(topics, sub, t)..] == log[First(topics, sub, t)..n];
    }
  }

  /** An open subscriber, one of its topics, and a list of topics without repetition. */
  ghost predicate Watches(s: State, id: SubId, t: string) {
    id in s.subs && !s.subs[id].closed && t in s.subs[id].topics && Distinct(s.subs[id].list)
  }

  lemma WatchFacts(s: State, id: SubId, t: string)
    requires Inv(s) && PlansOk(s) && Watches(s, id, t)
    ensures var sub := s.subs[id];
            && t in s.topics && t in sub.start && sub.start[t] <= |s.topics[t].log| && TopicOk(t, s.topics[t])
            && Offered(sub.trace, t) == s.topics[t].log[sub.start[t]..]
            && PutEvents(sub.trace) == sub.received + sub.ch
            && OfTopic(ReplayedEvents(sub.trace), t) + OfTopic(sub.replay, t) ==
               s.topics[t].log[First(s.topics, sub, t)..sub.start[t]]
  {
    var sub := s.subs[id];
    assert SubOk(s.topics, id, sub) && Attached(s.topics, id, sub, t) && PlanOk(s.topics, sub);
    PlanOfTopic(s, sub.start, sub.list, sub.from, t);
    OfTopicAppend(ReplayedEvents(sub.trace), sub.replay, t);
    OwedIsRange(s.topics, sub, t);
  }

  /** The channel's content for a topic, from its log, the part already replayed and the
      live part. */
  lemma Combine(
      log: seq<Event>, first: nat, n: nat, replayed: seq<Event>, waiting: seq<Event>, trace: seq<Mark>, t: string)
    requires first <= n <= |log| && replayed + waiting == log[first..n]
    requires OfTopic(ReplayedEvents(trace), t) == replayed && Offered(trace, t) == log[n..]
    ensures multiset(OfTopic(PutEvents(trace), t)) == multiset(replayed) + multiset(LiveEvents(trace, t))
    ensures multiset(OfTopic(PutEvents(trace), t)) <= multiset(log[first..])
    ensures waiting == [] && NoDrop(trace, t) ==> multiset(OfTopic(PutEvents(trace), t)) == multiset(log[first..])
  {
    PutSplits(trace, t);
    LiveOffered(trace, t);
    hide OfTopic, PutEvents, ReplayedEvents, LiveEvents, Offered, NoDrop;
    assert log[first..] == log[first..n] + log[n..];
    assert multiset(log[first..]) == multiset(replayed + waiting) + multiset(log[n..]);
    assert waiting == [] ==> replayed + waiting == replayed;
  }

  lemma RunsOrdered(log: seq<Event>, first: nat, cut: nat, replayed: seq<Event>)
    requires first <= cut <= |log| && replayed <= log[first..cut]
    requires forall k :: 0 <= k < |log| ==> log[k].offset == k
    ensures forall e :: e in replayed ==> e.offset < cut
  {
    assert forall i :: 0 <= i < |replayed| ==> replayed[i] == log[first..cut][i];
  }

  /** In every run, what was put on an open subscriber's channel for a topic interleaves two
      runs of increasing offsets: a beginning of what was owed when it joined, and offers made
      since then. It repeats nothing, and holds nothing but published events from the first
      offset on. */
  lemma Handoff(ops: seq<Op>, s: State, id: SubId, t: string)
    requires s == Exec(ops) && Watches(s, id, t)
    ensures var sub := s.subs[id];
            && t in s.topics && t in sub.start && sub.start[t] <= |s.topics[t].log|
            && OfTopic(ReplayedEvents(sub.trace), t) <= s.topics[t].log[First(s.topics, sub, t)..sub.start[t]]
            && Interleaves(OfTopic(sub.received + sub.ch, t), OfTopic(ReplayedEvents(sub.trace), t),
                           LiveEvents(sub.trace, t), sub.start[t])
            && Increasing(OfTopic(ReplayedEvents(sub.trace), t))
            && Increasing(LiveEvents(sub.trace, t))
            && (forall e :: e in LiveEvents(sub.trace, t) ==> e.offset >= sub.start[t])
            && multiset(OfTopic(sub.received + sub.ch, t)) ==
               multiset(OfTopic(ReplayedEvents(sub.trace), t)) + multiset(LiveEvents(sub.trace, t))
            && multiset(OfTopic(sub.received + sub.ch, t)) <= multiset(s.topics[t].log[First(s.topics, sub, t)..])
  {
    Reachable(ops);
    WatchFacts(s, id, t);
    hide Inv, PlansOk, Exec, RingsOk, Watches;
    var sub := s.subs[id];
    var log, n, first := s.topics[t].log, sub.start[t], First(s.topics, sub, t);
    var replayed, waiting := OfTopic(ReplayedEvents(sub.trace), t), OfTopic(sub.replay, t);
    Combine(log, first, n, replayed, waiting, sub.trace, t);
    LogOrder(t, s.topics[t], first);
    LogOrder(t, s.topics[t], n);
    LogOffsets(t, s.topics[t]);
    assert PutEvents(sub.trace) == sub.received + sub.ch;
    hide OfTopic, PutEvents, ReplayedEvents, LiveEvents, Offered, TopicOk, First, Interleaves;
    PrefixInOrder(log, first, n, replayed, waiting);
    LiveInOrder(sub.trace, t);
    RunsOrdered(log, first, n, replayed);
    PutInterleaves(sub.trace, t, n);
  }

  lemma LogOffsets(t: string, topic: Topic)
    requires TopicOk(t, topic)
    ensures forall k :: 0 <= k < |topic.log| ==> topic.log[k].offset == k
  {
  }

  lemma PrefixInOrder(log: seq<Event>, first: nat, n: nat, replayed: seq<Event>, waiting: seq<Event>)
    requires first <= n <= |log| && replayed + waiting == log[first..n] && Increasing(log[first..])
    ensures replayed <= log[first..n] && Increasing(replayed)
  {
    assert forall i :: 0 <= i < |replayed| ==>
        replayed[i] == (replayed + waiting)[i] == log[first..n][i] == log[first..][i];
  }

  lemma LogOrder(t: string, topic: Topic, from: nat)
    requires TopicOk(t, topic) && from <= |topic.log|
    ensures Increasing(topic.log[from..])
    ensures forall e :: e in topic.log[from..] ==> e.offset >= from
  {
  }

  /** What was put on the channel for a topic: by the goroutine, live, and together; and the
      topic's next offset when the subscriber joined. */
  ghost predicate Seen(sub: Sub, t: string, cut: nat, replayed: seq<Event>, live: seq<Event>, seen: seq<Event>) {
    && t in sub.start && cut == sub.start[t]
    && replayed == OfTopic(ReplayedEvents(sub.trace), t)
    && live == LiveEvents(sub.trace, t)
    && seen == OfTopic(sub.received + sub.ch, t)
  }

  /** In every run it is an interleaving of two runs of increasing offsets: the replayed ones
      below the cut and the live ones from it on, each in its own order. */
  lemma TwoRuns(ops: seq<Op>, s: State, id: SubId, t: string, cut: nat,
                replayed: seq<Event>, live: seq<Event>, seen: seq<Event>)
    requires s == Exec(ops) && Watches(s, id, t) && Seen(s.subs[id], t, cut, replayed, live, seen)
    ensures Interleaves(seen, replayed, live, cut)
    ensures Increasing(replayed) && Increasing(live)
    ensures multiset(seen) == multiset(replayed) + multiset(live)
  {
    Handoff(ops, s, id, t);
  }

  /** No offset of a topic appears twice. */
  lemma NoRepeats(ops: seq<Op>, s: State, id: SubId, t: string)
    requires s == Exec(ops) && Watches(s, id, t)
    ensures DistinctOffsets(OfTopic(s.subs[id].received + s.subs[id].ch, t))
    ensures Distinct(OfTopic(s.subs[id].received + s.subs[id].ch, t))
  {
    var sub := s.subs[id];
    Handoff(ops, s, id, t);
    var cut, seen := sub.start[t], OfTopic(sub.received + sub.ch, t);
    TwoRuns(ops, s, id, t, cut, OfTopic(ReplayedEvents(sub.trace), t), LiveEvents(sub.trace, t), seen);
    hide Exec, Watches, OfTopic, Increasing;
    IncreasingDistinct(Early(seen, cut));
    IncreasingDistinct(Late(seen, cut));
    DistinctParts(seen, cut);
  }

  /** When the goroutine is done and nothing of the topic was dropped, the subscriber was
      given every event from the first offset to the latest, each once: those before the cut
      and those from it on, each in the log's order. */
  lemma Complete(ops: seq<Op>, s: State, id: SubId, t: string)
    requires s == Exec(ops) && Watches(s, id, t)
    requires s.subs[id].replay == [] && NoDrop(s.subs[id].trace, t)
    ensures var sub := s.subs[id];
            && t in s.topics && t in sub.start && sub.start[t] <= |s.topics[t].log|
            && multiset(OfTopic(sub.received + sub.ch, t)) == multiset(s.topics[t].log[First(s.topics, sub, t)..])
            && Interleaves(OfTopic(sub.received + sub.ch, t), s.topics[t].log[First(s.topics, sub, t)..sub.start[t]],
                           s.topics[t].log[sub.start[t]..], sub.start[t])
  {
    Reachable(ops);
    WatchFacts(s, id, t);
    Handoff(ops, s, id, t);
    hide Inv, PlansOk, Exec, RingsOk, Watches, TopicOk, Interleaves;
    var sub := s.subs[id];
    var replayed := OfTopic(ReplayedEvents(sub.trace), t);
    assert OfTopic(sub.replay, t) == [] && replayed + [] == replayed;
    LiveOffered(sub.trace, t);
    Combine(s.topics[t].log, First(s.topics, sub, t), sub.start[t], replayed, [], sub.trace, t);
  }

  /** Publish never sends on a closed channel: no topic lists a closed subscriber. */
  lemma NoSendAfterClose(ops: seq<Op>, s: State, t: string, id: SubId)
    requires s == Exec(ops) && t in s.topics && id in s.topics[t].subs
    ensures id in s.subs && !s.subs[id].closed
  {
    Reachable(ops);
  }
}
