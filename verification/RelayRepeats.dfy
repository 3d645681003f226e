/** When relay hands a subscriber the same event twice: a topic named twice in one call. */
module RelayRepeats {
  import opened Common
  import opened RelayRing
  import opened RelayStore
  import opened RelayHandoff

  // ---------- topics named twice ----------

  lemma {:induction false} PlanTopics(s: State, start: map<string, nat>, list: seq<string>, from: int)
    requires Inv(s) && Covers(s.topics, start, list)
    ensures forall e :: e in LogPlan(s.topics, start, list, from) ==> e.topic in list
    ensures forall t :: t in list ==>
              forall e :: e in Owed(s.topics, start, t, from) ==> e in LogPlan(s.topics, start, list, from)
  {
    if list != [] {
      var u, shorter := list[|list| - 1], list[..|list| - 1];
      PlanTopics(s, start, shorter, from);
      assert TopicOk(u, s.topics[u]);
      assert forall t :: t in list <==> t in shorter || t == u;
    }
  }

  lemma DistinctAppend<T>(a: seq<T>, b: seq<T>)
    ensures Distinct(a + b) <==> (Distinct(a) && Distinct(b) && forall e :: e in a ==> e !in b)
  {
    var all := a + b;
    assert forall i :: 0 <= i < |a| ==> all[i] == a[i];
    assert forall i :: 0 <= i < |b| ==> all[|a| + i] == b[i];
    if Distinct(all) {
      forall i, j | 0 <= i < j < |b| ensures b[i] != b[j] {
        assert all[|a| + i] != all[|a| + j];
      }
      forall e | e in a ensures e !in b {
        var i :| 0 <= i < |a| && a[i] == e;
        forall j | 0 <= j < |b| ensures b[j] != e { assert all[i] != all[|a| + j]; }
      }
    }
    if Distinct(a) && Distinct(b) && forall e :: e in a ==> e !in b {
      forall i, j | 0 <= i < j < |all| ensures all[i] != all[j] {
        if i < |a| <= j {
          assert a[i] in a && b[j - |a|] in b;
        } else if |a| <= i {
          assert b[i - |a|] != b[j - |a|];
        }
      }
    }
  }

  lemma OwedDistinct(s: State, start: map<string, nat>, t: string, from: int)
    requires Inv(s) && t in s.topics && t in start && start[t] <= |s.topics[t].log|
    ensures Distinct(Owed(s.topics, start, t, from))
  {
    assert TopicOk(t, s.topics[t]);
    var owed := Owed(s.topics, start, t, from);
    assert forall i, j :: 0 <= i < j < |owed| ==> owed[i].offset < owed[j].offset;
  }

  /** A topic named twice is owed nothing. */
  ghost predicate NamedOnceOrOwedNothing(
      topics: map<string, Topic>, start: map<string, nat>, list: seq<string>, from: int)
    requires Covers(topics, start, list)
  {
    forall i, j :: 0 <= i < j < |list| && list[i] == list[j] ==> Owed(topics, start, list[j], from) == []
  }

  /** The replay repeats an event exactly when a topic with something to replay was named
      twice in the call of Subscribe. */
  lemma {:induction false} PlanDistinctIff(s: State, start: map<string, nat>, list: seq<string>, from: int)
    requires Inv(s) && Covers(s.topics, start, list)
    ensures Distinct(LogPlan(s.topics, start, list, from)) <==> NamedOnceOrOwedNothing(s.topics, start, list, from)
  {
    if list != [] {
      var u, shorter := list[|list| - 1], list[..|list| - 1];
      var owed, plan := Owed(s.topics, start, u, from), LogPlan(s.topics, start, shorter, from);
      PlanDistinctIff(s, start, shorter, from);
      OwedDistinct(s, start, u, from);
      DistinctAppend(plan, owed);
      OwedApart(s, start, shorter, u, from);
      NamedOnceStep(s.topics, start, list, from);
      hide Inv, Owed, Distinct, NamedOnceOrOwedNothing;
    }
  }

  /** What a topic is owed meets the plan so far only if the topic was named before. */
  lemma OwedApart(s: State, start: map<string, nat>, shorter: seq<string>, u: string, from: int)
    requires Inv(s) && Covers(s.topics, start, shorter) && Covers(s.topics, start, [u])
    ensures var owed, plan := Owed(s.topics, start, u, from), LogPlan(s.topics, start, shorter, from);
            (forall e :: e in plan ==> e !in owed) <==> (u in shorter ==> owed == [])
  {
    var owed, plan := Owed(s.topics, start, u, from), LogPlan(s.topics, start, shorter, from);
    PlanTopics(s, start, shorter, from);
    assert u in [u];
    assert TopicOk(u, s.topics[u]);
    assert forall e :: e in owed ==> e.topic == u;
    if owed != [] {
      assert owed[0] in owed;
    }
  }

  lemma NamedOnceStep(topics: map<string, Topic>, start: map<string, nat>, list: seq<string>, from: int)
    requires Covers(topics, start, list) && list != []
    ensures var u, shorter := list[|list| - 1], list[..|list| - 1];
            NamedOnceOrOwedNothing(topics, start, list, from) <==>
            (NamedOnceOrOwedNothing(topics, start, shorter, from) &&
             (u in shorter ==> Owed(topics, start, u, from) == []))
  {
    hide Owed;
    var u, shorter := list[|list| - 1], list[..|list| - 1];
    assert forall i :: 0 <= i < |shorter| ==> shorter[i] == list[i];
    if NamedOnceOrOwedNothing(topics, start, list, from) && u in shorter {
      var i :| 0 <= i < |shorter| && shorter[i] == u;
      assert list[i] == list[|list| - 1];
    }
  }

  // ---------- an event on the channel twice ----------

  function Times(list: seq<string>, t: string): nat {
    if list == [] then 0
    else Times(list[..|list| - 1], t) + if list[|list| - 1] == t then 1 else 0
  }

  function Repeat(evs: seq<Event>, n: nat): seq<Event> {
    if n == 0 then [] else Repeat(evs, n - 1) + evs
  }

  /** A topic is replayed as often as it was named. */
  lemma {:induction false} PlanRepeats(s: State, start: map<string, nat>, list: seq<string>, from: int, t: string)
    requires Inv(s) && Covers(s.topics, start, list) && t in s.topics && t in start && start[t] <= |s.topics[t].log|
    ensures OfTopic(LogPlan(s.topics, start, list, from), t) == Repeat(Owed(s.topics, start, t, from), Times(list, t))
  {
    if list != [] {
      var u, shorter := list[|list| - 1], list[..|list| - 1];
      PlanRepeats(s, start, shorter, from, t);
      OwedTopic(s, start, u, from, t);
      OfTopicAppend(LogPlan(s.topics, start, shorter, from), Owed(s.topics, start, u, from), t);
      hide OfTopic, Owed, Inv;
    }
  }

  lemma {:induction false} RepeatDistinctIff(evs: seq<Event>, n: nat)
    requires Increasing(evs)
    ensures DistinctOffsets(Repeat(evs, n)) <==> n <= 1 || evs == []
    ensures forall e :: e in Repeat(evs, n) ==> e in evs
  {
    if n > 0 {
      RepeatDistinctIff(evs, n - 1);
      if n == 1 {
        assert Repeat(evs, 0) + evs == evs;
        IncreasingDistinct(evs);
      } else if evs != [] {
        var all, k := Repeat(evs, n), |Repeat(evs, n - 2)|;
        assert all == Repeat(evs, n - 2) + evs + evs;
        assert all[k] == evs[0] == all[k + |evs|];
      }
    }
  }

  /** What an open subscriber was given and still has to be given of a topic. */
  lemma OpenFacts(s: State, id: SubId, t: string)
    requires Inv(s) && PlansOk(s) && id in s.subs && !s.subs[id].closed && t in s.subs[id].topics
    ensures var sub := s.subs[id];
            && t in s.topics && t in sub.start && sub.start[t] <= |s.topics[t].log| && TopicOk(t, s.topics[t])
            && Offered(sub.trace, t) == s.topics[t].log[sub.start[t]..]
            && PutEvents(sub.trace) == sub.received + sub.ch
            && ReplayedEvents(sub.trace) + sub.replay == LogPlan(s.topics, sub.start, sub.list, sub.from)
            && Covers(s.topics, sub.start, sub.list)
  {
    assert SubOk(s.topics, id, s.subs[id]) && Attached(s.topics, id, s.subs[id], t) && PlanOk(s.topics, s.subs[id]);
  }

  lemma OwedOrdered(topics: map<string, Topic>, start: map<string, nat>, t: string, from: int)
    requires t in topics && t in start && start[t] <= |topics[t].log| && TopicOk(t, topics[t])
    ensures Increasing(Owed(topics, start, t, from))
    ensures forall e :: e in Owed(topics, start, t, from) ==> e.offset < start[t]
  {
    var owed := Owed(topics, start, t, from);
    assert forall k :: 0 <= k < |topics[t].log| ==> topics[t].log[k].offset == k;
    assert |topics[t].log[..start[t]]| == start[t];
  }

  /** Once the goroutine is done, an open subscriber was given an event of a topic twice if
      and only if the topic was named twice in its call and something of it was owed. */
  lemma ChannelRepeatsIff(ops: seq<Op>, s: State, id: SubId, t: string)
    requires s == Exec(ops) && id in s.subs && !s.subs[id].closed && t in s.subs[id].topics
    requires s.subs[id].replay == []
    ensures var sub := s.subs[id];
            && t in s.topics && t in sub.start && sub.start[t] <= |s.topics[t].log|
            && (DistinctOffsets(OfTopic(sub.received + sub.ch, t)) <==>
                Times(sub.list, t) <= 1 || Owed(s.topics, sub.start, t, sub.from) == [])
  {
    Reachable(ops);
    OpenFacts(s, id, t);
    var sub := s.subs[id];
    var log, cut, owed, n := s.topics[t].log, sub.start[t], Owed(s.topics, sub.start, t, sub.from), Times(sub.list, t);
    assert ReplayedEvents(sub.trace) + [] == ReplayedEvents(sub.trace);
    PlanRepeats(s, sub.start, sub.list, sub.from, t);
    OwedOrdered(s.topics, sub.start, t, sub.from);
    LogOrder(t, s.topics[t], cut);
    hide Exec, Inv, PlansOk, TopicOk, Owed, LogPlan, Times, Repeat, OfTopic, Covers;
    RepeatDistinctIff(owed, n);
    LiveInOrder(sub.trace, t);
    PutInterleaves(sub.trace, t, cut);
    IncreasingDistinct(LiveEvents(sub.trace, t));
    DistinctParts(OfTopic(sub.received + sub.ch, t), cut);
  }

  lemma ExecMore(ops: seq<Op>, op: Op)
    requires Enabled(Exec(ops), op)
    ensures RingsOk(Exec(ops).topics) && Exec(ops + [op]) == Step(Exec(ops), op)
  {
    Reachable(ops);
    assert (ops + [op])[..|ops|] == ops;
    hide Step, Enabled, Inv, PlansOk, RingsOk;
  }

  lemma TwicePublished(ev: Event)
    requires ev.topic == "t"
    ensures var s := Exec([Publish(ev)] + [Publish(ev)]);
            "t" in s.topics && |s.topics["t"].log| == 2 && s.subs == map[]
  {
    assert Exec([]) == EMPTY;
    ExecMore([], Publish(ev));
    assert [] + [Publish(ev)] == [Publish(ev)];
    ExecMore([Publish(ev)], Publish(ev));
    hide Exec, Append;
  }

  /** A subscriber that names t twice is to be given its second event twice. */
  lemma TwiceOwed(ops: seq<Op>, s: State)
    requires s == Exec(ops) && "t" in s.topics && |s.topics["t"].log| == 2 && 0 !in s.subs
    ensures var s' := Exec(ops + [Subscribe(0, ["t", "t"], 1)]);
            && 0 in s'.subs && !s'.subs[0].closed && s'.subs[0].topics == {"t"} && s'.subs[0].list == ["t", "t"]
            && |s'.subs[0].replay| == 2 && s'.subs[0].ch == []
            && "t" in s'.topics && "t" in s'.subs[0].start && s'.subs[0].start["t"] == 2 <= |s'.topics["t"].log|
            && s'.subs[0].from == 1
  {
    var op := Subscribe(0, ["t", "t"], 1);
    Reachable(ops);
    assert TopicOk("t", s.topics["t"]);
    ExecMore(ops, op);
    var topic := s.topics["t"];
    ReplayAgrees(topic.ring, topic.log, 1);
    assert PlanFor(s.topics, [], 1) == [];
    assert ["t", "t"][..1] == ["t"] && ["t"][..0] == [];
    assert PlanFor(s.topics, ["t"], 1) == [] + Replay(topic.ring, 1);
    assert PlanFor(s.topics, ["t", "t"], 1) == PlanFor(s.topics, ["t"], 1) + Replay(topic.ring, 1);
    hide Exec, Inv, Replay, PlanFor;
  }

  lemma ReplayedOnce(ops: seq<Op>, s: State)
    requires s == Exec(ops) && 0 in s.subs && !s.subs[0].closed
    requires s.subs[0].replay != [] && |s.subs[0].ch| < CHANNEL_CAP
    ensures var s' := Exec(ops + [ReplayOne(0)]);
            && s'.topics == s.topics && 0 in s'.subs
            && s'.subs[0] == ReplayStep(s.subs[0])
  {
    ExecMore(ops, ReplayOne(0));
    hide Exec;
  }

  /** That happens: t is published to twice, and a subscriber names it twice. */
  lemma TwiceNamedRepeats(ev: Event, ops: seq<Op>, s: State)
    requires ev.topic == "t" && s == Exec(ops)
    requires ops == [Publish(ev), Publish(ev), Subscribe(0, ["t", "t"], 1), ReplayOne(0), ReplayOne(0)]
    ensures 0 in s.subs && !s.subs[0].closed
    ensures !DistinctOffsets(OfTopic(s.subs[0].received + s.subs[0].ch, "t"))
  {
    var two := [Publish(ev)] + [Publish(ev)];
    var three := two + [Subscribe(0, ["t", "t"], 1)];
    var four := three + [ReplayOne(0)];
    assert ops == four + [ReplayOne(0)];
    TwicePublished(ev);
    hide Exec, OfTopic, DistinctOffsets;
    TwiceOwed(two, Exec(two));
    ReplayedOnce(three, Exec(three));
    ReplayedOnce(four, Exec(four));
    ChannelRepeatsIff(ops, s, 0, "t");
    assert ["t", "t"][..1] == ["t"] && ["t"][..0] == [];
    assert Times(["t"], "t") == 1 && Times(["t", "t"], "t") == 2;
    assert |s.topics["t"].log[..2]| == 2;
  }
}
