/** What every step does to the channels, said in terms of their contents: who is sent an
    event, when one is dropped, and what a new subscriber is given to replay. */
module RelaySends {
  import opened Common
  import opened RelayRing
  import opened RelayStore
  import opened RelayHandoff

  /** Everything of a subscriber but its channel and the history of it. */
  predicate SameButChannel(a: Sub, b: Sub) {
    && a.topics == b.topics && a.replay == b.replay && a.closed == b.closed && a.received == b.received
    && SameTerms(a, b)
  }

  lemma PublishOffers(s: State, ev: Event, id: SubId)
    requires RingsOk(s.topics) && id in s.subs
    ensures var topic, s' := TopicAt(s.topics, ev.topic), PublishStep(s, ev);
            && s'.subs.Keys == s.subs.Keys
            && s'.subs[id] ==
               if id in topic.subs then Offer(s.subs[id], ev.(offset := topic.ring.nextID)) else s.subs[id]
  {
    hide Append, Offer, TopicAt;
  }

  /** A subscriber of the topic with room gets exactly the event, with its offset, at the end
      of its channel; a full channel stays as it is; nobody else notices. */
  lemma PublishSends(s: State, ev: Event, id: SubId, s': State)
    requires Inv(s) && RingsOk(s.topics) && id in s.subs && s' == PublishStep(s, ev)
    ensures s'.subs.Keys == s.subs.Keys && SameButChannel(s'.subs[id], s.subs[id])
    ensures ev.topic in s.topics && id in s.topics[ev.topic].subs && |s.subs[id].ch| < 64 ==>
              s'.subs[id].ch == s.subs[id].ch + [ev.(offset := |s.topics[ev.topic].log|)]
    ensures ev.topic in s.topics && id in s.topics[ev.topic].subs && |s.subs[id].ch| >= 64 ==>
              s'.subs[id].ch == s.subs[id].ch
    ensures ev.topic !in s.topics || id !in s.topics[ev.topic].subs ==> s'.subs[id] == s.subs[id]
  {
    PublishOffers(s, ev, id);
    if ev.topic in s.topics {
      TopicAtOk(s, ev.topic);
      assert s.topics[ev.topic].ring.nextID == |s.topics[ev.topic].log|;
    }
    hide Inv, PublishStep, RingsOk, TopicOk;
  }

  /** The event joins its topic's log; subscriptions and other topics stay. */
  lemma PublishLogs(s: State, ev: Event, t: string, s': State)
    requires Inv(s) && RingsOk(s.topics) && s' == PublishStep(s, ev)
    ensures s'.topics.Keys == s.topics.Keys + {ev.topic}
    ensures t in s.topics && t != ev.topic ==> s'.topics[t] == s.topics[t]
    ensures ev.topic in s.topics ==>
              var before, after := s.topics[ev.topic], s'.topics[ev.topic];
              after.log == before.log + [ev.(offset := |before.log|)] && after.subs == before.subs
    ensures ev.topic !in s.topics ==>
              s'.topics[ev.topic].log == [ev.(offset := 0)] && s'.topics[ev.topic].subs == {}
  {
    TopicAtOk(s, ev.topic);
  }

  /** Joining: every named topic, old or new, lists the subscriber besides those it listed;
      nothing else changes. */
  lemma SubscribeJoins(s: State, id: SubId, list: seq<string>, from: int, t: string, s': State)
    requires RingsOk(s.topics) && s' == SubscribeStep(s, id, list, from)
    ensures t in s'.topics <==> t in s.topics || t in list
    ensures t in list ==> s'.topics[t].subs == (if t in s.topics then s.topics[t].subs else {}) + {id}
    ensures t in list ==> s'.topics[t].log == if t in s.topics then s.topics[t].log else []
    ensures t in s.topics && t !in list ==> s'.topics[t] == s.topics[t]
    ensures id in s'.subs && s'.subs[id].ch == [] && !s'.subs[id].closed
    ensures t in s'.subs[id].topics <==> t in list
    ensures forall i :: i in s.subs && i != id ==> i in s'.subs && s'.subs[i] == s.subs[i]
  {
    hide PlanFor;
  }

  /** What a subscriber of one topic is given to replay: the log from the offset it asked for
      on, though no more than the last 256 events; nothing when it asked for no offset. */
  lemma SubscribeOwes(s: State, id: SubId, t: string, from: int, k: nat)
    requires Inv(s) && RingsOk(s.topics) && t in s.topics
    ensures var log, replay := s.topics[t].log, SubscribeStep(s, id, [t], from).subs[id].replay;
            && (from <= 0 || from >= |log| ==> replay == [])
            && (0 < from <= k < |log| <= k + 256 && (k == from || k + 256 == |log|) ==> replay == log[k..])
  {
    var topic := s.topics[t];
    SubscribePlans(s, id, [t], from);
    PlanForOne(s.topics, t, from);
    TopicAtOk(s, t);
    ReplayAgrees(topic.ring, topic.log, from);
    hide Inv, PlanFor, Replay, SubscribeStep, RingsOk;
  }

  lemma SubscribePlans(s: State, id: SubId, list: seq<string>, from: int)
    requires RingsOk(s.topics)
    ensures SubscribeStep(s, id, list, from).subs[id].replay == PlanFor(s.topics, list, from)
  {
    hide PlanFor, Join;
  }

  lemma PlanForOne(topics: map<string, Topic>, t: string, from: int)
    requires RingsOk(topics)
    ensures PlanFor(topics, [t], from) == if from <= 0 then [] else Replay(TopicAt(topics, t).ring, from)
  {
    assert [t][..0] == [];
  }

  /** Leaving: the channel is closed and no topic lists the subscriber any more; the other
      subscribers, and what the topics hold, stay. */
  lemma UnsubscribeLeaves(s: State, id: SubId, t: string, i: SubId, s': State)
    requires Inv(s) && id in s.subs && s' == UnsubscribeStep(s, id)
    ensures s'.subs.Keys == s.subs.Keys && s'.subs[id] == s.subs[id].(closed := true)
    ensures i in s.subs && i != id ==> s'.subs[i] == s.subs[i]
    ensures s'.topics.Keys == s.topics.Keys
    ensures t in s.topics ==> id !in s'.topics[t].subs
    ensures t in s.topics && i != id ==> (i in s'.topics[t].subs <==> i in s.topics[t].subs)
    ensures t in s.topics ==> s'.topics[t].log == s.topics[t].log && s'.topics[t].ring == s.topics[t].ring
  {
  }

  // ---------- runs ----------

  /** A subscriber stays in the store, and its trace only grows. */
  lemma StepTrace(s: State, op: Op, id: SubId)
    requires RingsOk(s.topics) && Enabled(s, op) && id in s.subs
    ensures id in Step(s, op).subs && s.subs[id].trace <= Step(s, op).subs[id].trace
    ensures |Step(s, op).subs[id].trace| <= |s.subs[id].trace| + 1
    ensures var k, trace := |s.subs[id].trace|, Step(s, op).subs[id].trace;
            |trace| > k && trace[k].Dropped? ==> |s.subs[id].ch| >= 64
  {
    hide Append, PlanFor, Join;
  }

  lemma FreshTrace(s: State, op: Op, id: SubId)
    requires RingsOk(s.topics) && Enabled(s, op) && id !in s.subs && id in Step(s, op).subs
    ensures Step(s, op).subs[id].trace == []
  {
  }

  /** One more operation of a run. */
  ghost predicate OneMark(before: State, after: State, id: SubId)
    requires id in after.subs
  {
    var trace := after.subs[id].trace;
    if id !in before.subs then trace == []
    else
      var earlier := before.subs[id].trace;
      && earlier <= trace && |trace| <= |earlier| + 1
      && (|trace| > |earlier| && trace[|earlier|].Dropped? ==> |before.subs[id].ch| == 64)
  }

  lemma LastMark(ops: seq<Op>, id: SubId)
    requires ops != [] && id in Exec(ops).subs
    ensures OneMark(Exec(ops[..|ops| - 1]), Exec(ops), id)
  {
    var before, op := Exec(ops[..|ops| - 1]), ops[|ops| - 1];
    Reachable(ops[..|ops| - 1]);
    hide Inv, PlansOk, RingsOk, Enabled, Step;
    if RingsOk(before.topics) && Enabled(before, op) {
      StepMarks(before, op, id);
    }
  }

  lemma SmallChannels(s: State, id: SubId)
    requires Inv(s) && id in s.subs
    ensures |s.subs[id].ch| <= 64
  {
    assert SubOk(s.topics, id, s.subs[id]);
  }

  lemma StepMarks(s: State, op: Op, id: SubId)
    requires Inv(s) && RingsOk(s.topics) && Enabled(s, op) && id in Step(s, op).subs
    ensures OneMark(s, Step(s, op), id)
  {
    hide Inv, RingsOk, Enabled, Step;
    if id in s.subs {
      SmallChannels(s, id);
      StepTrace(s, op, id);
    } else {
      FreshTrace(s, op, id);
    }
  }

  /** Before the k-th mark the channel held 64 events. */
  ghost predicate FullAt(ops: seq<Op>, n: nat, id: SubId, k: nat)
    requires n <= |ops|
  {
    id in Exec(ops[..n]).subs && |Exec(ops[..n]).subs[id].trace| == k && |Exec(ops[..n]).subs[id].ch| == 64
  }

  /** In every run an event is dropped only where the channel was full at that moment. */
  lemma {:induction false} DroppedWhenFull(ops: seq<Op>, s: State, id: SubId, k: nat)
    requires s == Exec(ops) && id in s.subs && k < |s.subs[id].trace| && s.subs[id].trace[k].Dropped?
    ensures exists n :: 0 <= n < |ops| && FullAt(ops, n, id, k)
    decreases |ops|
  {
    assert ops != [];
    var m := |ops| - 1;
    LastMark(ops, id);
    hide Exec;
    if id in Exec(ops[..m]).subs && k < |Exec(ops[..m]).subs[id].trace| {
      DroppedWhenFull(ops[..m], Exec(ops[..m]), id, k);
      var n :| 0 <= n < m && FullAt(ops[..m], n, id, k);
      assert ops[..m][..n] == ops[..n];
      assert FullAt(ops, n, id, k);
    } else {
      assert FullAt(ops, m, id, k);
    }
  }

  /** The subscriber's reader never lets the channel fill up. */
  ghost predicate KeepsUp(ops: seq<Op>, id: SubId) {
    forall n :: 0 <= n < |ops| && id in Exec(ops[..n]).subs ==> |Exec(ops[..n]).subs[id].ch| < 64
  }

  /** A subscriber whose reader keeps up is given, once its replay is done, every event of its
      topic from the first one owed to the latest, each once and on its side of the cut in
      the log's order. */
  lemma KeepingUpGetsAll(ops: seq<Op>, s: State, id: SubId, t: string)
    requires s == Exec(ops) && Watches(s, id, t) && s.subs[id].replay == [] && KeepsUp(ops, id)
    ensures var sub := s.subs[id];
            && t in s.topics && t in sub.start && sub.start[t] <= |s.topics[t].log|
            && multiset(OfTopic(sub.received + sub.ch, t)) == multiset(s.topics[t].log[First(s.topics, sub, t)..])
            && Interleaves(OfTopic(sub.received + sub.ch, t), s.topics[t].log[First(s.topics, sub, t)..sub.start[t]],
                           s.topics[t].log[sub.start[t]..], sub.start[t])
  {
    var trace := s.subs[id].trace;
    forall k | 0 <= k < |trace| ensures !trace[k].Dropped? {
      if trace[k].Dropped? {
        DroppedWhenFull(ops, s, id, k);
      }
    }
    assert NoDrop(trace, t);
    Complete(ops, s, id, t);
  }
}
