/** relay's store as it runs: maps of topics and subscribers updated in place by loops. The
    ghost model is the state machine of RelayStore; each method takes one of its steps. */
module RelayServer {
  import opened RelayRing
  import opened RelayStore

  /** A topic's state at run time. */
  datatype TopicState = TopicState(buffer: Ring, subs: set<SubId>)

  /** A subscriber at run time: its channel, its topics and what its goroutine still holds. */
  datatype Subscriber = Subscriber(ch: seq<Event>, topics: set<string>, replay: seq<Event>, closed: bool)

  function TopicView(t: Topic): TopicState {
    TopicState(t.ring, t.subs)
  }

  function SubView(s: Sub): Subscriber {
    Subscriber(s.ch, s.topics, s.replay, s.closed)
  }

  function TopicsView(topics: map<string, Topic>): map<string, TopicState> {
    map t | t in topics :: TopicView(topics[t])
  }

  function SubsView(subs: map<SubId, Sub>): map<SubId, Subscriber> {
    map id | id in subs :: SubView(subs[id])
  }

  class EventStore {
    var topics: map<string, TopicState>
    var subs: map<SubId, Subscriber>
    ghost var model: State

    ghost predicate Valid()
      reads this
    {
      && Inv(model) && RingsOk(model.topics)
      && topics == TopicsView(model.topics)
      && subs == SubsView(model.subs)
    }

    constructor ()
      ensures Valid() && model == EMPTY
    {
      topics, subs, model := map[], map[], EMPTY;
    }

    method TopicLocked(t: string) returns (ts: TopicState)
      requires Valid()
      modifies this`topics
      ensures ts == TopicView(TopicAt(model.topics, t))
      ensures topics == old(topics)[t := ts]
    {
      if t in topics {
        ts := topics[t];
      } else {
        ts := TopicState(Ring(seq(DEFAULT_SIZE, _ => ZERO_EVENT), 0, 0, 0), {});
        topics := topics[t := ts];
      }
    }

    /** The event's topic is its own field; ID and time come from outside. */
    method Publish(ev: Event) returns (sent: Event, count: nat)
      requires Valid()
      modifies this
      ensures Valid() && model == PublishStep(old(model), ev)
      ensures sent == ev.(offset := TopicAt(old(model).topics, ev.topic).ring.nextID)
      ensures count == |TopicAt(old(model).topics, ev.topic).subs|
      ensures subs.Keys == old(subs).Keys
      ensures forall id :: id in subs && ev.topic in old(topics) && id in old(topics)[ev.topic].subs ==>
                subs[id] == if |old(subs)[id].ch| < 64 then old(subs)[id].(ch := old(subs)[id].ch + [sent])
                            else old(subs)[id]
      ensures forall id :: id in subs && (ev.topic !in old(topics) || id !in old(topics)[ev.topic].subs) ==>
                subs[id] == old(subs)[id]
    {
      PublishKeeps(model, ev);
      InvRings(PublishStep(model, ev));
      TopicMembers(model, ev.topic);
      PublishView(model, ev);
      hide Inv, RingsOk, Append, Offer, PublishStep, TopicsView;
      var ts := TopicLocked(ev.topic);
      sent := ev.(offset := ts.buffer.nextID);
      ts := ts.(buffer := Append(ts.buffer, ev));
      topics := topics[ev.topic := ts];
      count := |ts.subs|;
      SendAll(ts.subs, sent);
      model := PublishStep(model, ev);
    }

    /** The loop of non-blocking sends; its order does not matter. */
    method SendAll(ids: set<SubId>, ev: Event)
      requires subs == SubsView(model.subs)
      requires forall id :: id in ids ==> id in subs
      modifies this`subs
      ensures subs.Keys == old(subs).Keys
      ensures forall id :: id in ids && |old(subs)[id].ch| < 64 ==>
                subs[id] == old(subs)[id].(ch := old(subs)[id].ch + [ev])
      ensures forall id :: id in ids && |old(subs)[id].ch| >= 64 ==> subs[id] == old(subs)[id]
      ensures forall id :: id in subs && id !in ids ==> subs[id] == old(subs)[id]
      ensures subs == map id | id in model.subs ::
                        SubView(if id in ids then Offer(model.subs[id], ev) else model.subs[id])
    {
      var todo := ids;
      while todo != {}
        invariant todo <= ids
        invariant subs == map id | id in model.subs ::
                            SubView(if id in ids - todo then Offer(model.subs[id], ev) else model.subs[id])
        decreases |todo|
      {
        var id :| id in todo;
        todo := todo - {id};
        var sub := subs[id];
        if |sub.ch| < CHANNEL_CAP {
          subs := subs[id := sub.(ch := sub.ch + [ev])];
        }
      }
    }

    /** `id` is the new subscriber object. */
    method Subscribe(id: SubId, list: seq<string>, fromOffset: int)
      requires Valid() && id !in subs
      modifies this
      ensures Valid() && model == SubscribeStep(old(model), id, list, fromOffset)
    {
      SubscribeKeeps(model, id, list, fromOffset);
      InvRings(SubscribeStep(model, id, list, fromOffset));
      SubscribeView(model, id, list, fromOffset);
      var names := NamesOf(list);
      var replay := JoinAll(id, list, fromOffset);
      hide Inv, RingsOk, Join, PlanFor, SubscribeStep;
      subs := subs[id := Subscriber([], names, replay, false)];
      model := SubscribeStep(model, id, list, fromOffset);
    }

    /** The loop under the lock over the topics of the call. */
    method JoinAll(id: SubId, list: seq<string>, fromOffset: int) returns (replay: seq<Event>)
      requires RingsOk(model.topics) && topics == TopicsView(model.topics)
      modifies this`topics
      ensures topics == TopicsView(Join(model.topics, list, id))
      ensures replay == PlanFor(model.topics, list, fromOffset)
    {
      replay := [];
      assert Join(model.topics, [], id) == model.topics;
      hide Join, TopicsView, Replay, RingsOk;
      for i := 0 to |list|
        invariant topics == TopicsView(Join(model.topics, list[..i], id))
        invariant replay == PlanFor(model.topics, list[..i], fromOffset)
      {
        assert list[..i + 1] == list[..i] + [list[i]] && list[..i + 1][..i] == list[..i];
        var more := JoinOne(id, list[..i], list[i], fromOffset);
        replay := replay + more;
      }
      assert list[..|list|] == list;
    }

    method JoinOne(id: SubId, ghost joined: seq<string>, t: string, fromOffset: int) returns (more: seq<Event>)
      requires RingsOk(model.topics) && topics == TopicsView(Join(model.topics, joined, id))
      modifies this`topics
      ensures topics == TopicsView(Join(model.topics, joined + [t], id))
      ensures more == if fromOffset > 0 then Replay(TopicAt(model.topics, t).ring, fromOffset) else []
    {
      JoinStep(model.topics, joined, t, id);
      var ts := if t in topics then topics[t] else TopicView(NewTopic());
      assert ts.buffer == TopicAt(model.topics, t).ring;
      topics := topics[t := ts.(subs := ts.subs + {id})];
      more := if fromOffset > 0 then Replay(ts.buffer, fromOffset) else [];
    }

    method Unsubscribe(id: SubId)
      requires Valid() && id in subs && !subs[id].closed
      modifies this
      ensures Valid() && model == UnsubscribeStep(old(model), id)
    {
      UnsubscribeKeeps(model, id);
      InvRings(UnsubscribeStep(model, id));
      UnsubscribeView(model, id);
      hide Inv, RingsOk, UnsubscribeStep, Leave;
      LeaveAll(subs[id].topics, id);
      subs := subs[id := subs[id].(closed := true)];
      model := UnsubscribeStep(model, id);
    }

    /** The loop over the subscriber's topics. */
    method LeaveAll(names: set<string>, id: SubId)
      requires topics == TopicsView(model.topics)
      modifies this`topics
      ensures topics == map t | t in model.topics :: TopicView(Leave(model.topics[t], if t in names then {id} else {}))
    {
      var todo := names;
      forall t: Topic ensures Leave(t, {}) == t {
        assert t.subs - {} == t.subs;
      }
      while todo != {}
        invariant todo <= names
        invariant topics == map t | t in model.topics ::
                              TopicView(Leave(model.topics[t], if t in names - todo then {id} else {}))
        decreases |todo|
      {
        var t :| t in todo;
        todo := todo - {t};
        if t in topics {
          topics := topics[t := topics[t].(subs := topics[t].subs - {id})];
        }
      }
    }

    method SubscriberCount(t: string) returns (n: nat)
      requires Valid()
      ensures n == if t in model.topics then |model.topics[t].subs| else 0
    {
      if t !in topics {
        return 0;
      }
      return |topics[t].subs|;
    }
  }

  method NamesOf(list: seq<string>) returns (names: set<string>)
    ensures names == set t | t in list
  {
    names := {};
    for i := 0 to |list|
      invariant names == set t | t in list[..i]
    {
      names := names + {list[i]};
    }
    assert list[..|list|] == list;
  }

  function Leave(t: Topic, ids: set<SubId>): Topic {
    t.(subs := t.subs - ids)
  }

  lemma PublishView(s: State, ev: Event)
    requires RingsOk(s.topics)
    ensures var topic := TopicAt(s.topics, ev.topic);
            var sent := ev.(offset := topic.ring.nextID);
            var s' := PublishStep(s, ev);
            && TopicsView(s'.topics) == TopicsView(s.topics)[ev.topic := TopicState(Append(topic.ring, ev), topic.subs)]
            && SubsView(s'.subs) ==
               map id | id in s.subs :: SubView(if id in topic.subs then Offer(s.subs[id], sent) else s.subs[id])
  {
    hide Append, Offer;
  }

  lemma UnsubscribeView(s: State, id: SubId)
    requires id in s.subs
    ensures var names, s' := s.subs[id].topics, UnsubscribeStep(s, id);
            && TopicsView(s'.topics) ==
               (map t | t in s.topics :: TopicView(Leave(s.topics[t], if t in names then {id} else {})))
            && SubsView(s'.subs) == SubsView(s.subs)[id := SubView(s.subs[id]).(closed := true)]
  {
    forall t: Topic ensures Leave(t, {}) == t {
      assert t.subs - {} == t.subs;
    }
  }

  lemma SubscribeView(s: State, id: SubId, list: seq<string>, from: int)
    requires RingsOk(s.topics)
    ensures var s' := SubscribeStep(s, id, list, from);
            && s'.topics == Join(s.topics, list, id)
            && SubsView(s'.subs) ==
               SubsView(s.subs)[id := Subscriber([], (set t | t in list), PlanFor(s.topics, list, from), false)]
  {
    hide Join, PlanFor;
  }

  lemma TopicMembers(s: State, t: string)
    requires Inv(s)
    ensures forall id :: id in TopicAt(s.topics, t).subs ==> id in s.subs
  {
  }

  /** Joining one more topic of the list. */
  lemma JoinStep(topics: map<string, Topic>, list: seq<string>, t: string, id: SubId)
    ensures var joined := Join(topics, list, id);
            var before := TopicAt(joined, t);
            Join(topics, list + [t], id) == joined[t := before.(subs := before.subs + {id})]
  {
  }
}
