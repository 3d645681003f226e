/** relay's store as a state machine. Publish, Subscribe and unsubscribe run under the
    store's lock and are one step each; the goroutine that replays, and the reader of the
    channel, take steps in between. */
module RelayStore {
  import opened RelayRing

  const CHANNEL_CAP := 64

  type SubId = nat

  /** What happened to an event meant for a subscriber: replayed into the channel, put there
      live, or dropped because the channel was full. */
  datatype Mark = Replayed(ev: Event) | Live(ev: Event) | Dropped(ev: Event)

  /** A subscriber. History: `list` and `from` are the arguments of Subscribe, `plan` is all
      that its goroutine was given to replay, `start` the next offset of each of its topics
      when it subscribed, `trace` what happened since, `received` what the reader took out
      of the channel. */
  datatype Sub = Sub(
    ch: seq<Event>,
    topics: set<string>,
    replay: seq<Event>,
    closed: bool,
    list: seq<string>,
    from: int,
    plan: seq<Event>,
    start: map<string, nat>,
    trace: seq<Mark>,
    received: seq<Event>)

  /** A topic's buffer, its subscribers and, as history, everything ever published to it. */
  datatype Topic = Topic(ring: Ring, subs: set<SubId>, log: seq<Event>)

  datatype State = State(topics: map<string, Topic>, subs: map<SubId, Sub>)

  const EMPTY := State(map[], map[])

  const ZERO_EVENT := Event("", "", [], 0, map[], 0)

  function NewTopic(): (t: Topic)
    ensures WellFormed(t.ring) && |t.ring.slots| == DEFAULT_SIZE
  {
    Topic(Ring(seq(DEFAULT_SIZE, _ => ZERO_EVENT), 0, 0, 0), {}, [])
  }

  function TopicAt(topics: map<string, Topic>, t: string): Topic {
    if t in topics then topics[t] else NewTopic()
  }

  /** The non-blocking send of Publish. */
  function Offer(sub: Sub, ev: Event): Sub {
    if |sub.ch| < CHANNEL_CAP then
      sub.(ch := sub.ch + [ev], trace := sub.trace + [Live(ev)])
    else
      sub.(trace := sub.trace + [Dropped(ev)])
  }

  predicate RingsOk(topics: map<string, Topic>) {
    forall t :: t in topics ==> WellFormed(topics[t].ring) && |topics[t].ring.slots| == DEFAULT_SIZE
  }

  function PublishStep(s: State, ev: Event): State
    requires RingsOk(s.topics)
  {
    var topic := TopicAt(s.topics, ev.topic);
    var sent := ev.(offset := topic.ring.nextID);
    State(
      s.topics[ev.topic := topic.(ring := Append(topic.ring, ev), log := topic.log + [sent])],
      map id | id in s.subs :: if id in topic.subs then Offer(s.subs[id], sent) else s.subs[id])
  }

  /** The events a new subscriber is owed, topic by topic in the order given. */
  function PlanFor(topics: map<string, Topic>, list: seq<string>, from: int): seq<Event>
    requires RingsOk(topics)
  {
    if list == [] || from <= 0 then []
    else PlanFor(topics, list[..|list| - 1], from) + Replay(TopicAt(topics, list[|list| - 1]).ring, from)
  }

  function Join(topics: map<string, Topic>, list: seq<string>, id: SubId): map<string, Topic> {
    map t | t in topics.Keys + (set x | x in list) ::
      var topic := TopicAt(topics, t);
      if t in list then topic.(subs := topic.subs + {id}) else topic
  }

  function SubscribeStep(s: State, id: SubId, list: seq<string>, from: int): State
    requires RingsOk(s.topics)
  {
    var names := set t | t in list;
    var plan := PlanFor(s.topics, list, from);
    var start := map t | t in names :: TopicAt(s.topics, t).ring.nextID;
    State(Join(s.topics, list, id),
          s.subs[id := Sub([], names, plan, false, list, from, plan, start, [], [])])
  }

  function UnsubscribeStep(s: State, id: SubId): State
    requires id in s.subs
  {
    var names := s.subs[id].topics;
    State(map t | t in s.topics :: if t in names then s.topics[t].(subs := s.topics[t].subs - {id}) else s.topics[t],
          s.subs[id := s.subs[id].(closed := true)])
  }

  function ReplayStep(sub: Sub): Sub
    requires sub.replay != []
  {
    var ev := sub.replay[0];
    sub.(ch := sub.ch + [ev], replay := sub.replay[1..], trace := sub.trace + [Replayed(ev)])
  }

  function ReceiveStep(sub: Sub): Sub
    requires sub.ch != []
  {
    sub.(ch := sub.ch[1..], received := sub.received + [sub.ch[0]])
  }

  datatype Op =
    | Publish(ev: Event)
    | Subscribe(id: SubId, list: seq<string>, from: int)
    | Unsubscribe(id: SubId)
    | ReplayOne(id: SubId)
    | Receive(id: SubId)

  /** A new subscriber is a new object; nobody unsubscribes twice; the goroutine waits for
      room (a send after unsubscribe, which the source does not exclude, is not a step). */
  predicate Enabled(s: State, op: Op) {
    match op
    case Publish(_) => true
    case Subscribe(id, _, _) => id !in s.subs
    case Unsubscribe(id) => id in s.subs && !s.subs[id].closed
    case ReplayOne(id) =>
      id in s.subs && !s.subs[id].closed && s.subs[id].replay != [] && |s.subs[id].ch| < CHANNEL_CAP
    case Receive(id) => id in s.subs && s.subs[id].ch != []
  }

  function Step(s: State, op: Op): State
    requires RingsOk(s.topics) && Enabled(s, op)
  {
    match op
    case Publish(ev) => PublishStep(s, ev)
    case Subscribe(id, list, from) => SubscribeStep(s, id, list, from)
    case Unsubscribe(id) => UnsubscribeStep(s, id)
    case ReplayOne(id) => s.(subs := s.subs[id := ReplayStep(s.subs[id])])
    case Receive(id) => s.(subs := s.subs[id := ReceiveStep(s.subs[id])])
  }

  // ---------- projections of a trace ----------

  /** The marks that put an event on the channel. */
  function PutEvents(trace: seq<Mark>): seq<Event> {
    if trace == [] then []
    else
      var last := trace[|trace| - 1];
      PutEvents(trace[..|trace| - 1]) + if last.Dropped? then [] else [last.ev]
  }

  function ReplayedEvents(trace: seq<Mark>): seq<Event> {
    if trace == [] then []
    else
      var last := trace[|trace| - 1];
      ReplayedEvents(trace[..|trace| - 1]) + if last.Replayed? then [last.ev] else []
  }

  /** The events of topic t offered live, put or dropped. */
  function Offered(trace: seq<Mark>, t: string): seq<Event> {
    if trace == [] then []
    else
      var last := trace[|trace| - 1];
      Offered(trace[..|trace| - 1], t) + if !last.Replayed? && last.ev.topic == t then [last.ev] else []
  }

  lemma TraceAppend(trace: seq<Mark>, m: Mark, t: string)
    ensures PutEvents(trace + [m]) == PutEvents(trace) + if m.Dropped? then [] else [m.ev]
    ensures ReplayedEvents(trace + [m]) == ReplayedEvents(trace) + if m.Replayed? then [m.ev] else []
    ensures Offered(trace + [m], t) == Offered(trace, t) + if !m.Replayed? && m.ev.topic == t then [m.ev] else []
  {
    assert (trace + [m])[..|trace|] == trace;
  }

  // ---------- the invariant ----------

  ghost predicate TopicOk(t: string, topic: Topic) {
    && |topic.ring.slots| == DEFAULT_SIZE
    && Agrees(topic.ring, topic.log)
    && forall k :: 0 <= k < |topic.log| ==> topic.log[k].topic == t
  }

  /** The channel and the goroutine hold what the trace says they still have to. */
  ghost predicate History(sub: Sub) {
    && |sub.ch| <= CHANNEL_CAP
    && PutEvents(sub.trace) == sub.received + sub.ch
    && ReplayedEvents(sub.trace) + sub.replay == sub.plan
    && sub.start.Keys == sub.topics
  }

  /** The offers an open subscriber has seen are exactly what was published since it joined. */
  ghost predicate Attached(topics: map<string, Topic>, id: SubId, sub: Sub, t: string)
    requires t in sub.start
  {
    && t in topics && sub.start[t] <= |topics[t].log|
    && (!sub.closed ==> id in topics[t].subs && Offered(sub.trace, t) == topics[t].log[sub.start[t]..])
  }

  ghost predicate SubOk(topics: map<string, Topic>, id: SubId, sub: Sub) {
    History(sub) && forall t :: t in sub.topics ==> Attached(topics, id, sub, t)
  }

  /** Topics list only open subscribers of theirs. */
  ghost predicate MembersOk(s: State) {
    forall t, id :: t in s.topics && id in s.topics[t].subs ==>
      id in s.subs && !s.subs[id].closed && t in s.subs[id].topics
  }

  ghost predicate Inv(s: State) {
    && (forall t :: t in s.topics ==> TopicOk(t, s.topics[t]))
    && (forall id :: id in s.subs ==> SubOk(s.topics, id, s.subs[id]))
    && MembersOk(s)
  }

  lemma InvRings(s: State)
    requires Inv(s)
    ensures RingsOk(s.topics)
  {
    forall t | t in s.topics ensures WellFormed(s.topics[t].ring) && |s.topics[t].ring.slots| == DEFAULT_SIZE {
      assert TopicOk(t, s.topics[t]);
    }
  }

  lemma TopicAtOk(s: State, t: string)
    requires Inv(s)
    ensures TopicOk(t, TopicAt(s.topics, t))
  {
    assert t in s.topics ==> TopicOk(t, s.topics[t]);
  }

  lemma OfferHistory(sub: Sub, ev: Event)
    requires History(sub)
    ensures History(Offer(sub, ev))
  {
    TraceAppend(sub.trace, if |sub.ch| < CHANNEL_CAP then Live(ev) else Dropped(ev), "");
    assert sub.received + (sub.ch + [ev]) == sub.received + sub.ch + [ev];
  }

  lemma OfferOffers(sub: Sub, ev: Event, t: string)
    ensures Offered(Offer(sub, ev).trace, t) == Offered(sub.trace, t) + if ev.topic == t then [ev] else []
  {
    TraceAppend(sub.trace, if |sub.ch| < CHANNEL_CAP then Live(ev) else Dropped(ev), t);
  }

  /** An open subscriber of the topic sees the new event; its other topics see nothing. */
  lemma OfferAttached(topics: map<string, Topic>, id: SubId, sub: Sub, t: string, topic: Topic, sent: Event)
    requires t in sub.start && Attached(topics, id, sub, t) && !sub.closed
    requires sent.topic in topics
    requires topic.subs == topics[sent.topic].subs && topic.log == topics[sent.topic].log + [sent]
    ensures Attached(topics[sent.topic := topic], id, Offer(sub, sent), t)
  {
    OfferOffers(sub, sent, t);
    if t == sent.topic {
      var log := topics[t].log;
      assert (log + [sent])[sub.start[t]..] == log[sub.start[t]..] + [sent];
    }
  }

  /** Publishing offers the new event to every subscriber of its topic and to nobody else;
      none of them is closed. */
  lemma PublishKeeps(s: State, ev: Event)
    requires Inv(s) && RingsOk(s.topics)
    ensures Inv(PublishStep(s, ev))
  {
    var s' := PublishStep(s, ev);
    var before := TopicAt(s.topics, ev.topic);
    var topic := s'.topics[ev.topic];
    var sent := ev.(offset := before.ring.nextID);
    TopicAtOk(s, ev.topic);
    AppendAgrees(before.ring, before.log, ev);
    forall id | id in s'.subs ensures SubOk(s'.topics, id, s'.subs[id]) {
      PublishSub(s, ev, id);
    }
    assert TopicOk(ev.topic, topic);
    hide Agrees, SubOk, Offer, WellFormed;
    OfferKeepsNames();
    assert MembersOk(s');
  }

  lemma OfferKeepsNames()
    ensures forall sub, ev ::
              && Offer(sub, ev).closed == sub.closed && Offer(sub, ev).topics == sub.topics
              && Offer(sub, ev).start == sub.start
  {
  }

  lemma PublishSub(s: State, ev: Event, id: SubId)
    requires Inv(s) && RingsOk(s.topics) && id in s.subs
    ensures SubOk(PublishStep(s, ev).topics, id, PublishStep(s, ev).subs[id])
  {
    var s' := PublishStep(s, ev);
    var sub := s.subs[id];
    var before := TopicAt(s.topics, ev.topic);
    var sent := ev.(offset := before.ring.nextID);
    assert SubOk(s.topics, id, sub);
    if id in before.subs {
      OfferHistory(sub, sent);
      OfferKeepsNames();
      forall t | t in sub.topics ensures Attached(s'.topics, id, Offer(sub, sent), t) {
        OfferAttached(s.topics, id, sub, t, s'.topics[ev.topic], sent);
      }
    } else {
      forall t | t in sub.topics ensures Attached(s'.topics, id, sub, t) {
        assert Attached(s.topics, id, sub, t);
      }
    }
  }

  lemma SubscribeKeeps(s: State, id: SubId, list: seq<string>, from: int)
    requires Inv(s) && RingsOk(s.topics) && id !in s.subs
    ensures Inv(SubscribeStep(s, id, list, from))
  {
    var s' := SubscribeStep(s, id, list, from);
    forall t | t in s'.topics ensures TopicOk(t, s'.topics[t]) {
      TopicAtOk(s, t);
    }
    forall i | i in s'.subs ensures SubOk(s'.topics, i, s'.subs[i]) {
      if i != id {
        JoinOthers(s, id, list, from, i);
      } else {
        JoinNew(s, id, list, from);
      }
    }
    assert MembersOk(s');
  }

  lemma JoinOthers(s: State, id: SubId, list: seq<string>, from: int, i: SubId)
    requires Inv(s) && RingsOk(s.topics) && id !in s.subs && i in s.subs
    ensures SubOk(SubscribeStep(s, id, list, from).topics, i, s.subs[i])
  {
    var s' := SubscribeStep(s, id, list, from);
    var sub := s.subs[i];
    assert SubOk(s.topics, i, sub);
    forall t | t in sub.topics ensures Attached(s'.topics, i, sub, t) {
      assert Attached(s.topics, i, sub, t);
    }
  }

  lemma JoinNew(s: State, id: SubId, list: seq<string>, from: int)
    requires Inv(s) && RingsOk(s.topics) && id !in s.subs
    ensures var s' := SubscribeStep(s, id, list, from); SubOk(s'.topics, id, s'.subs[id])
  {
    var s' := SubscribeStep(s, id, list, from);
    var sub := s'.subs[id];
    assert sub.trace == [];
    forall t | t in sub.topics ensures Attached(s'.topics, id, sub, t) {
      TopicAtOk(s, t);
    }
  }

  lemma UnsubscribeKeeps(s: State, id: SubId)
    requires Inv(s) && id in s.subs
    ensures Inv(UnsubscribeStep(s, id))
  {
    var s' := UnsubscribeStep(s, id);
    forall t | t in s'.topics ensures TopicOk(t, s'.topics[t]) {
      assert TopicOk(t, s.topics[t]);
    }
    forall i | i in s'.subs ensures SubOk(s'.topics, i, s'.subs[i]) {
      assert SubOk(s.topics, i, s.subs[i]);
      forall t | t in s.subs[i].topics ensures Attached(s'.topics, i, s'.subs[i], t) {
        assert Attached(s.topics, i, s.subs[i], t);
      }
    }
    assert MembersOk(s');
  }

  /** Steps that touch one subscriber's channel and nothing else. */
  lemma ChannelStepKeeps(s: State, id: SubId, sub': Sub)
    requires Inv(s) && id in s.subs && History(sub')
    requires sub'.closed == s.subs[id].closed && sub'.topics == s.subs[id].topics && sub'.start == s.subs[id].start
    requires forall t :: Offered(sub'.trace, t) == Offered(s.subs[id].trace, t)
    ensures Inv(s.(subs := s.subs[id := sub']))
  {
    assert SubOk(s.topics, id, s.subs[id]);
    forall t | t in sub'.topics ensures Attached(s.topics, id, sub', t) {
      assert Attached(s.topics, id, s.subs[id], t);
    }
    assert MembersOk(s.(subs := s.subs[id := sub']));
  }

  lemma ReplayKeeps(s: State, id: SubId)
    requires Inv(s) && RingsOk(s.topics) && Enabled(s, ReplayOne(id))
    ensures Inv(Step(s, ReplayOne(id)))
  {
    var sub := s.subs[id];
    var m := Replayed(sub.replay[0]);
    assert SubOk(s.topics, id, sub);
    TraceAppend(sub.trace, m, "");
    assert ReplayedEvents(sub.trace) + [sub.replay[0]] + sub.replay[1..] == sub.plan;
    assert sub.received + (sub.ch + [m.ev]) == sub.received + sub.ch + [m.ev];
    forall t ensures Offered(ReplayStep(sub).trace, t) == Offered(sub.trace, t) {
      TraceAppend(sub.trace, m, t);
    }
    ChannelStepKeeps(s, id, ReplayStep(sub));
  }

  lemma ReceiveKeeps(s: State, id: SubId)
    requires Inv(s) && RingsOk(s.topics) && Enabled(s, Receive(id))
    ensures Inv(Step(s, Receive(id)))
  {
    var sub := s.subs[id];
    assert SubOk(s.topics, id, sub);
    assert sub.received + [sub.ch[0]] + sub.ch[1..] == sub.received + sub.ch;
    ChannelStepKeeps(s, id, ReceiveStep(sub));
  }

  lemma StepKeeps(s: State, op: Op)
    requires Inv(s) && RingsOk(s.topics) && Enabled(s, op)
    ensures Inv(Step(s, op))
  {
    hide Inv;
    match op
    case Publish(ev) => PublishKeeps(s, ev);
    case Subscribe(id, list, from) => SubscribeKeeps(s, id, list, from);
    case Unsubscribe(id) => UnsubscribeKeeps(s, id);
    case ReplayOne(id) => ReplayKeeps(s, id);
    case Receive(id) => ReceiveKeeps(s, id);
  }
}
