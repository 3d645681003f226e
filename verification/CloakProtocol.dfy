/** Two endpoints of one cloak stream over a network that loses, duplicates and reorders:
    a frame once sent may arrive any number of times, at any later moment, or never.
    Every step is one locked section, one send or one channel operation of the source, so
    the write goroutine, the read loop, the application and close interleave freely. */
module CloakProtocol {
  import opened Common
  import opened CloakStream

  datatype Frame = Data(num: Seq32, body: Chunk) | Ack(num: Seq32) | Close

  /** Where the goroutine inside writeReliable stands. Failed is final: after an error
      the source's callers stop writing. */
  datatype Writer =
    | Idle
    | Sending(num: Seq32, body: Chunk)
    | Waiting(num: Seq32, body: Chunk)
    | Failed

  /** Where the socket's read loop stands inside onData or onAck. */
  datatype Loop =
    | Ready
    | GotData(num: Seq32, body: Chunk)
    | Acked(num: Seq32, body: Chunk)
    | Handing(body: Chunk)
    | GotAck(num: Seq32)
    | Matched

  /** One endpoint, together with its history: the frames it ever sent, the chunks given to
      writeReliable, how many of those writes returned success, the chunks whose sequence
      number was accepted, those put into the inbox, and the bytes returned by Read. */
  datatype Side = Side(
    stream: State,
    writer: Writer,
    loop: Loop,
    sent: set<Frame>,
    written: seq<Chunk>,
    completed: nat,
    accepted: seq<Chunk>,
    delivered: seq<Chunk>,
    output: Bytes)

  datatype Op =
    | StartWrite(data: Chunk) | Transmit | RetryTimer | TakeToken | GiveUp
    | FetchData(num: Seq32, body: Chunk) | SendAck | CheckNumber | HandOver | DropChunk
    | FetchAck(num: Seq32) | MatchAck | SignalWriter
    | FetchClose | SendClose | Remove
    | Read(size: nat)

  const START := Side(FRESH, Idle, Ready, {}, [], 0, [], [], [])

  /** May this endpoint take the step, given every frame the other endpoint ever sent? */
  predicate Enabled(me: Side, arrived: set<Frame>, op: Op) {
    match op
    case StartWrite(_) => me.writer.Idle?
    case Transmit => me.writer.Sending?
    case RetryTimer => me.writer.Waiting?
    case TakeToken => me.writer.Waiting? && me.stream.ackToken
    case GiveUp => me.writer.Sending? || me.writer.Waiting?
    case FetchData(num, body) => me.loop.Ready? && !me.stream.closed && Data(num, body) in arrived
    case SendAck => me.loop.GotData?
    case CheckNumber => me.loop.Acked?
    case HandOver => me.loop.Handing? && |me.stream.inbox| < INBOX_CAP
    case DropChunk => me.loop.Handing? && me.stream.closed
    case FetchAck(num) => me.loop.Ready? && !me.stream.closed && Ack(num) in arrived
    case MatchAck => me.loop.GotAck?
    case SignalWriter => me.loop.Matched?
    case FetchClose => me.loop.Ready? && !me.stream.closed && Close in arrived
    case SendClose => true
    case Remove => true
    case Read(size) => ReadStep(me.stream, size, false).1.Got?
  }

  function Apply(me: Side, op: Op): Side {
    match op
    case StartWrite(data) =>
      me.(stream := BeginWrite(me.stream, data),
          writer := Sending(me.stream.nextSeq, data),
          written := me.written + [data])
    case Transmit =>
      if me.writer.Sending? then
        me.(sent := me.sent + {Data(me.writer.num, me.writer.body)},
            writer := Waiting(me.writer.num, me.writer.body))
      else me
    case RetryTimer =>
      if me.writer.Waiting? then me.(writer := Sending(me.writer.num, me.writer.body)) else me
    case TakeToken =>
      me.(stream := me.stream.(ackToken := false), writer := Idle, completed := me.completed + 1)
    case GiveUp =>
      me.(writer := Failed)
    case FetchData(num, body) =>
      me.(loop := GotData(num, body))
    case SendAck =>
      if me.loop.GotData? then
        me.(sent := me.sent + {Ack(me.loop.num)}, loop := Acked(me.loop.num, me.loop.body))
      else me
    case CheckNumber =>
      if me.loop.Acked? then
        var (stream, deliver) := CheckSeq(me.stream, me.loop.num);
        if deliver then
          me.(stream := stream, accepted := me.accepted + [me.loop.body], loop := Handing(me.loop.body))
        else
          me.(stream := stream, loop := Ready)
      else me
    case HandOver =>
      if me.loop.Handing? then
        me.(stream := me.stream.(inbox := me.stream.inbox + [me.loop.body]),
            delivered := me.delivered + [me.loop.body],
            loop := Ready)
      else me
    case DropChunk =>
      me.(loop := Ready)
    case FetchAck(num) =>
      me.(loop := GotAck(num))
    case MatchAck =>
      if me.loop.GotAck? then
        var (stream, matched) := ClearPending(me.stream, me.loop.num);
        me.(stream := stream, loop := if matched then Matched else Ready)
      else me
    case SignalWriter =>
      me.(stream := me.stream.(ackToken := true), loop := Ready)
    case FetchClose =>
      me.(stream := me.stream.(closed := true))
    case SendClose =>
      me.(sent := me.sent + {Close})
    case Remove =>
      me.(stream := me.stream.(closed := true))
    case Read(size) =>
      var (stream, r) := ReadStep(me.stream, size, false);
      me.(stream := stream, output := me.output + if r.Got? then r.data else [])
  }

  // ---------- both ends ----------

  datatype End = A | B

  function Other(e: End): End {
    if e.A? then B else A
  }

  datatype System = System(a: Side, b: Side) {
    function At(e: End): Side {
      if e.A? then a else b
    }

    function With(e: End, side: Side): System {
      if e.A? then this.(a := side) else this.(b := side)
    }
  }

  datatype Event = Event(end: End, op: Op)

  const INITIAL := System(START, START)

  predicate CanStep(s: System, ev: Event) {
    Enabled(s.At(ev.end), s.At(Other(ev.end)).sent, ev.op)
  }

  function Step(s: System, ev: Event): System {
    s.With(ev.end, Apply(s.At(ev.end), ev.op))
  }

  /** The system after the events, whether or not they were possible. */
  function Exec(s: System, run: seq<Event>): System {
    if run == [] then s else Step(Exec(s, run[..|run| - 1]), run[|run| - 1])
  }

  /** Every event was possible when it happened. */
  predicate IsRun(s: System, run: seq<Event>) {
    run == [] ||
    (IsRun(s, run[..|run| - 1]) && CanStep(Exec(s, run[..|run| - 1]), run[|run| - 1]))
  }

  lemma {:induction false} ExecAppend(s: System, first: seq<Event>, second: seq<Event>)
    ensures Exec(s, first + second) == Exec(Exec(s, first), second)
    ensures IsRun(s, first) && IsRun(Exec(s, first), second) ==> IsRun(s, first + second)
  {
    if second == [] {
      assert first + second == first;
    } else {
      var n := |second| - 1;
      ExecAppend(s, first, second[..n]);
      assert (first + second)[..|first + second| - 1] == first + second[..n];
    }
  }

  // ---------- the invariant of one direction ----------

  /** The read loop has already acknowledged the chunk it is about to accept. */
  predicate InHand(r: Side) {
    r.loop.Acked? && r.loop.num == r.stream.recvNext
  }

  /** Chunks accepted, or already acknowledged and certain to be accepted next. */
  function Secured(r: Side): seq<Chunk> {
    if InHand(r) then r.accepted + [r.loop.body] else r.accepted
  }

  ghost predicate FramesOk(s: Side, r: Side) {
    && (forall f :: f in s.sent && f.Data? ==>
          f.num < |s.written| && f.body == s.written[f.num] && f.num <= |Secured(r)|)
    && (forall f :: f in r.sent && f.Ack? ==> f.num < |Secured(r)|)
    && ((r.loop.GotData? || r.loop.Acked?) ==> Data(r.loop.num, r.loop.body) in s.sent)
    && (s.loop.GotAck? ==> Ack(s.loop.num) in r.sent)
  }

  /** The sender's fields while its n-th chunk is being written. */
  ghost predicate WriterOk(s: Side, r: Side) {
    var n := |s.written|;
    match s.writer
    case Idle =>
      s.completed == n && s.stream.pending.None? && !s.stream.ackToken && !s.loop.Matched?
    case Failed =>
      n == s.completed + 1
    case Sending(_, _) => Outstanding(s, r)
    case Waiting(_, _) => Outstanding(s, r)
  }

  ghost predicate Outstanding(s: Side, r: Side)
    requires s.writer.Sending? || s.writer.Waiting?
  {
    var n := |s.written|;
    && n == s.completed + 1
    && s.writer.num == n - 1 == s.stream.pendSeq
    && s.writer.body == s.written[n - 1]
    && (s.stream.pending.Some? ==>
          s.stream.pending.value == s.writer.body != [] && !s.stream.ackToken && !s.loop.Matched?)
    && !(s.stream.ackToken && s.loop.Matched?)
    && (s.stream.ackToken || s.loop.Matched? ==> s.writer.body != [] && n == |Secured(r)|)
    && (s.writer.body != [] ==> s.stream.pending.Some? || s.stream.ackToken || s.loop.Matched?)
  }

  /** Sender s and receiver r, for the chunks that travel from s to r. */
  ghost predicate Inv(s: Side, r: Side) {
    && |s.written| < SEQ_MOD
    && s.stream.nextSeq == |s.written|
    && r.stream.recvNext == |r.accepted|
    && Secured(r) <= s.written
    && s.completed <= |Secured(r)|
    && FramesOk(s, r)
    && WriterOk(s, r)
  }

  /** What the receiver keeps on its own: where accepted chunks and their bytes are. */
  ghost predicate LocalInv(r: Side) {
    && |r.stream.inbox| <= INBOX_CAP
    && r.output + (r.stream.rbuf + Concat(r.stream.inbox)) == Concat(r.delivered)
    && (if r.loop.Handing? then r.accepted == r.delivered + [r.loop.body]
        else if !r.stream.closed || r.loop.GotData? || r.loop.Acked? then r.accepted == r.delivered
        else r.delivered <= r.accepted && |r.accepted| <= |r.delivered| + 1)
  }

  lemma HandOverKeeps(r: Side)
    requires LocalInv(r) && r.loop.Handing? && |r.stream.inbox| < INBOX_CAP
    ensures LocalInv(Apply(r, HandOver))
  {
    ConcatOne(r.stream.inbox, r.loop.body);
    ConcatOne(r.delivered, r.loop.body);
    hide Concat;
    assert r.output + (r.stream.rbuf + Concat(r.stream.inbox + [r.loop.body])) ==
           (r.output + (r.stream.rbuf + Concat(r.stream.inbox))) + r.loop.body;
  }

  lemma ReadKeeps(r: Side, size: nat)
    requires LocalInv(r) && ReadStep(r.stream, size, false).1.Got?
    ensures LocalInv(Apply(r, Read(size)))
  {
    ReadConserves(r.stream, size, false);
    var (st, res) := ReadStep(r.stream, size, false);
    assert |st.inbox| <= |r.stream.inbox|;
    hide Concat, ReadStep;
    Regroup(r.output, res.data, st.rbuf + Concat(st.inbox));
  }

  lemma Regroup(a: Bytes, b: Bytes, c: Bytes)
    ensures (a + b) + c == a + (b + c)
  {
  }

  lemma LocalStep(r: Side, arrived: set<Frame>, op: Op)
    requires LocalInv(r) && Enabled(r, arrived, op)
    ensures LocalInv(Apply(r, op))
  {
    hide Concat, ReadStep;
    match op
    case HandOver => HandOverKeeps(r);
    case Read(size) => ReadKeeps(r, size);
    case _ =>
  }

  predicate IsWriterOp(op: Op) {
    op.StartWrite? || op.Transmit? || op.RetryTimer? || op.TakeToken? || op.GiveUp?
  }

  lemma WriterStep(s: Side, r: Side, op: Op)
    requires Inv(s, r) && Enabled(s, r.sent, op) && IsWriterOp(op)
    requires |Apply(s, op).written| < SEQ_MOD
    ensures Inv(Apply(s, op), r)
  {
    var s' := Apply(s, op);
    if op.StartWrite? {
      assert Secured(r) == s.written;
      assert s.written <= s'.written;
      assert FramesOk(s', r);
    } else if op.Transmit? {
      assert s'.sent == s.sent + {Data(s.writer.num, s.writer.body)};
      assert FramesOk(s', r);
    } else {
      assert s'.sent == s.sent && s'.written == s.written;
    }
  }

  /** What the sender's read loop, application and close leave alone. */
  ghost predicate SameWriter(s: Side, s': Side) {
    && s'.written == s.written && s'.writer == s.writer && s'.completed == s.completed
    && s'.stream.nextSeq == s.stream.nextSeq && s'.stream.pendSeq == s.stream.pendSeq
    && s.sent <= s'.sent && forall f :: f in s'.sent && f.Data? ==> f in s.sent
  }

  lemma NonWriterShape(s: Side, arrived: set<Frame>, op: Op)
    requires Enabled(s, arrived, op) && !IsWriterOp(op)
    requires s.loop.GotAck? ==> Ack(s.loop.num) in arrived
    ensures SameWriter(s, Apply(s, op))
    ensures Apply(s, op).loop.GotAck? ==> Ack(Apply(s, op).loop.num) in arrived
    ensures !op.MatchAck? && !op.SignalWriter? ==> SameTokens(s, Apply(s, op))
  {
    hide CheckSeq, ClearPending;
    TouchesLittle(s.stream, s.loop);
  }

  lemma TouchesLittle(st: State, loop: Loop)
    ensures forall size :: ReadStep(st, size, false).0.(rbuf := st.rbuf, inbox := st.inbox) == st
    ensures loop.Acked? ==> CheckSeq(st, loop.num).0.(recvNext := st.recvNext) == st
    ensures loop.GotAck? ==> ClearPending(st, loop.num).0.(pending := st.pending) == st
  {
  }

  ghost predicate SameTokens(s: Side, s': Side) {
    && s'.stream.pending == s.stream.pending && s'.stream.ackToken == s.stream.ackToken
    && s'.loop.Matched? == s.loop.Matched?
  }

  lemma FramesStay(s: Side, s': Side, r: Side)
    requires FramesOk(s, r) && SameWriter(s, s')
    requires s'.loop.GotAck? ==> Ack(s'.loop.num) in r.sent
    ensures FramesOk(s', r)
  {
    hide Secured;
  }

  lemma WriterStays(s: Side, s': Side, r: Side)
    requires WriterOk(s, r) && SameWriter(s, s') && SameTokens(s, s')
    ensures WriterOk(s', r)
  {
    hide Secured;
  }

  /** The acknowledgement state changes only when an acknowledgement matches and when the
      token is put down. */
  lemma TokenStep(s: Side, r: Side, op: Op)
    requires Inv(s, r) && Enabled(s, r.sent, op) && (op.MatchAck? || op.SignalWriter?)
    ensures WriterOk(Apply(s, op), r)
  {
    if op.MatchAck? {
      assert Ack(s.loop.num) in r.sent;
    }
  }

  /** A step of the sender outside its write goroutine keeps the invariant. */
  lemma NonWriterStep(s: Side, r: Side, op: Op)
    requires Inv(s, r) && Enabled(s, r.sent, op) && !IsWriterOp(op)
    ensures Inv(Apply(s, op), r)
  {
    var s' := Apply(s, op);
    NonWriterShape(s, r.sent, op);
    if op.MatchAck? || op.SignalWriter? {
      TokenStep(s, r, op);
    } else {
      WriterStays(s, s', r);
    }
    FramesStay(s, s', r);
    hide FramesOk, WriterOk, Apply, Enabled, Secured;
  }

  /** A step of the receiver keeps it too. */
  lemma ReceiverStep(s: Side, r: Side, op: Op)
    requires Inv(s, r) && Enabled(r, s.sent, op)
    ensures Inv(s, Apply(r, op))
  {
    var r' := Apply(r, op);
    match op
    case SendAck =>
      assert Data(r.loop.num, r.loop.body) in s.sent;
      assert Secured(r) == r.accepted;
    case CheckNumber =>
      assert Data(r.loop.num, r.loop.body) in s.sent;
      if InHand(r) {
        assert |Secured(r)| == |r.accepted| + 1 <= |s.written|;
      }
      assert Secured(r') == Secured(r);
    case Read(size) =>
      ReadConserves(r.stream, size, false);
      assert Secured(r') == Secured(r);
    case Transmit =>
      assert Secured(r') == Secured(r);
    case _ =>
      assert Secured(r') == Secured(r);
  }

  lemma OneStep(s: System, ev: Event, e: End)
    requires Inv(s.At(e), s.At(Other(e))) && CanStep(s, ev)
    requires |Step(s, ev).At(e).written| < SEQ_MOD
    ensures Inv(Step(s, ev).At(e), Step(s, ev).At(Other(e)))
  {
    if ev.end != e {
      ReceiverStep(s.At(e), s.At(ev.end), ev.op);
    } else if IsWriterOp(ev.op) {
      WriterStep(s.At(e), s.At(Other(e)), ev.op);
    } else {
      NonWriterStep(s.At(e), s.At(Other(e)), ev.op);
    }
  }

  lemma WrittenGrows(me: Side, op: Op)
    ensures me.written <= Apply(me, op).written
  {
  }

  lemma {:induction false} InvAlong(s: System, run: seq<Event>, e: End)
    requires Inv(s.At(e), s.At(Other(e))) && IsRun(s, run)
    requires |Exec(s, run).At(e).written| < SEQ_MOD
    ensures Inv(Exec(s, run).At(e), Exec(s, run).At(Other(e)))
  {
    if run != [] {
      var before, last := Exec(s, run[..|run| - 1]), run[|run| - 1];
      WrittenGrows(before.At(last.end), last.op);
      InvAlong(s, run[..|run| - 1], e);
      OneStep(before, last, e);
    }
  }

  lemma {:induction false} LocalAlong(run: seq<Event>, e: End)
    requires IsRun(INITIAL, run)
    ensures LocalInv(Exec(INITIAL, run).At(e))
  {
    if run != [] {
      var before, last := Exec(INITIAL, run[..|run| - 1]), run[|run| - 1];
      LocalAlong(run[..|run| - 1], e);
      if last.end == e {
        LocalStep(before.At(e), before.At(Other(e)).sent, last.op);
      }
    }
  }

  // ---------- safety of every run ----------

  /** s and r are the two ends of one direction after a run in which the writer wrote fewer
      than 2^32 chunks. */
  ghost predicate After(run: seq<Event>, e: End, s: Side, r: Side) {
    && IsRun(INITIAL, run)
    && s == Exec(INITIAL, run).At(e) && r == Exec(INITIAL, run).At(Other(e))
    && |s.written| < SEQ_MOD
  }

  /** Exactly-once, in-order acceptance, and what a completed write means. */
  lemma Safety(run: seq<Event>, e: End, s: Side, r: Side)
    requires After(run, e, s, r)
    ensures r.accepted <= Secured(r) <= s.written
    ensures s.completed <= |Secured(r)| <= |s.written| <= s.completed + 1
  {
    InvAlong(INITIAL, run, e);
  }

  /** Every data frame on the network is one of the chunks written and its number at most
      the next one expected; every acknowledgement is for something received. */
  lemma FramesBounded(run: seq<Event>, e: End, s: Side, r: Side, f: Frame)
    requires After(run, e, s, r)
    ensures f in s.sent && f.Data? ==> f.num <= |Secured(r)| && f.num < |s.written| && f.body == s.written[f.num]
    ensures f in r.sent && f.Ack? ==> f.num < |Secured(r)|
  {
    InvAlong(INITIAL, run, e);
  }

  /** There is never more than one token for the writer, and none once it returned. */
  lemma OneToken(run: seq<Event>, e: End, s: Side, r: Side)
    requires After(run, e, s, r)
    ensures s.writer.Idle? ==> !s.stream.ackToken && !s.loop.Matched?
    ensures s.writer.Sending? || s.writer.Waiting? ==> !(s.stream.ackToken && s.loop.Matched?)
  {
    InvAlong(INITIAL, run, e);
  }

  /** What the reading application has seen, can still read from its buffer and from the
      inbox is always the beginning of what the writing application wrote. */
  lemma EndToEnd(run: seq<Event>, e: End, s: Side, r: Side)
    requires After(run, e, s, r)
    ensures r.output + r.stream.rbuf + Concat(r.stream.inbox) <= Concat(s.written)
  {
    InvAlong(INITIAL, run, e);
    LocalAlong(run, Other(e));
    assert r.delivered <= r.accepted <= Secured(r) <= s.written;
    ConcatPrefix(r.delivered, s.written);
    assert r.output + r.stream.rbuf + Concat(r.stream.inbox) == r.output + (r.stream.rbuf + Concat(r.stream.inbox));
  }

  /** The chunk the read loop holds on its way to the inbox. */
  function InLoop(r: Side): Bytes {
    if InHand(r) || r.loop.Handing? then r.loop.body else []
  }

  /** While the receiving end is open no byte of a successful write is lost: each is read,
      buffered, queued or in the hands of the read loop. */
  lemma NothingLost(run: seq<Event>, e: End, s: Side, r: Side)
    requires After(run, e, s, r) && !r.stream.closed
    ensures s.completed <= |s.written|
    ensures Concat(s.written[..s.completed]) <= r.output + (r.stream.rbuf + Concat(r.stream.inbox)) + InLoop(r)
  {
    InvAlong(INITIAL, run, e);
    LocalAlong(run, Other(e));
    assert s.written[..s.completed] <= Secured(r);
    ConcatPrefix(s.written[..s.completed], Secured(r));
    if InHand(r) {
      ConcatOne(r.accepted, r.loop.body);
    } else if r.loop.Handing? {
      ConcatOne(r.delivered, r.loop.body);
    }
  }

  lemma NoBytes(parts: seq<Bytes>)
    ensures Concat(parts) == [] && [] !in parts ==> parts == []
  {
    if parts != [] {
      assert parts[0] in parts && Concat(parts) == parts[0] + Concat(parts[1..]);
    }
  }

  /** Once an end was closed and its application has read all that was delivered, every
      further read says so, of any size and however the runtime chooses. */
  lemma DrainedSaysEof(run: seq<Event>, e: End, me: Side, size: nat, preferClosed: bool)
    requires IsRun(INITIAL, run) && me == Exec(INITIAL, run).At(e)
    requires me.stream.closed && me.output == Concat(me.delivered) && [] !in me.stream.inbox
    ensures ReadStep(me.stream, size, preferClosed) == (me.stream, Eof)
  {
    LocalAlong(run, e);
    assert |me.stream.rbuf + Concat(me.stream.inbox)| == 0;
    NoBytes(me.stream.inbox);
  }

  /** A close that the peer sent takes one step to arrive, and stays. */
  lemma CloseStays(me: Side, op: Op)
    ensures Apply(me, FetchClose).stream.closed
    ensures me.stream.closed ==> Apply(me, op).stream.closed
  {
    hide ReadStep;
    ReadKeepsClosed(me.stream, if op.Read? then op.size else 0);
  }

  lemma ReadKeepsClosed(st: State, size: nat)
    ensures ReadStep(st, size, false).0.closed == st.closed
  {
  }
}
