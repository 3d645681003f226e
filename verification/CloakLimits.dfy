/** What the stream can always still do, and the two places where it stops working:
    empty chunks, and the 2^32-th chunk. */
module CloakLimits {
  import opened Common
  import opened CloakStream
  import opened CloakProtocol

  /** t can be reached from s in at most k steps. */
  ghost predicate Leads(s: System, t: System, k: nat) {
    exists run :: |run| <= k && IsRun(s, run) && Exec(s, run) == t
  }

  lemma Stay(s: System)
    ensures Leads(s, s, 0)
  {
    assert IsRun(s, []) && Exec(s, []) == s;
  }

  lemma Then(s: System, t: System, k: nat, ev: Event)
    requires Leads(s, t, k) && CanStep(t, ev)
    ensures Leads(s, Step(t, ev), k + 1)
  {
    var run :| |run| <= k && IsRun(s, run) && Exec(s, run) == t;
    var longer := run + [ev];
    assert longer[..|longer| - 1] == run;
    assert IsRun(s, longer) && Exec(s, longer) == Step(t, ev);
  }

  lemma Along(s: System, t: System, k: nat, e: End)
    requires Leads(s, t, k) && Inv(s.At(e), s.At(Other(e))) && |t.At(e).written| < SEQ_MOD
    ensures Inv(t.At(e), t.At(Other(e)))
  {
    var run :| |run| <= k && IsRun(s, run) && Exec(s, run) == t;
    InvAlong(s, run, e);
  }

  /** t differs from s only in what end e has read and buffered. */
  predicate OnlyRead(s: System, t: System, e: End) {
    && t.At(Other(e)) == s.At(Other(e))
    && t.At(e) == s.At(e).(stream := s.At(e).stream.(inbox := t.At(e).stream.inbox, rbuf := t.At(e).stream.rbuf),
                           output := t.At(e).output)
  }

  /** The application can always make room in a full inbox. */
  lemma MakeRoom(s0: System, s: System, k: nat, e: End) returns (t: System)
    requires Leads(s0, s, k) && |s.At(e).stream.inbox| <= INBOX_CAP
    ensures Leads(s0, t, k + 2) && OnlyRead(s, t, e) && |t.At(e).stream.inbox| < INBOX_CAP
  {
    t := s;
    if |s.At(e).stream.inbox| == INBOX_CAP {
      if s.At(e).stream.rbuf != [] {
        var drain := Event(e, Read(|s.At(e).stream.rbuf|));
        Then(s0, s, k, drain);
        t := Step(s, drain);
      }
      var next := Event(e, Read(|t.At(e).stream.inbox[0]|));
      Then(s0, t, k + 1, next);
      t := Step(t, next);
    }
  }

  /** The read loop of an open end always gets back to its socket. */
  lemma Settle(s0: System, s: System, k: nat, e: End) returns (t: System)
    requires Leads(s0, s, k) && LocalInv(s.At(e)) && !s.At(e).stream.closed
    ensures Leads(s0, t, k + 5)
    ensures t.At(Other(e)) == s.At(Other(e))
    ensures t.At(e).loop.Ready? && !t.At(e).stream.closed
    ensures t.At(e).writer == s.At(e).writer && t.At(e).written == s.At(e).written
    ensures t.At(e).completed == s.At(e).completed
  {
    var me := s.At(e);
    match me.loop {
      case Ready =>
        t := s;
      case GotAck(_) =>
        Then(s0, s, k, Event(e, MatchAck));
        t := Step(s, Event(e, MatchAck));
        if t.At(e).loop.Matched? {
          Then(s0, t, k + 1, Event(e, SignalWriter));
          t := Step(t, Event(e, SignalWriter));
        }
      case Matched =>
        Then(s0, s, k, Event(e, SignalWriter));
        t := Step(s, Event(e, SignalWriter));
      case _ =>
        t := SettleData(s0, s, k, e);
    }
  }

  lemma SettleData(s0: System, s: System, k: nat, e: End) returns (t: System)
    requires Leads(s0, s, k) && LocalInv(s.At(e)) && !s.At(e).stream.closed
    requires s.At(e).loop.GotData? || s.At(e).loop.Acked? || s.At(e).loop.Handing?
    ensures Leads(s0, t, k + 5)
    ensures t.At(Other(e)) == s.At(Other(e))
    ensures t.At(e).loop.Ready? && !t.At(e).stream.closed
    ensures t.At(e).writer == s.At(e).writer && t.At(e).written == s.At(e).written
    ensures t.At(e).completed == s.At(e).completed
  {
    t := s;
    if t.At(e).loop.GotData? {
      Then(s0, t, k, Event(e, SendAck));
      t := Step(t, Event(e, SendAck));
    }
    if t.At(e).loop.Acked? {
      Then(s0, t, k + 1, Event(e, CheckNumber));
      t := Step(t, Event(e, CheckNumber));
    }
    if t.At(e).loop.Handing? {
      t := MakeRoom(s0, t, k + 2, e);
      Then(s0, t, k + 4, Event(e, HandOver));
      t := Step(t, Event(e, HandOver));
    }
  }

  predicate Busy(w: Writer) {
    w.Sending? || w.Waiting?
  }

  /** A write in progress is never stranded: whatever was lost or reordered so far, the
      write of a non-empty chunk can return success within 18 further steps. */
  lemma CanComplete(s: System, e: End) returns (t: System)
    requires Inv(s.At(e), s.At(Other(e))) && LocalInv(s.At(e)) && LocalInv(s.At(Other(e)))
    requires !s.At(e).stream.closed && !s.At(Other(e)).stream.closed
    requires Busy(s.At(e).writer) && s.At(e).writer.body != []
    ensures Leads(s, t, 18)
    ensures t.At(e).writer.Idle? && t.At(e).completed == s.At(e).completed + 1
    ensures t.At(e).written == s.At(e).written
  {
    var o := Other(e);
    Stay(s);
    var s1 := Settle(s, s, 0, e);
    var s2 := Settle(s, s1, 5, o);
    Along(s, s2, 10, e);
    t := Resend(s, s2, 10, e);
    Along(s, t, 12, e);
    if !t.At(e).stream.ackToken {
      t := Exchange(s, t, 12, e);
    }
    Then(s, t, 17, Event(e, TakeToken));
    t := Step(t, Event(e, TakeToken));
  }

  /** Put the outstanding frame on the network once more and wait. */
  lemma Resend(s0: System, s: System, k: nat, e: End) returns (t: System)
    requires Leads(s0, s, k) && Busy(s.At(e).writer)
    ensures Leads(s0, t, k + 2)
    ensures t.At(Other(e)) == s.At(Other(e))
    ensures var me, w := s.At(e), s.At(e).writer;
            t.At(e) == me.(writer := Waiting(w.num, w.body), sent := me.sent + {Data(w.num, w.body)})
  {
    t := s;
    if t.At(e).writer.Waiting? {
      Then(s0, t, k, Event(e, RetryTimer));
      t := Step(t, Event(e, RetryTimer));
    }
    Then(s0, t, k + 1, Event(e, Transmit));
    t := Step(t, Event(e, Transmit));
  }

  /** The outstanding frame gets there and is acknowledged. */
  lemma Receipt(s0: System, s: System, k: nat, e: End) returns (t: System)
    requires Leads(s0, s, k)
    requires s.At(e).loop.Ready? && !s.At(e).stream.closed
    requires s.At(Other(e)).writer.Waiting?
    requires Data(s.At(Other(e)).writer.num, s.At(Other(e)).writer.body) in s.At(Other(e)).sent
    ensures Leads(s0, t, k + 2) && t.At(Other(e)) == s.At(Other(e))
    ensures Ack(s.At(Other(e)).writer.num) in t.At(e).sent
  {
    var w := s.At(Other(e)).writer;
    Then(s0, s, k, Event(e, FetchData(w.num, w.body)));
    t := Step(s, Event(e, FetchData(w.num, w.body)));
    Then(s0, t, k + 1, Event(e, SendAck));
    t := Step(t, Event(e, SendAck));
  }

  /** The acknowledgement gets back and becomes the writer's token. */
  lemma Signal(s0: System, s: System, k: nat, e: End) returns (t: System)
    requires Leads(s0, s, k)
    requires s.At(e).loop.Ready? && !s.At(e).stream.closed
    requires s.At(e).writer.Waiting? && s.At(e).stream.pending.Some?
    requires s.At(e).stream.pendSeq == s.At(e).writer.num && Ack(s.At(e).writer.num) in s.At(Other(e)).sent
    ensures Leads(s0, t, k + 3) && t.At(Other(e)) == s.At(Other(e))
    ensures t.At(e) == s.At(e).(stream := s.At(e).stream.(pending := None, ackToken := true))
  {
    var num := s.At(e).writer.num;
    Then(s0, s, k, Event(e, FetchAck(num)));
    t := Step(s, Event(e, FetchAck(num)));
    Then(s0, t, k + 1, Event(e, MatchAck));
    t := Step(t, Event(e, MatchAck));
    Then(s0, t, k + 2, Event(e, SignalWriter));
    t := Step(t, Event(e, SignalWriter));
  }

  /** Data there, acknowledgement back. */
  lemma Exchange(s0: System, s: System, k: nat, e: End) returns (t: System)
    requires Leads(s0, s, k)
    requires Inv(s.At(e), s.At(Other(e)))
    requires s.At(e).loop.Ready? && s.At(Other(e)).loop.Ready?
    requires !s.At(e).stream.closed && !s.At(Other(e)).stream.closed
    requires s.At(e).writer.Waiting? && s.At(e).writer.body != [] && !s.At(e).stream.ackToken
    requires Data(s.At(e).writer.num, s.At(e).writer.body) in s.At(e).sent
    ensures Leads(s0, t, k + 5)
    ensures t.At(e) == s.At(e).(stream := s.At(e).stream.(pending := None, ackToken := true))
  {
    hide Leads;
    t := Receipt(s0, s, k, Other(e));
    t := Signal(s0, t, k + 2, e);
  }

  /** An empty chunk leaves nothing pending, so no acknowledgement can match it. */
  lemma {:induction false} EmptyNeverCompletes(s: System, run: seq<Event>, e: End)
    requires Inv(s.At(e), s.At(Other(e))) && IsRun(s, run)
    requires Busy(s.At(e).writer) && s.At(e).writer.body == []
    ensures var t := Exec(s, run);
            && Inv(t.At(e), t.At(Other(e)))
            && t.At(e).completed == s.At(e).completed && t.At(e).written == s.At(e).written
            && (t.At(e).writer.Failed? || (Busy(t.At(e).writer) && t.At(e).writer.body == []))
  {
    if run != [] {
      var before, last := Exec(s, run[..|run| - 1]), run[|run| - 1];
      EmptyNeverCompletes(s, run[..|run| - 1], e);
      if last.end == e {
        assert before.At(e).stream.ackToken ==> before.At(e).writer.Failed?;
        assert !last.op.StartWrite? && !last.op.TakeToken?;
      }
      OneStep(before, last, e);
    }
  }

  /** The outstanding write of end e can return success within k further steps. */
  ghost predicate CompletesWithin(s: System, e: End, k: nat) {
    exists t :: Leads(s, t, k) && t.At(e).completed == s.At(e).completed + 1
  }

  /** Some continuation makes the outstanding write of end e return success. */
  ghost predicate MayComplete(s: System, e: End) {
    exists run :: IsRun(s, run) && Exec(s, run).At(e).completed > s.At(e).completed
  }

  lemma NonEmptyMay(s: System, e: End)
    requires Inv(s.At(e), s.At(Other(e))) && LocalInv(s.At(e)) && LocalInv(s.At(Other(e)))
    requires !s.At(e).stream.closed && !s.At(Other(e)).stream.closed
    requires Busy(s.At(e).writer) && s.At(e).writer.body != []
    ensures MayComplete(s, e) && CompletesWithin(s, e, 18)
  {
    var t := CanComplete(s, e);
    var run :| |run| <= 18 && IsRun(s, run) && Exec(s, run) == t;
  }

  lemma EmptyMayNot(s: System, e: End)
    requires Inv(s.At(e), s.At(Other(e)))
    requires Busy(s.At(e).writer) && s.At(e).writer.body == []
    ensures !MayComplete(s, e)
  {
    forall run | IsRun(s, run)
      ensures Exec(s, run).At(e).completed == s.At(e).completed
    {
      EmptyNeverCompletes(s, run, e);
    }
  }

  /** In every reachable state with both ends open, exactly the outstanding writes of
      non-empty chunks can still return success. */
  lemma CompletesIffNonEmpty(past: seq<Event>, e: End, s: System)
    requires IsRun(INITIAL, past) && s == Exec(INITIAL, past)
    requires |s.At(e).written| < SEQ_MOD && Busy(s.At(e).writer)
    requires !s.At(e).stream.closed && !s.At(Other(e)).stream.closed
    ensures s.At(e).writer.body != [] <==> MayComplete(s, e)
  {
    InvAlong(INITIAL, past, e);
    LocalAlong(past, e);
    LocalAlong(past, Other(e));
    if s.At(e).writer.body != [] {
      NonEmptyMay(s, e);
    } else {
      EmptyMayNot(s, e);
    }
  }

  /** The other case is reachable: the first write may be of an empty chunk. */
  lemma EmptyWriteStuck(s: System)
    requires s == Exec(INITIAL, [Event(A, StartWrite([]))])
    ensures IsRun(INITIAL, [Event(A, StartWrite([]))]) && Busy(s.At(A).writer) && s.At(A).writer.body == []
    ensures !s.At(A).stream.closed && !s.At(B).stream.closed && !MayComplete(s, A)
  {
    var run := [Event(A, StartWrite([]))];
    assert run[..0] == [] && Exec(INITIAL, []) == INITIAL;
    CompletesIffNonEmpty(run, A, s);
  }

  /** Then 18 steps are enough, whatever was lost or reordered so far. */
  lemma CompletesSoon(past: seq<Event>, e: End, s: System)
    requires IsRun(INITIAL, past) && s == Exec(INITIAL, past)
    requires |s.At(e).written| < SEQ_MOD && Busy(s.At(e).writer) && s.At(e).writer.body != []
    requires !s.At(e).stream.closed && !s.At(Other(e)).stream.closed
    ensures CompletesWithin(s, e, 18)
  {
    InvAlong(INITIAL, past, e);
    LocalAlong(past, e);
    LocalAlong(past, Other(e));
    NonEmptyMay(s, e);
  }

  // ---------- the sequence number wraps ----------

  /** Every write was delivered, read and acknowledged; both ends are at rest. */
  ghost predicate AtRest(s: System, n: nat) {
    var me, peer := s.a, s.b;
    && me.writer.Idle? && me.loop.Ready? && !me.stream.closed && !me.stream.ackToken
    && peer.loop.Ready? && !peer.stream.closed && peer.stream.inbox == [] && peer.stream.rbuf == []
    && me.stream.nextSeq == n % SEQ_MOD == peer.stream.recvNext
    && |me.written| == |peer.accepted| == n
    && (n > 0 ==> Data(0, [0]) in me.sent)
  }

  lemma SendOne(s0: System, s: System, k: nat, body: Chunk) returns (t: System)
    requires Leads(s0, s, k) && s.a.writer.Idle?
    ensures Leads(s0, t, k + 2) && t.b == s.b
    ensures var num := s.a.stream.nextSeq;
            t.a == s.a.(stream := BeginWrite(s.a.stream, body), writer := Waiting(num, body),
                        written := s.a.written + [body], sent := s.a.sent + {Data(num, body)})
  {
    Then(s0, s, k, Event(A, StartWrite(body)));
    t := Step(s, Event(A, StartWrite(body)));
    Then(s0, t, k + 1, Event(A, Transmit));
    t := Step(t, Event(A, Transmit));
  }

  lemma AcknowledgeOne(s0: System, s: System, k: nat, num: Seq32, body: Chunk) returns (t: System)
    requires Leads(s0, s, k) && s.b.loop.Ready? && !s.b.stream.closed && Data(num, body) in s.a.sent
    ensures Leads(s0, t, k + 2) && t.a == s.a
    ensures t.b == s.b.(loop := Acked(num, body), sent := s.b.sent + {Ack(num)})
  {
    Then(s0, s, k, Event(B, FetchData(num, body)));
    t := Step(s, Event(B, FetchData(num, body)));
    Then(s0, t, k + 1, Event(B, SendAck));
    t := Step(t, Event(B, SendAck));
  }

  lemma EnqueueOne(s0: System, s: System, k: nat, body: Chunk) returns (t: System)
    requires Leads(s0, s, k) && s.b.loop == Acked(s.b.stream.recvNext, body)
    requires s.b.stream.inbox == []
    ensures Leads(s0, t, k + 2) && t.a == s.a
    ensures t.b == s.b.(stream := CheckSeq(s.b.stream, s.b.stream.recvNext).0.(inbox := [body]),
                        accepted := s.b.accepted + [body], delivered := s.b.delivered + [body], loop := Ready)
  {
    Then(s0, s, k, Event(B, CheckNumber));
    t := Step(s, Event(B, CheckNumber));
    Then(s0, t, k + 1, Event(B, HandOver));
    t := Step(t, Event(B, HandOver));
    assert [] + [body] == [body];
  }

  lemma ReadOne(s0: System, s: System, k: nat, body: Chunk) returns (t: System)
    requires Leads(s0, s, k) && s.b.stream.inbox == [body] && s.b.stream.rbuf == []
    ensures Leads(s0, t, k + 1) && t.a == s.a
    ensures t.b == s.b.(stream := s.b.stream.(inbox := []), output := s.b.output + body)
  {
    var read := Event(B, Read(|body|));
    var st := s.b.stream;
    assert body[..|body|] == body && body[|body|..] == [] && st.inbox[1..] == [];
    assert ReadStep(st, |body|, false) == (st.(inbox := []), Got(body));
    Then(s0, s, k, read);
    t := Step(s, read);
  }

  lemma AcceptOne(s0: System, s: System, k: nat, body: Chunk) returns (t: System)
    requires Leads(s0, s, k) && s.b.loop == Acked(s.b.stream.recvNext, body)
    requires s.b.stream.inbox == [] && s.b.stream.rbuf == []
    ensures Leads(s0, t, k + 3) && t.a == s.a
    ensures t.b.loop.Ready? && t.b.accepted == s.b.accepted + [body] && t.b.sent == s.b.sent
    ensures t.b.stream == CheckSeq(s.b.stream, s.b.stream.recvNext).0
  {
    t := EnqueueOne(s0, s, k, body);
    t := ReadOne(s0, t, k + 2, body);
  }

  lemma SucceedOne(s0: System, s: System, k: nat, num: Seq32, body: Chunk) returns (t: System)
    requires Leads(s0, s, k) && s.a.loop.Ready? && !s.a.stream.closed && Ack(num) in s.b.sent
    requires s.a.writer == Waiting(num, body) && s.a.stream.pending == Some(body) && s.a.stream.pendSeq == num
    ensures Leads(s0, t, k + 4) && t.b == s.b
    ensures t.a == s.a.(stream := s.a.stream.(pending := None, ackToken := false), writer := Idle,
                        completed := s.a.completed + 1)
  {
    Then(s0, s, k, Event(A, FetchAck(num)));
    t := Step(s, Event(A, FetchAck(num)));
    Then(s0, t, k + 1, Event(A, MatchAck));
    t := Step(t, Event(A, MatchAck));
    Then(s0, t, k + 2, Event(A, SignalWriter));
    t := Step(t, Event(A, SignalWriter));
    Then(s0, t, k + 3, Event(A, TakeToken));
    t := Step(t, Event(A, TakeToken));
  }

  /** From s to t the chunk [0] was written, delivered, read and acknowledged. */
  ghost predicate Travelled(s: System, t: System) {
    var num := s.a.stream.nextSeq;
    && t.a == s.a.(stream := BeginWrite(s.a.stream, [0]).(pending := None, ackToken := false), writer := Idle,
                   written := s.a.written + [[0]], sent := s.a.sent + {Data(num, [0])},
                   completed := s.a.completed + 1)
    && t.b.loop.Ready? && t.b.accepted == s.b.accepted + [[0]]
    && t.b.stream == CheckSeq(s.b.stream, s.b.stream.recvNext).0
  }

  lemma RestAgain(s: System, t: System, n: nat)
    requires AtRest(s, n) && Travelled(s, t)
    ensures AtRest(t, n + 1)
  {
    ModNext(n);
  }

  lemma OneCycle(s0: System, s: System, k: nat, n: nat) returns (t: System)
    requires Leads(s0, s, k) && AtRest(s, n)
    ensures Leads(s0, t, k + 11) && Travelled(s, t)
  {
    var num := s.a.stream.nextSeq;
    t := SendOne(s0, s, k, [0]);
    t := AcknowledgeOne(s0, t, k + 2, num, [0]);
    t := AcceptOne(s0, t, k + 4, [0]);
    t := SucceedOne(s0, t, k + 7, num, [0]);
  }

  lemma {:induction false} ManyCycles(n: nat) returns (t: System)
    ensures Leads(INITIAL, t, 11 * n) && AtRest(t, n)
  {
    if n == 0 {
      Stay(INITIAL);
      t := INITIAL;
    } else {
      var s := ManyCycles(n - 1);
      t := OneCycle(INITIAL, s, 11 * (n - 1), n - 1);
      RestAgain(s, t, n - 1);
    }
  }

  /** After exactly 2^32 writes the first frame, arriving late, is accepted again. */
  lemma WrapAccepts() returns (t: System)
    ensures Leads(INITIAL, t, 11 * SEQ_MOD + 3)
    ensures |t.a.written| == SEQ_MOD && |t.b.accepted| == SEQ_MOD + 1
  {
    var k := 11 * SEQ_MOD;
    t := ManyCycles(SEQ_MOD);
    t := AcknowledgeOne(INITIAL, t, k, 0, [0]);
    Then(INITIAL, t, k + 2, Event(B, CheckNumber));
    t := Step(t, Event(B, CheckNumber));
  }

  /** In this run, if it has at most `most` writes at end e, the peer accepted a prefix of them. */
  ghost predicate SafeRun(run: seq<Event>, e: End, most: nat) {
    IsRun(INITIAL, run) && |Exec(INITIAL, run).At(e).written| <= most ==>
      Exec(INITIAL, run).At(Other(e)).accepted <= Exec(INITIAL, run).At(e).written
  }

  ghost predicate SafeUpTo(most: nat) {
    forall run, e :: SafeRun(run, e, most)
  }

  /** The uint32 numbers are enough for fewer than 2^32 chunks and for no more. */
  lemma SafeExactlyBelowWrap(most: nat)
    ensures SafeUpTo(most) <==> most < 0x1_0000_0000
  {
    if most < SEQ_MOD {
      forall run, e
        ensures SafeRun(run, e, most)
      {
        if IsRun(INITIAL, run) && |Exec(INITIAL, run).At(e).written| <= most {
          Safety(run, e, Exec(INITIAL, run).At(e), Exec(INITIAL, run).At(Other(e)));
        }
      }
    } else {
      var t := WrapAccepts();
      var run :| |run| <= 11 * SEQ_MOD + 3 && IsRun(INITIAL, run) && Exec(INITIAL, run) == t;
      assert Exec(INITIAL, run).At(A).written == t.a.written;
      assert Exec(INITIAL, run).At(Other(A)).accepted == t.b.accepted;
      assert !(t.b.accepted <= t.a.written);
      assert !SafeRun(run, A, most);
    }
  }

  /** The acknowledgement leaves before the sequence number is checked, so a write may
      return success a moment before its chunk counts as accepted. */
  lemma SuccessBeforeAcceptance() returns (t: System)
    ensures Leads(INITIAL, t, 8)
    ensures t.a.completed == 1 && t.b.accepted == [] && Secured(t.b) == [[7]] == t.a.written
  {
    Stay(INITIAL);
    t := SendOne(INITIAL, INITIAL, 0, [7]);
    t := AcknowledgeOne(INITIAL, t, 2, 0, [7]);
    t := SucceedOne(INITIAL, t, 4, 0, [7]);
  }

  /** The writer has not been told yet that the chunk of this number arrived: it still waits
      for that, or gave up waiting. */
  ghost predicate StillAt(s: Side, num: Seq32) {
    match s.writer
    case Idle => false
    case Sending(n, _) => n == num
    case Waiting(n, _) => n == num
    case Failed => |s.written| == num + 1
  }

  /** Exactly when a write returned success whose chunk is not accepted: the receiving read
      loop has acknowledged that chunk and not yet checked its number, and the writer has
      already been told. */
  lemma SuccessUnacceptedIff(run: seq<Event>, e: End, s: Side, r: Side)
    requires After(run, e, s, r)
    ensures s.completed > |r.accepted| <==> InHand(r) && !StillAt(s, r.loop.num)
  {
    Safety(run, e, s, r);
    InvAlong(INITIAL, run, e);
  }

  /** The read loop's acknowledgement is on the network before the number is checked. */
  lemma {:induction false} AckedIsSent(run: seq<Event>, e: End)
    requires IsRun(INITIAL, run)
    ensures Exec(INITIAL, run).At(e).loop.Acked? ==>
            Ack(Exec(INITIAL, run).At(e).loop.num) in Exec(INITIAL, run).At(e).sent
  {
    if run != [] {
      var before, last := Exec(INITIAL, run[..|run| - 1]), run[|run| - 1];
      AckedIsSent(run[..|run| - 1], e);
      if last.end == e {
        AckedStep(before.At(e), last.op);
      }
    }
  }

  lemma AckedStep(me: Side, op: Op)
    requires me.loop.Acked? ==> Ack(me.loop.num) in me.sent
    ensures Apply(me, op).loop.Acked? ==> Ack(Apply(me, op).loop.num) in Apply(me, op).sent
  {
    hide CheckSeq, ClearPending, ReadStep;
  }

  /** End e alone, within k steps, gets its write to return success with the chunk unaccepted. */
  ghost predicate SucceedsFirst(s: System, e: End, k: nat) {
    exists t ::
      && Leads(s, t, k) && t.At(Other(e)) == s.At(Other(e))
      && t.At(e).completed > |t.At(Other(e)).accepted|
  }

  /** Whenever a chunk is in the hands of the receiving read loop and its write still waits,
      the sender can get there by itself. */
  lemma SuccessCanComeFirst(past: seq<Event>, e: End, s: System)
    requires IsRun(INITIAL, past) && s == Exec(INITIAL, past) && |s.At(e).written| < SEQ_MOD
    requires InHand(s.At(Other(e))) && Busy(s.At(e).writer) && s.At(e).writer.num == s.At(Other(e)).loop.num
    requires s.At(e).writer.body != [] && !s.At(e).stream.closed
    ensures SucceedsFirst(s, e, 11)
  {
    InvAlong(INITIAL, past, e);
    LocalAlong(past, e);
    AckedIsSent(past, Other(e));
    Stay(s);
    var t := Settle(s, s, 0, e);
    Along(s, t, 5, e);
    t := Resend(s, t, 5, e);
    Along(s, t, 7, e);
    TellWriter(s, t, e);
  }

  lemma TellWriter(s0: System, s: System, e: End)
    requires Leads(s0, s, 7) && Inv(s.At(e), s.At(Other(e))) && s.At(Other(e)) == s0.At(Other(e))
    requires s.At(e).loop.Ready? && !s.At(e).stream.closed
    requires InHand(s.At(Other(e)))
    requires s.At(e).writer.Waiting? && s.At(e).writer.body != [] && s.At(e).writer.num == s.At(Other(e)).loop.num
    requires Ack(s.At(e).writer.num) in s.At(Other(e)).sent
    ensures SucceedsFirst(s0, e, 11)
  {
    var t := s;
    if !t.At(e).stream.ackToken {
      t := Signal(s0, t, 7, e);
    }
    Then(s0, t, if s.At(e).stream.ackToken then 7 else 10, Event(e, TakeToken));
    var u := Step(t, Event(e, TakeToken));
    assert u.At(e).completed > |u.At(Other(e)).accepted|;
  }

  /** Then it is that chunk alone, and it comes next in the order written. */
  lemma SuccessMeansAccepted(run: seq<Event>, e: End, s: Side, r: Side)
    requires After(run, e, s, r) && s.completed > |r.accepted|
    ensures InHand(r) && s.completed == |r.accepted| + 1 && r.accepted + [r.loop.body] <= s.written
  {
    Safety(run, e, s, r);
  }
}
