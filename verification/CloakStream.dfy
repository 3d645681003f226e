/** One endpoint of cloak's stop-and-wait stream: the fields of a stream, and the
    sections that run under a lock (or on a channel) as single steps. Each step is a
    function on the field values; class Stream updates the fields in place and is
    proved to compute exactly those functions. */
module CloakStream {
  import opened Common

  const SEQ_MOD := 0x1_0000_0000
  const INBOX_CAP := 32

  type Seq32 = n: nat | n < SEQ_MOD
  type Chunk = Bytes

  /** The values of a stream's fields. `pending` is None for Go's nil slice. */
  datatype State = State(
    nextSeq: Seq32,
    pending: Option<Chunk>,
    pendSeq: Seq32,
    ackToken: bool,
    recvNext: Seq32,
    inbox: seq<Chunk>,
    rbuf: Chunk,
    closed: bool)

  const FRESH := State(0, None, 0, false, 0, [], [], false)

  /** Entry of writeReliable. Copying an empty chunk yields nil, so nothing is pending. */
  function BeginWrite(st: State, body: Chunk): State {
    st.(nextSeq := (st.nextSeq + 1) % SEQ_MOD,
        pending := if body == [] then None else Some(body),
        pendSeq := st.nextSeq)
  }

  /** The receive lock's section of onData. */
  function CheckSeq(st: State, num: Seq32): (State, bool) {
    if num == st.recvNext then (st.(recvNext := (st.recvNext + 1) % SEQ_MOD), true) else (st, false)
  }

  /** The send lock's section of onAck. */
  function ClearPending(st: State, num: Seq32): (State, bool) {
    if st.pending.Some? && st.pendSeq == num then (st.(pending := None), true) else (st, false)
  }

  /** Of all acknowledgements only the one with the new number ends a write, and none ends the
      write of an empty chunk. */
  lemma OnlyItsAckMatches(st: State, body: Chunk, num: Seq32)
    ensures ClearPending(BeginWrite(st, body), num).1 <==> num == st.nextSeq && body != []
    ensures ClearPending(ClearPending(BeginWrite(st, body), num).0, num).1 == false
  {
  }

  /** A data frame that was delivered is not delivered again before its number comes round:
      for fewer than 2^32 deliveries in between the same number is refused. */
  lemma {:induction false} OnceInARound(st: State, num: Seq32, others: nat)
    requires st.recvNext == num && others < SEQ_MOD - 1
    ensures CheckSeq(st, num).1
    ensures !CheckSeq(Delivered(CheckSeq(st, num).0, others), num).1
  {
    DeliveredNext(CheckSeq(st, num).0, others);
  }

  /** The state after n further deliveries. */
  function Delivered(st: State, n: nat): State {
    if n == 0 then st
    else
      var before := Delivered(st, n - 1);
      CheckSeq(before, before.recvNext).0
  }

  lemma {:induction false} DeliveredNext(st: State, n: nat)
    ensures Delivered(st, n).recvNext == (st.recvNext + n) % SEQ_MOD
  {
    if n > 0 {
      DeliveredNext(st, n - 1);
      ModNext(st.recvNext + (n - 1));
    }
  }

  lemma ModNext(n: nat)
    ensures (n % SEQ_MOD + 1) % SEQ_MOD == (n + 1) % SEQ_MOD
  {
  }

  datatype ReadResult = Got(data: Bytes) | Eof | WouldBlock

  /** streamConn.Read with a buffer of `size` bytes; when the stream is closed and a chunk
      is waiting, the runtime may choose either case of the select. */
  function ReadStep(st: State, size: nat, preferClosed: bool): (State, ReadResult) {
    if st.rbuf != [] then
      var n := if size < |st.rbuf| then size else |st.rbuf|;
      (st.(rbuf := st.rbuf[n..]), Got(st.rbuf[..n]))
    else if st.closed && (preferClosed || st.inbox == []) then
      (st, Eof)
    else if st.inbox == [] then
      (st, WouldBlock)
    else
      var chunk := st.inbox[0];
      var n := if size < |chunk| then size else |chunk|;
      (st.(inbox := st.inbox[1..], rbuf := chunk[n..]), Got(chunk[..n]))
  }

  /** A read moves bytes from the front of what is buffered to the caller and loses none. */
  lemma ReadConserves(st: State, size: nat, preferClosed: bool)
    ensures var (st', r) := ReadStep(st, size, preferClosed);
            var data := if r.Got? then r.data else [];
            && data + (st'.rbuf + Concat(st'.inbox)) == st.rbuf + Concat(st.inbox)
            && |data| <= size
            && (r.Got? && st.rbuf + Concat(st.inbox) != [] && size > 0 && [] !in st.inbox ==> data != [])
            && (!r.Got? ==> st' == st)
            && st' == st.(rbuf := st'.rbuf, inbox := st'.inbox)
  {
    if st.rbuf != [] {
      var n := if size < |st.rbuf| then size else |st.rbuf|;
      assert st.rbuf[..n] + (st.rbuf[n..] + Concat(st.inbox)) == st.rbuf + Concat(st.inbox);
    } else if st.inbox != [] && !(st.closed && preferClosed) {
      var chunk := st.inbox[0];
      var n := if size < |chunk| then size else |chunk|;
      assert chunk[..n] + (chunk[n..] + Concat(st.inbox[1..])) == chunk + Concat(st.inbox[1..]);
      assert Concat(st.inbox) == chunk + Concat(st.inbox[1..]);
    }
  }

  /** The answers in terms of the fields: the end of the stream when it is closed and nothing
      is left, or when the runtime prefers that; waiting when it is open and nothing is there. */
  lemma ReadAnswers(st: State, size: nat, preferClosed: bool, st': State, r: ReadResult)
    requires ReadStep(st, size, preferClosed) == (st', r)
    ensures r.Eof? <==> st.rbuf == [] && st.closed && (preferClosed || st.inbox == [])
    ensures r.WouldBlock? <==> st.rbuf == [] && !st.closed && st.inbox == []
  {
  }

  class Stream {
    var nextSeq: Seq32
    var pending: Option<Chunk>
    var pendSeq: Seq32
    var ackToken: bool
    var recvNext: Seq32
    var inbox: seq<Chunk>
    var rbuf: Chunk
    var closed: bool

    ghost function Value(): State
      reads this
    {
      State(nextSeq, pending, pendSeq, ackToken, recvNext, inbox, rbuf, closed)
    }

    constructor ()
      ensures Value() == FRESH
    {
      nextSeq, pending, pendSeq, ackToken := 0, None, 0, false;
      recvNext, inbox, rbuf, closed := 0, [], [], false;
    }

    method StartWrite(b: Chunk) returns (num: Seq32)
      modifies this
      ensures num == old(nextSeq)
      ensures Value() == BeginWrite(old(Value()), b)
    {
      num := nextSeq;
      nextSeq := (nextSeq + 1) % SEQ_MOD;
      pending := if |b| == 0 then None else Some(b);
      pendSeq := num;
    }

    method AcceptData(num: Seq32) returns (deliver: bool)
      modifies this
      ensures (Value(), deliver) == CheckSeq(old(Value()), num)
    {
      deliver := num == recvNext;
      if deliver {
        recvNext := (recvNext + 1) % SEQ_MOD;
      }
    }

    /** The select of onData, given that one of its cases is ready. */
    method Deliver(body: Chunk, preferClosed: bool) returns (delivered: bool)
      requires |inbox| < 32 || closed
      modifies this
      ensures delivered <==> (|old(inbox)| < 32 && !(closed && preferClosed))
      ensures Value() == if delivered then old(Value()).(inbox := old(inbox) + [body]) else old(Value())
    {
      delivered := |inbox| < INBOX_CAP && !(closed && preferClosed);
      if delivered {
        inbox := inbox + [body];
      }
    }

    method MatchAck(num: Seq32) returns (matched: bool)
      modifies this
      ensures (Value(), matched) == ClearPending(old(Value()), num)
    {
      matched := pending.Some? && pendSeq == num;
      if matched {
        pending := None;
      }
    }

    /** The acknowledgement channel holds one token; a second one is dropped. */
    method SignalWriter()
      modifies this
      ensures Value() == old(Value()).(ackToken := true)
    {
      if !ackToken {
        ackToken := true;
      }
    }

    method TakeToken() returns (ok: bool)
      modifies this
      ensures ok == old(ackToken)
      ensures Value() == old(Value()).(ackToken := false)
    {
      ok := ackToken;
      ackToken := false;
    }

    /** removeStream: the stream leaves the peer's table and is closed, once. */
    method Remove()
      modifies this
      ensures Value() == old(Value()).(closed := true)
    {
      closed := true;
    }

    method Read(b: array<Byte>, preferClosed: bool) returns (n: nat, r: ReadResult)
      modifies this, b
      ensures (Value(), r) == ReadStep(old(Value()), b.Length, preferClosed)
      ensures n == if r.Got? then |r.data| else 0
      ensures n <= b.Length
      ensures b[..] == (if r.Got? then r.data else []) + old(b[..])[n..]
      ensures r.Eof? <==> old(rbuf) == [] && closed && (preferClosed || old(inbox) == [])
      ensures r.WouldBlock? <==> old(rbuf) == [] && !closed && old(inbox) == []
      ensures old(rbuf) != [] ==> inbox == old(inbox) && b[..n] + rbuf == old(rbuf)
      ensures r.Got? && old(rbuf) == [] ==> old(inbox) == [b[..n] + rbuf] + inbox
      ensures r.Got? ==> n == b.Length || rbuf == []
    {
      n := 0;
      if |rbuf| > 0 {
        n := CopyInto(b, rbuf);
        r := Got(rbuf[..n]);
        rbuf := rbuf[n..];
      } else if closed && (preferClosed || |inbox| == 0) {
        r := Eof;
      } else if |inbox| == 0 {
        r := WouldBlock;
      } else {
        var chunk := inbox[0];
        inbox := inbox[1..];
        n := CopyInto(b, chunk);
        assert old(inbox) == [chunk] + inbox && b[..n] == chunk[..n] && chunk == chunk[..n] + chunk[n..];
        r := Got(chunk[..n]);
        if n < |chunk| {
          rbuf := chunk[n..];
        } else {
          assert chunk[n..] == [] == rbuf;
        }
      }
    }
  }

  /** Go's built-in copy. */
  method CopyInto(b: array<Byte>, src: Bytes) returns (n: nat)
    modifies b
    ensures n == if b.Length < |src| then b.Length else |src|
    ensures b[..] == src[..n] + old(b[..])[n..]
  {
    n := if b.Length < |src| then b.Length else |src|;
    for i := 0 to n
      invariant forall k :: 0 <= k < i ==> b[k] == src[k]
      invariant forall k :: i <= k < b.Length ==> b[k] == old(b[k])
    {
      b[i] := src[i];
    }
  }
}
