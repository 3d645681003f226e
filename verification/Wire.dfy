/** Big-endian integers in byte buffers, and the byte form of cloak's messages. */
module Wire {
  import opened Common
  import opened CloakStream
  import opened CloakProtocol

  type Uint16 = n: nat | n < 0x1_0000

  function Get16(b: Bytes): (n: Uint16)
    requires |b| == 2
  {
    (b[0] as int) * 0x100 + b[1]
  }

  function Get32(b: Bytes): (n: Seq32)
    requires |b| == 4
  {
    (b[0] as int) * 0x100_0000 + (b[1] as int) * 0x1_0000 + (b[2] as int) * 0x100 + b[3]
  }

  method Put16(out: array<Byte>, at: nat, n: Uint16)
    requires at + 2 <= out.Length
    modifies out
    ensures Get16(out[at..at + 2]) == n
    ensures out[..at] == old(out[..at]) && out[at + 2..] == old(out[at + 2..])
  {
    out[at], out[at + 1] := n / 0x100, n % 0x100;
  }

  method Put32(out: array<Byte>, at: nat, n: Seq32)
    requires at + 4 <= out.Length
    modifies out
    ensures Get32(out[at..at + 4]) == n
    ensures out[..at] == old(out[..at]) && out[at + 4..] == old(out[at + 4..])
  {
    out[at], out[at + 1] := n / 0x100_0000, n / 0x1_0000 % 0x100;
    out[at + 2], out[at + 3] := n / 0x100 % 0x100, n % 0x100;
  }

  method CopyAt(out: array<Byte>, at: nat, src: Bytes)
    requires at + |src| <= out.Length
    modifies out
    ensures out[at..at + |src|] == src
    ensures out[..at] == old(out[..at]) && out[at + |src|..] == old(out[at + |src|..])
  {
    for i := 0 to |src|
      invariant forall k :: 0 <= k < i ==> out[at + k] == src[k]
      invariant forall k :: 0 <= k < at || at + i <= k < out.Length ==> out[k] == old(out[k])
    {
      out[at + i] := src[i];
    }
  }

  lemma Get16Unique(a: Bytes, b: Bytes)
    requires |a| == |b| == 2 && Get16(a) == Get16(b)
    ensures a == b
  {
  }

  lemma Get32Unique(a: Bytes, b: Bytes)
    requires |a| == |b| == 4 && Get32(a) == Get32(b)
    ensures a == b
  {
    SameParts(a[0], Low24(a), b[0], Low24(b), 0x100_0000);
    SameParts(a[1], Low16(a), b[1], Low16(b), 0x1_0000);
    SameParts(a[2], a[3], b[2], b[3], 0x100);
  }

  function Low24(b: Bytes): (n: nat)
    requires |b| == 4
    ensures n < 0x100_0000
  {
    (b[1] as int) * 0x1_0000 + Low16(b)
  }

  function Low16(b: Bytes): (n: nat)
    requires |b| == 4
    ensures n < 0x1_0000
  {
    (b[2] as int) * 0x100 + b[3]
  }

  /** A part of a front part. */
  lemma SubSlice<T>(b: seq<T>, n: nat, i: nat, j: nat)
    requires i <= j <= n <= |b|
    ensures b[..n][i..j] == b[i..j]
  {
  }

  /** A part of a back part. */
  lemma TailSlice<T>(b: seq<T>, i: nat, j: nat, k: nat)
    requires j <= k && i + k <= |b|
    ensures b[i..][j..k] == b[i + j..i + k]
    ensures b[i..][..k] == b[i..i + k]
  {
  }

  // ---------- cloak's messages ----------

  datatype Message = Message(kind: Byte, streamID: Seq32, num: Seq32, body: Bytes)

  datatype ShortMsg = ShortMsg

  function DecodeMsg(b: Bytes): Result<Message, ShortMsg> {
    if |b| < 9 then Err(ShortMsg)
    else Ok(Message(b[0], Get32(b[1..5]), Get32(b[5..9]), b[9..]))
  }

  /** The bytes written are the only ones that decode to the message. */
  method EncodeMsg(m: Message) returns (out: array<Byte>)
    ensures fresh(out) && out.Length == 9 + |m.body|
    ensures DecodeMsg(out[..]) == Ok(m)
    ensures out[0] == m.kind && out[9..] == m.body
    ensures (out[1] as int) * 0x100_0000 + (out[2] as int) * 0x1_0000 + (out[3] as int) * 0x100 + out[4] == m.streamID
    ensures (out[5] as int) * 0x100_0000 + (out[6] as int) * 0x1_0000 + (out[7] as int) * 0x100 + out[8] == m.num
  {
    out := new Byte[1 + 4 + 4 + |m.body|](_ => 0);
    out[0] := m.kind;
    Put32(out, 1, m.streamID);
    ghost var first := out[..5];
    assert first[0] == m.kind && first[1..5] == out[1..5];
    Put32(out, 5, m.num);
    assert out[..5] == first && out[1..5] == first[1..5];
    ghost var head := out[..9];
    CopyAt(out, 9, m.body);
    assert out[..9] == head;
    assert out[1..5] == head[1..5] == first[1..5] && out[5..9] == head[5..9];
    assert out[9..] == out[9..9 + |m.body|];
    assert out[..][1..5] == out[1..5] && out[..][5..9] == out[5..9] && out[..][9..] == out[9..];
    MessageBytes(out[..], m);
  }

  /** Messages and the byte strings of nine bytes and more correspond one to one. */
  lemma DecodeInjective(a: Bytes, b: Bytes)
    requires DecodeMsg(a).Ok? && DecodeMsg(a) == DecodeMsg(b)
    ensures a == b
  {
    Get32Unique(a[1..5], b[1..5]);
    Get32Unique(a[5..9], b[5..9]);
    assert a == [a[0]] + a[1..5] + a[5..9] + a[9..];
    assert b == [b[0]] + b[1..5] + b[5..9] + b[9..];
  }

  const MSG_DATA: Byte := 4
  const MSG_ACK: Byte := 5
  const MSG_CLOSE: Byte := 6

  /** A frame of the protocol as a message of its stream. */
  function ToMessage(f: Frame, id: Seq32): Message {
    match f
    case Data(num, body) => Message(MSG_DATA, id, num, body)
    case Ack(num) => Message(MSG_ACK, id, num, [])
    case Close => Message(MSG_CLOSE, id, 0, [])
  }

  /** What handle makes of a message for one stream; other kinds are not the protocol's. */
  function FromMessage(m: Message): Option<Frame> {
    if m.kind == MSG_DATA then Some(Data(m.num, m.body))
    else if m.kind == MSG_ACK then Some(Ack(m.num))
    else if m.kind == MSG_CLOSE then Some(Close)
    else None
  }

  /** A frame read from the bytes of a frame sent is that frame. */
  lemma FrameSurvives(f: Frame, id: Seq32, wire: Bytes)
    requires DecodeMsg(wire) == Ok(ToMessage(f, id))
    ensures FromMessage(DecodeMsg(wire).value) == Some(f) && DecodeMsg(wire).value.streamID == id
  {
  }

  /** A message byte by byte: numbers take four bytes, the most significant one first. */
  lemma MessageBytes(b: Bytes, m: Message)
    requires DecodeMsg(b) == Ok(m)
    ensures |b| == 9 + |m.body| && b[0] == m.kind && b[9..] == m.body
    ensures (b[1] as int) * 0x100_0000 + (b[2] as int) * 0x1_0000 + (b[3] as int) * 0x100 + b[4] == m.streamID
    ensures (b[5] as int) * 0x100_0000 + (b[6] as int) * 0x1_0000 + (b[7] as int) * 0x100 + b[8] == m.num
  {
  }

  /** The protocol's three kinds of message; no other is one of its frames. */
  lemma FrameCodes(f: Frame, id: Seq32, m: Message)
    requires m == ToMessage(f, id)
    ensures m.streamID == id
    ensures f.Data? ==> m.kind == 4 && m.num == f.num && m.body == f.body
    ensures f.Ack? ==> m.kind == 5 && m.num == f.num && m.body == []
    ensures f.Close? ==> m.kind == 6 && m.num == 0 && m.body == []
    ensures forall o: Message :: FromMessage(o).Some? <==> 4 <= o.kind <= 6
  {
  }
}
