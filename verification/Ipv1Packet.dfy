/** ipv1's packet format: a version byte, two length-prefixed addresses and a payload. */
module Ipv1Packet {
  import opened Common
  import opened Wire

  const VERSION: Byte := 1
  const MAX_ADDR_LEN := 64

  /** Addresses are the bytes of the Go strings. */
  datatype Packet = Packet(src: Bytes, dst: Bytes, payload: Bytes)

  datatype PacketError = BadVersion | AddrTooLong | Truncated | EmptyAddr | InvalidAddr

  predicate AddrChar(b: Byte) {
    || '0' as int <= b <= '9' as int || 'a' as int <= b <= 'z' as int
    || 'A' as int <= b <= 'Z' as int || b == '-' as int
  }

  function Validate(addr: Bytes): Option<PacketError> {
    if addr == [] then Some(EmptyAddr)
    else if exists i :: 0 <= i < |addr| && !AddrChar(addr[i]) then Some(InvalidAddr)
    else None
  }

  method ValidateAddr(addr: Bytes) returns (err: Option<PacketError>)
    ensures err == Validate(addr)
  {
    if |addr| == 0 {
      return Some(EmptyAddr);
    }
    for i := 0 to |addr|
      invariant forall k :: 0 <= k < i ==> AddrChar(addr[k])
    {
      if !AddrChar(addr[i]) {
        return Some(InvalidAddr);
      }
    }
    return None;
  }

  /** A length-prefixed string at the front of b, and the bytes it takes. */
  function GetLenPrefixed(b: Bytes): (r: Result<(Bytes, nat), PacketError>)
    ensures r.Ok? ==> 2 <= r.value.1 <= |b| && r.value.0 == b[2..r.value.1]
  {
    if |b| < 2 then Err(Truncated)
    else
      var n := Get16(b[..2]);
      if |b| < 2 + n then Err(Truncated) else Ok((b[2..2 + n], 2 + n))
  }

  function Decode(b: Bytes): Result<Packet, PacketError> {
    if |b| < 5 then Err(Truncated)
    else if b[0] != VERSION then Err(BadVersion)
    else
      match GetLenPrefixed(b[1..])
      case Err(e) => Err(e)
      case Ok((src, n)) =>
        match GetLenPrefixed(b[1 + n..])
        case Err(e) => Err(e)
        case Ok((dst, m)) =>
          if Validate(src).Some? then Err(Validate(src).value)
          else if Validate(dst).Some? then Err(Validate(dst).value)
          else Ok(Packet(src, dst, b[1 + n + m..]))
  }

  /** Why Encode refuses a packet, if it does. */
  function Refused(p: Packet): Option<PacketError> {
    if Validate(p.src).Some? then Validate(p.src)
    else if Validate(p.dst).Some? then Validate(p.dst)
    else if |p.src| > MAX_ADDR_LEN || |p.dst| > MAX_ADDR_LEN then Some(AddrTooLong)
    else None
  }

  method PutLenPrefixed(out: array<Byte>, at: nat, src: Bytes) returns (n: nat)
    requires |src| < 0x1_0000 && at + 2 + |src| <= out.Length
    modifies out
    ensures n == 2 + |src|
    ensures Get16(out[at..at + 2]) == |src| && out[at + 2..at + n] == src
    ensures out[..at] == old(out[..at]) && out[at + n..] == old(out[at + n..])
  {
    Put16(out, at, |src|);
    ghost var head := out[..at + 2];
    CopyAt(out, at + 2, src);
    assert out[..at + 2] == head && out[at..at + 2] == head[at..];
    n := 2 + |src|;
  }

  /** The layout of an encoded packet. */
  ghost predicate Lays(b: Bytes, p: Packet) {
    var s, d := |p.src|, |p.dst|;
    && |b| == 5 + s + d + |p.payload|
    && b[0] == VERSION
    && Get16(b[1..3]) == s && b[3..3 + s] == p.src
    && Get16(b[3 + s..5 + s]) == d && b[5 + s..5 + s + d] == p.dst
    && b[5 + s + d..] == p.payload
  }

  method Encode(p: Packet) returns (r: Result<Bytes, PacketError>)
    ensures match Refused(p)
            case Some(e) => r == Err(e)
            case None => r.Ok? && Lays(r.value, p)
  {
    var bad := ValidateAddr(p.src);
    if bad.Some? {
      return Err(bad.value);
    }
    bad := ValidateAddr(p.dst);
    if bad.Some? {
      return Err(bad.value);
    }
    if |p.src| > MAX_ADDR_LEN || |p.dst| > MAX_ADDR_LEN {
      return Err(AddrTooLong);
    }
    var s, d := |p.src|, |p.dst|;
    var out := new Byte[1 + 2 + s + 2 + d + |p.payload|](_ => 0);
    out[0] := VERSION;
    var n := 1;
    var k := PutLenPrefixed(out, n, p.src);
    n := n + k;
    ghost var one := out[..n];
    SubSlice(out[..], n, 1, 3);
    k := PutLenPrefixed(out, n, p.dst);
    assert out[..3 + s] == one;
    n := n + k;
    ghost var two := out[..n];
    SubSlice(out[..], n, 3 + s, 5 + s);
    CopyAt(out, n, p.payload);
    assert out[..n] == two && out[n..] == out[n..n + |p.payload|];
    var b := out[..];
    FrontLaid(b, p, one, two);
    return Ok(b);
  }

  /** The packet's parts, read off the growing front of the buffer. */
  lemma FrontLaid(b: Bytes, p: Packet, one: Bytes, two: Bytes)
    requires |b| == 5 + |p.src| + |p.dst| + |p.payload|
    requires |one| == 3 + |p.src| && one[0] == VERSION && Get16(one[1..3]) == |p.src| && one[3..] == p.src
    requires |two| == 5 + |p.src| + |p.dst| && two[..|one|] == one
    requires Get16(two[|one|..|one| + 2]) == |p.dst| && two[|one| + 2..] == p.dst
    requires b[..|two|] == two && b[|two|..] == p.payload
    ensures Lays(b, p)
  {
    var s, d := |p.src|, |p.dst|;
    SubSlice(two, 3 + s, 1, 3);
    SubSlice(two, 3 + s, 3, 3 + s);
    SubSlice(b, 5 + s + d, 1, 3);
    SubSlice(b, 5 + s + d, 3, 3 + s);
    SubSlice(b, 5 + s + d, 3 + s, 5 + s);
    SubSlice(b, 5 + s + d, 5 + s, 5 + s + d);
    assert one[3..] == one[3..3 + s] && two[5 + s..] == two[5 + s..5 + s + d];
  }

  /** Whatever lays out a packet with valid addresses decodes to it. */
  lemma DecodeLaid(b: Bytes, p: Packet)
    requires Lays(b, p) && Validate(p.src).None? && Validate(p.dst).None?
    ensures Decode(b) == Ok(p)
  {
    var s, d := |p.src|, |p.dst|;
    TailSlice(b, 1, 0, 2);
    TailSlice(b, 1, 2, 2 + s);
    TailSlice(b, 3 + s, 0, 2);
    TailSlice(b, 3 + s, 2, 2 + d);
  }

  /** Whatever decodes lays out the packet it decodes to. */
  lemma DecodedLays(b: Bytes)
    requires Decode(b).Ok?
    ensures Lays(b, Decode(b).value) && Validate(Decode(b).value.src).None? && Validate(Decode(b).value.dst).None?
  {
    var p := Decode(b).value;
    var (src, n) := GetLenPrefixed(b[1..]).value;
    var (dst, m) := GetLenPrefixed(b[1 + n..]).value;
    TailSlice(b, 1, 0, 2);
    TailSlice(b, 1, 2, n);
    TailSlice(b, 1 + n, 0, 2);
    TailSlice(b, 1 + n, 2, m);
  }

  /** A packet has at most one layout. */
  lemma LaysUnique(a: Bytes, b: Bytes, p: Packet)
    requires Lays(a, p) && Lays(b, p)
    ensures a == b
  {
    var s, d := |p.src|, |p.dst|;
    Get16Unique(a[1..3], b[1..3]);
    Get16Unique(a[3 + s..5 + s], b[3 + s..5 + s]);
    Pieces(a, s, d);
    Pieces(b, s, d);
  }

  lemma Pieces(b: Bytes, s: nat, d: nat)
    requires |b| >= 5 + s + d
    ensures b == [b[0]] + b[1..3] + b[3..3 + s] + b[3 + s..5 + s] + b[5 + s..5 + s + d] + b[5 + s + d..]
  {
  }

  /** Encoding then decoding gives back every packet that Encode accepts. */
  method EncodeThenDecode(p: Packet) returns (r: Result<Packet, PacketError>)
    ensures r == match Refused(p) case Some(e) => Err(e) case None => Ok(p)
  {
    var e := Encode(p);
    if e.Err? {
      return Err(e.error);
    }
    DecodeLaid(e.value, p);
    r := Decode(e.value);
  }

  /** Decoding then encoding gives back the same bytes, exactly for addresses within the
      length that Encode, but not Decode, checks. */
  method DecodeThenEncode(b: Bytes) returns (r: Result<Bytes, PacketError>)
    ensures Decode(b).Err? ==> r == Err(Decode(b).error)
    ensures Decode(b).Ok? ==>
              (r == Ok(b) <==> |Decode(b).value.src| <= MAX_ADDR_LEN && |Decode(b).value.dst| <= MAX_ADDR_LEN)
    ensures Decode(b).Ok? && r != Ok(b) ==> r == Err(AddrTooLong)
  {
    var d := Decode(b);
    if d.Err? {
      return Err(d.error);
    }
    DecodedLays(b);
    r := Encode(d.value);
    if r.Ok? {
      LaysUnique(r.value, b, d.value);
    }
  }

  /** Two byte strings that decode to the same packet are the same. */
  lemma DecodeInjective(a: Bytes, b: Bytes)
    requires Decode(a).Ok? && Decode(a) == Decode(b)
    ensures a == b
  {
    DecodedLays(a);
    DecodedLays(b);
    LaysUnique(a, b, Decode(a).value);
  }

  /** A packet laid out as Encode would, without Encode's limit on the addresses. */
  function Laid(p: Packet): Bytes
    requires |p.src| < 0x1_0000 && |p.dst| < 0x1_0000
  {
    [VERSION] + Prefix16(|p.src|) + p.src + Prefix16(|p.dst|) + p.dst + p.payload
  }

  function Prefix16(n: Uint16): (b: Bytes)
    ensures |b| == 2 && Get16(b) == n
  {
    [n / 0x100, n % 0x100]
  }

  lemma LaidLays(p: Packet)
    requires |p.src| < 0x1_0000 && |p.dst| < 0x1_0000
    ensures Lays(Laid(p), p)
  {
    hide Prefix16;
    var b, s, d := Laid(p), |p.src|, |p.dst|;
    assert b[1..3] == Prefix16(s) && b[3..3 + s] == p.src;
    assert b[3 + s..5 + s] == Prefix16(d) && b[5 + s..5 + s + d] == p.dst;
    assert b[5 + s + d..] == p.payload;
  }

  ghost predicate Decodable(p: Packet) {
    exists b :: Decode(b) == Ok(p)
  }

  /** Decode yields exactly the packets whose addresses are valid and fit a length prefix. */
  lemma DecodableIff(p: Packet)
    ensures Decodable(p) <==>
            Validate(p.src).None? && Validate(p.dst).None? && |p.src| < 0x1_0000 && |p.dst| < 0x1_0000
  {
    if Decodable(p) {
      var b :| Decode(b) == Ok(p);
      DecodedLays(b);
    }
    if Validate(p.src).None? && Validate(p.dst).None? && |p.src| < 0x1_0000 && |p.dst| < 0x1_0000 {
      LaidLays(p);
      DecodeLaid(Laid(p), p);
    }
  }

  /** So a packet with an address of 65 letters decodes, and Encode refuses it. */
  lemma LongAddress(p: Packet)
    requires p.src == seq(65, _ => 'a' as int) && p.dst == ['b' as int]
    ensures Decodable(p) && Refused(p) == Some(AddrTooLong)
  {
    DecodableIff(p);
  }

  // ---------- the format in numbers ----------

  /** A letter, a digit or a hyphen. */
  predicate PlainChar(b: Byte) {
    var c := b as char;
    'a' <= c <= 'z' || 'A' <= c <= 'Z' || '0' <= c <= '9' || c == '-'
  }

  predicate Plain(addr: Bytes) {
    forall i :: 0 <= i < |addr| ==> PlainChar(addr[i])
  }

  lemma SameChar(b: Byte)
    ensures PlainChar(b) <==> AddrChar(b)
  {
  }

  lemma ValidIff(addr: Bytes)
    ensures Validate(addr) == None <==> addr != [] && Plain(addr)
    ensures Validate(addr) == Some(EmptyAddr) <==> addr == []
    ensures Validate(addr) == Some(InvalidAddr) <==> !Plain(addr)
  {
    forall b: Byte ensures PlainChar(b) <==> AddrChar(b) {
      SameChar(b);
    }
    hide PlainChar, AddrChar;
  }

  /** What Encode accepts: two plain addresses of one to 64 bytes each. */
  lemma AcceptedIff(p: Packet)
    ensures Refused(p) == None <==>
            0 < |p.src| <= 64 && 0 < |p.dst| <= 64 && Plain(p.src) && Plain(p.dst)
    ensures Refused(p) == Some(AddrTooLong) <==>
            p.src != [] && p.dst != [] && Plain(p.src) && Plain(p.dst) && (|p.src| > 64 || |p.dst| > 64)
  {
    ValidIff(p.src);
    ValidIff(p.dst);
    hide Validate, Plain;
  }

  /** A laid-out packet byte by byte: the version 1, and lengths with the high byte first. */
  lemma PacketBytes(b: Bytes, p: Packet)
    requires Lays(b, p)
    ensures var s, d := |p.src|, |p.dst|;
            && |b| == 5 + s + d + |p.payload|
            && b[0] == 1
            && (b[1] as int) * 256 + b[2] == s && b[3..3 + s] == p.src
            && (b[3 + s] as int) * 256 + b[4 + s] == d && b[5 + s..5 + s + d] == p.dst
            && b[5 + s + d..] == p.payload
  {
  }

  /** When and why Decode fails before it looks at the addresses. */
  lemma DecodeShort(b: Bytes, s: nat, d: nat)
    requires |b| >= 5 ==> s == (b[1] as int) * 256 + b[2]
    requires |b| >= 5 + s ==> d == (b[3 + s] as int) * 256 + b[4 + s]
    ensures |b| < 5 ==> Decode(b) == Err(Truncated)
    ensures |b| >= 5 && b[0] != 1 ==> Decode(b) == Err(BadVersion)
    ensures |b| >= 5 && b[0] == 1 && |b| < 5 + s ==> Decode(b) == Err(Truncated)
    ensures |b| >= 5 + s && b[0] == 1 && |b| < 5 + s + d ==> Decode(b) == Err(Truncated)
    ensures |b| >= 5 + s + d && |b| >= 5 + s && b[0] == 1 ==> Decode(b) != Err(Truncated)
  {
  }

  /** And afterwards: the source address is looked at first. */
  lemma DecodeAddrs(b: Bytes, s: nat, d: nat, src: Bytes, dst: Bytes)
    requires |b| >= 5 + s + d && b[0] == 1
    requires s == (b[1] as int) * 256 + b[2] && d == (b[3 + s] as int) * 256 + b[4 + s]
    requires src == b[3..3 + s] && dst == b[5 + s..5 + s + d]
    ensures src == [] ==> Decode(b) == Err(EmptyAddr)
    ensures !Plain(src) ==> Decode(b) == Err(InvalidAddr)
    ensures src != [] && Plain(src) && dst == [] ==> Decode(b) == Err(EmptyAddr)
    ensures src != [] && Plain(src) && !Plain(dst) ==> Decode(b) == Err(InvalidAddr)
    ensures src != [] && Plain(src) && dst != [] && Plain(dst) ==> Decode(b) == Ok(Packet(src, dst, b[5 + s + d..]))
  {
    ValidIff(src);
    ValidIff(dst);
    hide Validate, Plain;
    TailSlice(b, 1, 0, 2);
    TailSlice(b, 1, 2, 2 + s);
    TailSlice(b, 3 + s, 0, 2);
    TailSlice(b, 3 + s, 2, 2 + d);
  }
}
