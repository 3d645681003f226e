/** plate's CIDR blocks of IPv4 addresses, with prefix masks applied bit by bit to each byte. */
module IpCidr {
  import opened Common
  import opened IpAddress

  // ---------- bits of a byte ----------

  function And(a: nat, b: nat): nat {
    if a == 0 || b == 0 then 0
    else 2 * And(a / 2, b / 2) + if a % 2 == 1 && b % 2 == 1 then 1 else 0
  }

  function Or(a: nat, b: nat): nat {
    if a == 0 then b else if b == 0 then a
    else 2 * Or(a / 2, b / 2) + if a % 2 == 1 || b % 2 == 1 then 1 else 0
  }

  /** Two to the power j. */
  function Unit(j: nat): nat
    requires j <= 8
  {
    if j == 0 then 1 else if j == 1 then 2 else if j == 2 then 4 else if j == 3 then 8 else if j == 4 then 16
    else if j == 5 then 32 else if j == 6 then 64 else if j == 7 then 128 else 256
  }

  lemma {:induction false} UnitIsPow2(j: nat)
    requires j <= 8
    ensures Unit(j) == Pow2(j)
  {
    if j > 0 {
      UnitIsPow2(j - 1);
    }
  }

  /** The last j bits of x. */
  lemma LowBits(x: nat, j: nat)
    requires j > 0
    ensures x % Pow2(j) == 2 * (x / 2 % Pow2(j - 1)) + x % 2
  {
    var half := Pow2(j - 1);
    var q, m := x / 2 / half, x / 2 % half;
    DivParts(x / 2, half);
    assert x == 2 * (q * half + m) + x % 2;
    assert x == q * Pow2(j) + (2 * m + x % 2) by {
      assert 2 * (q * half) == q * (2 * half);
    }
    DivParts(x, Pow2(j));
    SameParts(q, 2 * m + x % 2, x / Pow2(j), x % Pow2(j), Pow2(j));
  }

  /** Ones from bit j up to bit w keep everything but the last j bits. */
  lemma {:induction false} AndHigh(x: nat, w: nat, j: nat)
    requires x < Pow2(w) && j <= w
    ensures Pow2(w) >= Pow2(j) && And(x, Pow2(w) - Pow2(j)) == x - x % Pow2(j)
    decreases w
  {
    if j == w {
      DivParts(x, Pow2(w));
      SameParts(0, x, x / Pow2(w), x % Pow2(w), Pow2(w));
    } else if j > 0 {
      AndHigh(x / 2, w - 1, j - 1);
      LowBits(x, j);
      var mask := Pow2(w) - Pow2(j);
      assert mask / 2 == Pow2(w - 1) - Pow2(j - 1) && mask % 2 == 0;
    } else {
      AndOnes(x, w);
    }
  }

  lemma {:induction false} AndOnes(x: nat, w: nat)
    requires x < Pow2(w)
    ensures And(x, Pow2(w) - 1) == x
  {
    if w > 0 {
      AndOnes(x / 2, w - 1);
      assert (Pow2(w) - 1) / 2 == Pow2(w - 1) - 1;
    }
  }

  /** Ones in the last j bits fill them, when they are zero. */
  lemma {:induction false} OrLow(x: nat, j: nat)
    requires x % Pow2(j) == 0
    ensures Or(x, Pow2(j) - 1) == x + Pow2(j) - 1
    decreases j
  {
    if j > 0 {
      LowBits(x, j);
      OrLow(x / 2, j - 1);
      assert (Pow2(j) - 1) / 2 == Pow2(j - 1) - 1;
    }
  }

  // ---------- masks ----------

  type Ip4 = ip: Bytes | |ip| == 4 witness [0, 0, 0, 0]

  /** How many of the p leading ones of a mask fall into its i-th byte. */
  function OnesIn(p: nat, i: nat): (k: nat)
    requires p <= 32 && i < 4
    ensures k <= 8
  {
    if p <= 8 * i then 0 else if p - 8 * i < 8 then p - 8 * i else 8
  }

  function MaskByte(p: nat, i: nat): Byte
    requires p <= 32 && i < 4
  {
    256 - Unit(8 - OnesIn(p, i))
  }

  lemma AndByte(b: Byte, k: nat)
    requires k <= 8
    ensures And(b, 256 - Unit(8 - k)) == b - b % Unit(8 - k)
  {
    UnitIsPow2(8);
    UnitIsPow2(8 - k);
    AndHigh(b, 8, 8 - k);
  }

  lemma OrByte(b: Byte, k: nat)
    requires k <= 8 && b % Unit(8 - k) == 0
    ensures Or(b, Unit(8 - k) - 1) == b + Unit(8 - k) - 1 <= 255
  {
    UnitIsPow2(8 - k);
    OrLow(b, 8 - k);
    RoundedFits(b, 8 - k);
  }

  lemma RoundedFits(b: Byte, j: nat)
    requires j <= 8 && b % Unit(j) == 0
    ensures b + Unit(j) <= 256
  {
  }

  lemma RoundedDown(b: Byte, j: nat)
    requires j <= 8
    ensures (b - b % Unit(j)) % Unit(j) == 0
  {
  }

  /** The i-th byte with the bits outside the mask cleared. */
  function Clear(b: Byte, p: nat, i: nat): (r: Byte)
    requires p <= 32 && i < 4
    ensures r == b - b % Unit(8 - OnesIn(p, i))
  {
    AndByte(b, OnesIn(p, i));
    And(b, MaskByte(p, i))
  }

  /** The i-th byte with them set; they are clear before. */
  function Fill(b: Byte, p: nat, i: nat): (r: Byte)
    requires p <= 32 && i < 4 && b % Unit(8 - OnesIn(p, i)) == 0
    ensures r == b + Unit(8 - OnesIn(p, i)) - 1
  {
    OrByte(b, OnesIn(p, i));
    Or(b, 255 - MaskByte(p, i))
  }

  /** IP.Mask, which net.ParseCIDR applies to get the network address. */
  function Masked(ip: Ip4, p: nat): (r: Ip4)
    requires p <= 32
    ensures IsNetwork(r, p)
  {
    RoundedDown(ip[0], 8 - OnesIn(p, 0));
    RoundedDown(ip[1], 8 - OnesIn(p, 1));
    RoundedDown(ip[2], 8 - OnesIn(p, 2));
    RoundedDown(ip[3], 8 - OnesIn(p, 3));
    [Clear(ip[0], p, 0), Clear(ip[1], p, 1), Clear(ip[2], p, 2), Clear(ip[3], p, 3)]
  }

  /** Every bit outside the mask is zero. */
  predicate IsNetwork(net: Ip4, p: nat)
    requires p <= 32
  {
    forall i :: 0 <= i < 4 ==> net[i] % Unit(8 - OnesIn(p, i)) == 0
  }

  /** The broadcast address: every bit outside the mask is one. */
  function Last(net: Ip4, p: nat): (r: Ip4)
    requires p <= 32 && IsNetwork(net, p)
  {
    [Fill(net[0], p, 0), Fill(net[1], p, 1), Fill(net[2], p, 2), Fill(net[3], p, 3)]
  }

  method LastIP(net: Ip4, p: nat) returns (ip: array<Byte>)
    requires p <= 32 && IsNetwork(net, p)
    ensures fresh(ip) && ip[..] == Last(net, p)
  {
    ip := new Byte[4](i requires 0 <= i < 4 => net[i]);
    for i := 0 to 4
      invariant forall j :: 0 <= j < i ==> ip[j] == Last(net, p)[j]
      invariant forall j :: i <= j < 4 ==> ip[j] == net[j]
    {
      OrByte(net[i], OnesIn(p, i));
      ip[i] := Or(ip[i], 255 - MaskByte(p, i));
    }
  }

  // ---------- what masks mean ----------

  /** The number of addresses with the same first p bits, 2^(32-p). */
  function BlockSize(p: nat): nat
    requires p <= 32
  {
    Pow2(32 - p)
  }

  lemma Powers()
    ensures Pow2(8) == 0x100 && Pow2(16) == 0x1_0000 && Pow2(24) == 0x100_0000 && Pow2(32) == 0x1_0000_0000
  {
    UnitIsPow2(8);
    Pow2Adds(8, 8);
    Pow2Adds(8, 16);
    Pow2Adds(16, 16);
  }

  lemma Value4(ip: Ip4)
    ensures Value(ip) == (ip[0] as int) * 0x100_0000 + (ip[1] as int) * 0x1_0000 + (ip[2] as int) * 0x100 + ip[3]
  {
    Powers();
    assert ip[1..][1..] == ip[2..] && ip[2..][1..] == ip[3..] && ip[3..][1..] == [];
    assert Value(ip[3..]) == ip[3] * Pow2(0) + Value([]);
    assert Value(ip[2..]) == ip[2] * Pow2(8) + Value(ip[3..]);
    assert Value(ip[1..]) == ip[1] * Pow2(16) + Value(ip[2..]);
  }

  /** The free bits of the four bytes, all set, count up to the block size minus one. */
  lemma FreeBits(p: nat)
    requires p <= 32
    ensures (Unit(8 - OnesIn(p, 0)) - 1) * 0x100_0000 + (Unit(8 - OnesIn(p, 1)) - 1) * 0x1_0000
            + (Unit(8 - OnesIn(p, 2)) - 1) * 0x100 + (Unit(8 - OnesIn(p, 3)) - 1) == BlockSize(p) - 1
  {
    Powers();
    if p <= 8 {
      UnitIsPow2(8 - p);
      Pow2Adds(8 - p, 24);
      assert 8 - p + 24 == 32 - p;
    } else if p <= 16 {
      UnitIsPow2(16 - p);
      Pow2Adds(16 - p, 16);
      assert 16 - p + 16 == 32 - p;
    } else if p <= 24 {
      UnitIsPow2(24 - p);
      Pow2Adds(24 - p, 8);
      assert 24 - p + 8 == 32 - p;
    } else {
      UnitIsPow2(32 - p);
    }
  }

  /** The broadcast address is the last of the block. */
  lemma LastValue(net: Ip4, p: nat)
    requires p <= 32 && IsNetwork(net, p)
    ensures Value(Last(net, p)) == Value(net) + BlockSize(p) - 1
  {
    Value4(net);
    Value4(Last(net, p));
    FreeBits(p);
    hide Unit, Pow2, Value, And, Or;
  }

  lemma MaskedBelow(ip: Ip4, p: nat)
    requires p <= 32
    ensures Value(Masked(ip, p)) <= Value(ip) < Value(Masked(ip, p)) + BlockSize(p)
  {
    Value4(ip);
    Value4(Masked(ip, p));
    FreeBits(p);
    UnitsPositive(p);
    hide Unit, Pow2, Value, And, Or;
    ModBelow(ip[0], Unit(8 - OnesIn(p, 0)));
    ModBelow(ip[1], Unit(8 - OnesIn(p, 1)));
    ModBelow(ip[2], Unit(8 - OnesIn(p, 2)));
    ModBelow(ip[3], Unit(8 - OnesIn(p, 3)));
  }

  lemma ModBelow(b: nat, unit: nat)
    requires unit >= 1
    ensures 0 <= b % unit <= unit - 1
  {
  }

  lemma UnitsPositive(p: nat)
    requires p <= 32
    ensures forall i :: 0 <= i < 4 ==> Unit(8 - OnesIn(p, i)) >= 1
  {
  }

  /** Rounded bytes are a whole unit apart. */
  lemma RoundedApart(a: Byte, b: Byte, k: nat)
    requires k <= 8 && a < b && a % Unit(8 - k) == 0 && b % Unit(8 - k) == 0
    ensures a + Unit(8 - k) <= b
  {
  }

  /** Blocks of one prefix length do not overlap. */
  lemma BlocksApart(m: Ip4, n: Ip4, p: nat)
    requires p <= 32 && IsNetwork(m, p) && IsNetwork(n, p) && Value(m) < Value(n)
    ensures Value(Last(m, p)) < Value(n)
  {
    Value4(m);
    Value4(n);
    Value4(Last(m, p));
    hide And, Or, Value, Pow2;
    if m[0] != n[0] {
      RoundedApart(m[0], n[0], OnesIn(p, 0));
      hide Unit, OnesIn;
    } else if m[1] != n[1] {
      SameFull(m[1], n[1], p, 1);
      RoundedApart(m[1], n[1], OnesIn(p, 1));
    } else if m[2] != n[2] {
      SameFull(m[2], n[2], p, 2);
      RoundedApart(m[2], n[2], OnesIn(p, 2));
    } else {
      SameFull(m[3], n[3], p, 3);
      RoundedApart(m[3], n[3], OnesIn(p, 3));
    }
  }

  /** Where two networks differ the mask has ones, so the bytes before are all mask. */
  lemma SameFull(a: Byte, b: Byte, p: nat, i: nat)
    requires p <= 32 && i < 4 && a < b
    requires a % Unit(8 - OnesIn(p, i)) == 0 && b % Unit(8 - OnesIn(p, i)) == 0
    ensures forall j :: 0 <= j < i ==> OnesIn(p, j) == 8
  {
  }

  /** The addresses with the network's prefix are those from the network address to the
      broadcast address. */
  lemma BlockIff(ip: Ip4, net: Ip4, p: nat, m: Ip4, last: Ip4)
    requires p <= 32 && IsNetwork(net, p) && m == Masked(ip, p) && last == Last(net, p)
    ensures m == net <==> Value(net) <= Value(ip) <= Value(last)
  {
    MaskedBelow(ip, p);
    LastValue(net, p);
    LastValue(m, p);
    if m != net && Value(net) <= Value(ip) <= Value(last) {
      if Value(m) < Value(net) {
        BlocksApart(m, net, p);
      } else if Value(net) < Value(m) {
        BlocksApart(net, m, p);
      } else {
        ValueInjective(m, net);
      }
    }
  }
}
