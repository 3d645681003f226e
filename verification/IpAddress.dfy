/** plate's address arithmetic: an address is its bytes, most significant first, and the
    code works on them one byte at a time. */
module IpAddress {
  import opened Common

  // ---------- values ----------

  function Pow2(n: nat): (r: nat)
    ensures r >= 1
  {
    if n == 0 then 1 else 2 * Pow2(n - 1)
  }

  lemma {:induction false} Pow2Adds(a: nat, b: nat)
    ensures Pow2(a + b) == Pow2(a) * Pow2(b)
  {
    if a > 0 {
      Pow2Adds(a - 1, b);
      assert Pow2(a + b) == 2 * Pow2(a - 1 + b);
    }
  }

  lemma Pow2Byte()
    ensures Pow2(8) == 256
  {
    assert Pow2(4) == 16;
    Pow2Adds(4, 4);
  }

  function Value(ip: Bytes): nat {
    if ip == [] then 0 else ip[0] * Pow2(8 * (|ip| - 1)) + Value(ip[1..])
  }

  lemma {:induction false} ValueBound(ip: Bytes)
    ensures Value(ip) < Pow2(8 * |ip|)
  {
    if ip != [] {
      var rest := Pow2(8 * (|ip| - 1));
      ValueBound(ip[1..]);
      Pow2Byte();
      Pow2Adds(8, 8 * (|ip| - 1));
      assert ip[0] * rest <= 255 * rest by { MulLe(ip[0], 255, rest); }
    }
  }

  /** Different addresses of one length have different values. */
  lemma {:induction false} ValueInjective(a: Bytes, b: Bytes)
    requires |a| == |b| && Value(a) == Value(b)
    ensures a == b
  {
    if a != [] {
      var unit := Pow2(8 * (|a| - 1));
      ValueBound(a[1..]);
      ValueBound(b[1..]);
      hide Pow2;
      SameParts(a[0], Value(a[1..]), b[0], Value(b[1..]), unit);
      ValueInjective(a[1..], b[1..]);
      assert a == [a[0]] + a[1..] && b == [b[0]] + b[1..];
    }
  }

  /** The address of a given value and length. */
  function FromValue(v: nat, n: nat): (ip: Bytes)
    requires v < Pow2(8 * n)
    ensures |ip| == n && Value(ip) == v
  {
    if n == 0 then []
    else
      var unit := Pow2(8 * (n - 1));
      FirstByte(v, n);
      DivParts(v, unit);
      var rest := FromValue(v % unit, n - 1);
      assert ([v / unit] + rest)[1..] == rest;
      [v / unit] + rest
  }

  lemma FirstByte(v: nat, n: nat)
    requires n > 0 && v < Pow2(8 * n)
    ensures v / Pow2(8 * (n - 1)) < 256
  {
    var unit := Pow2(8 * (n - 1));
    Pow2Byte();
    Pow2Adds(8, 8 * (n - 1));
    DivParts(v, unit);
    if v / unit >= 256 {
      MulLe(256, v / unit, unit);
    }
  }

  lemma DivParts(v: nat, unit: nat)
    requires unit >= 1
    ensures v == v / unit * unit + v % unit && 0 <= v % unit < unit && v / unit >= 0
  {
  }

  // ---------- incIP ----------

  function Next(ip: Bytes): (r: Bytes)
    ensures |r| == |ip|
  {
    if ip == [] then []
    else
      var n := |ip| - 1;
      if ip[n] < 255 then ip[..n] + [ip[n] + 1] else Next(ip[..n]) + [0]
  }

  /** The last byte below 255 goes up by one and those after it turn to zero. */
  lemma {:induction false} NextCarry(ip: Bytes, j: int, r: Bytes)
    requires -1 <= j < |ip| == |r|
    requires forall k :: j < k < |ip| ==> ip[k] == 255 && r[k] == 0
    requires j >= 0 ==> ip[j] < 255 && r[j] == ip[j] + 1
    requires forall k :: 0 <= k < j ==> r[k] == ip[k]
    ensures Next(ip) == r
    decreases |ip|
  {
    if ip != [] {
      var n := |ip| - 1;
      assert r == r[..n] + [r[n]];
      if j < n {
        NextCarry(ip[..n], j, r[..n]);
      } else {
        assert r[..n] == ip[..n];
      }
    }
  }

  method IncIP(ip: array<Byte>)
    modifies ip
    ensures ip[..] == Next(old(ip[..]))
  {
    var j := ip.Length - 1;
    while j >= 0
      invariant -1 <= j < ip.Length
      invariant forall k :: j < k < ip.Length ==> old(ip[k]) == 255 && ip[k] == 0
      invariant forall k :: 0 <= k <= j ==> ip[k] == old(ip[k])
    {
      ip[j] := if ip[j] == 255 then 0 else ip[j] + 1;
      if ip[j] != 0 {
        NextCarry(old(ip[..]), j, ip[..]);
        return;
      }
      j := j - 1;
    }
    NextCarry(old(ip[..]), -1, ip[..]);
  }

  lemma {:induction false} ValueSnoc(ip: Bytes, last: Byte)
    ensures Value(ip + [last]) == Value(ip) * 256 + last
  {
    if ip == [] {
      assert [last][1..] == [];
      assert ip + [last] == [last];
    } else {
      var unit := Pow2(8 * (|ip| - 1));
      assert (ip + [last])[1..] == ip[1..] + [last];
      ValueSnoc(ip[1..], last);
      Pow2Byte();
      Pow2Adds(8, 8 * (|ip| - 1));
      assert 8 + 8 * (|ip| - 1) == 8 * |ip|;
      assert ip[0] * (256 * unit) == ip[0] * unit * 256;
    }
  }

  /** The byte-by-byte carry adds one, wrapping at the end of the address space. */
  lemma {:induction false} NextValue(ip: Bytes)
    ensures Value(Next(ip)) == if Value(ip) + 1 < Pow2(8 * |ip|) then Value(ip) + 1 else 0
  {
    if ip != [] {
      var n := |ip| - 1;
      assert ip == ip[..n] + [ip[n]];
      ValueSnoc(ip[..n], ip[n]);
      Pow2Byte();
      Pow2Adds(8, 8 * n);
      ValueBound(ip[..n]);
      if ip[n] < 255 {
        ValueSnoc(ip[..n], ip[n] + 1);
      } else {
        NextValue(ip[..n]);
        ValueSnoc(Next(ip[..n]), 0);
      }
    }
  }
}
