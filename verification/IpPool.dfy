/** plate's address pool: expanding its specification, and handing addresses to VMs. An
    address is its four bytes; splitting and parsing the text is net.ParseIP's and
    net.ParseCIDR's business. */
module IpPool {
  import opened Common
  import opened IpAddress
  import opened IpCidr

  // ---------- expandCIDR ----------

  function AddressOf(v: nat): (a: Ip4)
    requires v < Pow2(32)
    ensures Value(a) == v
  {
    FromValue(v, 4)
  }

  /** The addresses with values lo to hi, in order. */
  function Range(lo: nat, hi: int): (out: seq<Ip4>)
    requires hi < Pow2(32)
    ensures |out| == if hi < lo then 0 else hi - lo + 1
    ensures forall i :: 0 <= i < |out| ==> Value(out[i]) == lo + i
    decreases hi - lo
  {
    if hi < lo then [] else Range(lo, hi - 1) + [AddressOf(hi)]
  }

  /** The values that bound the assignable addresses of a block with more than one address:
      the network and broadcast addresses count only in a /31. */
  function FirstHost(net: Ip4, ones: nat): nat {
    Value(net) + if ones <= 30 then 1 else 0
  }

  function LastHost(net: Ip4, ones: nat): int
    requires ones <= 32 && IsNetwork(net, ones)
  {
    Value(Last(net, ones)) - if ones <= 30 then 1 else 0
  }

  function Hosts(ip: Ip4, ones: nat): seq<Ip4>
    requires ones <= 32
  {
    if ones == 32 then [ip]
    else
      var net := Masked(ip, ones);
      ValueBound(Last(net, ones));
      Range(FirstHost(net, ones), LastHost(net, ones))
  }

  datatype PoolError = InvalidCIDR | Ipv6Unsupported | InvalidHost | NoHosts | EmptySpec | Exhausted

  method ExpandCIDR(ip: Ip4, ones: nat) returns (r: Result<seq<Ip4>, PoolError>)
    requires ones <= 32
    ensures r == Ok(Hosts(ip, ones))
  {
    if ones == 32 {
      return Ok([ip]);
    }
    hide Hosts, Range, Masked, Last, Value, Pow2, FirstHost, LastHost, IsNetwork;
    var start := Masked(ip, ones);
    var end := LastIP(start, ones);
    BlockShape(ip, ones);
    var out := Walk(start, end, ones);
    if |out| == 0 {
      return Err(NoHosts);
    }
    r := Ok(out);
  }

  lemma BlockShape(ip: Ip4, ones: nat)
    requires ones < 32
    ensures var net := Masked(ip, ones);
            var last := Last(net, ones);
            && Value(net) + 1 <= Value(last) < Pow2(32)
            && (ones <= 30 ==> Value(net) + 3 <= Value(last))
            && Hosts(ip, ones) == Range(FirstHost(net, ones), LastHost(net, ones)) != []
  {
    var last := Last(Masked(ip, ones), ones);
    LastValue(Masked(ip, ones), ones);
    Blocks(ones);
    ValueBound(last);
  }

  /** The loop: a cursor runs from start to end, leaving out both when told to. */
  method Walk(start: Ip4, end: array<Byte>, ones: nat) returns (out: seq<Ip4>)
    requires ones <= 32 && IsNetwork(start, ones) && end[..] == Last(start, ones)
    requires Value(start) < Value(end[..]) < Pow2(32)
    ensures out == Range(FirstHost(start, ones), LastHost(start, ones))
  {
    hide Value, Pow2, IsNetwork, Last, Range, Next;
    var skipEnds := ones <= 30;
    ghost var lo, hi := FirstHost(start, ones), Value(end[..]);
    out := [];
    var cur := new Byte[4](i requires 0 <= i < 4 => start[i]);
    assert cur[..] == start;
    RangeEmpty(lo);
    while true
      invariant fresh(cur) && cur != end && end[..] == old(end[..])
      invariant Value(start) <= Value(cur[..]) <= hi
      invariant out == Range(lo, Value(cur[..]) - 1)
      decreases hi - Value(cur[..])
    {
      SameAddress(cur[..], start);
      SameAddress(cur[..], end[..]);
      var atStart, atEnd := cur[..] == start, cur[..] == end[..];
      if skipEnds && atStart {
        if atEnd {
          break;
        }
        NextInBlock(cur[..], end[..]);
        IncIP(cur);
        continue;
      }
      if skipEnds && atEnd {
        break;
      }
      RangeSnoc(lo, cur[..]);
      out := out + [cur[..]];
      if atEnd {
        break;
      }
      NextInBlock(cur[..], end[..]);
      IncIP(cur);
    }
  }

  lemma SameAddress(a: Bytes, b: Bytes)
    requires |a| == |b|
    ensures a == b <==> Value(a) == Value(b)
  {
    if Value(a) == Value(b) {
      ValueInjective(a, b);
    }
  }

  lemma RangeEmpty(lo: nat)
    ensures forall hi {:trigger Range(lo, hi)} :: hi < lo && hi < Pow2(32) ==> Range(lo, hi) == []
  {
  }

  lemma NextInBlock(cur: Bytes, last: Bytes)
    requires |cur| == |last| && Value(cur) < Value(last)
    ensures Value(Next(cur)) == Value(cur) + 1
  {
    NextValue(cur);
    ValueBound(last);
  }

  lemma RangeSnoc(lo: nat, cur: Ip4)
    requires lo <= Value(cur)
    ensures Value(cur) < Pow2(32) && Range(lo, Value(cur)) == Range(lo, Value(cur) - 1) + [cur]
  {
    ValueBound(cur);
    SameAddress(AddressOf(Value(cur)), cur);
  }

  /** Blocks of up to 30 ones have addresses besides their ends. */
  lemma Blocks(ones: nat)
    requires ones < 32
    ensures BlockSize(ones) >= 2 && (ones <= 30 ==> BlockSize(ones) >= 4)
  {
    if ones <= 30 {
      Pow2Adds(2, 30 - ones);
      MulLe(1, Pow2(30 - ones), 4);
    } else {
      assert Pow2(1) == 2;
    }
  }

  /** What the expansion of a block contains, in the source's terms: the addresses with the
      block's prefix, without the network and broadcast address when there are more than two. */
  lemma HostsIff(ip: Ip4, ones: nat, hosts: seq<Ip4>, net: Ip4, last: Ip4, a: Ip4)
    requires ones <= 32 && hosts == Hosts(ip, ones) && net == Masked(ip, ones) && last == Last(net, ones)
    ensures a in hosts <==> Masked(a, ones) == net && (ones <= 30 ==> a != net && a != last)
  {
    BlockIff(a, net, ones, Masked(a, ones), last);
    SameAddress(a, net);
    SameAddress(a, last);
    ValueBound(a);
    ValueBound(last);
    if ones == 32 {
      WholeAddress(a);
      WholeAddress(ip);
    } else {
      var lo, hi := FirstHost(net, ones), LastHost(net, ones);
      if lo <= Value(a) <= hi {
        SameAddress(hosts[Value(a) - lo], a);
      }
    }
  }

  lemma WholeAddress(a: Ip4)
    ensures Masked(a, 32) == a
  {
  }

  /** In increasing order, without repeats, and as many as the prefix leaves. */
  lemma HostsOrdered(ip: Ip4, ones: nat, hosts: seq<Ip4>)
    requires ones <= 32 && hosts == Hosts(ip, ones)
    ensures forall i, j :: 0 <= i < j < |hosts| ==> Value(hosts[i]) < Value(hosts[j])
    ensures |hosts| == if ones == 32 then 1 else if ones == 31 then 2 else BlockSize(ones) - 2
  {
    var net := Masked(ip, ones);
    LastValue(net, ones);
    if ones < 32 {
      Blocks(ones);
      assert Pow2(1) == 2;
    }
  }

  // ---------- parsePoolSpec ----------

  /** One comma-separated part after trimming, as the standard library understands it. */
  datatype Part =
    | Blank
    | Host(addr: Ip4)
    | BadHost
    | Cidr(ip: Ip4, ones: nat)
    | BadCidr
    | Cidr6

  predicate PartOk(p: Part) {
    p.Cidr? ==> p.ones <= 32
  }

  function ExpandPart(p: Part): Result<seq<Ip4>, PoolError>
    requires PartOk(p)
  {
    match p
    case Blank => Ok([])
    case Host(addr) => Ok([addr])
    case BadHost => Err(InvalidHost)
    case Cidr(ip, ones) => Ok(Hosts(ip, ones))
    case BadCidr => Err(InvalidCIDR)
    case Cidr6 => Err(Ipv6Unsupported)
  }

  /** Everything the parts expand to, with repetitions, up to the first part in error. */
  function Expanded(parts: seq<Part>): (all: Result<seq<Ip4>, PoolError>)
    requires forall p :: p in parts ==> PartOk(p)
  {
    if parts == [] then Ok([])
    else
      var p := parts[|parts| - 1];
      match Expanded(parts[..|parts| - 1])
      case Err(e) => Err(e)
      case Ok(before) =>
        match ExpandPart(p)
        case Err(e) => Err(e)
        case Ok(ips) => Ok(before + ips)
  }

  /** Each element where it first occurs. */
  function Firsts<T(==,!new)>(xs: seq<T>): (out: seq<T>)
    ensures forall x :: x in out <==> x in xs
    ensures Distinct(out)
    ensures out == [] <==> xs == []
  {
    if xs == [] then []
    else
      var before, last := Firsts(xs[..|xs| - 1]), xs[|xs| - 1];
      if last in before then before else before + [last]
  }

  method ParsePoolSpec(parts: seq<Part>) returns (r: Result<seq<Ip4>, PoolError>)
    requires forall p :: p in parts ==> PartOk(p)
    ensures match Expanded(parts)
            case Err(e) => r == Err(e)
            case Ok(all) => r == if all == [] then Err(EmptySpec) else Ok(Firsts(all))
  {
    var out: seq<Ip4> := [];
    var seen: set<Ip4> := {};
    ghost var all: seq<Ip4> := [];
    for i := 0 to |parts|
      invariant Expanded(parts[..i]) == Ok(all)
      invariant out == Firsts(all) && forall x :: x in seen <==> x in out
    {
      var p := parts[i];
      assert PartOk(p);
      ExpandedMore(parts, i, all);
      hide Expanded, Hosts, Firsts;
      var ips: seq<Ip4> := [];
      match p {
        case Blank =>
        case Host(addr) =>
          ips := [addr];
        case Cidr(ip, ones) =>
          var e := ExpandCIDR(ip, ones);
          ips := e.value;
        case BadHost =>
          return Err(InvalidHost);
        case BadCidr =>
          return Err(InvalidCIDR);
        case Cidr6 =>
          return Err(Ipv6Unsupported);
      }
      out, seen := AddNew(all, ips, out, seen);
      all := all + ips;
    }
    assert parts[..|parts|] == parts;
    if |out| == 0 {
      return Err(EmptySpec);
    }
    r := Ok(out);
  }

  /** The inner loop: addresses not seen yet are added. */
  method AddNew(ghost all: seq<Ip4>, ips: seq<Ip4>, out: seq<Ip4>, seen: set<Ip4>)
    returns (out': seq<Ip4>, seen': set<Ip4>)
    requires out == Firsts(all) && forall x :: x in seen <==> x in out
    ensures out' == Firsts(all + ips) && forall x :: x in seen' <==> x in out'
  {
    out', seen' := out, seen;
    assert all + ips[..0] == all;
    hide Firsts;
    for k := 0 to |ips|
      invariant out' == Firsts(all + ips[..k])
      invariant forall x :: x in seen' <==> x in out'
    {
      assert all + ips[..k + 1] == all + ips[..k] + [ips[k]];
      FirstsMore(all + ips[..k], ips[k]);
      if ips[k] !in seen' {
        seen' := seen' + {ips[k]};
        out' := out' + [ips[k]];
      }
    }
    assert ips[..|ips|] == ips;
  }

  lemma FirstsMore<T(!new)>(xs: seq<T>, x: T)
    ensures Firsts(xs + [x]) == if x in Firsts(xs) then Firsts(xs) else Firsts(xs) + [x]
  {
    assert (xs + [x])[..|xs|] == xs;
  }

  /** One more part, in error or not. */
  lemma ExpandedMore(parts: seq<Part>, i: nat, all: seq<Ip4>)
    requires (forall p :: p in parts ==> PartOk(p)) && i < |parts| && Expanded(parts[..i]) == Ok(all)
    ensures ExpandPart(parts[i]).Ok? ==> Expanded(parts[..i + 1]) == Ok(all + ExpandPart(parts[i]).value)
    ensures ExpandPart(parts[i]).Err? ==> Expanded(parts) == Err(ExpandPart(parts[i]).error)
  {
    assert parts[..i + 1][..i] == parts[..i] && parts[..i + 1][i] == parts[i];
    if ExpandPart(parts[i]).Err? {
      ExpandedFails(parts, i, ExpandPart(parts[i]).error);
    }
  }

  /** One part in error fails the whole specification. */
  lemma {:induction false} ExpandedFails(parts: seq<Part>, i: nat, e: PoolError)
    requires (forall p :: p in parts ==> PartOk(p)) && i < |parts|
    requires Expanded(parts[..i]).Ok? && ExpandPart(parts[i]) == Err(e)
    ensures Expanded(parts) == Err(e)
    decreases |parts|
  {
    var shorter := parts[..|parts| - 1];
    if i < |shorter| {
      assert shorter[..i] == parts[..i];
      ExpandedFails(shorter, i, e);
    }
  }

  function FirstIndex<T(==)>(xs: seq<T>, x: T): (i: nat)
    requires x in xs
    ensures i < |xs| && xs[i] == x && forall j :: 0 <= j < i ==> xs[j] != x
  {
    if xs[0] == x then 0 else 1 + FirstIndex(xs[1..], x)
  }

  /** The pool lists its addresses in the order in which they first occur. */
  lemma {:induction false} FirstsInOrder<T(!new)>(xs: seq<T>, i: nat, j: nat)
    requires i < j < |Firsts(xs)|
    ensures Firsts(xs)[i] in xs && Firsts(xs)[j] in xs
    ensures FirstIndex(xs, Firsts(xs)[i]) < FirstIndex(xs, Firsts(xs)[j])
    decreases |xs|
  {
    var out := Firsts(xs);
    assert out[i] in out && out[j] in out;
    var shorter := xs[..|xs| - 1];
    var before := Firsts(shorter);
    IndexKept(xs, out[i]);
    if j < |before| {
      FirstsInOrder(shorter, i, j);
      assert before[i] in before && before[j] in before;
      IndexKept(xs, out[j]);
    } else {
      assert before[i] in before && out[j] !in before;
      assert forall k :: 0 <= k < |shorter| ==> xs[k] == shorter[k] && shorter[k] in before;
    }
  }

  lemma IndexKept<T>(xs: seq<T>, x: T)
    requires xs != [] && x in xs[..|xs| - 1]
    ensures x in xs && FirstIndex(xs, x) == FirstIndex(xs[..|xs| - 1], x)
  {
    var i := FirstIndex(xs[..|xs| - 1], x);
    assert xs[i] == x;
    assert forall k :: 0 <= k < i ==> xs[k] == xs[..|xs| - 1][k];
  }

  // ---------- the pool in terms of its parts ----------

  predicate Good(p: Part) {
    p.Blank? || p.Host? || p.Cidr?
  }

  /** The addresses a part stands for: a host, or those with the prefix of a block, without
      its two ends when it has more than two. */
  ghost predicate StandsFor(p: Part, a: Ip4)
    requires PartOk(p)
  {
    match p
    case Host(b) => a == b
    case Cidr(ip, ones) =>
      var net := Masked(ip, ones);
      Masked(a, ones) == net && (ones <= 30 ==> a != net && a != Last(net, ones))
    case _ => false
  }

  lemma ExpandsTo(p: Part, a: Ip4)
    requires PartOk(p) && Good(p)
    ensures ExpandPart(p).Ok? && (a in ExpandPart(p).value <==> StandsFor(p, a))
  {
    match p
    case Cidr(ip, ones) =>
      var net := Masked(ip, ones);
      HostsIff(ip, ones, Hosts(ip, ones), net, Last(net, ones), a);
    case _ =>
  }

  ghost predicate SomeStands(parts: seq<Part>, a: Ip4) {
    exists p :: p in parts && PartOk(p) && StandsFor(p, a)
  }

  lemma SomeMore(parts: seq<Part>, front: seq<Part>, last: Part, a: Ip4)
    requires parts == front + [last] && PartOk(last)
    ensures SomeStands(parts, a) <==> SomeStands(front, a) || StandsFor(last, a)
  {
    hide StandsFor, PartOk;
    assert forall p :: p in parts <==> p in front || p == last;
  }

  ghost predicate AllGood(parts: seq<Part>) {
    forall p :: p in parts ==> PartOk(p) && Good(p)
  }

  lemma AllGoodLast(parts: seq<Part>)
    requires AllGood(parts) && parts != []
    ensures var front, last := parts[..|parts| - 1], parts[|parts| - 1];
            AllGood(front) && PartOk(last) && Good(last) && parts == front + [last]
  {
  }

  /** A specification without a bad part holds exactly the addresses its parts stand for. */
  lemma {:induction false} ExpandedIff(parts: seq<Part>, a: Ip4)
    requires AllGood(parts)
    ensures Expanded(parts).Ok?
    ensures a in Expanded(parts).value <==> SomeStands(parts, a)
    decreases |parts|
  {
    if parts != [] {
      AllGoodLast(parts);
      var front, last := parts[..|parts| - 1], parts[|parts| - 1];
      hide StandsFor, ExpandPart, Good, PartOk, SomeStands, Expanded;
      ExpandedIff(front, a);
      ExpandsTo(last, a);
      ExpandedLast(parts, front, last);
      SomeMore(parts, front, last, a);
    }
  }

  lemma ExpandedLast(parts: seq<Part>, front: seq<Part>, last: Part)
    requires (forall p :: p in parts ==> PartOk(p)) && PartOk(last)
    requires parts != [] && front == parts[..|parts| - 1] && last == parts[|parts| - 1]
    requires Expanded(front).Ok? && ExpandPart(last).Ok?
    ensures Expanded(parts) == Ok(Expanded(front).value + ExpandPart(last).value)
  {
  }

  /** The first bad part decides the error. */
  lemma FirstBad(parts: seq<Part>, i: nat)
    requires (forall p :: p in parts ==> PartOk(p)) && i < |parts|
    requires forall j :: 0 <= j < i ==> Good(parts[j])
    ensures parts[i].BadHost? ==> Expanded(parts) == Err(InvalidHost)
    ensures parts[i].BadCidr? ==> Expanded(parts) == Err(InvalidCIDR)
    ensures parts[i].Cidr6? ==> Expanded(parts) == Err(Ipv6Unsupported)
  {
    ExpandedIff(parts[..i], [0, 0, 0, 0]);
    if !Good(parts[i]) {
      ExpandedFails(parts, i, ExpandPart(parts[i]).error);
    }
  }

  /** A list of distinct single hosts is the pool of exactly those, in that order. */
  lemma {:induction false} SingleHosts(parts: seq<Part>, addrs: seq<Ip4>)
    requires |parts| == |addrs| && forall i :: 0 <= i < |parts| ==> parts[i] == Host(addrs[i])
    ensures (forall p :: p in parts ==> PartOk(p)) && Expanded(parts) == Ok(addrs)
    ensures Distinct(addrs) ==> Firsts(addrs) == addrs
    decreases |parts|
  {
    if Distinct(addrs) {
      DistinctStays(addrs);
    }
    hide Firsts, Distinct;
    if parts != [] {
      var m := |parts| - 1;
      SingleHosts(parts[..m], addrs[..m]);
      ExpandedLast(parts, parts[..m], parts[m]);
      assert addrs == addrs[..m] + [addrs[m]];
    }
  }

  lemma {:induction false} DistinctStays<T(!new)>(xs: seq<T>)
    requires Distinct(xs)
    ensures Firsts(xs) == xs
    decreases |xs|
  {
    if xs != [] {
      var front, last := xs[..|xs| - 1], xs[|xs| - 1];
      DistinctStays(front);
      FirstsMore(front, last);
      assert xs == front + [last];
    }
  }
}
