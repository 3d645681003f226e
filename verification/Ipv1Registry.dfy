/** ipv1's address registry: names chosen by their owners, and numerals handed out. The
    state is what the file holds; reading and writing it are taken to succeed. */
module Ipv1Registry {
  import opened Common
  import opened Ipv1Packet

  // ---------- numerals ----------

  const ZERO: Byte := 48

  /** strconv.Itoa. */
  function Itoa(n: nat): (s: Bytes)
    ensures s != []
  {
    if n < 10 then [ZERO + n] else Itoa(n / 10) + [ZERO + n % 10]
  }

  function Atoi(s: Bytes): int {
    if s == [] then 0 else 10 * Atoi(s[..|s| - 1]) + s[|s| - 1] - 48
  }

  lemma {:induction false} AtoiItoa(n: nat)
    ensures Atoi(Itoa(n)) == n
  {
    if n < 10 {
      assert [ZERO + n][..0] == [];
    } else {
      AtoiItoa(n / 10);
      assert Itoa(n)[..|Itoa(n)| - 1] == Itoa(n / 10);
    }
  }

  /** Decimal digits, the first of them not zero but for zero itself. */
  lemma {:induction false} ItoaDigits(n: nat)
    ensures forall b :: b in Itoa(n) ==> '0' as int <= b <= '9' as int
    ensures n > 0 ==> Itoa(n)[0] != '0' as int
    ensures Itoa(0) == ['0' as int] && Itoa(1) == ['1' as int] && Itoa(12) == ['1' as int, '2' as int]
  {
    if n >= 10 {
      ItoaDigits(n / 10);
    }
  }

  lemma ItoaInjective(m: nat, n: nat)
    requires Itoa(m) == Itoa(n)
    ensures m == n
  {
    AtoiItoa(m);
    AtoiItoa(n);
  }

  /** A numeral is a valid address. */
  lemma {:induction false} ItoaValid(n: nat)
    ensures Validate(Itoa(n)).None?
    ensures forall i :: 0 <= i < |Itoa(n)| ==> AddrChar(Itoa(n)[i])
  {
    if n >= 10 {
      ItoaValid(n / 10);
    }
  }

  // ---------- the registry ----------

  datatype State = State(addrs: map<Bytes, string>, next: nat)

  const FRESH := State(map[], 1)

  datatype RegistryError = BadAddr(why: PacketError) | EmptyEndpoint | Unknown

  /** The names in use that are numerals from `next` on. */
  ghost function Ahead(addrs: map<Bytes, string>, next: nat): set<Bytes> {
    set a | a in addrs.Keys && IsNumeralFrom(a, next)
  }

  ghost predicate IsNumeralFrom(a: Bytes, next: nat) {
    exists n: nat :: n >= next && Itoa(n) == a
  }

  lemma AheadShrinks(addrs: map<Bytes, string>, next: nat)
    requires Itoa(next) in addrs
    ensures |Ahead(addrs, next + 1)| < |Ahead(addrs, next)|
  {
    var a := Itoa(next);
    assert IsNumeralFrom(a, next);
    assert !IsNumeralFrom(a, next + 1) by {
      forall n: nat | Itoa(n) == a ensures n == next {
        ItoaInjective(n, next);
      }
    }
    forall b | b in Ahead(addrs, next + 1) ensures b in Ahead(addrs, next) - {a} {
      var n: nat :| n >= next + 1 && Itoa(n) == b;
      assert n >= next;
    }
    SmallerSet(Ahead(addrs, next + 1), Ahead(addrs, next), a);
  }

  lemma SmallerSet<T>(a: set<T>, b: set<T>, x: T)
    requires a <= b - {x} && x in b
    ensures |a| < |b|
  {
    assert b == a + (b - a);
    assert x in b - a;
  }

  /** The least number from `next` on whose numeral is free. */
  function LeastFree(addrs: map<Bytes, string>, next: nat): (n: nat)
    ensures n >= next && Itoa(n) !in addrs
    ensures forall m :: next <= m < n ==> Itoa(m) in addrs
    decreases |Ahead(addrs, next)|
  {
    if Itoa(next) in addrs then
      AheadShrinks(addrs, next);
      LeastFree(addrs, next + 1)
    else next
  }

  function RegisterStep(s: State, addr: Bytes, endpoint: string): (State, Option<RegistryError>) {
    if Validate(addr).Some? then (s, Some(BadAddr(Validate(addr).value)))
    else if endpoint == "" then (s, Some(EmptyEndpoint))
    else (s.(addrs := s.addrs[addr := endpoint]), None)
  }

  function AllocateStep(s: State, endpoint: string): (State, Result<Bytes, RegistryError>) {
    if endpoint == "" then (s, Err(EmptyEndpoint))
    else
      var n := LeastFree(s.addrs, s.next);
      (State(s.addrs[Itoa(n) := endpoint], n + 1), Ok(Itoa(n)))
  }

  function LookupOf(s: State, addr: Bytes): Result<string, RegistryError> {
    if addr in s.addrs then Ok(s.addrs[addr]) else Err(Unknown)
  }

  class Registry {
    var addrs: map<Bytes, string>
    var next: nat

    ghost function Value(): State
      reads this
    {
      State(addrs, next)
    }

    constructor ()
      ensures Value() == FRESH
    {
      addrs, next := map[], 1;
    }

    method Register(addr: Bytes, endpoint: string) returns (err: Option<RegistryError>)
      modifies this
      ensures (Value(), err) == RegisterStep(old(Value()), addr, endpoint)
    {
      var bad := ValidateAddr(addr);
      if bad.Some? {
        return Some(BadAddr(bad.value));
      }
      if endpoint == "" {
        return Some(EmptyEndpoint);
      }
      addrs := addrs[addr := endpoint];
      return None;
    }

    method Lookup(addr: Bytes) returns (r: Result<string, RegistryError>)
      ensures r == LookupOf(Value(), addr)
    {
      if addr !in addrs {
        return Err(Unknown);
      }
      return Ok(addrs[addr]);
    }

    /** The loop ends: each turn leaves one numeral in use behind. */
    method Allocate(endpoint: string) returns (r: Result<Bytes, RegistryError>)
      modifies this
      ensures (Value(), r) == AllocateStep(old(Value()), endpoint)
    {
      if endpoint == "" {
        return Err(EmptyEndpoint);
      }
      while true
        invariant addrs == old(addrs) && next >= old(next)
        invariant LeastFree(addrs, next) == LeastFree(addrs, old(next))
        decreases |Ahead(addrs, next)|
      {
        var addr := Itoa(next);
        next := next + 1;
        if addr in addrs {
          AheadShrinks(addrs, next - 1);
          continue;
        }
        addrs := addrs[addr := endpoint];
        return Ok(addr);
      }
    }
  }

  // ---------- runs ----------

  datatype Op = Register(addr: Bytes, endpoint: string) | Allocate(endpoint: string)

  /** The state after the operations, and the addresses Allocate handed out, in order. */
  function Run(ops: seq<Op>): (State, seq<Bytes>) {
    if ops == [] then (FRESH, [])
    else
      var (s, given) := Run(ops[..|ops| - 1]);
      match ops[|ops| - 1]
      case Register(addr, endpoint) => (RegisterStep(s, addr, endpoint).0, given)
      case Allocate(endpoint) =>
        var (s', r) := AllocateStep(s, endpoint);
        (s', if r.Ok? then given + [r.value] else given)
  }

  lemma {:induction false} RunKeeps(ops: seq<Op>)
    ensures var (s, given) := Run(ops);
            && (forall a :: a in given ==> a in s.addrs)
            && Distinct(given)
            && s.next >= 1
    decreases |ops|
  {
    if ops != [] {
      var (s, given) := Run(ops[..|ops| - 1]);
      RunKeeps(ops[..|ops| - 1]);
    }
  }

  /** The endpoint that the last successful call for an address bound to it, if there was one. */
  function LastBound(ops: seq<Op>, addr: Bytes): Option<string> {
    if ops == [] then None
    else
      var before := ops[..|ops| - 1];
      match ops[|ops| - 1]
      case Register(a, endpoint) =>
        if a == addr && Validate(a).None? && endpoint != "" then Some(endpoint) else LastBound(before, addr)
      case Allocate(endpoint) =>
        if AllocateStep(Run(before).0, endpoint).1 == Ok(addr) then Some(endpoint) else LastBound(before, addr)
  }

  /** Lookup answers with the endpoint bound last, by either call, and with the not-found
      error exactly for an address that no call has bound. */
  lemma {:induction false} LookupIsLastBound(ops: seq<Op>, addr: Bytes)
    ensures LookupOf(Run(ops).0, addr) ==
            if LastBound(ops, addr).Some? then Ok(LastBound(ops, addr).value) else Err(Unknown)
    decreases |ops|
  {
    if ops != [] {
      LookupIsLastBound(ops[..|ops| - 1], addr);
      hide LeastFree, Itoa, Validate;
    }
  }

  /** Over any mix of registrations and allocations, Allocate never hands out an address
      twice, and never one that was registered or handed out before. */
  lemma NeverTwice(ops: seq<Op>, endpoint: string)
    requires endpoint != ""
    ensures var (s, given) := Run(ops);
            var (s', r) := AllocateStep(s, endpoint);
            && r.Ok? && r.value !in s.addrs && r.value !in given && Distinct(given + [r.value])
            && s'.addrs == s.addrs[r.value := endpoint]
            && Validate(r.value).None?
  {
    var (s, given) := Run(ops);
    RunKeeps(ops);
    ItoaValid(LeastFree(s.addrs, s.next));
  }

  /** It hands out the least numeral not yet passed that nobody uses. */
  lemma AllocatesLeast(s: State, endpoint: string, n: nat)
    requires endpoint != "" && n >= s.next && Itoa(n) !in s.addrs
    ensures var (s', r) := AllocateStep(s, endpoint);
            exists m: nat :: r == Ok(Itoa(m)) && s.next <= m <= n && s'.next == m + 1
  {
    var m := LeastFree(s.addrs, s.next);
    assert AllocateStep(s, endpoint).1 == Ok(Itoa(m));
  }

  /** Register answers no error if and only if the address is a non-empty string of letters,
      digits and hyphens and the endpoint is not empty; then, and only then, it binds them. */
  lemma RegisterAnswers(s: State, addr: Bytes, endpoint: string)
    ensures var (s', err) := RegisterStep(s, addr, endpoint);
            var good := Plain(addr);
            && (err == None <==> addr != [] && good && endpoint != "")
            && (addr == [] ==> err == Some(BadAddr(EmptyAddr)))
            && (!good ==> err == Some(BadAddr(InvalidAddr)))
            && (addr != [] && good && endpoint == "" ==> err == Some(EmptyEndpoint))
            && s' == if err == None then State(s.addrs[addr := endpoint], s.next) else s
  {
    ValidIff(addr);
  }

  /** The first address handed out is 1, and without an endpoint none is. */
  lemma FirstIsOne(endpoint: string)
    ensures AllocateStep(FRESH, endpoint) ==
            if endpoint == "" then (FRESH, Err(EmptyEndpoint))
            else (State(map[['1' as int] := endpoint], 2), Ok(['1' as int]))
  {
    ItoaDigits(1);
  }
}
