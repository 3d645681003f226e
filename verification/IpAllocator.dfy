/** plate's pool file: which VM holds which address. */
module IpAllocator {
  import opened Common
  import opened IpCidr
  import opened IpPool

  type Assignment = map<string, Ip4>

  function FirstFree(pool: seq<Ip4>, used: set<Ip4>): Option<Ip4> {
    if pool == [] then None
    else if pool[0] !in used then Some(pool[0])
    else FirstFree(pool[1..], used)
  }

  function AssignStep(pool: seq<Ip4>, held: Assignment, id: string): (Assignment, Result<Ip4, PoolError>) {
    if id in held then (held, Ok(held[id]))
    else
      match FirstFree(pool, held.Values)
      case None => (held, Err(Exhausted))
      case Some(ip) => (held[id := ip], Ok(ip))
  }

  datatype Status = Status(pool: seq<Ip4>, held: Assignment, total: nat, used: nat, free: int)

  class Pool {
    var pool: seq<Ip4>
    var held: Assignment

    constructor (pool: seq<Ip4>)
      ensures this.pool == pool && held == map[]
    {
      this.pool, held := pool, map[];
    }

    method Assign(id: string) returns (r: Result<Ip4, PoolError>)
      modifies this
      ensures pool == old(pool)
      ensures (held, r) == AssignStep(pool, old(held), id)
    {
      if id in held {
        return Ok(held[id]);
      }
      var used := UsedAddresses(held);
      assert pool[0..] == pool;
      for i := 0 to |pool|
        invariant pool == old(pool) && held == old(held)
        invariant FirstFree(pool[i..], used) == FirstFree(pool, used)
      {
        if pool[i] !in used {
          held := held[id := pool[i]];
          return Ok(pool[i]);
        }
        assert pool[i..][1..] == pool[i + 1..];
      }
      assert pool[|pool|..] == [];
      r := Err(Exhausted);
    }

    method Release(id: string)
      modifies this
      ensures pool == old(pool) && held == old(held) - {id}
    {
      held := held - {id};
    }

    method GetStatus() returns (s: Status)
      ensures s == Status(pool, held, |pool|, |held|, |pool| - |held|)
      ensures PoolOk(pool, held) ==>
              s.free == |set ip | ip in s.pool && ip !in s.held.Values| && s.used + s.free == s.total
    {
      if PoolOk(pool, held) {
        FreeIsUnused(pool, held);
      }
      s := Status(pool, held, |pool|, |held|, |pool| - |held|);
    }
  }

  /** The loop over the assignments; their order does not matter. */
  method UsedAddresses(held: Assignment) returns (used: set<Ip4>)
    ensures used == held.Values
  {
    used := {};
    var todo := held.Keys;
    while todo != {}
      invariant todo <= held.Keys
      invariant used == set id | id in held.Keys - todo :: held[id]
      decreases |todo|
    {
      var id :| id in todo;
      todo := todo - {id};
      used := used + {held[id]};
    }
  }

  // ---------- what the allocator keeps ----------

  /** No address is held twice, and every one comes from the pool, which repeats none. */
  ghost predicate PoolOk(pool: seq<Ip4>, held: Assignment) {
    && Distinct(pool)
    && (forall id :: id in held ==> held[id] in pool)
    && (forall a, b :: a in held && b in held && a != b ==> held[a] != held[b])
  }

  /** The first free address is free, from the pool, and nothing before it is free. */
  lemma {:induction false} FirstFreeIs(pool: seq<Ip4>, used: set<Ip4>)
    ensures match FirstFree(pool, used)
            case None => forall ip :: ip in pool ==> ip in used
            case Some(ip) =>
              && ip !in used
              && exists i :: 0 <= i < |pool| && pool[i] == ip && forall j :: 0 <= j < i ==> pool[j] in used
  {
    if pool != [] && pool[0] in used {
      FirstFreeIs(pool[1..], used);
      if FirstFree(pool[1..], used).Some? {
        var i :| 0 <= i < |pool[1..]| && pool[1..][i] == FirstFree(pool, used).value
                 && forall j :: 0 <= j < i ==> pool[1..][j] in used;
        assert forall j :: 1 <= j < i + 1 ==> pool[j] == pool[1..][j - 1];
        assert pool[i + 1] == pool[1..][i];
      }
    }
  }

  /** Assigning keeps the invariant, changes no other assignment, and is idempotent. */
  lemma AssignKeeps(pool: seq<Ip4>, held: Assignment, id: string)
    requires PoolOk(pool, held)
    ensures var (after, r) := AssignStep(pool, held, id);
            && PoolOk(pool, after)
            && (r.Ok? ==> after == held[id := r.value] && r.value in pool && AssignStep(pool, after, id) == (after, r))
            && (r.Err? ==> after == held)
            && (r.Ok? && id !in held ==> r.value !in held.Values)
  {
    FirstFreeIs(pool, held.Values);
  }

  lemma ReleaseKeeps(pool: seq<Ip4>, held: Assignment, id: string)
    requires PoolOk(pool, held)
    ensures PoolOk(pool, held - {id}) && id !in held - {id}
  {
  }

  /** A released address can be held again, to anyone. */
  lemma ReleasedIsFree(pool: seq<Ip4>, held: Assignment, id: string, other: string)
    requires PoolOk(pool, held) && id in held && other !in held
    ensures AssignStep(pool, held - {id}, other).1.Ok?
  {
    var left := held - {id};
    FirstFreeIs(pool, left.Values);
    assert held[id] in pool && held[id] !in left.Values;
  }

  // ---------- counting ----------

  lemma {:induction false} DistinctCount(pool: seq<Ip4>)
    requires Distinct(pool)
    ensures |set ip | ip in pool| == |pool|
  {
    if pool != [] {
      var shorter, last := pool[..|pool| - 1], pool[|pool| - 1];
      DistinctCount(shorter);
      assert (set ip | ip in pool) == (set ip | ip in shorter) + {last};
    }
  }

  lemma {:induction false} InjectiveCount(held: Assignment)
    requires forall a, b :: a in held && b in held && a != b ==> held[a] != held[b]
    ensures |held.Values| == |held|
    decreases |held|
  {
    if held.Keys == {} {
      assert held.Values == {};
      assert |held| == 0;
    } else {
      var id :| id in held;
      var rest := held - {id};
      assert rest.Keys == held.Keys - {id};
      assert |rest| == |held| - 1;
      InjectiveCount(rest);
      forall v | v in held.Values ensures v in rest.Values + {held[id]} {
        var k :| k in held && held[k] == v;
        assert k != id ==> k in rest && rest[k] == v;
      }
      assert held.Values == rest.Values + {held[id]};
      assert held[id] !in rest.Values;
    }
  }

  lemma SubsetCount<T>(a: set<T>, b: set<T>)
    requires a <= b
    ensures |a| <= |b| && |b - a| == |b| - |a| && (|a| == |b| <==> a == b)
  {
    assert b == a + (b - a);
    if |a| == |b| {
      assert b - a == {};
    }
  }

  /** Free is exactly the number of addresses of the pool that nobody holds. */
  lemma FreeIsUnused(pool: seq<Ip4>, held: Assignment)
    requires PoolOk(pool, held)
    ensures |held| <= |pool|
    ensures |set ip | ip in pool && ip !in held.Values| == |pool| - |held|
  {
    var all := set ip | ip in pool;
    DistinctCount(pool);
    InjectiveCount(held);
    assert held.Values <= all;
    hide PoolOk, Distinct;
    SubsetCount(held.Values, all);
    assert (set ip | ip in pool && ip !in held.Values) == all - held.Values;
  }

  /** A new VM is refused exactly when every address is taken. */
  lemma ExhaustedIffFull(pool: seq<Ip4>, held: Assignment, id: string)
    requires PoolOk(pool, held) && id !in held
    ensures AssignStep(pool, held, id).1.Err? <==> |held| == |pool|
  {
    FirstFreeIs(pool, held.Values);
    var free := set ip | ip in pool && ip !in held.Values;
    FreeIsUnused(pool, held);
    if AssignStep(pool, held, id).1.Ok? {
      assert FirstFree(pool, held.Values).value in free;
    } else {
      assert free == {};
    }
  }
}
