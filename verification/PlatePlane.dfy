/** plate's control plane as it runs: each method updates the record, the pool and the store
    in the source's order, and takes the step of PlateControl with the same answers. */
module PlatePlane {
  import opened Common
  import opened GoStrings
  import opened IpCidr
  import opened IpPool
  import opened IpAllocator
  import opened PlateControl

  class Plane {
    var store: map<string, Instance>
    const ipPool: Pool?

    ghost function Value(): State
      reads this, ipPool
    {
      State(store, if ipPool == null then [] else ipPool.pool, if ipPool == null then map[] else ipPool.held)
    }

    constructor (ipPool: Pool?)
      ensures this.ipPool == ipPool && store == map[]
    {
      this.ipPool := ipPool;
      store := map[];
    }

    method Save(inst: Instance)
      modifies this
      ensures store == old(store)[inst.id := inst]
    {
      store := store[inst.id := inst];
    }

    method CreateVm(req: CreateRequest, newID: string, planKnown: bool, backend: Result<string, string>,
                    sync: Synced, now: int)
      returns (r: Result<Instance, PlaneError>)
      requires Consistent(Value()) && AnswersOk(Value(), Create(req, newID, planKnown, backend, sync, now))
      modifies this, ipPool
      ensures (Value(), r) == CreateStep(old(Value()), Create(req, newID, planKnown, backend, sync, now))
    {
      var clean := Trimmed(req);
      if clean.name == "" {
        return Err(NameRequired);
      }
      if !planKnown {
        return Err(UnknownPlan);
      }
      var inst := Requested(clean, newID, None, now);
      if ipPool != null {
        if |ipPool.pool| > 0 {
          var got := ipPool.Assign(newID);
          if got.Err? {
            return Err(NoAddress);
          }
          inst := inst.(publicIPv4 := Some(got.value));
        }
      }
      match backend {
        case Err(why) =>
          if ipPool != null {
            ipPool.Release(newID);
          }
          NothingToRelease(old(Value()), newID);
          Save(inst.(status := Failed, error := why));
          return Err(BackendFailed);
        case Ok(backendID) =>
          inst := inst.(backendID := backendID, status := Running, startedAt := Some(now), updatedAt := now);
          var publicIP, rules, hostname := inst.publicIPv4, inst.firewall, inst.hostname;
          var sshKeys, accountID := inst.sshKeys, inst.accountID;
          if sync.inst.status != Unset {
            inst := sync.inst;
            inst := inst.(publicIPv4 := publicIP, firewall := rules, hostname := hostname);
            inst := inst.(sshKeys := sshKeys, accountID := accountID, backendID := backendID);
          }
          Save(inst);
          return Ok(inst);
      }
    }

    method StartVm(id: string, ok: bool, sync: Synced, now: int) returns (r: Result<Instance, PlaneError>)
      requires Consistent(Value())
      modifies this
      ensures (Value(), r) == Update(old(Value()), id, ok, (i: Instance) => Started(i, sync, now))
    {
      if id !in store {
        return Err(NotFound);
      }
      if !ok {
        return Err(BackendFailed);
      }
      var inst := store[id].(status := Running, startedAt := Some(now), updatedAt := now);
      if sync.inst.status != Unset {
        inst := inst.(status := sync.inst.status, health := sync.inst.health, ipv4 := sync.inst.ipv4);
      }
      Save(inst);
      return Ok(inst);
    }

    method StopVm(id: string, ok: bool, sync: Synced, now: int) returns (r: Result<Instance, PlaneError>)
      requires Consistent(Value())
      modifies this
      ensures (Value(), r) == Update(old(Value()), id, ok, (i: Instance) => Halted(i, sync, now))
    {
      if id !in store {
        return Err(NotFound);
      }
      if !ok {
        return Err(BackendFailed);
      }
      var inst := store[id].(status := Stopped, updatedAt := now);
      inst := inst.(startedAt := None);
      if sync.inst.health.Some? {
        inst := inst.(health := sync.inst.health);
      }
      Save(inst);
      return Ok(inst);
    }

    method DeleteVm(id: string, ok: bool) returns (r: Result<(), PlaneError>)
      requires Consistent(Value())
      modifies this, ipPool
      ensures Value() == DeleteStep(old(Value()), id, ok)
      ensures r == if id !in old(store) then Err(NotFound) else if !ok then Err(BackendFailed) else Ok(())
    {
      if id !in store {
        return Err(NotFound);
      }
      if !ok {
        return Err(BackendFailed);
      }
      if ipPool != null {
        ipPool.Release(id);
      }
      store := store - {id};
      ghost var none: Assignment := map[];
      assert none - {id} == none;
      return Ok(());
    }

    /** Unlike the others Get answers with the stored record when the backend fails. */
    method GetVm(id: string, sync: Synced, snaps: Option<seq<string>>) returns (r: Result<Instance, PlaneError>)
      requires Consistent(Value()) && AnswersOk(Value(), Get(id, sync, snaps))
      modifies this
      ensures Value() == Step(old(Value()), Get(id, sync, snaps))
      ensures r == if id in store then Ok(store[id]) else Err(NotFound)
    {
      if id !in store {
        return Err(NotFound);
      }
      var inst := store[id];
      if sync.ok {
        inst := Refreshed(sync, snaps);
        Save(inst);
      }
      return Ok(inst);
    }

    /** All records, refreshed where the sync succeeds, in the order the store lists them. */
    method ListVms(syncs: map<string, Synced>, listed: map<string, Option<seq<string>>>) returns (items: seq<Instance>)
      requires Consistent(Value()) && AnswersOk(Value(), List(syncs, listed))
      modifies this
      ensures Value() == ListStep(old(Value()), syncs, listed)
      ensures Lists(items, store)
    {
      assert forall id :: id in store ==> Refreshed(syncs[id], listed[id]).id == id && store[id].id == id;
      hide Consistent, AnswersOk, Refreshed, Lists;
      var records := AllRecords(store);
      var after;
      items, after := RefreshAll(records, store, syncs, listed);
      AllLooked(Value(), records, items, after, syncs, listed);
      hide ListStep;
      store := after;
    }

    /** Nothing is stored unless the backend applies the rules. */
    method UpdateFirewall(id: string, rules: seq<string>, ok: bool, now: int) returns (r: Result<Instance, PlaneError>)
      requires Consistent(Value())
      modifies this
      ensures (Value(), r) == Update(old(Value()), id, ok, (i: Instance) => WithRules(i, rules, now))
    {
      if id !in store {
        return Err(NotFound);
      }
      var inst := store[id].(firewall := rules);
      inst := inst.(updatedAt := now);
      if !ok {
        return Err(BackendFailed);
      }
      Save(inst);
      return Ok(inst);
    }

    method UpdateHostname(id: string, hostname: string, now: int) returns (r: Result<Instance, PlaneError>)
      requires Consistent(Value())
      modifies this
      ensures (Value(), r) == Update(old(Value()), id, true, (i: Instance) => Renamed(i, hostname, now))
    {
      if id !in store {
        return Err(NotFound);
      }
      var inst := store[id].(hostname := TrimSpace(hostname));
      inst := inst.(updatedAt := now);
      Save(inst);
      return Ok(inst);
    }

    /** The new snapshot goes behind the stored ones. */
    method CreateSnapshot(id: string, snap: Option<string>, now: int) returns (r: Result<string, PlaneError>)
      requires Consistent(Value())
      modifies this
      ensures Value() == Update(old(Value()), id, snap.Some?, (i: Instance) => WithSnapshot(i, snap, now)).0
      ensures r == if id !in old(store) then Err(NotFound)
                   else if snap.None? then Err(BackendFailed) else Ok(snap.value)
    {
      if id !in store {
        return Err(NotFound);
      }
      if snap.None? {
        return Err(BackendFailed);
      }
      var inst := store[id];
      inst := inst.(snapshots := inst.snapshots + [snap.value]);
      inst := inst.(updatedAt := now);
      Save(inst);
      return Ok(snap.value);
    }

    /** The stored list is replaced by the backend's. */
    method ListSnapshots(id: string, snaps: Option<seq<string>>) returns (r: Result<seq<string>, PlaneError>)
      requires Consistent(Value())
      modifies this
      ensures Value() == Update(old(Value()), id, snaps.Some?, (i: Instance) => WithSnapshots(i, snaps)).0
      ensures r == if id !in old(store) then Err(NotFound)
                   else if snaps.None? then Err(BackendFailed) else Ok(snaps.value)
    {
      if id !in store {
        return Err(NotFound);
      }
      if snaps.None? {
        return Err(BackendFailed);
      }
      Save(store[id].(snapshots := snaps.value));
      return Ok(snaps.value);
    }

    method RestoreVm(id: string, ok: bool, sync: Synced, now: int) returns (r: Result<Instance, PlaneError>)
      requires Consistent(Value())
      modifies this
      ensures (Value(), r) == Update(old(Value()), id, ok, (i: Instance) => Restored(i, sync, now))
    {
      if id !in store {
        return Err(NotFound);
      }
      if !ok {
        return Err(BackendFailed);
      }
      var inst := store[id];
      if sync.inst.status != Unset {
        inst := sync.inst;
      }
      inst := inst.(updatedAt := now);
      Save(inst);
      return Ok(inst);
    }
  }

  /** A record after List looked at it. */
  function Looked(inst: Instance, sync: Synced, snaps: Option<seq<string>>): Instance {
    if sync.ok then Refreshed(sync, snaps) else inst
  }

  /** Every record once, and nothing else. */
  ghost predicate Lists(items: seq<Instance>, store: map<string, Instance>) {
    && (forall i :: 0 <= i < |items| ==> items[i].id in store && store[items[i].id] == items[i])
    && (forall id :: id in store ==> exists i :: 0 <= i < |items| && items[i].id == id)
    && (forall i, j :: 0 <= i < j < |items| ==> items[i].id != items[j].id)
  }

  lemma ListsMore(items: seq<Instance>, store: map<string, Instance>, inst: Instance, store': map<string, Instance>)
    requires Lists(items, store) && inst.id !in store && store' == store[inst.id := inst]
    ensures Lists(items + [inst], store')
  {
    var items' := items + [inst];
    forall id | id in store'
      ensures exists i :: 0 <= i < |items'| && items'[i].id == id
    {
      if id in store {
        var i :| 0 <= i < |items| && items[i].id == id;
        assert items'[i].id == id;
      } else {
        assert items'[|items|].id == id;
      }
    }
  }

  /** The store's list, in whatever order it keeps its records. */
  method AllRecords(store: map<string, Instance>) returns (items: seq<Instance>)
    requires forall id :: id in store ==> store[id].id == id
    ensures Lists(items, store)
  {
    items := [];
    var todo := store.Keys;
    assert store - todo == map[];
    while todo != {}
      invariant todo <= store.Keys && Lists(items, store - todo)
      decreases |todo|
    {
      hide Lists;
      var id := NextOf(todo);
      ListsMore(items, store - todo, store[id], store - (todo - {id}));
      items := items + [store[id]];
      todo := todo - {id};
    }
    assert store - {} == store;
  }

  /** The next record of the iteration: any one that is left. */
  method NextOf(todo: set<string>) returns (id: string)
    requires todo != {}
    ensures id in todo
  {
    id :| id in todo;
  }

  /** The first n records of a listing were looked at, in the list and in the store. */
  ghost predicate LookedAt(
      n: nat, records: seq<Instance>, items: seq<Instance>, store: map<string, Instance>, after: map<string, Instance>,
      syncs: map<string, Synced>, listed: map<string, Option<seq<string>>>)
    requires Lists(records, store) && syncs.Keys == listed.Keys == store.Keys
  {
    && |items| == |records| && after.Keys == store.Keys
    && forall i :: 0 <= i < |records| ==>
        && items[i] == (if i < n then Looked(records[i], syncs[records[i].id], listed[records[i].id]) else records[i])
        && after[records[i].id] == items[i]
  }

  lemma OneLooked(
      n: nat, records: seq<Instance>, items: seq<Instance>, store: map<string, Instance>, after: map<string, Instance>,
      syncs: map<string, Synced>, listed: map<string, Option<seq<string>>>, inst: Instance)
    requires Lists(records, store) && syncs.Keys == listed.Keys == store.Keys && n < |records|
    requires LookedAt(n, records, items, store, after, syncs, listed)
    requires inst == Looked(records[n], syncs[records[n].id], listed[records[n].id])
    ensures items[n] == records[n] && after[records[n].id] == items[n]
    ensures LookedAt(n + 1, records, items[n := inst], store, after[records[n].id := inst], syncs, listed)
  {
    hide Looked;
  }

  /** The loop of List: each record is replaced in the list and in the store, or left in both. */
  method RefreshAll(
      records: seq<Instance>, store: map<string, Instance>,
      syncs: map<string, Synced>, listed: map<string, Option<seq<string>>>)
    returns (items: seq<Instance>, after: map<string, Instance>)
    requires Lists(records, store) && syncs.Keys == listed.Keys == store.Keys
    requires forall id :: id in store ==> Refreshed(syncs[id], listed[id]).id == id
    ensures Lists(items, after)
    ensures LookedAt(|records|, records, items, store, after, syncs, listed)
  {
    items, after := records, store;
    hide Looked, Refreshed;
    for i := 0 to |records|
      invariant LookedAt(i, records, items, store, after, syncs, listed)
    {
      var id := records[i].id;
      ghost var inst := Looked(records[i], syncs[id], listed[id]);
      OneLooked(i, records, items, store, after, syncs, listed, inst);
      hide Lists, LookedAt;
      LookedCases(records[i], syncs[id], listed[id]);
      if syncs[id].ok {
        var refreshed := Refreshed(syncs[id], listed[id]);
        items := items[i := refreshed];
        after := after[refreshed.id := refreshed];
      } else {
        assert items[i := inst] == items && after[id := inst] == after;
      }
    }
    StillLists(records, items, store, after, syncs, listed);
  }

  lemma LookedCases(inst: Instance, sync: Synced, snaps: Option<seq<string>>)
    ensures Looked(inst, sync, snaps) == if sync.ok then Refreshed(sync, snaps) else inst
  {
    hide Refreshed;
  }

  lemma StillLists(
      records: seq<Instance>, items: seq<Instance>, store: map<string, Instance>, after: map<string, Instance>,
      syncs: map<string, Synced>, listed: map<string, Option<seq<string>>>)
    requires Lists(records, store) && syncs.Keys == listed.Keys == store.Keys
    requires LookedAt(|records|, records, items, store, after, syncs, listed)
    requires forall id :: id in store ==> Refreshed(syncs[id], listed[id]).id == id
    ensures Lists(items, after)
  {
    forall i | 0 <= i < |items|
      ensures items[i].id == records[i].id
    {
      LookedCases(records[i], syncs[records[i].id], listed[records[i].id]);
    }
    hide Looked, Refreshed;
  }

  lemma LookedOf(
      records: seq<Instance>, items: seq<Instance>, store: map<string, Instance>, after: map<string, Instance>,
      syncs: map<string, Synced>, listed: map<string, Option<seq<string>>>, id: string)
    requires Lists(records, store) && syncs.Keys == listed.Keys == store.Keys && id in store
    requires LookedAt(|records|, records, items, store, after, syncs, listed)
    ensures after.Keys == store.Keys && after[id] == Looked(store[id], syncs[id], listed[id])
  {
    hide Looked;
    var i :| 0 <= i < |records| && records[i].id == id;
    assert store[records[i].id] == records[i];
  }

  lemma AllLooked(
      s: State, records: seq<Instance>, items: seq<Instance>, after: map<string, Instance>,
      syncs: map<string, Synced>, listed: map<string, Option<seq<string>>>)
    requires Lists(records, s.store) && syncs.Keys == listed.Keys == s.store.Keys
    requires LookedAt(|records|, records, items, s.store, after, syncs, listed)
    ensures ListStep(s, syncs, listed) == s.(store := after)
  {
    hide Refreshed, Looked, Lists, LookedAt;
    var goal := ListStep(s, syncs, listed).store;
    forall id | id in s.store
      ensures after.Keys == s.store.Keys && after[id] == goal[id]
    {
      LookedOf(records, items, s.store, after, syncs, listed, id);
      LookedCases(s.store[id], syncs[id], listed[id]);
    }
    SameKeys(records, items, s.store, after, syncs, listed);
  }

  lemma SameKeys(
      records: seq<Instance>, items: seq<Instance>, store: map<string, Instance>, after: map<string, Instance>,
      syncs: map<string, Synced>, listed: map<string, Option<seq<string>>>)
    requires Lists(records, store) && syncs.Keys == listed.Keys == store.Keys
    requires LookedAt(|records|, records, items, store, after, syncs, listed)
    ensures after.Keys == store.Keys
  {
    hide Looked, Lists;
  }

  lemma NothingToRelease(s: State, id: string)
    requires Consistent(s) && id !in s.store
    ensures s.held - {id} == s.held
  {
    assert id !in s.held;
  }
}
