/** plate's control plane: VM records, the address pool, and a backend that may fail at any
    call. Every operation runs alone; what the backend, the clock, the id generator and the
    plan table answer is a parameter. */
module PlateControl {
  import opened Common
  import opened GoStrings
  import opened IpCidr
  import opened IpPool
  import opened IpAllocator

  datatype VmStatus = Unset | Creating | Stopped | Running | Failed

  datatype Instance = Instance(
    id: string,
    name: string,
    plan: string,
    image: string,
    status: VmStatus,
    backendID: string,
    ipv4: string,
    publicIPv4: Option<Ip4>,
    hostname: string,
    firewall: seq<string>,
    sshKeys: seq<string>,
    snapshots: seq<string>,
    health: Option<string>,
    accountID: string,
    startedAt: Option<int>,
    error: string,
    createdAt: int,
    updatedAt: int)

  datatype CreateRequest = CreateRequest(
    name: string, plan: string, image: string, sshKeys: seq<string>,
    hostname: string, firewall: seq<string>, accountID: string)

  const DEFAULT_FIREWALL := ["tcp/22", "tcp/80", "tcp/443"]

  datatype PlaneError = NameRequired | UnknownPlan | NoAddress | BackendFailed | NotFound

  /** What Sync returned: an instance, and whether the error was nil. */
  datatype Synced = Synced(inst: Instance, ok: bool)

  /** The stored records and the pool's state; an absent pool is an empty one. */
  datatype State = State(store: map<string, Instance>, pool: seq<Ip4>, held: Assignment)

  datatype Op =
    | Create(req: CreateRequest, newID: string, planKnown: bool, backend: Result<string, string>,
             sync: Synced, now: int)
    | Start(id: string, ok: bool, sync: Synced, now: int)
    | Stop(id: string, ok: bool, sync: Synced, now: int)
    | Delete(id: string, ok: bool)
    | Get(id: string, sync: Synced, snaps: Option<seq<string>>)
    | List(syncs: map<string, Synced>, listed: map<string, Option<seq<string>>>)
    | UpdateFirewall(id: string, rules: seq<string>, ok: bool, now: int)
    | UpdateHostname(id: string, hostname: string, now: int)
    | CreateSnapshot(id: string, snap: Option<string>, now: int)
    | ListSnapshots(id: string, snaps: Option<seq<string>>)
    | RestoreSnapshot(id: string, ok: bool, sync: Synced, now: int)

  /** The backend's contract: Sync preserves identity, and a created VM has a backend id. */
  predicate SamePlace(a: Instance, b: Instance) {
    a.id == b.id && a.backendID == b.backendID && a.publicIPv4 == b.publicIPv4
  }

  predicate AnswersOk(s: State, op: Op) {
    match op
    case Create(_, newID, _, backend, sync, _) =>
      newID !in s.store && (backend.Ok? ==> backend.value != "") && sync.inst.id == newID
    case Start(id, _, sync, _) => id in s.store ==> SamePlace(s.store[id], sync.inst)
    case Stop(id, _, sync, _) => id in s.store ==> SamePlace(s.store[id], sync.inst)
    case Get(id, sync, _) => id in s.store ==> SamePlace(s.store[id], sync.inst)
    case RestoreSnapshot(id, _, sync, _) => id in s.store ==> SamePlace(s.store[id], sync.inst)
    case List(syncs, listed) =>
      syncs.Keys == listed.Keys == s.store.Keys && forall id :: id in s.store ==> SamePlace(s.store[id], syncs[id].inst)
    case _ => true
  }

  // ---------- the records ----------

  /** The request as Create reads it. */
  function Trimmed(req: CreateRequest): CreateRequest {
    req.(name := TrimSpace(req.name), plan := TrimSpace(req.plan), image := TrimSpace(req.image),
         hostname := TrimSpace(req.hostname), accountID := TrimSpace(req.accountID))
  }

  function Requested(req: CreateRequest, id: string, ip: Option<Ip4>, now: int): Instance {
    Instance(id, req.name, if req.plan == "" then "small" else req.plan, req.image, Creating, "", "", ip,
             if req.hostname == "" then req.name + ".plate.local" else req.hostname,
             if req.firewall == [] then DEFAULT_FIREWALL else req.firewall,
             req.sshKeys, [], None, req.accountID, None, "", now, now)
  }

  /** After the backend made the VM: what the request decided survives the sync. */
  function Created(inst: Instance, backendID: string, sync: Synced, now: int): Instance {
    var started := inst.(backendID := backendID, status := Running, startedAt := Some(now), updatedAt := now);
    if sync.inst.status != Unset then
      sync.inst.(publicIPv4 := started.publicIPv4, firewall := started.firewall, hostname := started.hostname,
                 sshKeys := started.sshKeys, accountID := started.accountID, backendID := backendID)
    else started
  }

  function Started(inst: Instance, sync: Synced, now: int): Instance {
    var up := inst.(status := Running, startedAt := Some(now), updatedAt := now);
    if sync.inst.status != Unset then
      up.(status := sync.inst.status, health := sync.inst.health, ipv4 := sync.inst.ipv4)
    else up
  }

  function Halted(inst: Instance, sync: Synced, now: int): Instance {
    var down := inst.(status := Stopped, updatedAt := now, startedAt := None);
    if sync.inst.health.Some? then down.(health := sync.inst.health) else down
  }

  function Refreshed(sync: Synced, snaps: Option<seq<string>>): Instance {
    if snaps.Some? then sync.inst.(snapshots := snaps.value) else sync.inst
  }

  function WithSnapshot(inst: Instance, snap: Option<string>, now: int): Instance {
    if snap.Some? then inst.(snapshots := inst.snapshots + [snap.value], updatedAt := now) else inst
  }

  function WithSnapshots(inst: Instance, snaps: Option<seq<string>>): Instance {
    if snaps.Some? then inst.(snapshots := snaps.value) else inst
  }

  function WithRules(inst: Instance, rules: seq<string>, now: int): Instance {
    inst.(firewall := rules, updatedAt := now)
  }

  function Renamed(inst: Instance, hostname: string, now: int): Instance {
    inst.(hostname := TrimSpace(hostname), updatedAt := now)
  }

  function Restored(inst: Instance, sync: Synced, now: int): Instance {
    (if sync.inst.status != Unset then sync.inst else inst).(updatedAt := now)
  }

  // ---------- the operations ----------

  function Put(s: State, inst: Instance): State {
    s.(store := s.store[inst.id := inst])
  }

  /** The address for a new VM, if there is a pool and one is free. */
  function TakeAddress(s: State, id: string): (Assignment, Result<Ip4, PoolError>) {
    if s.pool == [] then (s.held, Err(Exhausted)) else AssignStep(s.pool, s.held, id)
  }

  function CreateStep(s: State, op: Op): (State, Result<Instance, PlaneError>)
    requires op.Create?
  {
    var req := Trimmed(op.req);
    if req.name == "" then (s, Err(NameRequired))
    else if !op.planKnown then (s, Err(UnknownPlan))
    else
      var (held, got) := TakeAddress(s, op.newID);
      if s.pool != [] && got.Err? then (s, Err(NoAddress))
      else
        var inst := Requested(req, op.newID, if got.Ok? then Some(got.value) else None, op.now);
        match op.backend
        case Err(why) =>
          (Put(s.(held := held - {op.newID}), inst.(status := Failed, error := why)), Err(BackendFailed))
        case Ok(backendID) =>
          var made := Created(inst, backendID, op.sync, op.now);
          (Put(s.(held := held), made), Ok(made))
  }

  /** An operation on one stored VM; `after` is what it writes back, if it gets that far. */
  function Update(s: State, id: string, ok: bool, after: Instance -> Instance): (State, Result<Instance, PlaneError>) {
    if id !in s.store then (s, Err(NotFound))
    else if !ok then (s, Err(BackendFailed))
    else
      var inst := after(s.store[id]);
      (Put(s, inst), Ok(inst))
  }

  function DeleteStep(s: State, id: string, ok: bool): State {
    if id in s.store && ok then s.(store := s.store - {id}, held := s.held - {id}) else s
  }

  function ListStep(s: State, syncs: map<string, Synced>, snaps: map<string, Option<seq<string>>>): State
    requires syncs.Keys == snaps.Keys == s.store.Keys
  {
    s.(store := map id | id in s.store :: if syncs[id].ok then Refreshed(syncs[id], snaps[id]) else s.store[id])
  }

  function Step(s: State, op: Op): State
    requires AnswersOk(s, op)
  {
    match op
    case Create(_, _, _, _, _, _) => CreateStep(s, op).0
    case Start(id, ok, sync, now) => Update(s, id, ok, (i: Instance) => Started(i, sync, now)).0
    case Stop(id, ok, sync, now) => Update(s, id, ok, (i: Instance) => Halted(i, sync, now)).0
    case Delete(id, ok) => DeleteStep(s, id, ok)
    case Get(id, sync, snaps) => Update(s, id, sync.ok, (i: Instance) => Refreshed(sync, snaps)).0
    case List(syncs, listed) => ListStep(s, syncs, listed)
    case UpdateFirewall(id, rules, ok, now) => Update(s, id, ok, (i: Instance) => WithRules(i, rules, now)).0
    case UpdateHostname(id, hostname, now) => Update(s, id, true, (i: Instance) => Renamed(i, hostname, now)).0
    case CreateSnapshot(id, snap, now) => Update(s, id, snap.Some?, (i: Instance) => WithSnapshot(i, snap, now)).0
    case ListSnapshots(id, snaps) => Update(s, id, snaps.Some?, (i: Instance) => WithSnapshots(i, snaps)).0
    case RestoreSnapshot(id, ok, sync, now) => Update(s, id, ok, (i: Instance) => Restored(i, sync, now)).0
  }

  // ---------- the invariant ----------

  /** A VM that exists in the backend and was given an address. */
  predicate Live(i: Instance) {
    i.backendID != "" && i.publicIPv4.Some?
  }

  /** Addresses are held by exactly the live VMs, each its own. */
  ghost predicate Consistent(s: State) {
    && PoolOk(s.pool, s.held)
    && (forall id :: id in s.store ==> s.store[id].id == id)
    && (forall id :: id in s.held <==> id in s.store && Live(s.store[id]))
    && (forall id :: id in s.held ==> s.store[id].publicIPv4 == Some(s.held[id]))
  }

  lemma UpdateKeeps(s: State, id: string, ok: bool, after: Instance -> Instance)
    requires Consistent(s)
    requires id in s.store ==> SamePlace(s.store[id], after(s.store[id]))
    ensures Consistent(Update(s, id, ok, after).0)
  {
  }

  /** What a create does to the store and the pool, apart from the record's details. */
  lemma CreateShape(s: State, op: Op, after: State, r: Result<Instance, PlaneError>)
    requires op.Create? && AnswersOk(s, op) && CreateStep(s, op) == (after, r)
    ensures after.pool == s.pool
    ensures r.Err? && r.error != BackendFailed ==> after == s
    ensures r == Err(BackendFailed) ==>
            && op.newID in after.store && after.store == s.store[op.newID := after.store[op.newID]]
            && after.store[op.newID].id == op.newID && after.store[op.newID].backendID == ""
            && (s.pool == [] || TakeAddress(s, op.newID).1.Ok?)
            && after.held == TakeAddress(s, op.newID).0 - {op.newID}
    ensures r.Ok? ==>
            && after.store == s.store[op.newID := r.value] && after.held == TakeAddress(s, op.newID).0
            && op.backend.Ok? && r.value.id == op.newID && r.value.backendID == op.backend.value != ""
            && (s.pool == [] || TakeAddress(s, op.newID).1.Ok?)
            && r.value.publicIPv4 == var got := TakeAddress(s, op.newID).1; if got.Ok? then Some(got.value) else None
  {
    hide Trimmed, TakeAddress;
  }

  /** A VM that takes an address in the pool and gets a record keeps the plane consistent. */
  lemma RecordKeeps(s: State, id: string, vm: Instance, held: Assignment)
    requires Consistent(s) && id !in s.store && vm.id == id && vm.backendID != ""
    requires if s.pool == [] then held == s.held && vm.publicIPv4 == None
             else AssignStep(s.pool, s.held, id).1.Ok? && held == AssignStep(s.pool, s.held, id).0 &&
                  vm.publicIPv4 == Some(AssignStep(s.pool, s.held, id).1.value)
    ensures Consistent(s.(store := s.store[id := vm], held := held))
  {
    if s.pool != [] {
      AssignKeeps(s.pool, s.held, id);
    }
    hide PoolOk, AssignStep;
  }

  lemma FailureKeeps(s: State, id: string, vm: Instance, held: Assignment)
    requires Consistent(s) && id !in s.store && vm.id == id && vm.backendID == "" && held == s.held
    ensures Consistent(s.(store := s.store[id := vm], held := held))
  {
    hide PoolOk;
  }

  lemma TakenBack(s: State, id: string)
    requires Consistent(s) && id !in s.store && (s.pool == [] || TakeAddress(s, id).1.Ok?)
    ensures TakeAddress(s, id).0 - {id} == s.held
    ensures TakeAddress(s, id).1.Ok? ==> TakeAddress(s, id).1.value !in s.held.Values
  {
    if s.pool != [] {
      AssignKeeps(s.pool, s.held, id);
    }
  }

  lemma CreateKeeps(s: State, op: Op)
    requires Consistent(s) && op.Create? && AnswersOk(s, op)
    ensures Consistent(CreateStep(s, op).0)
  {
    var (after, r) := CreateStep(s, op);
    CreateShape(s, op, after, r);
    hide CreateStep, Consistent, AssignStep;
    if r.Ok? {
      RecordKeeps(s, op.newID, r.value, after.held);
    } else if r == Err(BackendFailed) {
      TakenBack(s, op.newID);
      FailureKeeps(s, op.newID, after.store[op.newID], after.held);
    }
  }

  lemma ListKeeps(s: State, syncs: map<string, Synced>, listed: map<string, Option<seq<string>>>)
    requires Consistent(s) && AnswersOk(s, List(syncs, listed))
    ensures Consistent(ListStep(s, syncs, listed))
  {
    var s' := ListStep(s, syncs, listed);
    assert forall id :: id in s.store ==> SamePlace(s.store[id], s'.store[id]);
  }

  lemma StepKeeps(s: State, op: Op)
    requires Consistent(s) && AnswersOk(s, op)
    ensures Consistent(Step(s, op))
  {
    hide Consistent, PoolOk, CreateStep;
    match op
    case Create(_, _, _, _, _, _) => CreateKeeps(s, op);
    case Start(id, ok, sync, now) => UpdateKeeps(s, id, ok, (i: Instance) => Started(i, sync, now));
    case Stop(id, ok, sync, now) => UpdateKeeps(s, id, ok, (i: Instance) => Halted(i, sync, now));
    case Delete(id, ok) => DeleteKeeps(s, id, ok);
    case Get(id, sync, snaps) => UpdateKeeps(s, id, sync.ok, (i: Instance) => Refreshed(sync, snaps));
    case List(syncs, listed) => ListKeeps(s, syncs, listed);
    case UpdateFirewall(id, rules, ok, now) => UpdateKeeps(s, id, ok, (i: Instance) => WithRules(i, rules, now));
    case UpdateHostname(id, hostname, now) => UpdateKeeps(s, id, true, (i: Instance) => Renamed(i, hostname, now));
    case CreateSnapshot(id, snap, now) => UpdateKeeps(s, id, snap.Some?, (i: Instance) => WithSnapshot(i, snap, now));
    case ListSnapshots(id, snaps) => UpdateKeeps(s, id, snaps.Some?, (i: Instance) => WithSnapshots(i, snaps));
    case RestoreSnapshot(id, ok, sync, now) => UpdateKeeps(s, id, ok, (i: Instance) => Restored(i, sync, now));
  }

  lemma DeleteKeeps(s: State, id: string, ok: bool)
    requires Consistent(s)
    ensures Consistent(DeleteStep(s, id, ok))
  {
    ReleaseKeeps(s.pool, s.held, id);
  }

  // ---------- runs ----------

  /** The plane after the operations; answers the backend may not give are left out. */
  function Exec(start: State, ops: seq<Op>): State {
    if ops == [] then start
    else
      var before, op := Exec(start, ops[..|ops| - 1]), ops[|ops| - 1];
      if AnswersOk(before, op) then Step(before, op) else before
  }

  lemma StepPool(s: State, op: Op)
    requires AnswersOk(s, op)
    ensures Step(s, op).pool == s.pool
  {
  }

  lemma {:induction false} RunKeeps(pool: seq<Ip4>, ops: seq<Op>)
    requires Distinct(pool)
    ensures Consistent(Exec(State(map[], pool, map[]), ops)) && Exec(State(map[], pool, map[]), ops).pool == pool
  {
    var start := State(map[], pool, map[]);
    if ops != [] {
      RunKeeps(pool, ops[..|ops| - 1]);
      var before, op := Exec(start, ops[..|ops| - 1]), ops[|ops| - 1];
      hide Consistent, Step;
      if AnswersOk(before, op) {
        StepKeeps(before, op);
        StepPool(before, op);
      }
    }
  }

  /** After any operations with any failures no two live VMs share an address, every one has
      an address of the pool, and the free addresses and the live VMs add up to the pool. */
  lemma NoSharedAddress(pool: seq<Ip4>, ops: seq<Op>, s: State)
    requires Distinct(pool) && s == Exec(State(map[], pool, map[]), ops)
    ensures forall a, b :: a in s.store && b in s.store && a != b && Live(s.store[a]) && Live(s.store[b]) ==>
              s.store[a].publicIPv4 != s.store[b].publicIPv4
    ensures forall a :: a in s.store && Live(s.store[a]) ==> s.store[a].publicIPv4.value in pool
    ensures |set ip | ip in pool && ip !in s.held.Values| + |set id | id in s.store && Live(s.store[id])| == |pool|
  {
    RunKeeps(pool, ops);
    hide Exec;
    FreeIsUnused(s.pool, s.held);
    assert (set id | id in s.store && Live(s.store[id])) == s.held.Keys;
    assert |s.held.Keys| == |s.held|;
  }

  /** A create that fails gives back any address it took; refused before the backend is
      asked, it changes nothing. It is refused for lack of addresses exactly when all are held. */
  lemma CreateFails(s: State, op: Op, after: State, why: PlaneError)
    requires Consistent(s) && op.Create? && AnswersOk(s, op) && CreateStep(s, op) == (after, Err(why))
    ensures after.held == s.held
    ensures why != BackendFailed ==> after == s
    ensures why == BackendFailed ==> after.store.Keys == s.store.Keys + {op.newID} && !Live(after.store[op.newID])
  {
    CreateShape(s, op, after, Err(why));
    hide CreateStep, Consistent, TakeAddress;
    if why == BackendFailed {
      TakenBack(s, op.newID);
    }
  }

  lemma RefusedIffFull(s: State, op: Op)
    requires Consistent(s) && op.Create? && AnswersOk(s, op)
    ensures CreateStep(s, op).1 == Err(NoAddress) <==>
            (TrimSpace(op.req.name) != "" && op.planKnown && s.pool != [] && |s.held| == |s.pool|)
  {
    if s.pool != [] {
      ExhaustedIffFull(s.pool, s.held, op.newID);
    }
    hide PoolOk, AssignStep;
  }

  /** It succeeds exactly when the request is complete, an address is free or none is wanted,
      and the backend does its part. */
  lemma SucceedsIff(s: State, op: Op)
    requires Consistent(s) && op.Create? && AnswersOk(s, op)
    ensures CreateStep(s, op).1.Ok? <==>
            TrimSpace(op.req.name) != "" && op.planKnown && (s.pool == [] || |s.held| < |s.pool|) && op.backend.Ok?
  {
    RefusedIffFull(s, op);
    FreeIsUnused(s.pool, s.held);
    hide PoolOk, AssignStep, TrimSpace;
  }

  /** A create that succeeds stores one live VM with an address nobody held. */
  lemma CreateSucceeds(s: State, op: Op, after: State, vm: Instance)
    requires Consistent(s) && op.Create? && AnswersOk(s, op) && CreateStep(s, op) == (after, Ok(vm))
    ensures after.store == s.store[op.newID := vm] && vm.backendID == op.backend.value
    ensures s.pool != [] ==> Live(vm) && vm.publicIPv4.value !in s.held.Values
  {
    CreateShape(s, op, after, Ok(vm));
    TakenBack(s, op.newID);
    hide CreateStep, Consistent, TakeAddress;
  }

  /** Whatever the first sync reports, the VM keeps what its request asked for. */
  lemma RequestSurvives(s: State, op: Op, vm: Instance)
    requires op.Create? && AnswersOk(s, op) && CreateStep(s, op).1 == Ok(vm)
    ensures vm.sshKeys == op.req.sshKeys && vm.accountID == TrimSpace(op.req.accountID)
    ensures vm.firewall == if op.req.firewall == [] then ["tcp/22", "tcp/80", "tcp/443"] else op.req.firewall
    ensures TrimSpace(op.req.hostname) != "" ==> vm.hostname == TrimSpace(op.req.hostname)
    ensures TrimSpace(op.req.hostname) == "" ==> vm.hostname == TrimSpace(op.req.name) + ".plate.local"
    ensures vm.status != Creating || op.sync.inst.status == Creating
  {
  }

  /** The places of all VMs are as before. */
  ghost predicate SamePlaces(s: State, s': State) {
    && s'.held == s.held && s'.store.Keys == s.store.Keys
    && forall id :: id in s.store ==> SamePlace(s.store[id], s'.store[id])
  }

  lemma UpdatePlaces(s: State, id: string, ok: bool, after: Instance -> Instance)
    requires Consistent(s)
    requires id in s.store ==> SamePlace(s.store[id], after(s.store[id]))
    ensures SamePlaces(s, Update(s, id, ok, after).0)
  {
  }

  /** Only Create and Delete change which VMs there are and what addresses they hold. */
  lemma PlacesStay(s: State, op: Op)
    requires Consistent(s) && AnswersOk(s, op) && !op.Create? && !op.Delete?
    ensures SamePlaces(s, Step(s, op))
  {
    hide Consistent, SamePlaces, Update;
    match op
    case Start(id, ok, sync, now) => UpdatePlaces(s, id, ok, (i: Instance) => Started(i, sync, now));
    case Stop(id, ok, sync, now) => UpdatePlaces(s, id, ok, (i: Instance) => Halted(i, sync, now));
    case Get(id, sync, snaps) => UpdatePlaces(s, id, sync.ok, (i: Instance) => Refreshed(sync, snaps));
    case List(syncs, listed) => ListPlaces(s, syncs, listed);
    case UpdateFirewall(id, rules, ok, now) => UpdatePlaces(s, id, ok, (i: Instance) => WithRules(i, rules, now));
    case UpdateHostname(id, hostname, now) => UpdatePlaces(s, id, true, (i: Instance) => Renamed(i, hostname, now));
    case CreateSnapshot(id, snap, now) => UpdatePlaces(s, id, snap.Some?, (i: Instance) => WithSnapshot(i, snap, now));
    case ListSnapshots(id, snaps) => UpdatePlaces(s, id, snaps.Some?, (i: Instance) => WithSnapshots(i, snaps));
    case RestoreSnapshot(id, ok, sync, now) => UpdatePlaces(s, id, ok, (i: Instance) => Restored(i, sync, now));
  }

  lemma ListPlaces(s: State, syncs: map<string, Synced>, listed: map<string, Option<seq<string>>>)
    requires AnswersOk(s, List(syncs, listed))
    ensures SamePlaces(s, ListStep(s, syncs, listed))
  {
  }

  /** A start that succeeds leaves a VM with a start time, and running unless the backend says
      otherwise; a stop that succeeds leaves it stopped without one, whatever the backend says;
      one that fails leaves everything. */
  lemma StartAndStop(s: State, op: Op)
    requires Consistent(s) && AnswersOk(s, op) && (op.Start? || op.Stop?) && op.id in s.store
    ensures op.ok && op.Start? ==>
            var vm := Step(s, op).store[op.id];
            && vm.startedAt == Some(op.now)
            && vm.status == if op.sync.inst.status == Unset then Running else op.sync.inst.status
    ensures op.ok && op.Stop? ==>
            var vm := Step(s, op).store[op.id];
            vm.startedAt == None && vm.status == Stopped
    ensures !op.ok ==> Step(s, op) == s
  {
  }

  /** What was stored of one VM changes, and of no other. */
  lemma OthersStay(s: State, op: Op, other: string)
    requires Consistent(s) && AnswersOk(s, op) && !op.Create? && !op.Delete? && !op.List?
    requires other in s.store && other != op.id
    ensures other in Step(s, op).store && Step(s, op).store[other] == s.store[other]
  {
    hide PoolOk;
  }

  /** The operations that change the stored record without taking over the backend's. */
  predicate KeepsRequest(op: Op) {
    || op.Start? || op.Stop? || op.UpdateFirewall? || op.UpdateHostname? || op.CreateSnapshot? || op.ListSnapshots?
  }

  /** Rules last: a start, a stop, a new name or a snapshot leaves them, and nothing but an
      update that the backend applied puts others in their place. */
  lemma RulesLast(s: State, op: Op, id: string)
    requires Consistent(s) && AnswersOk(s, op) && id in s.store
    requires KeepsRequest(op)
    ensures id in Step(s, op).store
    ensures Step(s, op).store[id].firewall ==
            if op.UpdateFirewall? && op.id == id && op.ok then op.rules else s.store[id].firewall
  {
    hide PoolOk;
  }

  /** So does a hostname, which is always stored without spaces around it. */
  lemma HostnameLasts(s: State, op: Op, id: string)
    requires Consistent(s) && AnswersOk(s, op) && id in s.store
    requires KeepsRequest(op)
    ensures id in Step(s, op).store
    ensures Step(s, op).store[id].hostname ==
            if op.UpdateHostname? && op.id == id then TrimSpace(op.hostname) else s.store[id].hostname
  {
    hide PoolOk, TrimSpace;
  }

  /** Snapshots pile up until the backend's list replaces them; a listing that names just
      those changes nothing at all, not even the time of the last update. */
  lemma SnapshotsPileUp(s: State, id: string, snap: string, now: int, listed: seq<string>)
    requires Consistent(s) && id in s.store
    ensures var after := Step(s, CreateSnapshot(id, Some(snap), now));
            && after.store[id].snapshots == s.store[id].snapshots + [snap]
            && (listed == after.store[id].snapshots ==> Step(after, ListSnapshots(id, Some(listed))) == after)
            && Step(after, ListSnapshots(id, Some(listed))).store[id].snapshots == listed
    ensures Step(s, CreateSnapshot(id, None, now)) == s && Step(s, ListSnapshots(id, None)) == s
  {
    hide PoolOk;
    var after := Step(s, CreateSnapshot(id, Some(snap), now));
    assert after.store[id].id == id;
  }

  /** A restore takes over what the backend reports, if it reports a status, and stamps it. */
  lemma RestoreTakesOver(s: State, op: Op)
    requires Consistent(s) && AnswersOk(s, op) && op.RestoreSnapshot? && op.id in s.store
    ensures !op.ok ==> Step(s, op) == s
    ensures op.ok ==> Step(s, op).store[op.id].updatedAt == op.now
    ensures op.ok && op.sync.inst.status != Unset ==>
            && Step(s, op).store[op.id].status == op.sync.inst.status
            && Step(s, op).store[op.id].snapshots == op.sync.inst.snapshots
    ensures op.ok && op.sync.inst.status == Unset ==> Step(s, op).store[op.id].status == s.store[op.id].status
  {
    hide PoolOk;
  }

  /** A create followed by a successful delete leaves the plane as it was. */
  lemma DeleteUndoesCreate(s: State, op: Op, after: State, vm: Instance)
    requires Consistent(s) && op.Create? && AnswersOk(s, op) && CreateStep(s, op) == (after, Ok(vm))
    ensures DeleteStep(after, op.newID, true) == s
  {
    CreateShape(s, op, after, Ok(vm));
    TakenBack(s, op.newID);
    hide CreateStep, Consistent, TakeAddress;
    assert after.store - {op.newID} == s.store;
  }

  // ---------- the records in full ----------

  /** What Create stores when the backend refuses: everything asked for, with the error. */
  lemma FailedRecord(s: State, op: Op, after: State)
    requires op.Create? && AnswersOk(s, op) && CreateStep(s, op) == (after, Err(BackendFailed))
    ensures op.newID in after.store && op.backend.Err?
    ensures var vm := after.store[op.newID];
            && vm.id == op.newID && vm.name == TrimSpace(op.req.name) && vm.image == TrimSpace(op.req.image)
            && vm.plan == (if TrimSpace(op.req.plan) == "" then "small" else TrimSpace(op.req.plan))
            && vm.status == Failed && vm.error == op.backend.error && vm.backendID == ""
            && vm.createdAt == op.now && vm.updatedAt == op.now && vm.startedAt == None
            && vm.sshKeys == op.req.sshKeys && vm.accountID == TrimSpace(op.req.accountID)
            && vm.snapshots == [] && vm.health == None && vm.ipv4 == ""
  {
    hide TakeAddress, TrimSpace;
  }

  /** What it stores when the backend makes the VM and reports nothing about it yet. */
  lemma CreatedRecord(s: State, op: Op, vm: Instance)
    requires op.Create? && AnswersOk(s, op) && CreateStep(s, op).1 == Ok(vm)
    requires op.sync.inst.status == Unset
    ensures vm.id == op.newID && vm.name == TrimSpace(op.req.name) && vm.image == TrimSpace(op.req.image)
    ensures vm.plan == if TrimSpace(op.req.plan) == "" then "small" else TrimSpace(op.req.plan)
    ensures vm.status == Running && vm.error == "" && op.backend == Ok(vm.backendID)
    ensures vm.createdAt == op.now && vm.updatedAt == op.now && vm.startedAt == Some(op.now)
    ensures vm.snapshots == [] && vm.health == None && vm.ipv4 == ""
  {
    hide TakeAddress, TrimSpace;
  }

  /** With a report, everything else is as reported. */
  lemma ReportedRecord(s: State, op: Op, vm: Instance)
    requires op.Create? && AnswersOk(s, op) && CreateStep(s, op).1 == Ok(vm)
    requires op.sync.inst.status != Unset
    ensures op.backend == Ok(vm.backendID)
    ensures vm == op.sync.inst.(backendID := vm.backendID, publicIPv4 := vm.publicIPv4, firewall := vm.firewall,
                                hostname := vm.hostname, sshKeys := vm.sshKeys, accountID := vm.accountID)
  {
    hide TakeAddress, TrimSpace;
  }

  /** What a start and a stop make of a record: no field but those named changes. */
  lemma RunningRecord(s: State, op: Op, before: Instance)
    requires Consistent(s) && AnswersOk(s, op) && (op.Start? || op.Stop?) && op.ok
    requires op.id in s.store && before == s.store[op.id]
    ensures op.Start? && op.sync.inst.status == Unset ==>
              Step(s, op).store[op.id] == before.(status := Running, startedAt := Some(op.now), updatedAt := op.now)
    ensures op.Start? && op.sync.inst.status != Unset ==>
              Step(s, op).store[op.id] ==
              before.(status := op.sync.inst.status, startedAt := Some(op.now), updatedAt := op.now,
                      health := op.sync.inst.health, ipv4 := op.sync.inst.ipv4)
    ensures op.Stop? ==>
              Step(s, op).store[op.id] ==
              before.(status := Stopped, startedAt := None, updatedAt := op.now,
                      health := if op.sync.inst.health == None then before.health else op.sync.inst.health)
  {
    hide PoolOk;
  }

  /** What the other operations on one VM make of its record. */
  lemma ChangedRecord(s: State, op: Op, before: Instance)
    requires Consistent(s) && AnswersOk(s, op)
    requires op.Get? || op.UpdateFirewall? || op.UpdateHostname? || op.CreateSnapshot? || op.ListSnapshots?
    requires op.id in s.store && before == s.store[op.id]
    ensures op.Get? ==>
              Step(s, op).store[op.id] ==
              if !op.sync.ok then before
              else op.sync.inst.(snapshots := if op.snaps == None then op.sync.inst.snapshots else op.snaps.value)
    ensures op.UpdateFirewall? ==>
              Step(s, op).store[op.id] == if op.ok then before.(firewall := op.rules, updatedAt := op.now) else before
    ensures op.UpdateHostname? ==>
              Step(s, op).store[op.id] == before.(hostname := TrimSpace(op.hostname), updatedAt := op.now)
    ensures op.CreateSnapshot? ==>
              Step(s, op).store[op.id] ==
              if op.snap == None then before
              else before.(snapshots := before.snapshots + [op.snap.value], updatedAt := op.now)
    ensures op.ListSnapshots? ==>
              Step(s, op).store[op.id] == if op.snaps == None then before else before.(snapshots := op.snaps.value)
  {
    hide PoolOk, TrimSpace;
  }

  /** A listing stores what the backend reports of each VM whose sync succeeds. */
  lemma ListedRecord(s: State, op: Op, id: string)
    requires Consistent(s) && AnswersOk(s, op) && op.List? && id in s.store
    ensures Step(s, op).store.Keys == s.store.Keys && Step(s, op).held == s.held
    ensures op.syncs[id].ok ==>
              Step(s, op).store[id] ==
              op.syncs[id].inst.(snapshots := if op.listed[id] == None then op.syncs[id].inst.snapshots
                                              else op.listed[id].value)
    ensures !op.syncs[id].ok ==> Step(s, op).store[id] == s.store[id]
  {
    hide PoolOk;
  }

  /** An operation on a VM that is not there changes nothing; nor does a delete that the
      backend refuses, and one that it allows takes away record and address, and only those. */
  lemma MissingAndDeleted(s: State, op: Op)
    requires Consistent(s) && AnswersOk(s, op) && !op.Create? && !op.List?
    ensures op.id !in s.store ==> Step(s, op) == s
    ensures op.Delete? && !op.ok ==> Step(s, op) == s
    ensures op.Delete? && op.ok && op.id in s.store ==>
              Step(s, op) == State(s.store - {op.id}, s.pool, s.held - {op.id})
  {
    hide PoolOk, Started, Halted, Refreshed, WithSnapshot, WithSnapshots, WithRules, Renamed, Restored;
  }

  /** What a create is refused with before anything is tried. */
  lemma CreateErrors(s: State, op: Op)
    requires op.Create? && AnswersOk(s, op)
    ensures TrimSpace(op.req.name) == "" ==> CreateStep(s, op) == (s, Err(NameRequired))
    ensures TrimSpace(op.req.name) != "" && !op.planKnown ==> CreateStep(s, op) == (s, Err(UnknownPlan))
    ensures TrimSpace(op.req.name) != "" && op.planKnown && op.backend.Err? ==>
              CreateStep(s, op).1 in {Err(NoAddress), Err(BackendFailed)}
  {
    hide TakeAddress, TrimSpace;
  }

  /** What an operation on one VM answers: the record as it is then stored, or why not. */
  lemma UpdateAnswers(s: State, id: string, ok: bool, after: Instance -> Instance)
    requires Consistent(s) && (id in s.store ==> after(s.store[id]).id == id)
    ensures id !in s.store ==> Update(s, id, ok, after).1 == Err(NotFound)
    ensures id in s.store && !ok ==> Update(s, id, ok, after).1 == Err(BackendFailed)
    ensures id in s.store && ok ==>
              var (s', r) := Update(s, id, ok, after); id in s'.store && r == Ok(s'.store[id])
  {
    hide PoolOk;
  }
}
