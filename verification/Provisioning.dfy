/** Provisioning, port reservations and idempotency keys (server/localStore.ts).

  Five tables with their primary keys and unique columns. `Provisioned` is the meaning of the provisioning
  transaction; the class executes it statement by statement, with a rollback on every way out that is not
  a success. The theorems hold in every run of provisioning, reserving, releasing and deleting. */
module Provisioning {

  import opened Options
  import opened Text

  /** user_id and owner_id of an instance, its status, and the ports its record and its configuration name. */
  datatype Instance = Instance(
    id: string, userId: Option<string>, ownerId: Option<string>, path: string, status: string,
    hostPort: Option<int>, configPort: Option<int>)

  datatype Task = Task(
    id: string, instanceId: string, status: string, attempt: int, maxAttempts: int, payloadPort: Option<int>)

  datatype KeyRecord = KeyRecord(requestHash: string, instanceId: string, taskId: string)

  datatype Store = Store(
    identities: map<string, string>,      // instance id -> path, path unique without regard to case
    reservations: map<int, string>,       // port -> instance id, instance id unique
    instances: map<string, Instance>,
    tasks: map<string, Task>,
    keys: map<string, KeyRecord>)

  datatype Input = Input(
    instance: Instance, task: Task, idempotencyKey: Option<string>, requestHash: Option<string>,
    candidatePorts: seq<int>, maxActiveInstances: Option<int>)

  datatype Code = IdempotencyConflict | PathConflict | QuotaExceeded | PortUnavailable

  /** `Thrown` is a constraint violation the source does not turn into a conflict: it rolls back and
      rethrows. */
  datatype Outcome =
    | Created(instance: Instance, task: Task, port: int)
    | Replay(instanceId: string, taskId: string)
    | Conflict(code: Code)
    | Thrown

  // ---------------------------------------------------------------- constraints

  predicate UniquePaths(identities: map<string, string>) {
    forall a, b :: a in identities && b in identities && FoldCase(identities[a]) == FoldCase(identities[b]) ==> a == b
  }

  /** No two instances share a port (ports are keys) and no instance holds two. */
  predicate OnePortEach(reservations: map<int, string>) {
    forall p, q :: p in reservations && q in reservations && reservations[p] == reservations[q] ==> p == q
  }

  /** Every idempotency record points at an identity and a task that exist and belong together. */
  predicate KeysResolve(s: Store) {
    forall k :: k in s.keys ==>
      && s.keys[k].instanceId in s.identities
      && s.keys[k].taskId in s.tasks
      && s.tasks[s.keys[k].taskId].instanceId == s.keys[k].instanceId
  }

  predicate Valid(s: Store) {
    UniquePaths(s.identities) && OnePortEach(s.reservations) && KeysResolve(s)
  }

  predicate PathTaken(s: Store, id: string, path: string) {
    id in s.identities || exists other :: other in s.identities && FoldCase(s.identities[other]) == FoldCase(path)
  }

  // ---------------------------------------------------------------- ports

  /** The first candidate an INSERT accepts: a port nobody holds, for an instance that holds none. */
  function FirstFree(reservations: map<int, string>, instanceId: string, candidates: seq<int>): (port: Option<int>)
    ensures port.Some? ==> port.value in candidates && port.value !in reservations && instanceId !in reservations.Values
    ensures port.None? ==> instanceId in reservations.Values || forall p :: p in candidates ==> p in reservations
  {
    if candidates == [] then None
    else if candidates[0] !in reservations && instanceId !in reservations.Values then Some(candidates[0])
    else FirstFree(reservations, instanceId, candidates[1..])
  }

  function Released(reservations: map<int, string>, instanceId: string): map<int, string> {
    map p | p in reservations && reservations[p] != instanceId :: reservations[p]
  }

  /** reservePortForInstance: the old reservation is given up only together with taking a new one. */
  function Reserved(reservations: map<int, string>, instanceId: string, candidates: seq<int>)
    : (map<int, string>, Option<int>)
  {
    var others := Released(reservations, instanceId);
    var port := FirstFree(others, instanceId, candidates);
    if port.Some? then (others[port.value := instanceId], port) else (reservations, None)
  }

  /** Reserving picks the first candidate that no other instance holds; if there is none, everything stays
      as it was. */
  lemma ReservesFirstFree(reservations: map<int, string>, instanceId: string, candidates: seq<int>, k: nat)
    requires OnePortEach(reservations) && k <= |candidates|
    requires forall i :: 0 <= i < k ==> candidates[i] in reservations && reservations[candidates[i]] != instanceId
    requires k < |candidates| ==> candidates[k] in reservations ==> reservations[candidates[k]] == instanceId
    ensures var (after, port) := Reserved(reservations, instanceId, candidates);
            && OnePortEach(after)
            && port == (if k < |candidates| then Some(candidates[k]) else None)
            && (port.None? ==> after == reservations)
            && (port.Some? ==> port.value in after && after[port.value] == instanceId
                               && forall p :: p != port.value ==>
                                    (p in after <==> p in reservations && reservations[p] != instanceId)
                                    && (p in after ==> after[p] == reservations[p]))
  {
    FirstFreeAt(Released(reservations, instanceId), instanceId, candidates, k);
  }

  lemma {:induction false} FirstFreeAt(reservations: map<int, string>, instanceId: string, candidates: seq<int>, k: nat)
    requires k <= |candidates| && instanceId !in reservations.Values
    requires forall i :: 0 <= i < k ==> candidates[i] in reservations
    requires k < |candidates| ==> candidates[k] !in reservations
    ensures FirstFree(reservations, instanceId, candidates) == if k < |candidates| then Some(candidates[k]) else None
  {
    if k > 0 {
      FirstFreeAt(reservations, instanceId, candidates[1..], k - 1);
    }
  }

  // ---------------------------------------------------------------- the transaction

  function Key(input: Input): string {
    Trim(input.idempotencyKey.GetOr(""))
  }

  predicate OwnedActive(i: Instance, user: Option<string>) {
    (i.userId == user || i.ownerId == user) && i.status != "deleted" && i.status != "archived"
  }

  function ActiveCount(instances: map<string, Instance>, user: Option<string>): nat {
    |set id | id in instances && OwnedActive(instances[id], user)|
  }

  function PlacedInstance(input: Input, port: int): Instance {
    input.instance.(hostPort := Some(port), configPort := Some(port))
  }

  function QueuedTask(input: Input, port: int): Task {
    input.task.(instanceId := input.instance.id, status := "queued", payloadPort := Some(port),
                maxAttempts := if input.task.maxAttempts == 0 then 3 else input.task.maxAttempts)
  }

  function Provisioned(s: Store, input: Input): (Store, Outcome) {
    var id, key, path := input.instance.id, Key(input), Trim(input.instance.path);
    if key != "" && key in s.keys then
      (s, if Some(s.keys[key].requestHash) == input.requestHash then Replay(s.keys[key].instanceId, s.keys[key].taskId)
          else Conflict(IdempotencyConflict))
    else if input.maxActiveInstances.Some?
            && ActiveCount(s.instances, input.instance.userId) >= input.maxActiveInstances.value then
      (s, Conflict(QuotaExceeded))
    else if PathTaken(s, id, path) then
      (s, Conflict(PathConflict))
    else
      var port := FirstFree(s.reservations, id, input.candidatePorts);
      if port.None? then
        (s, Conflict(PortUnavailable))
      else if id in s.instances || input.task.id in s.tasks then
        (s, Thrown)
      else
        var instance, task := PlacedInstance(input, port.value), QueuedTask(input, port.value);
        (Store(s.identities[id := path], s.reservations[port.value := id], s.instances[id := instance],
               s.tasks[task.id := task],
               if key == "" then s.keys else s.keys[key := KeyRecord(input.requestHash.GetOr(""), id, task.id)]),
         Created(instance, task, port.value))
  }

  // ---------------------------------------------------------------- in place

  class Database {
    var store: Store

    constructor ()
      ensures store == Store(map[], map[], map[], map[], map[])
    {
      store := Store(map[], map[], map[], map[], map[]);
    }

    method InsertIdentity(id: string, path: string) returns (ok: bool)
      modifies this
      ensures ok <==> !PathTaken(old(store), id, path)
      ensures store == if ok then old(store).(identities := old(store).identities[id := path]) else old(store)
    {
      ok := !PathTaken(store, id, path);
      if ok {
        store := store.(identities := store.identities[id := path]);
      }
    }

    method InsertReservation(port: int, instanceId: string) returns (ok: bool)
      modifies this
      ensures ok <==> port !in old(store).reservations && instanceId !in old(store).reservations.Values
      ensures store == if ok then old(store).(reservations := old(store).reservations[port := instanceId])
                       else old(store)
    {
      ok := port !in store.reservations && instanceId !in store.reservations.Values;
      if ok {
        store := store.(reservations := store.reservations[port := instanceId]);
      }
    }

    /** The candidate loop both reserving transactions share. */
    method TakeFirstFree(instanceId: string, candidates: seq<int>) returns (port: Option<int>)
      modifies this
      ensures port == FirstFree(old(store).reservations, instanceId, candidates)
      ensures store == if port.Some? then old(store).(reservations := old(store).reservations[port.value := instanceId])
                       else old(store)
    {
      ghost var was := store;
      var k := 0;
      assert candidates[0..] == candidates;
      while k < |candidates|
        invariant 0 <= k <= |candidates| && store == was
        invariant FirstFree(was.reservations, instanceId, candidates)
                  == FirstFree(was.reservations, instanceId, candidates[k..])
      {
        var ok := InsertReservation(candidates[k], instanceId);
        if ok {
          return Some(candidates[k]);
        }
        assert candidates[k..][1..] == candidates[k + 1..];
        k := k + 1;
      }
      port := None;
    }

    /** The source's createProvisioningBundle. */
    method CreateBundle(input: Input) returns (outcome: Outcome)
      modifies this
      ensures (store, outcome) == Provisioned(old(store), input)
    {
      var saved := store;
      var id, key := input.instance.id, Trim(input.idempotencyKey.GetOr(""));
      if key != "" && key in store.keys {
        var existing := store.keys[key];
        if Some(existing.requestHash) == input.requestHash {
          return Replay(existing.instanceId, existing.taskId);
        }
        return Conflict(IdempotencyConflict);
      }
      if input.maxActiveInstances.Some? {
        var active := ActiveCount(store.instances, input.instance.userId);
        if active >= input.maxActiveInstances.value {
          return Conflict(QuotaExceeded);
        }
      }
      var ok := InsertIdentity(id, Trim(input.instance.path));
      if !ok {
        store := saved;
        return Conflict(PathConflict);
      }
      var port := TakeFirstFree(id, input.candidatePorts);
      if port.None? {
        store := saved;
        return Conflict(PortUnavailable);
      }
      var instance := PlacedInstance(input, port.value);
      if id in store.instances {
        store := saved;
        return Thrown;
      }
      store := store.(instances := store.instances[id := instance]);
      var task := QueuedTask(input, port.value);
      if task.id in store.tasks {
        store := saved;
        return Thrown;
      }
      store := store.(tasks := store.tasks[task.id := task]);
      if key != "" {
        store := store.(keys := store.keys[key := KeyRecord(input.requestHash.GetOr(""), id, task.id)]);
      }
      outcome := Created(instance, task, port.value);
    }

    /** The source's reservePortForInstance. */
    method ReservePort(instanceId: string, candidates: seq<int>) returns (port: Option<int>)
      modifies this
      ensures port == Reserved(old(store).reservations, instanceId, candidates).1
      ensures store == old(store).(reservations := Reserved(old(store).reservations, instanceId, candidates).0)
    {
      var saved := store;
      store := store.(reservations := Released(store.reservations, instanceId));
      port := TakeFirstFree(instanceId, candidates);
      if port.None? {
        store := saved;
      }
    }

    /** The source's releasePortReservation. */
    method ReleasePort(instanceId: string)
      modifies this
      ensures store == Apply(old(store), Release(instanceId))
      ensures store == old(store).(reservations := store.reservations)
      ensures KeepsAllBut(old(store).reservations, store.reservations, PortsOf(old(store), instanceId))
    {
      store := store.(reservations := Released(store.reservations, instanceId));
    }

    /** The source's deleteProvisioningRecords. */
    method DeleteRecords(instanceId: string)
      modifies this
      ensures store == Apply(old(store), Delete(instanceId))
      ensures Forgets(old(store), store, instanceId)
    {
      store := store.(identities := store.identities - {instanceId});
      ReleasePort(instanceId);
      store := store.(tasks := map t | t in store.tasks && store.tasks[t].instanceId != instanceId :: store.tasks[t]);
      store := store.(keys := map k | k in store.keys && store.keys[k].instanceId != instanceId :: store.keys[k]);
    }
  }

  /** The rows with these keys are gone, and the others are as they were. */
  ghost predicate KeepsAllBut<K, V>(before: map<K, V>, after: map<K, V>, gone: set<K>) {
    after.Keys == before.Keys - gone && forall k :: k in after ==> after[k] == before[k]
  }

  function PortsOf(s: Store, id: string): set<int> {
    set p | p in s.reservations && s.reservations[p] == id
  }

  /** Nothing is left that names the instance but its own row, and everything else is as it was. */
  ghost predicate Forgets(s: Store, r: Store, id: string) {
    && r.instances == s.instances
    && KeepsAllBut(s.identities, r.identities, {id})
    && KeepsAllBut(s.reservations, r.reservations, PortsOf(s, id))
    && KeepsAllBut(s.tasks, r.tasks, set t | t in s.tasks && s.tasks[t].instanceId == id)
    && KeepsAllBut(s.keys, r.keys, set k | k in s.keys && s.keys[k].instanceId == id)
  }

  // ---------------------------------------------------------------- runs

  datatype Op =
    | Provision(input: Input)
    | Reserve(instanceId: string, candidates: seq<int>)
    | Release(instanceId: string)
    | Delete(instanceId: string)

  function Apply(s: Store, op: Op): Store {
    match op
    case Provision(input) => Provisioned(s, input).0
    case Reserve(id, candidates) => s.(reservations := Reserved(s.reservations, id, candidates).0)
    case Release(id) => s.(reservations := Released(s.reservations, id))
    case Delete(id) =>
      Store(s.identities - {id}, Released(s.reservations, id), s.instances,
            map t | t in s.tasks && s.tasks[t].instanceId != id :: s.tasks[t],
            map k | k in s.keys && s.keys[k].instanceId != id :: s.keys[k])
  }

  function Run(s: Store, ops: seq<Op>): Store {
    if ops == [] then s else Apply(Run(s, ops[..|ops| - 1]), ops[|ops| - 1])
  }

  lemma ApplyKeepsValid(s: Store, op: Op)
    requires Valid(s)
    ensures Valid(Apply(s, op))
  {
    hide Trim, FirstFree, ActiveCount, FoldCase;
    match op
    case Provision(input) => ProvisioningKeepsValid(s, input);
    case Reserve(id, candidates) => assert OnePortEach(Released(s.reservations, id));
    case Release(id) =>
    case Delete(id) =>
  }

  lemma ProvisioningKeepsValid(s: Store, input: Input)
    requires Valid(s)
    ensures Valid(Provisioned(s, input).0)
  {
    hide Trim, FirstFree, ActiveCount, FoldCase;
    var after := Provisioned(s, input).0;
    assert UniquePaths(after.identities);
    assert OnePortEach(after.reservations);
  }

  /** Port safety and referential integrity: in every run no two instances share a port or a path, no
      instance holds two ports, and every idempotency record resolves. */
  lemma {:induction false} RunsStayValid(s: Store, ops: seq<Op>)
    requires Valid(s)
    ensures Valid(Run(s, ops))
  {
    if ops != [] {
      RunsStayValid(s, ops[..|ops| - 1]);
      ApplyKeepsValid(Run(s, ops[..|ops| - 1]), ops[|ops| - 1]);
    }
  }

  // ---------------------------------------------------------------- atomicity

  /** Exactly one row is new; every other row is kept. */
  ghost predicate AddsRow<K, V>(before: map<K, V>, after: map<K, V>, k: K, v: V) {
    k !in before && after == before[k := v]
  }

  /** All or nothing: anything but a creation leaves every table as it was, and a creation adds exactly one
      row to each, all naming the same instance, task and port. */
  lemma AllOrNothing(s: Store, input: Input)
    ensures var (after, outcome) := Provisioned(s, input);
            match outcome
            case Created(instance, task, port) =>
              var id := input.instance.id;
              && instance.id == id && task.instanceId == id && task.id == input.task.id && task.status == "queued"
              && task.attempt == input.task.attempt
              && task.maxAttempts == (if input.task.maxAttempts == 0 then 3 else input.task.maxAttempts)
              && instance.path == input.instance.path && instance.status == input.instance.status
              && instance.userId == input.instance.userId && instance.ownerId == input.instance.ownerId
              && instance.hostPort == instance.configPort == task.payloadPort == Some(port)
              && port in input.candidatePorts
              && AddsRow(s.identities, after.identities, id, Trim(input.instance.path))
              && AddsRow(s.reservations, after.reservations, port, id)
              && AddsRow(s.instances, after.instances, id, instance)
              && AddsRow(s.tasks, after.tasks, task.id, task)
              && (if Key(input) == "" then after.keys == s.keys
                  else AddsRow(s.keys, after.keys, Key(input), KeyRecord(input.requestHash.GetOr(""), id, task.id)))
            case _ => after == s
  {
  }

  // ---------------------------------------------------------------- what is created and what is refused

  /** There is a record under the request's key. */
  predicate Recorded(s: Store, input: Input) {
    var key := Trim(input.idempotencyKey.GetOr(""));
    key != "" && key in s.keys
  }

  /** The instances of this owner that are neither deleted nor archived are fewer than the limit, if there is one. */
  predicate WithinQuota(s: Store, input: Input) {
    var user := input.instance.userId;
    input.maxActiveInstances.Some? ==>
      |set id | id in s.instances
                && (s.instances[id].userId == user || s.instances[id].ownerId == user)
                && s.instances[id].status !in {"deleted", "archived"}| < input.maxActiveInstances.value
  }

  /** Neither the id nor the path, in whatever case, belongs to a known instance. */
  predicate NewIdentity(s: Store, input: Input) {
    && input.instance.id !in s.identities
    && forall id :: id in s.identities ==> FoldCase(s.identities[id]) != FoldCase(Trim(input.instance.path))
  }

  /** The instance has no port yet and some candidate is free. */
  predicate PortLeft(s: Store, input: Input) {
    && input.instance.id !in s.reservations.Values
    && exists k :: 0 <= k < |input.candidatePorts| && input.candidatePorts[k] !in s.reservations
  }

  predicate NewRows(s: Store, input: Input) {
    input.instance.id !in s.instances && input.task.id !in s.tasks
  }

  /** Exactly when a request creates an instance, and which refusal each failing condition gives: the first that
      fails, in this order, decides. */
  lemma CreatedIff(s: Store, input: Input)
    ensures var outcome := Provisioned(s, input).1;
            && (outcome.Created? <==>
                  !Recorded(s, input) && WithinQuota(s, input) && NewIdentity(s, input) && PortLeft(s, input)
                  && NewRows(s, input))
            && (outcome.Replay? || outcome == Conflict(IdempotencyConflict) <==> Recorded(s, input))
            && (outcome == Conflict(QuotaExceeded) <==> !Recorded(s, input) && !WithinQuota(s, input))
            && (outcome == Conflict(PathConflict) <==>
                  !Recorded(s, input) && WithinQuota(s, input) && !NewIdentity(s, input))
            && (outcome == Conflict(PortUnavailable) <==>
                  !Recorded(s, input) && WithinQuota(s, input) && NewIdentity(s, input) && !PortLeft(s, input))
            && (outcome == Thrown <==>
                  !Recorded(s, input) && WithinQuota(s, input) && NewIdentity(s, input) && PortLeft(s, input)
                  && !NewRows(s, input))
  {
    QuotaIff(s, input);
    IdentityIff(s, input);
    PortIff(s, input);
    hide Trim, FoldCase, FirstFree, ActiveCount, WithinQuota, NewIdentity, PathTaken, PortLeft, PlacedInstance,
         QueuedTask;
  }

  lemma QuotaIff(s: Store, input: Input)
    ensures WithinQuota(s, input) <==>
              input.maxActiveInstances.None?
              || ActiveCount(s.instances, input.instance.userId) < input.maxActiveInstances.value
  {
    var user := input.instance.userId;
    var counted := set id | id in s.instances
                            && (s.instances[id].userId == user || s.instances[id].ownerId == user)
                            && s.instances[id].status !in {"deleted", "archived"};
    assert counted == set id | id in s.instances && OwnedActive(s.instances[id], user);
  }

  lemma IdentityIff(s: Store, input: Input)
    ensures NewIdentity(s, input) <==> !PathTaken(s, input.instance.id, Trim(input.instance.path))
  {
    hide Trim, FoldCase;
  }

  lemma PortIff(s: Store, input: Input)
    ensures PortLeft(s, input) <==> FirstFree(s.reservations, input.instance.id, input.candidatePorts).Some?
  {
    hide FirstFree;
    var port := FirstFree(s.reservations, input.instance.id, input.candidatePorts);
    if port.Some? {
      var k :| 0 <= k < |input.candidatePorts| && input.candidatePorts[k] == port.value;
    }
  }

  /** The port of a creation is the first candidate that nobody holds. */
  lemma {:induction false} CreatedOnFirstFree(s: Store, input: Input)
    requires Provisioned(s, input).1.Created?
    ensures exists k ::
              && 0 <= k < |input.candidatePorts| && input.candidatePorts[k] == Provisioned(s, input).1.port
              && input.candidatePorts[k] !in s.reservations
              && forall i :: 0 <= i < k ==> input.candidatePorts[i] in s.reservations
  {
    var k := FreeAt(s.reservations, input.instance.id, input.candidatePorts);
  }

  lemma {:induction false} FreeAt(reservations: map<int, string>, instanceId: string, candidates: seq<int>)
    returns (k: nat)
    requires FirstFree(reservations, instanceId, candidates).Some?
    ensures k < |candidates| && Some(candidates[k]) == FirstFree(reservations, instanceId, candidates)
    ensures candidates[k] !in reservations && forall i :: 0 <= i < k ==> candidates[i] in reservations
  {
    if candidates[0] !in reservations && instanceId !in reservations.Values {
      k := 0;
    } else {
      k := FreeAt(reservations, instanceId, candidates[1..]);
      k := k + 1;
    }
  }

  /** What a request under a recorded key is answered. */
  lemma RecordedAnswer(s: Store, input: Input)
    requires Recorded(s, input)
    ensures var r := s.keys[Trim(input.idempotencyKey.value)];
            Provisioned(s, input) == (s, if input.requestHash == Some(r.requestHash) then Replay(r.instanceId, r.taskId)
                                         else Conflict(IdempotencyConflict))
  {
  }

  /** A creation under a limit leaves the user within the limit. */
  lemma QuotaIsKept(s: Store, input: Input)
    requires Provisioned(s, input).1.Created? && input.maxActiveInstances.Some?
    ensures ActiveCount(Provisioned(s, input).0.instances, input.instance.userId) <= input.maxActiveInstances.value
  {
    var user, id := input.instance.userId, input.instance.id;
    var after := Provisioned(s, input).0.instances;
    var was := set k | k in s.instances && OwnedActive(s.instances[k], user);
    var now := set k | k in after && OwnedActive(after[k], user);
    assert now <= was + {id};
    SubsetIsSmaller(now, was + {id});
  }

  lemma {:induction false} SubsetIsSmaller(a: set<string>, b: set<string>)
    requires a <= b
    ensures |a| <= |b|
  {
    if a != {} {
      var x :| x in a;
      SubsetIsSmaller(a - {x}, b - {x});
    }
  }

  // ---------------------------------------------------------------- replay

  ghost predicate HasRecord(s: Store, key: string, r: KeyRecord) {
    key in s.keys && s.keys[key] == r
  }

  lemma {:induction false} RecordSurvives(s: Store, ops: seq<Op>, key: string, r: KeyRecord)
    requires HasRecord(s, key, r)
    requires Delete(r.instanceId) !in ops
    ensures HasRecord(Run(s, ops), key, r)
  {
    if ops != [] {
      RecordSurvives(s, ops[..|ops| - 1], key, r);
      RecordStep(Run(s, ops[..|ops| - 1]), ops[|ops| - 1], key, r);
    }
  }

  lemma RecordStep(s: Store, op: Op, key: string, r: KeyRecord)
    requires HasRecord(s, key, r) && op != Delete(r.instanceId)
    ensures HasRecord(Apply(s, op), key, r)
  {
    hide Trim, FirstFree, PathTaken, ActiveCount, Reserved;
  }

  /** After a creation under a key, every later request under that key is answered with the original ids
      when it carries the recorded hash and with a conflict otherwise, in every run that does not delete
      the instance's records; no such request changes anything. */
  lemma KeyAnswersUntilDeleted(s: Store, input: Input, ops: seq<Op>, later: Input)
    requires Provisioned(s, input).1.Created? && Key(input) != "" && Key(later) == Key(input)
    requires Delete(input.instance.id) !in ops
    ensures var t := Run(Provisioned(s, input).0, ops);
            Provisioned(t, later) == (t, if later.requestHash == Some(input.requestHash.GetOr(""))
                                         then Replay(input.instance.id, input.task.id)
                                         else Conflict(IdempotencyConflict))
  {
    RecordSurvives(Provisioned(s, input).0, ops, Key(input),
                   KeyRecord(input.requestHash.GetOr(""), input.instance.id, input.task.id));
  }

  /** A literal retry is replayed exactly when the request carried a hash. Without one the record stores the
      empty text, which a missing hash does not equal, and the retry is refused. */
  lemma RetryReplaysIff(s: Store, input: Input, ops: seq<Op>)
    requires Provisioned(s, input).1.Created? && Key(input) != ""
    requires Delete(input.instance.id) !in ops
    ensures Provisioned(Run(Provisioned(s, input).0, ops), input).1 == Replay(input.instance.id, input.task.id)
            <==> input.requestHash.Some?
  {
    KeyAnswersUntilDeleted(s, input, ops, input);
  }

  /** Deleting the records frees the key: the next request under it is not a replay. */
  lemma DeletionFreesKey(s: Store, instanceId: string, key: string, later: Input)
    requires key in s.keys && s.keys[key].instanceId == instanceId && Key(later) == key
    ensures var (after, outcome) := Provisioned(Apply(s, Delete(instanceId)), later);
            !outcome.Replay? && outcome != Conflict(IdempotencyConflict)
  {
  }
}
