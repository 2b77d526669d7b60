/** The lease-based deployment queue of server/localStore.ts.

  The table is a sequence of tasks in rowid order. `Next` gives the meaning of every statement the queue is
  changed by; the class executes them in place and is proved against it; the theorems are about arbitrary
  runs of such steps, by any number of workers, with any clock readings. */
module DeploymentQueue {

  import opened Options

  datatype Status = Queued | Deploying | RetryWait | Success | Failed | Cancelled | OtherStatus(name: string)

  datatype Task = Task(
    id: string, instanceId: string, status: Status, workerId: Option<string>,
    lockedAt: Option<nat>, leaseUntil: Option<nat>, heartbeatAt: Option<nat>,
    attempt: int, maxAttempts: int, currentStep: string, nextRetryAt: Option<nat>,
    errorCode: Option<string>, errorMessage: Option<string>, errorDetail: Option<string>, failedAt: Option<nat>,
    cancelRequested: bool, createdAt: nat, updatedAt: nat, completedAt: Option<nat>)

  /** A column an update writes, or leaves alone. */
  datatype Write<+T> = Leave | Put(value: T)

  /** The columns updateDeploymentTaskCore may write, without attempt and max_attempts; worker_id may be
      cleared but not set to a worker. */
  datatype Patch = Patch(
    status: Write<Status>, clearWorker: bool, lockedAt: Write<Option<nat>>, leaseUntil: Write<Option<nat>>,
    heartbeatAt: Write<Option<nat>>, currentStep: Write<string>, nextRetryAt: Write<Option<nat>>,
    errorCode: Write<Option<string>>, errorMessage: Write<Option<string>>, errorDetail: Write<Option<string>>,
    failedAt: Write<Option<nat>>, cancelRequested: Write<bool>, completedAt: Write<Option<nat>>)

  const EMPTY_PATCH := Patch(Leave, false, Leave, Leave, Leave, Leave, Leave, Leave, Leave, Leave, Leave, Leave, Leave)

  /** What can happen to the queue. A guard of "" is the source's update without a worker. */
  datatype Action =
    | Claim(worker: string, lease: nat)
    | FailExhausted
    | Renew(id: string, worker: string, lease: nat)
    | Update(id: string, patch: Patch, guard: string)
    | CancelInstance(instanceId: string)
    | Create(task: Task)
    | DeleteInstance(instanceId: string)

  datatype Event = Event(now: nat, action: Action)

  // ---------------------------------------------------------------- one row

  predicate Claimable(t: Task, now: nat) {
    !t.cancelRequested && t.attempt < t.maxAttempts
    && (t.status == Queued
        || (t.status == RetryWait && (t.nextRetryAt.None? || t.nextRetryAt.value <= now))
        || (t.status == Deploying && t.leaseUntil.Some? && t.leaseUntil.value < now))
  }

  predicate Exhausted(t: Task, now: nat) {
    t.status == Deploying && !t.cancelRequested && t.attempt >= t.maxAttempts
    && t.leaseUntil.Some? && t.leaseUntil.value < now
  }

  predicate Renewable(t: Task, id: string, worker: string) {
    t.id == id && t.workerId == Some(worker) && t.status == Deploying && !t.cancelRequested
  }

  predicate Cancellable(t: Task, instanceId: string) {
    t.instanceId == instanceId && (t.status == Queued || t.status == Deploying || t.status == RetryWait)
  }

  predicate Patchable(t: Task, id: string, guard: string) {
    t.id == id && (guard == "" || t.workerId == Some(guard))
  }

  function Claimed(t: Task, worker: string, until: nat, now: nat): Task {
    t.(status := Deploying, workerId := Some(worker), lockedAt := Some(now), heartbeatAt := Some(now),
       leaseUntil := Some(until), attempt := t.attempt + 1,
       currentStep := if t.currentStep == "queued" then "preparing" else t.currentStep, updatedAt := now)
  }

  function Finalised(t: Task, now: nat): Task {
    t.(status := Failed, workerId := None, lockedAt := None, leaseUntil := None,
       errorCode := Some("DEPLOYMENT_RETRY_EXHAUSTED"),
       errorMessage := Some("Deployment worker recovery attempts were exhausted."),
       errorDetail := if t.errorDetail.Some? then t.errorDetail
                      else Some("Deployment lease expired after the maximum number of recovery attempts."),
       failedAt := Some(now), completedAt := Some(now), updatedAt := now)
  }

  function Renewed(t: Task, until: nat, now: nat): Task {
    t.(heartbeatAt := Some(now), leaseUntil := Some(until), updatedAt := now)
  }

  function CancelledRow(t: Task, now: nat): Task {
    var waiting := t.status == Queued || t.status == RetryWait;
    t.(cancelRequested := true, status := if waiting then Cancelled else t.status,
       errorCode := Some("DEPLOYMENT_CANCELLED"),
       errorMessage := Some("Deployment was cancelled because the instance is being deleted."),
       completedAt := if waiting then Some(now) else t.completedAt, updatedAt := now)
  }

  function Written<T>(w: Write<T>, was: T): T {
    if w.Put? then w.value else was
  }

  function Patched(t: Task, p: Patch, now: nat): Task {
    t.(status := Written(p.status, t.status), workerId := if p.clearWorker then None else t.workerId,
       lockedAt := Written(p.lockedAt, t.lockedAt), leaseUntil := Written(p.leaseUntil, t.leaseUntil),
       heartbeatAt := Written(p.heartbeatAt, t.heartbeatAt), currentStep := Written(p.currentStep, t.currentStep),
       nextRetryAt := Written(p.nextRetryAt, t.nextRetryAt), errorCode := Written(p.errorCode, t.errorCode),
       errorMessage := Written(p.errorMessage, t.errorMessage), errorDetail := Written(p.errorDetail, t.errorDetail),
       failedAt := Written(p.failedAt, t.failedAt), cancelRequested := Written(p.cancelRequested, t.cancelRequested),
       completedAt := Written(p.completedAt, t.completedAt), updatedAt := now)
  }

  // ---------------------------------------------------------------- the table

  predicate UniqueIds(s: seq<Task>) {
    forall i, j :: 0 <= i < j < |s| ==> s[i].id != s[j].id
  }

  /** The row a claim takes: the oldest claimable one, the first of equally old ones; -1 if there is none. */
  function Pick(s: seq<Task>, now: nat): (k: int)
    ensures -1 <= k < |s|
    ensures k >= 0 ==> Claimable(s[k], now)
    ensures forall j :: 0 <= j < |s| && Claimable(s[j], now) ==> k >= 0 && s[k].createdAt <= s[j].createdAt
    ensures forall j :: 0 <= j < k && Claimable(s[j], now) ==> s[k].createdAt < s[j].createdAt
  {
    if s == [] then -1
    else
      var n := |s| - 1;
      var k := Pick(s[..n], now);
      if Claimable(s[n], now) && (k == -1 || s[n].createdAt < s[k].createdAt) then n else k
  }

  function Without(s: seq<Task>, instanceId: string): (r: seq<Task>)
    ensures forall t :: t in r <==> t in s && t.instanceId != instanceId
    ensures UniqueIds(s) ==> UniqueIds(r)
  {
    if s == [] then [] else
      var n := |s| - 1;
      Without(s[..n], instanceId) + (if s[n].instanceId == instanceId then [] else [s[n]])
  }

  /** The row-wise statements: every row that the WHERE clause selects is rewritten. */
  function Rewritten(t: Task, now: nat, a: Action): (r: Task)
    ensures r.id == t.id && r.instanceId == t.instanceId && r.attempt == t.attempt && r.maxAttempts == t.maxAttempts
    ensures r.workerId == t.workerId || r.workerId == None
  {
    match a
    case FailExhausted => if Exhausted(t, now) then Finalised(t, now) else t
    case Renew(id, worker, lease) => if Renewable(t, id, worker) then Renewed(t, now + lease, now) else t
    case Update(id, p, guard) => if p != EMPTY_PATCH && Patchable(t, id, guard) then Patched(t, p, now) else t
    case CancelInstance(instanceId) => if Cancellable(t, instanceId) then CancelledRow(t, now) else t
    case _ => t
  }

  function Each(s: seq<Task>, now: nat, a: Action): (r: seq<Task>)
    ensures |r| == |s| && forall k :: 0 <= k < |s| ==> r[k] == Rewritten(s[k], now, a)
  {
    seq(|s|, k requires 0 <= k < |s| => Rewritten(s[k], now, a))
  }

  /** The rows a FailExhausted step reports: the finalised ones, in table order. */
  function FinalisedRows(s: seq<Task>, now: nat): seq<Task> {
    if s == [] then [] else
      var n := |s| - 1;
      FinalisedRows(s[..n], now) + (if Exhausted(s[n], now) then [Finalised(s[n], now)] else [])
  }

  /** Reported is exactly what was given up: the finalised form of every exhausted task. */
  lemma {:induction false} FinalisedRowsAre(s: seq<Task>, now: nat, r: Task)
    ensures r in FinalisedRows(s, now) <==>
            exists k :: 0 <= k < |s| && Exhausted(s[k], now) && r == Finalised(s[k], now)
  {
    hide Finalised, Exhausted;
    if s != [] {
      var n := |s| - 1;
      FinalisedRowsAre(s[..n], now, r);
      assert forall k :: 0 <= k < n ==> s[..n][k] == s[k];
    }
  }

  function Next(s: seq<Task>, e: Event): seq<Task> {
    match e.action
    case Claim(worker, lease) =>
      var k := Pick(s, e.now);
      if k == -1 then s else s[k := Claimed(s[k], worker, e.now + lease, e.now)]
    case Create(t) => if exists k :: 0 <= k < |s| && s[k].id == t.id then s else s + [t]
    case DeleteInstance(instanceId) => Without(s, instanceId)
    case _ => Each(s, e.now, e.action)
  }

  lemma NextKeepsIdsUnique(s: seq<Task>, e: Event)
    requires UniqueIds(s)
    ensures UniqueIds(Next(s, e))
  {
    hide Rewritten, Claimable;
  }

  function Run(s: seq<Task>, events: seq<Event>): seq<Task> {
    if events == [] then s else Next(Run(s, events[..|events| - 1]), events[|events| - 1])
  }

  lemma {:induction false} RunKeepsIdsUnique(s: seq<Task>, events: seq<Event>)
    requires UniqueIds(s)
    ensures UniqueIds(Run(s, events))
  {
    if events != [] {
      RunKeepsIdsUnique(s, events[..|events| - 1]);
      NextKeepsIdsUnique(Run(s, events[..|events| - 1]), events[|events| - 1]);
    }
  }

  // ---------------------------------------------------------------- in place

  class Queue {
    var tasks: seq<Task>

    constructor ()
      ensures tasks == []
    {
      tasks := [];
    }

    /** The source's claimNextDeploymentTask. If it finds nothing, no uncancelled task with attempts left is
        queued, waits for a retry without a time or with one that has come, or is deploying with a lease that has
        passed. Otherwise it takes such a task, and none of them was created earlier. */
    method ClaimNext(worker: string, lease: nat, now: nat) returns (claimed: Option<Task>)
      modifies this
      ensures tasks == Next(old(tasks), Event(now, Claim(worker, lease)))
      ensures claimed.None? ==> tasks == old(tasks)
      ensures claimed.None? ==> forall t :: t in tasks && !t.cancelRequested && t.attempt < t.maxAttempts ==>
                && t.status != Queued
                && (t.status == RetryWait ==> t.nextRetryAt.Some? && now < t.nextRetryAt.value)
                && (t.status == Deploying && t.leaseUntil.Some? ==> now <= t.leaseUntil.value)
      ensures claimed.Some? ==> TookOldest(old(tasks), tasks, claimed.value, worker, now + lease, now)
    {
      hide Claimed, TakesRow;
      forall t ensures Claimable(t, now) <==> IsFree(t, now) {
        FreeIff(t, now);
      }
      var k := Pick(tasks, now);
      if k == -1 {
        return None;
      }
      ClaimedTakes(tasks[k], worker, now + lease, now);
      tasks := tasks[k := Claimed(tasks[k], worker, now + lease, now)];
      claimed := Some(tasks[k]);
    }

    /** The source's failExhaustedDeploymentTasks: select, then update row by row while still deploying. */
    method FailExhaustedTasks(now: nat) returns (finalised: seq<Task>)
      requires UniqueIds(tasks)
      modifies this
      ensures tasks == Next(old(tasks), Event(now, FailExhausted))
      ensures finalised == FinalisedRows(old(tasks), now)
      ensures |tasks| == |old(tasks)|
      ensures forall k :: 0 <= k < |tasks| ==>
                if IsUsedUp(old(tasks)[k], now) then GivesUpRow(old(tasks)[k], tasks[k], now)
                else tasks[k] == old(tasks)[k]
      ensures forall r :: r in finalised <==>
                exists k :: 0 <= k < |tasks| && IsUsedUp(old(tasks)[k], now) && r == tasks[k]
    {
      hide Finalised, Exhausted, GivesUpRow, IsUsedUp;
      ghost var was := tasks;
      finalised := [];
      var k := 0;
      while k < |tasks|
        invariant 0 <= k <= |tasks| == |was|
        invariant forall j :: 0 <= j < |was| ==>
                    tasks[j] == if j < k then Rewritten(was[j], now, FailExhausted) else was[j]
        invariant finalised == FinalisedRows(was[..k], now)
      {
        assert was[..k + 1][..k] == was[..k];
        if Exhausted(tasks[k], now) {
          tasks := tasks[k := Finalised(tasks[k], now)];
          finalised := finalised + [tasks[k]];
        }
        k := k + 1;
      }
      assert was[..k] == was;
      assert tasks == Each(was, now, FailExhausted);
      GivingUpRows(was, tasks, finalised, now);
    }

    /** The source's renewDeploymentLease: the statement visits the rows, and the lease counts as renewed when
        exactly one of them was changed. */
    method RenewLease(id: string, worker: string, lease: nat, now: nat) returns (renewed: bool)
      requires UniqueIds(tasks)
      modifies this
      ensures tasks == Next(old(tasks), Event(now, Renew(id, worker, lease)))
      ensures renewed <==> exists t :: t in old(tasks) && IsHeldBy(t, id, worker)
      ensures |tasks| == |old(tasks)| && forall k :: 0 <= k < |tasks| ==>
                tasks[k] == if IsHeldBy(old(tasks)[k], id, worker)
                            then old(tasks)[k].(leaseUntil := Some(now + lease), heartbeatAt := Some(now),
                                               updatedAt := now)
                            else old(tasks)[k]
    {
      ghost var was := tasks;
      var changes, k := 0, 0;
      while k < |tasks|
        invariant 0 <= k <= |tasks| == |was|
        invariant forall j :: 0 <= j < |was| ==>
                    tasks[j] == if j < k && Renewable(was[j], id, worker) then Renewed(was[j], now + lease, now)
                                else was[j]
        invariant changes <= 1
        invariant changes == 0 <==> forall j :: 0 <= j < k ==> !Renewable(was[j], id, worker)
      {
        if Renewable(tasks[k], id, worker) {
          tasks := tasks[k := Renewed(tasks[k], now + lease, now)];
          changes := changes + 1;
        }
        k := k + 1;
      }
      assert forall j :: 0 <= j < |was| ==> (Renewable(was[j], id, worker) <==> IsHeldBy(was[j], id, worker));
      assert tasks == Each(was, now, Renew(id, worker, lease));
      renewed := changes == 1;
    }

    /** The source's updateDeploymentTaskCore: no statement at all when there is nothing to write. */
    method UpdateTask(id: string, patch: Patch, guard: string, now: nat)
      modifies this
      ensures tasks == Next(old(tasks), Event(now, Update(id, patch, guard)))
      ensures |tasks| == |old(tasks)|
      ensures forall k :: 0 <= k < |tasks| && tasks[k] != old(tasks)[k] ==>
                patch != EMPTY_PATCH && old(tasks)[k].id == id && (guard == "" || old(tasks)[k].workerId == Some(guard))
      ensures forall k :: 0 <= k < |tasks| && patch != EMPTY_PATCH && Selects(old(tasks)[k], id, guard) ==>
                PatchesRow(old(tasks)[k], tasks[k], patch, now)
    {
      ghost var was := tasks;
      if patch == EMPTY_PATCH {
        assert tasks == Each(was, now, Update(id, patch, guard));
        return;
      }
      var k := 0;
      while k < |tasks|
        invariant 0 <= k <= |tasks| == |was|
        invariant forall j :: 0 <= j < |was| ==>
                    tasks[j] == if j < k && Patchable(was[j], id, guard) then Patched(was[j], patch, now) else was[j]
      {
        if Patchable(tasks[k], id, guard) {
          tasks := tasks[k := Patched(tasks[k], patch, now)];
        }
        k := k + 1;
      }
      assert tasks == Each(was, now, Update(id, patch, guard));
    }

    /** The source's cancelDeploymentTasksForInstance. */
    method CancelTasks(instanceId: string, now: nat)
      modifies this
      ensures tasks == Next(old(tasks), Event(now, CancelInstance(instanceId)))
      ensures |tasks| == |old(tasks)|
      ensures forall k :: 0 <= k < |tasks| ==> CancelsRow(old(tasks)[k], tasks[k], now, instanceId)
    {
      hide CancelsRow, Cancellable, CancelledRow;
      ghost var was := tasks;
      var k := 0;
      while k < |tasks|
        invariant 0 <= k <= |tasks| == |was|
        invariant forall j :: k <= j < |was| ==> tasks[j] == was[j]
        invariant forall j :: 0 <= j < k ==> tasks[j] == Rewritten(was[j], now, CancelInstance(instanceId))
        invariant forall j :: 0 <= j < k ==> CancelsRow(was[j], tasks[j], now, instanceId)
      {
        CancellingRow(was[k], now, instanceId);
        if Cancellable(tasks[k], instanceId) {
          tasks := tasks[k := CancelledRow(tasks[k], now)];
        }
        k := k + 1;
      }
      assert tasks == Each(was, now, CancelInstance(instanceId));
    }
  }

  /** Nobody works on the task, it still may be tried, and its time has come. */
  predicate IsFree(t: Task, now: nat) {
    && !t.cancelRequested && t.attempt < t.maxAttempts
    && match t.status
       case Queued => true
       case RetryWait => t.nextRetryAt.GetOr(0) <= now
       case Deploying => t.leaseUntil.Some? && !(now <= t.leaseUntil.value)
       case _ => false
  }

  /** Without a guard every worker's task is meant. */
  predicate Selects(t: Task, id: string, guard: string) {
    t.id == id && (guard != "" ==> t.workerId == Some(guard))
  }

  /** The worker is deploying this task, and nobody has cancelled it. */
  predicate IsHeldBy(t: Task, id: string, worker: string) {
    (t.id, t.workerId, t.status, t.cancelRequested) == (id, Some(worker), Deploying, false)
  }

  /** The task is deploying, its lease has passed, and it has used up its attempts without being cancelled. */
  predicate IsUsedUp(t: Task, now: nat) {
    && (t.status, t.cancelRequested) == (Deploying, false)
    && t.leaseUntil.Some? && !(now <= t.leaseUntil.value) && !(t.attempt < t.maxAttempts)
  }

  lemma UsedUpIff(t: Task, now: nat)
    ensures Exhausted(t, now) <==> IsUsedUp(t, now)
  {
  }

  predicate IsOldestFree(s: seq<Task>, k: nat, now: nat) {
    && k < |s| && IsFree(s[k], now)
    && (forall t :: t in s && IsFree(t, now) ==> s[k].createdAt <= t.createdAt)
    && (forall j :: 0 <= j < k && IsFree(s[j], now) ==> s[k].createdAt < s[j].createdAt)
  }

  ghost predicate TookOldest(s: seq<Task>, r: seq<Task>, t: Task, worker: string, until: nat, now: nat) {
    exists k :: 0 <= k < |s| && r == s[k := t] && IsOldestFree(s, k, now) && TakesRow(s[k], t, worker, until, now)
  }

  lemma FreeIff(t: Task, now: nat)
    ensures Claimable(t, now) <==> IsFree(t, now)
  {
  }

  /** What a claim does to the row it takes: the new owner, its lease, one attempt more, and nothing else. */
  predicate TakesRow(t: Task, r: Task, worker: string, until: nat, now: nat) {
    && r.status == Deploying && r.workerId == Some(worker) && r.leaseUntil == Some(until)
    && r.lockedAt == r.heartbeatAt == Some(now) && r.updatedAt == now && r.attempt == t.attempt + 1
    && (t.currentStep == "queued" ==> r.currentStep == "preparing")
    && (t.currentStep != "queued" ==> r.currentStep == t.currentStep)
    && (r.id, r.instanceId, r.maxAttempts, r.nextRetryAt) == (t.id, t.instanceId, t.maxAttempts, t.nextRetryAt)
    && (r.errorCode, r.errorMessage, r.errorDetail) == (t.errorCode, t.errorMessage, t.errorDetail)
    && (r.failedAt, r.completedAt, r.createdAt) == (t.failedAt, t.completedAt, t.createdAt)
    && r.cancelRequested == t.cancelRequested
  }

  lemma ClaimedTakes(t: Task, worker: string, until: nat, now: nat)
    ensures TakesRow(t, Claimed(t, worker, until, now), worker, until, now)
  {
  }

  /** What a guarded or unguarded update may do to a row: the columns it does not put stay, the attempts and the
      identity always do, and the owner can only be cleared. */
  predicate PatchesRow(t: Task, r: Task, p: Patch, now: nat) {
    && (r.id, r.instanceId, r.attempt, r.maxAttempts, r.createdAt)
       == (t.id, t.instanceId, t.attempt, t.maxAttempts, t.createdAt)
    && r.updatedAt == now
    && r.workerId == (if p.clearWorker then None else t.workerId)
    && (if p.status.Leave? then r.status == t.status else p.status == Put(r.status))
    && (if p.leaseUntil.Leave? then r.leaseUntil == t.leaseUntil else p.leaseUntil == Put(r.leaseUntil))
    && (if p.cancelRequested.Leave? then r.cancelRequested == t.cancelRequested
        else p.cancelRequested == Put(r.cancelRequested))
    && (if p.nextRetryAt.Leave? then r.nextRetryAt == t.nextRetryAt else p.nextRetryAt == Put(r.nextRetryAt))
    && (if p.currentStep.Leave? then r.currentStep == t.currentStep else p.currentStep == Put(r.currentStep))
    && (if p.lockedAt.Leave? then r.lockedAt == t.lockedAt else p.lockedAt == Put(r.lockedAt))
    && (if p.heartbeatAt.Leave? then r.heartbeatAt == t.heartbeatAt else p.heartbeatAt == Put(r.heartbeatAt))
    && (if p.errorCode.Leave? then r.errorCode == t.errorCode else p.errorCode == Put(r.errorCode))
    && (if p.errorMessage.Leave? then r.errorMessage == t.errorMessage else p.errorMessage == Put(r.errorMessage))
    && (if p.errorDetail.Leave? then r.errorDetail == t.errorDetail else p.errorDetail == Put(r.errorDetail))
    && (if p.failedAt.Leave? then r.failedAt == t.failedAt else p.failedAt == Put(r.failedAt))
    && (if p.completedAt.Leave? then r.completedAt == t.completedAt else p.completedAt == Put(r.completedAt))
  }

  /** What cancelling does to a row: waiting tasks end, a deploying one is marked, every other is left alone. */
  predicate CancelsRow(t: Task, r: Task, now: nat, instanceId: string) {
    if t.instanceId != instanceId then r == t
    else if t.status == Queued || t.status == RetryWait then
      r.status == Cancelled && r.completedAt == Some(now) && IsMarked(t, r, now)
    else if t.status == Deploying then
      r.status == Deploying && r.completedAt == t.completedAt && IsMarked(t, r, now)
    else r == t
  }

  predicate IsMarked(t: Task, r: Task, now: nat) {
    && r.cancelRequested && r.errorCode.Some? && r.errorMessage.Some? && r.updatedAt == now
    && (r.id, r.instanceId, r.attempt, r.maxAttempts, r.createdAt)
       == (t.id, t.instanceId, t.attempt, t.maxAttempts, t.createdAt)
    && (r.workerId, r.lockedAt, r.leaseUntil, r.heartbeatAt) == (t.workerId, t.lockedAt, t.leaseUntil, t.heartbeatAt)
    && (r.currentStep, r.nextRetryAt, r.errorDetail, r.failedAt)
       == (t.currentStep, t.nextRetryAt, t.errorDetail, t.failedAt)
  }

  lemma CancellingRow(t: Task, now: nat, instanceId: string)
    ensures var r := Rewritten(t, now, CancelInstance(instanceId));
            && CancelsRow(t, r, now, instanceId)
            && r == if Cancellable(t, instanceId) then CancelledRow(t, now) else t
  {
    hide Finalised, Patched, Claimed;
  }

  // ---------------------------------------------------------------- bounded retries

  /** How many claims a row has left. */
  function Left(t: Task): nat {
    if t.attempt < t.maxAttempts then t.maxAttempts - t.attempt else 0
  }

  function Budget(s: seq<Task>): nat {
    if s == [] then 0 else Budget(s[..|s| - 1]) + Left(s[|s| - 1])
  }

  /** What an event takes out of the budget by claiming, puts in by creating, or removes by deleting. */
  function ClaimsIn(s: seq<Task>, e: Event): nat {
    if e.action.Claim? && Pick(s, e.now) >= 0 then 1 else 0
  }

  function CreatedIn(s: seq<Task>, e: Event): nat {
    if e.action.Create? && Next(s, e) != s then Left(e.action.task) else 0
  }

  function DeletedIn(s: seq<Task>, e: Event): int {
    if e.action.DeleteInstance? then Budget(s) - Budget(Next(s, e)) else 0
  }

  lemma {:induction false} BudgetPointwise(s: seq<Task>, r: seq<Task>)
    requires |s| == |r| && forall k :: 0 <= k < |s| ==> Left(s[k]) == Left(r[k])
    ensures Budget(s) == Budget(r)
  {
    if s != [] {
      BudgetPointwise(s[..|s| - 1], r[..|r| - 1]);
    }
  }

  lemma {:induction false} BudgetOfOneClaim(s: seq<Task>, k: nat, t: Task)
    requires k < |s| && Left(s[k]) == Left(t) + 1
    ensures Budget(s) == Budget(s[k := t]) + 1
  {
    var n := |s| - 1;
    if k < n {
      BudgetOfOneClaim(s[..n], k, t);
      assert s[k := t][..n] == s[..n][k := t];
    } else {
      assert s[k := t][..n] == s[..n];
    }
  }

  lemma {:induction false} BudgetOfDeletion(s: seq<Task>, instanceId: string)
    ensures Budget(Without(s, instanceId)) <= Budget(s)
  {
    if s != [] {
      var n := |s| - 1;
      BudgetOfDeletion(s[..n], instanceId);
      BudgetSnoc(Without(s[..n], instanceId), s[n]);
      assert Without(s[..n], instanceId) + [] == Without(s[..n], instanceId);
    }
  }

  lemma BudgetStep(s: seq<Task>, e: Event)
    ensures DeletedIn(s, e) >= 0
    ensures ClaimsIn(s, e) + Budget(Next(s, e)) + DeletedIn(s, e) == Budget(s) + CreatedIn(s, e)
  {
    hide Budget, Rewritten;
    match e.action
    case Claim(worker, lease) =>
      var k := Pick(s, e.now);
      if k >= 0 {
        BudgetOfOneClaim(s, k, Claimed(s[k], worker, e.now + lease, e.now));
      }
    case Create(t) =>
      BudgetSnoc(s, t);
    case DeleteInstance(instanceId) =>
      BudgetOfDeletion(s, instanceId);
    case _ =>
      BudgetPointwise(s, Each(s, e.now, e.action));
  }

  lemma BudgetSnoc(s: seq<Task>, t: Task)
    ensures Budget(s + [t]) == Budget(s) + Left(t)
  {
    assert (s + [t])[..|s|] == s;
  }

  /** Totals of the three kinds of change over a run. */
  function Totals(s: seq<Task>, events: seq<Event>): (r: (nat, nat, int)) {
    if events == [] then (0, 0, 0)
    else
      var n := |events| - 1;
      var before := Run(s, events[..n]);
      var t := Totals(s, events[..n]);
      (t.0 + ClaimsIn(before, events[n]), t.1 + CreatedIn(before, events[n]), t.2 + DeletedIn(before, events[n]))
  }

  /** Claims are conserved: over any run, the claims made, the claims left and the claims deleted add up to
      the claims there were and the claims created. So a run never makes more claims than its tasks were
      given attempts. */
  lemma {:induction false} ClaimsAreBounded(s: seq<Task>, events: seq<Event>)
    ensures var (claims, created, deleted) := Totals(s, events);
            && deleted >= 0
            && claims + Budget(Run(s, events)) + deleted == Budget(s) + created
            && claims <= Budget(s) + created
  {
    if events != [] {
      var n := |events| - 1;
      ClaimsAreBounded(s, events[..n]);
      BudgetStep(Run(s, events[..n]), events[n]);
    }
  }

  predicate WithinAttempts(s: seq<Task>) {
    forall k :: 0 <= k < |s| ==> s[k].attempt <= s[k].maxAttempts
  }

  /** No run takes an attempt counter past its maximum. */
  lemma {:induction false} AttemptsNeverExceedMaximum(s: seq<Task>, events: seq<Event>)
    requires WithinAttempts(s)
    requires forall e :: e in events && e.action.Create? ==> e.action.task.attempt <= e.action.task.maxAttempts
    ensures WithinAttempts(Run(s, events))
  {
    if events != [] {
      var n := |events| - 1;
      AttemptsNeverExceedMaximum(s, events[..n]);
      WithinAttemptsStep(Run(s, events[..n]), events[n]);
    }
  }

  lemma WithinAttemptsStep(s: seq<Task>, e: Event)
    requires WithinAttempts(s)
    requires e.action.Create? ==> e.action.task.attempt <= e.action.task.maxAttempts
    ensures WithinAttempts(Next(s, e))
  {
    hide Rewritten;
    if e.action.DeleteInstance? {
      assert forall t :: t in s ==> t.attempt <= t.maxAttempts;
    }
  }

  // ---------------------------------------------------------------- no stuck work

  predicate Expired(t: Task, now: nat) {
    t.status == Deploying && !t.cancelRequested && t.leaseUntil.Some? && t.leaseUntil.value < now
  }

  /** Abandoned work is either taken over or given up, never both and never neither. */
  lemma ExpiredIsClaimableOrExhausted(t: Task, now: nat)
    requires Expired(t, now)
    ensures Claimable(t, now) != Exhausted(t, now)
  {
  }

  /** Draining the queue: once exhausted tasks have been finalised and a claim finds nothing, no expired
      lease is left, and every task that was finalised carries the terminal record. */
  lemma NothingStaysStuck(s: seq<Task>, now: nat)
    requires Pick(Next(s, Event(now, FailExhausted)), now) == -1
    ensures forall t :: t in Next(s, Event(now, FailExhausted)) ==> !Expired(t, now)
    ensures forall k :: 0 <= k < |s| && Expired(s[k], now) ==>
              var t := Next(s, Event(now, FailExhausted))[k];
              t.status == Failed && t.workerId.None? && t.leaseUntil.None? && t.completedAt == Some(now)
  {
    var r := Next(s, Event(now, FailExhausted));
    forall k | 0 <= k < |s| ensures !Expired(r[k], now) && (Expired(s[k], now) ==> r[k] == Finalised(s[k], now)) {
      assert r[k] == Rewritten(s[k], now, FailExhausted);
      assert !Claimable(r[k], now);
    }
  }

  // ---------------------------------------------------------------- retries and draining

  /** The task waits for a retry at `due`, or was cancelled meanwhile, as it was given these attempts. */
  predicate WaitsUntil(s: seq<Task>, id: string, due: nat, attempt: int) {
    var t := Find(s, id);
    t.Some? ==> t.value.attempt == attempt
                && ((t.value.status == RetryWait && t.value.nextRetryAt == Some(due)) || t.value.status == Cancelled)
  }

  predicate LeavesWaiting(e: Event, id: string) {
    && !(e.action.Create? && e.action.task.id == id)
    && !(e.action.Update? && e.action.id == id)
  }

  lemma WaitingStep(s: seq<Task>, e: Event, id: string, due: nat, attempt: int)
    requires UniqueIds(s) && WaitsUntil(s, id, due, attempt) && LeavesWaiting(e, id) && e.now < due
    ensures WaitsUntil(Next(s, e), id, due, attempt) && !Takes(s, e, id)
  {
    hide Find, UniqueIds, Next, Finalised, Patched, CancelledRow, Claimed;
    if Find(s, id).Some? {
      StepOfTask(s, e, id);
      WaitingRow(Find(s, id).value, e, due);
    } else {
      assert forall k :: 0 <= k < |s| ==> s[k].id != id;
      if Find(Next(s, e), id).Some? {
        TaskAppears(s, e, id);
        assert false;
      }
    }
  }

  lemma WaitingRow(t: Task, e: Event, due: nat)
    requires (t.status == RetryWait && t.nextRetryAt == Some(due)) || t.status == Cancelled
    requires e.now < due && !(e.action.Update? && e.action.id == t.id)
    ensures !Claimable(t, e.now)
    ensures var r := Rewritten(t, e.now, e.action);
            r.attempt == t.attempt
            && ((r.status == RetryWait && r.nextRetryAt == Some(due)) || r.status == Cancelled)
  {
    hide Finalised, Patched;
  }

  /** A task that waits for a retry is not tried before the time has come: in any run of earlier events that do
      not rewrite it by hand it stays as it is, unless it is cancelled or deleted. */
  lemma {:induction false} RetryIsNotEarly(s: seq<Task>, events: seq<Event>, id: string, due: nat, attempt: int)
    requires UniqueIds(s) && WaitsUntil(s, id, due, attempt)
    requires forall e :: e in events ==> e.now < due && LeavesWaiting(e, id)
    ensures WaitsUntil(Run(s, events), id, due, attempt)
  {
    RunLast(s, events);
    hide *;
    if events != [] {
      var n := |events| - 1;
      RetryIsNotEarly(s, events[..n], id, due, attempt);
      RunKeepsIdsUnique(s, events[..n]);
      WaitingStep(Run(s, events[..n]), events[n], id, due, attempt);
    }
  }

  function FreeCount(s: seq<Task>, now: nat): nat {
    if s == [] then 0 else FreeCount(s[..|s| - 1], now) + (if IsFree(s[|s| - 1], now) then 1 else 0)
  }

  lemma {:induction false} FreeCountAtMost(s: seq<Task>, now: nat)
    ensures FreeCount(s, now) <= |s|
    ensures FreeCount(s, now) == 0 <==> forall k :: 0 <= k < |s| ==> !IsFree(s[k], now)
  {
    hide IsFree;
    if s != [] {
      var n := |s| - 1;
      FreeCountAtMost(s[..n], now);
      assert forall k :: 0 <= k < n ==> s[..n][k] == s[k];
    }
  }

  lemma {:induction false} OneFreeLess(s: seq<Task>, k: nat, t: Task, now: nat)
    requires k < |s| && IsFree(s[k], now) && !IsFree(t, now)
    ensures FreeCount(s[k := t], now) == FreeCount(s, now) - 1
  {
    hide IsFree;
    var n := |s| - 1;
    if k == n {
      assert s[k := t][..n] == s[..n];
    } else {
      OneFreeLess(s[..n], k, t, now);
      assert s[k := t][..n] == s[..n][k := t];
    }
  }

  /** After some claims at one time: every row is as it was, or was free and has been taken. */
  ghost predicate TakenSome(s: seq<Task>, r: seq<Task>, now: nat) {
    |r| == |s| && forall k :: 0 <= k < |s| ==> r[k] == s[k] || (IsFree(s[k], now) && IsTaken(s[k], r[k], now))
  }

  predicate IsTaken(t: Task, r: Task, now: nat) {
    r.status == Deploying && r.attempt == t.attempt + 1 && r.workerId.Some?
    && r.leaseUntil.Some? && now <= r.leaseUntil.value
  }

  lemma ClaimTakesOne(s: seq<Task>, e: Event)
    requires e.action.Claim?
    ensures TakenSome(s, Next(s, e), e.now)
    ensures FreeCount(Next(s, e), e.now) == if FreeCount(s, e.now) == 0 then 0 else FreeCount(s, e.now) - 1
  {
    var k := Pick(s, e.now);
    FreeCountAtMost(s, e.now);
    forall t ensures Claimable(t, e.now) <==> IsFree(t, e.now) {
      FreeIff(t, e.now);
    }
    hide Claimable, Pick;
    if k >= 0 {
      var t := Claimed(s[k], e.action.worker, e.now + e.action.lease, e.now);
      TakenIsNotFree(s[k], t, e.now);
      OneFreeLess(s, k, t, e.now);
    }
    hide IsFree, FreeCount;
  }

  lemma TakenIsNotFree(t: Task, r: Task, now: nat)
    ensures IsTaken(t, r, now) ==> !IsFree(r, now)
  {
  }

  /** Nothing that may be tried is passed over: as many claims as there are free tasks, all at one time, take every
      one of them and touch nothing else. */
  lemma {:induction false} ClaimsDrain(s: seq<Task>, claims: seq<Event>, now: nat)
    requires forall e :: e in claims ==> e.action.Claim? && e.now == now
    ensures var r := Run(s, claims);
            && TakenSome(s, r, now)
            && FreeCount(r, now) == (if |claims| < FreeCount(s, now) then FreeCount(s, now) - |claims| else 0)
            && (|claims| >= FreeCount(s, now) ==>
                  forall k :: 0 <= k < |s| && IsFree(s[k], now) ==> IsTaken(s[k], r[k], now))
  {
    RunLast(s, claims);
    hide Run, Next, IsFree, IsTaken, FreeCount;
    if claims != [] {
      var n := |claims| - 1;
      var before := Run(s, claims[..n]);
      ClaimsDrain(s, claims[..n], now);
      ClaimTakesOne(before, claims[n]);
      TakenTogether(s, before, Run(s, claims), now);
    }
    FreeCountAtMost(Run(s, claims), now);
  }

  lemma TakenTogether(s: seq<Task>, q: seq<Task>, r: seq<Task>, now: nat)
    requires TakenSome(s, q, now) && TakenSome(q, r, now)
    ensures TakenSome(s, r, now)
  {
    forall k | 0 <= k < |s| ensures r[k] == s[k] || (IsFree(s[k], now) && IsTaken(s[k], r[k], now)) {
      TakenIsNotFree(s[k], q[k], now);
    }
    hide IsFree, IsTaken;
  }

  // ---------------------------------------------------------------- fencing

  function Find(s: seq<Task>, id: string): (t: Option<Task>)
    ensures t.Some? ==> t.value in s && t.value.id == id
    ensures t.None? <==> forall k :: 0 <= k < |s| ==> s[k].id != id
  {
    if s == [] then None
    else if s[0].id == id then Some(s[0])
    else Find(s[1..], id)
  }

  lemma FindUnique(s: seq<Task>, k: nat)
    requires UniqueIds(s) && k < |s|
    ensures Find(s, s[k].id) == Some(s[k])
  {
    var t := Find(s, s[k].id);
  }

  predicate OwnedBy(s: seq<Task>, id: string, worker: string) {
    var t := Find(s, id);
    t.Some? && t.value.workerId == Some(worker)
  }

  predicate IsDeploying(s: seq<Task>, id: string) {
    var t := Find(s, id);
    t.Some? && t.value.status == Deploying
  }

  /** The event is a claim that takes task id. */
  predicate Takes(s: seq<Task>, e: Event, id: string) {
    e.action.Claim? && Pick(s, e.now) >= 0 && s[Pick(s, e.now)].id == id
  }

  /** What one event does to one task. */
  lemma StepOfTask(s: seq<Task>, e: Event, id: string)
    requires UniqueIds(s) && Find(s, id).Some?
    ensures var t, r := Find(s, id).value, Find(Next(s, e), id);
            if Takes(s, e, id) then
              Claimable(t, e.now) && r == Some(Claimed(t, e.action.worker, e.now + e.action.lease, e.now))
            else if e.action.DeleteInstance? then r == (if t.instanceId == e.action.instanceId then None else Some(t))
            else r == Some(Rewritten(t, e.now, e.action))
  {
    hide Find, UniqueIds;
    var k :| 0 <= k < |s| && s[k] == Find(s, id).value;
    if e.action.DeleteInstance? {
      DeletionOfTask(s, k, e.action.instanceId);
    } else {
      NextKeepsIdsUnique(s, e);
      IndexOfTask(s, k, e);
      FindUnique(s, k);
      FindUnique(Next(s, e), k);
    }
  }

  lemma IndexOfTask(s: seq<Task>, k: nat, e: Event)
    requires UniqueIds(s) && k < |s| && !e.action.DeleteInstance?
    ensures k < |Next(s, e)|
    ensures Takes(s, e, s[k].id) ==> Claimable(s[k], e.now)
    ensures Next(s, e)[k] == if Takes(s, e, s[k].id) then Claimed(s[k], e.action.worker, e.now + e.action.lease, e.now)
                             else Rewritten(s[k], e.now, e.action)
  {
    hide Find;
  }

  lemma DeletionOfTask(s: seq<Task>, k: nat, instanceId: string)
    requires UniqueIds(s) && k < |s|
    ensures Find(Without(s, instanceId), s[k].id) == if s[k].instanceId == instanceId then None else Some(s[k])
  {
    hide Without;
    var r := Without(s, instanceId);
    if s[k].instanceId != instanceId {
      var j :| 0 <= j < |r| && r[j] == s[k];
      FindUnique(r, j);
    } else {
      assert forall t :: t in r ==> t in s && t.id != s[k].id;
    }
  }

  /** A task that was not there before has just been created. */
  lemma TaskAppears(s: seq<Task>, e: Event, id: string)
    requires Find(s, id).None? && Find(Next(s, e), id).Some?
    ensures e.action.Create? && Find(Next(s, e), id).value == e.action.task
  {
    hide Find;
    var t := Find(Next(s, e), id).value;
    assert forall u :: u in s ==> u.id != id;
    var k :| 0 <= k < |Next(s, e)| && Next(s, e)[k] == t;
    if !e.action.Create? {
      NoNewIds(s, e, k);
    }
  }

  lemma NoNewIds(s: seq<Task>, e: Event, k: nat)
    requires !e.action.Create? && k < |Next(s, e)|
    ensures exists t :: t in s && t.id == Next(s, e)[k].id
  {
    var t := if e.action.DeleteInstance? then Next(s, e)[k] else s[k];
    assert t in s && t.id == Next(s, e)[k].id;
  }

  predicate CreatesUnowned(e: Event) {
    e.action.Create? ==> e.action.task.workerId.None? && e.action.task.leaseUntil.None?
  }

  /** A worker that does not own a task comes to own it only by claiming it. */
  lemma OwnershipStep(s: seq<Task>, e: Event, id: string, worker: string)
    requires UniqueIds(s) && CreatesUnowned(e)
    requires !OwnedBy(s, id, worker) && OwnedBy(Next(s, e), id, worker)
    ensures Takes(s, e, id) && e.action.worker == worker
  {
    hide Find, Rewritten, Takes, Next, Claimable;
    if Find(s, id).Some? {
      StepOfTask(s, e, id);
    } else {
      TaskAppears(s, e, id);
      assert false;
    }
  }

  /** A worker that has lost a task stays fenced off for the rest of any run in which it does not claim that
      task again: its renewals report failure, and neither they nor its guarded updates change anything. */
  lemma {:induction false} StaleWorkerIsFenced(s: seq<Task>, events: seq<Event>, id: string, worker: string)
    requires UniqueIds(s) && worker != ""
    requires forall e :: e in events ==> CreatesUnowned(e)
    requires !OwnedBy(s, id, worker)
    requires forall k :: 0 <= k < |events| ==>
               !(Takes(Run(s, events[..k]), events[k], id) && events[k].action.worker == worker)
    ensures !OwnedBy(Run(s, events), id, worker)
    ensures forall now, lease :: Next(Run(s, events), Event(now, Renew(id, worker, lease))) == Run(s, events)
    ensures forall t :: t in Run(s, events) ==> !Renewable(t, id, worker)
    ensures forall now, patch :: Next(Run(s, events), Event(now, Update(id, patch, worker))) == Run(s, events)
  {
    if events != [] {
      var n := |events| - 1;
      var front := events[..n];
      forall k | 0 <= k < n ensures !(Takes(Run(s, front[..k]), front[k], id) && front[k].action.worker == worker) {
        assert front[..k] == events[..k];
      }
      StaleWorkerIsFenced(s, front, id, worker);
      RunKeepsIdsUnique(s, front);
      if OwnedBy(Run(s, events), id, worker) {
        OwnershipStep(Run(s, front), events[n], id, worker);
        assert false;
      }
    }
    RunKeepsIdsUnique(s, events);
    NotOwnedMeansUntouched(Run(s, events), id, worker);
  }

  lemma NotOwnedMeansUntouched(s: seq<Task>, id: string, worker: string)
    requires UniqueIds(s) && !OwnedBy(s, id, worker) && worker != ""
    ensures forall t :: t in s ==> !Renewable(t, id, worker)
    ensures forall now, lease :: Next(s, Event(now, Renew(id, worker, lease))) == s
    ensures forall now, patch :: Next(s, Event(now, Update(id, patch, worker))) == s
  {
    forall k | 0 <= k < |s| ensures s[k].id == id ==> s[k].workerId != Some(worker) {
      FindUnique(s, k);
    }
    forall now, lease ensures Next(s, Event(now, Renew(id, worker, lease))) == s {
      assert Each(s, now, Renew(id, worker, lease)) == s;
    }
    forall now, patch ensures Next(s, Event(now, Update(id, patch, worker))) == s {
      assert Each(s, now, Update(id, patch, worker)) == s;
    }
  }

  lemma RunLast(s: seq<Task>, events: seq<Event>)
    ensures Run(s, []) == s
    ensures events != [] ==> Run(s, events) == Next(Run(s, events[..|events| - 1]), events[|events| - 1])
    ensures events[..|events|] == events
  {
  }

  lemma TakeoverStep(s: seq<Task>, e: Event, id: string, worker: string)
    requires UniqueIds(s) && CreatesUnowned(e) && IsDeploying(s, id)
    requires !OwnedBy(s, id, worker) && OwnedBy(Next(s, e), id, worker)
    ensures Takes(s, e, id) && e.action.worker == worker
    ensures var t := Find(s, id).value; t.leaseUntil.Some? && t.leaseUntil.value < e.now
  {
    hide Find;
    OwnershipStep(s, e, id, worker);
    StepOfTask(s, e, id);
  }

  /** While a task stays 'deploying', the worker it belongs to is replaced only by a claim made after the
      lease of that moment has passed. */
  lemma {:induction false} TakeoverNeedsExpiredLease(s: seq<Task>, events: seq<Event>, id: string, worker: string)
    returns (k: nat)
    requires UniqueIds(s)
    requires forall e :: e in events ==> CreatesUnowned(e)
    requires forall j :: 0 <= j <= |events| ==> IsDeploying(Run(s, events[..j]), id)
    requires !OwnedBy(s, id, worker) && OwnedBy(Run(s, events), id, worker)
    ensures k < |events| && Takes(Run(s, events[..k]), events[k], id) && events[k].action.worker == worker
    ensures var t := Find(Run(s, events[..k]), id).value;
            t.leaseUntil.Some? && t.leaseUntil.value < events[k].now
  {
    RunLast(s, events);
    hide *;
    var n := |events| - 1;
    var front := events[..n];
    var before := Run(s, front);
    RunKeepsIdsUnique(s, front);
    if OwnedBy(before, id, worker) {
      forall j | 0 <= j <= n ensures IsDeploying(Run(s, front[..j]), id) {
        assert front[..j] == events[..j];
      }
      k := TakeoverNeedsExpiredLease(s, front, id, worker);
      assert front[..k] == events[..k];
    } else {
      k := n;
      assert IsDeploying(before, id);
      TakeoverStep(before, events[n], id, worker);
    }
  }

  predicate NonDecreasing(events: seq<Event>) {
    forall i, j :: 0 <= i < j < |events| ==> events[i].now <= events[j].now
  }

  /** The event leaves the lease of task id alone unless it comes from the worker that holds it, and that worker
      goes on: it renews for no less than it claimed, and its updates (of the step, of the status to deploying)
      do not end the deployment. Other workers may claim, renew and update whatever they like. An update without
      a guard may come from anybody and has to keep to the same. */
  predicate LeavesLease(e: Event, id: string, worker: string, lease: nat) {
    match e.action
    case Renew(i, w, l) => i == id && w == worker ==> l >= lease
    case Update(i, p, guard) => i == id && (guard == "" || guard == worker) ==> GoesOn(p)
    case Create(t) => t.id != id
    case _ => true
  }

  predicate GoesOn(p: Patch) {
    (p.status == Leave || p.status == Put(Deploying)) && !p.clearWorker && p.leaseUntil == Leave
  }

  predicate HeldUntil(s: seq<Task>, id: string, worker: string, until: nat) {
    var t := Find(s, id);
    t.Some? && t.value.status == Deploying && t.value.workerId == Some(worker)
    && t.value.leaseUntil.Some? && until <= t.value.leaseUntil.value
  }

  /** Mutual exclusion: a task that is held until a lease has passed is held in every state up to then, whatever
      the other workers do, unless its instance is deleted. */
  lemma {:induction false} HeldThroughout(s: seq<Task>, events: seq<Event>, id: string, worker: string, start: nat,
                                          lease: nat)
    requires UniqueIds(s) && HeldUntil(s, id, worker, start + lease)
    requires forall e :: e in events ==> LeavesLease(e, id, worker, lease) && start <= e.now <= start + lease
    ensures var held := Run(s, events);
            Find(held, id).None? || HeldUntil(held, id, worker, start + lease)
  {
    RunLast(s, events);
    if events != [] {
      var n := |events| - 1;
      hide *;
      HeldThroughout(s, events[..n], id, worker, start, lease);
      RunKeepsIdsUnique(s, events[..n]);
      HeldStep(Run(s, events[..n]), events[n], id, worker, start, lease);
    }
  }

  /** So is a task from the claim that takes it to the end of the lease it claims. */
  lemma HeldForItsLease(s: seq<Task>, first: Event, events: seq<Event>, id: string)
    requires UniqueIds(s) && Takes(s, first, id)
    requires NonDecreasing([first] + events)
    requires forall e :: e in events ==> LeavesLease(e, id, first.action.worker, first.action.lease)
    requires forall e :: e in events ==> e.now <= first.now + first.action.lease
    ensures var held := Run(Next(s, first), events);
            Find(held, id).None? || HeldUntil(held, id, first.action.worker, first.now + first.action.lease)
  {
    NextKeepsIdsUnique(s, first);
    StepOfTask(s, first, id);
    forall e | e in events ensures first.now <= e.now {
      var k :| 0 <= k < |events| && events[k] == e;
      assert ([first] + events)[0] == first && ([first] + events)[k + 1] == e;
    }
    HeldThroughout(Next(s, first), events, id, first.action.worker, first.now, first.action.lease);
    hide Run, Next, Find;
  }

  /** And from a renewal to the end of the lease it renews. */
  lemma RenewalHolds(s: seq<Task>, now: nat, id: string, worker: string, lease: nat)
    requires UniqueIds(s) && Find(s, id).Some? && Renewable(Find(s, id).value, id, worker)
    ensures HeldUntil(Next(s, Event(now, Renew(id, worker, lease))), id, worker, now + lease)
  {
    StepOfTask(s, Event(now, Renew(id, worker, lease)), id);
    hide Find, UniqueIds, Next;
  }

  /** The lease of task id as it stands. */
  function LeaseOf(s: seq<Task>, id: string): nat {
    var t := Find(s, id);
    if t.None? then 0 else t.value.leaseUntil.GetOr(0)
  }

  /** Everything that happens to task id happens before its lease of that moment has passed. */
  ghost predicate InTime(s: seq<Task>, events: seq<Event>, id: string) {
    forall k :: 0 <= k < |events| ==> StepInTime(Run(s, events[..k]), events[k], id)
  }

  predicate StepInTime(s: seq<Task>, e: Event, id: string) {
    Find(s, id).Some? ==> e.now <= LeaseOf(s, id)
  }

  lemma InTimeLast(s: seq<Task>, events: seq<Event>, id: string)
    requires events != [] && InTime(s, events, id)
    ensures var n := |events| - 1;
            InTime(s, events[..n], id) && StepInTime(Run(s, events[..n]), events[n], id)
  {
    hide Run, StepInTime;
    var n := |events| - 1;
    assert forall k :: 0 <= k < n ==> events[..n][..k] == events[..k] && events[..n][k] == events[k];
  }

  /** Kept alive: a task is held for as long as its worker is in time, however often it renews and for how long. */
  lemma {:induction false} HeldWhileRenewed(s: seq<Task>, events: seq<Event>, id: string, worker: string)
    requires UniqueIds(s) && HeldUntil(s, id, worker, 0) && InTime(s, events, id)
    requires forall e :: e in events ==> LeavesLease(e, id, worker, 0)
    ensures Find(Run(s, events), id).None? || HeldUntil(Run(s, events), id, worker, 0)
  {
    RunLast(s, events);
    hide *;
    if events != [] {
      var n := |events| - 1;
      InTimeLast(s, events, id);
      HeldWhileRenewed(s, events[..n], id, worker);
      RunKeepsIdsUnique(s, events[..n]);
      RenewedStep(Run(s, events[..n]), events[n], id, worker);
    }
  }

  lemma RenewedStep(s: seq<Task>, e: Event, id: string, worker: string)
    requires UniqueIds(s) && LeavesLease(e, id, worker, 0) && StepInTime(s, e, id)
    requires Find(s, id).None? || HeldUntil(s, id, worker, 0)
    ensures Find(Next(s, e), id).None? || HeldUntil(Next(s, e), id, worker, 0)
  {
    hide Find, UniqueIds, Next, Claimable, Rewritten;
    if Find(s, id).Some? {
      StepOfTask(s, e, id);
      RenewedRow(Find(s, id).value, e, id, worker);
    } else if Find(Next(s, e), id).Some? {
      TaskAppears(s, e, id);
      assert false;
    }
  }

  lemma RenewedRow(t: Task, e: Event, id: string, worker: string)
    requires t.id == id && LeavesLease(e, id, worker, 0)
    requires t.status == Deploying && t.workerId == Some(worker) && t.leaseUntil.Some? && e.now <= t.leaseUntil.value
    ensures !Claimable(t, e.now)
    ensures var r := Rewritten(t, e.now, e.action);
            r.status == Deploying && r.workerId == Some(worker) && r.leaseUntil.Some?
  {
  }

  lemma HeldStep(s: seq<Task>, e: Event, id: string, worker: string, start: nat, lease: nat)
    requires UniqueIds(s) && start <= e.now <= start + lease && LeavesLease(e, id, worker, lease)
    requires Find(s, id).None? || HeldUntil(s, id, worker, start + lease)
    ensures Find(Next(s, e), id).None? || HeldUntil(Next(s, e), id, worker, start + lease)
  {
    hide Find, UniqueIds, Next, CancelledRow, Finalised;
    if Find(s, id).Some? {
      StepOfTask(s, e, id);
      HeldRow(Find(s, id).value, e, id, worker, start, lease);
    } else if Find(Next(s, e), id).Some? {
      TaskAppears(s, e, id);
      assert false;
    }
  }

  lemma HeldRow(t: Task, e: Event, id: string, worker: string, start: nat, lease: nat)
    requires t.id == id && start <= e.now <= start + lease && LeavesLease(e, id, worker, lease)
    requires t.status == Deploying && t.workerId == Some(worker)
    requires t.leaseUntil.Some? && start + lease <= t.leaseUntil.value
    ensures !Claimable(t, e.now)
    ensures var r := Rewritten(t, e.now, e.action);
            r.status == Deploying && r.workerId == Some(worker)
            && r.leaseUntil.Some? && start + lease <= r.leaseUntil.value
  {
  }

  // ---------------------------------------------------------------- leases of deploying tasks

  /** Every deploying task has a lease, so it will be claimed again or given up if its worker is lost. */
  predicate Leased(s: seq<Task>) {
    forall k :: 0 <= k < |s| && s[k].status == Deploying ==> s[k].leaseUntil.Some?
  }

  /** Patching this row leaves it leased, if it was. */
  predicate RowKept(t: Task, p: Patch) {
    match p.leaseUntil
    case Leave => p.status == Put(Deploying) ==> t.status == Deploying || t.leaseUntil.Some?
    case Put(lease) => lease.Some? || (if p.status.Put? then p.status.value != Deploying else t.status != Deploying)
  }

  /** What callers have to observe. An update may make a task deploying only if it has a lease or is given one, and
      clear the lease only of a task that is not, or no longer, deploying; and a task may be created deploying
      without a lease only if its id is taken, so that nothing comes of it. */
  predicate ObservesLeases(s: seq<Task>, e: Event) {
    match e.action
    case Update(id, p, guard) => forall k :: 0 <= k < |s| && Patchable(s[k], id, guard) ==> RowKept(s[k], p)
    case Create(t) => t.status == Deploying && t.leaseUntil.None? ==> exists k :: 0 <= k < |s| && s[k].id == t.id
    case _ => true
  }

  predicate RowLeased(t: Task) {
    t.status == Deploying ==> t.leaseUntil.Some?
  }

  predicate ActionKeeps(t: Task, a: Action) {
    match a
    case Update(id, p, guard) => Patchable(t, id, guard) ==> RowKept(t, p)
    case _ => true
  }

  /** Among leased tasks it is exactly such events that keep them leased. */
  lemma LeasedStepIff(s: seq<Task>, e: Event)
    requires Leased(s)
    ensures Leased(Next(s, e)) <==> ObservesLeases(s, e)
  {
    hide Claimable, RowKept, Rewritten;
    var r := Next(s, e);
    if e.action.Create? {
      if !ObservesLeases(s, e) {
        assert r[|s|] == e.action.task;
      }
    } else if !e.action.Claim? && !e.action.DeleteInstance? {
      assert |r| == |s| && forall k :: 0 <= k < |s| ==> r[k] == Rewritten(s[k], e.now, e.action);
      forall k | 0 <= k < |s| ensures RowLeased(r[k]) <==> ActionKeeps(s[k], e.action) {
        LeasedRowIff(s[k], e.now, e.action);
      }
    }
  }

  lemma LeasedRowIff(t: Task, now: nat, a: Action)
    requires RowLeased(t)
    ensures RowLeased(Rewritten(t, now, a)) <==> ActionKeeps(t, a)
  {
    hide Finalised, CancelledRow;
    FinalisedIsLeased(t, now);
    CancelledIsLeased(t, now);
  }

  lemma FinalisedIsLeased(t: Task, now: nat)
    ensures RowLeased(Finalised(t, now))
  {
  }

  lemma CancelledIsLeased(t: Task, now: nat)
    requires RowLeased(t)
    ensures RowLeased(CancelledRow(t, now))
  {
  }

  /** No state of the run, the first and the last included, has a deploying task without a lease. */
  ghost predicate AlwaysLeased(s: seq<Task>, events: seq<Event>) {
    forall k :: 0 <= k <= |events| ==> Leased(Run(s, events[..k]))
  }

  ghost predicate AllObserve(s: seq<Task>, events: seq<Event>) {
    forall k :: 0 <= k < |events| ==> ObservesLeases(Run(s, events[..k]), events[k])
  }

  lemma AlwaysLeasedLast(s: seq<Task>, events: seq<Event>)
    requires events != []
    ensures AlwaysLeased(s, events) <==> AlwaysLeased(s, events[..|events| - 1]) && Leased(Run(s, events))
    ensures AlwaysLeased(s, events[..|events| - 1]) ==> Leased(Run(s, events[..|events| - 1]))
  {
    hide Run, Leased;
    var n := |events| - 1;
    assert events[..n + 1] == events && events[..n][..n] == events[..n];
    assert forall k :: 0 <= k <= n ==> events[..n][..k] == events[..k];
  }

  lemma AllObserveLast(s: seq<Task>, events: seq<Event>)
    requires events != []
    ensures var n := |events| - 1;
            AllObserve(s, events) <==> AllObserve(s, events[..n]) && ObservesLeases(Run(s, events[..n]), events[n])
  {
    hide Run, ObservesLeases;
    var n := |events| - 1;
    assert forall k :: 0 <= k < n ==> events[..n][..k] == events[..k] && events[..n][k] == events[k];
  }

  lemma NoEvents(s: seq<Task>)
    requires Leased(s)
    ensures AlwaysLeased(s, []) && AllObserve(s, [])
  {
    hide Leased;
    assert forall k :: 0 <= k <= 0 ==> Run(s, [][..k]) == s;
  }

  /** Over runs: no deploying task is ever without a lease if and only if every event observes leases. */
  lemma {:induction false} AlwaysLeasedIff(s: seq<Task>, events: seq<Event>)
    requires Leased(s)
    ensures AlwaysLeased(s, events) <==> AllObserve(s, events)
  {
    hide *;
    if events == [] {
      NoEvents(s);
    } else {
      var n := |events| - 1;
      AlwaysLeasedIff(s, events[..n]);
      AlwaysLeasedLast(s, events);
      AllObserveLast(s, events);
      RunLast(s, events);
      if Leased(Run(s, events[..n])) {
        LeasedStepIff(Run(s, events[..n]), events[n]);
      }
    }
  }

  /** And then every deploying task whose lease has passed is claimable or exhausted, unless it was cancelled. */
  lemma RunsStayLeased(s: seq<Task>, events: seq<Event>)
    requires Leased(s) && AllObserve(s, events)
    ensures Leased(Run(s, events))
    ensures forall t, now ::
              t in Run(s, events) && t.status == Deploying && !t.cancelRequested && t.leaseUntil.GetOr(now) < now
              ==> Claimable(t, now) != Exhausted(t, now)
  {
    AlwaysLeasedIff(s, events);
    assert events[..|events|] == events;
    hide Run, AllObserve;
  }

  /** And what happens otherwise: a task left deploying without a lease is never taken over and never given up. */
  lemma LeaselessIsStuck(t: Task, now: nat)
    requires t.status == Deploying && t.leaseUntil.None?
    ensures !Claimable(t, now) && !Exhausted(t, now)
  {
  }

  /** Such a task can come about: the update without a guard that a worker makes right after its claim, when it
      arrives after the task was given up. It wipes out the error of the given-up task, too. */
  lemma LateStatusSticks(t: Task, now: nat)
    requires Exhausted(t, now)
    ensures var s := Next(Next([t], Event(now, FailExhausted)), Event(now, Update(t.id, Started(now), "")));
            && |s| == 1 && s[0].status == Deploying && s[0].errorCode.None? && s[0].failedAt.None? && !Leased(s)
            && forall later :: Pick(s, later) == -1 && Next(s, Event(later, FailExhausted)) == s
  {
    hide *;
    LateRow(t, now);
    OneRow(t, now, FailExhausted);
    var given := Next([t], Event(now, FailExhausted));
    OneRow(given[0], now, Update(t.id, Started(now), ""));
    var s := Next(given, Event(now, Update(t.id, Started(now), "")));
    StillLeased(s);
    forall later ensures Pick(s, later) == -1 && Next(s, Event(later, FailExhausted)) == s {
      NothingToPick(s, later);
      OneRow(s[0], later, FailExhausted);
    }
  }

  lemma StillLeased(s: seq<Task>)
    ensures |s| == 1 && s[0].status == Deploying && s[0].leaseUntil.None? ==> !Leased(s)
  {
  }

  lemma OneRow(t: Task, now: nat, a: Action)
    requires a.FailExhausted? || a.Update?
    ensures Next([t], Event(now, a)) == [Rewritten(t, now, a)]
  {
    hide Rewritten;
  }

  lemma NothingToPick(s: seq<Task>, now: nat)
    requires forall k :: 0 <= k < |s| ==> !Claimable(s[k], now)
    ensures Pick(s, now) == -1
  {
    hide Claimable;
    var k := Pick(s, now);
  }

  /** The update of server/db/index.ts that writes a status, with the columns that go with it. */
  function StatusWritten(status: Status, now: nat, message: Option<string>, code: Option<string>,
                         detail: Option<string>): Patch {
    EMPTY_PATCH.(status := Put(status), errorMessage := Put(OrNull(message)), errorCode := Put(OrNull(code)),
                 errorDetail := Put(OrNull(detail)), failedAt := Put(if status == Failed then Some(now) else None),
                 completedAt := Put(if status == Success || status == Failed || status == Cancelled then Some(now)
                                    else None))
  }

  /** What a worker sends right after its claim. */
  function Started(now: nat): Patch {
    StatusWritten(Deploying, now, None, None, None)
  }

  function OrNull(x: Option<string>): Option<string> {
    if x == Some("") then None else x
  }

  lemma LateRow(t: Task, now: nat)
    requires Exhausted(t, now)
    ensures var r := Rewritten(Rewritten(t, now, FailExhausted), now, Update(t.id, Started(now), ""));
            r.status == Deploying && r.leaseUntil.None? && r.errorCode.None? && r.failedAt.None?
            && forall later :: !Claimable(r, later) && Rewritten(r, later, FailExhausted) == r
  {
    hide Finalised, Exhausted;
    FinalisedRow(t, now);
    var f := Finalised(t, now);
    hide Rewritten;
    StatusRow(f, now);
    var r := Patched(f, Started(now), now);
    hide Patched;
    forall later ensures !Claimable(r, later) && Rewritten(r, later, FailExhausted) == r {
      LeaselessIsStuck(r, later);
      NotExhausted(r, later);
    }
  }

  lemma StatusRow(t: Task, now: nat)
    ensures var r := Rewritten(t, now, Update(t.id, Started(now), ""));
            && r == Patched(t, Started(now), now) && r.status == Deploying && r.leaseUntil == t.leaseUntil
            && r.errorCode.None? && r.failedAt.None?
  {
    hide Finalised, CancelledRow;
  }

  lemma NotExhausted(t: Task, now: nat)
    requires !Exhausted(t, now)
    ensures Rewritten(t, now, FailExhausted) == t
  {
    hide Finalised, CancelledRow, Exhausted;
  }

  /** A task that is given up has failed and belongs to nobody; an error that is recorded already stays. */
  predicate GivesUpRow(t: Task, r: Task, now: nat) {
    && r.status == Failed && r.workerId.None? && r.lockedAt.None? && r.leaseUntil.None?
    && r.failedAt == r.completedAt == Some(now) && r.updatedAt == now
    && r.errorCode == Some("DEPLOYMENT_RETRY_EXHAUSTED") && r.errorMessage.Some? && r.errorDetail.Some?
    && (t.errorDetail.Some? ==> r.errorDetail == t.errorDetail)
    && (r.id, r.instanceId, r.attempt, r.maxAttempts, r.createdAt)
       == (t.id, t.instanceId, t.attempt, t.maxAttempts, t.createdAt)
    && (r.currentStep, r.nextRetryAt, r.heartbeatAt, r.cancelRequested)
       == (t.currentStep, t.nextRetryAt, t.heartbeatAt, t.cancelRequested)
  }

  lemma GivingUpRows(s: seq<Task>, r: seq<Task>, reported: seq<Task>, now: nat)
    requires r == Each(s, now, FailExhausted) && reported == FinalisedRows(s, now)
    ensures forall k :: 0 <= k < |s| ==>
              if IsUsedUp(s[k], now) then GivesUpRow(s[k], r[k], now) else r[k] == s[k]
    ensures forall t :: t in reported <==> exists k :: 0 <= k < |s| && IsUsedUp(s[k], now) && t == r[k]
  {
    hide Finalised, Exhausted, GivesUpRow, IsUsedUp, FinalisedRows, Rewritten;
    forall k | 0 <= k < |s|
      ensures if IsUsedUp(s[k], now) then GivesUpRow(s[k], r[k], now) && r[k] == Finalised(s[k], now)
              else r[k] == s[k]
    {
      UsedUpIff(s[k], now);
      if IsUsedUp(s[k], now) {
        FinalisedRow(s[k], now);
      } else {
        NotExhausted(s[k], now);
      }
    }
    forall t ensures t in reported <==> exists k :: 0 <= k < |s| && IsUsedUp(s[k], now) && t == r[k] {
      FinalisedRowsAre(s, now, t);
      forall k | 0 <= k < |s| ensures Exhausted(s[k], now) <==> IsUsedUp(s[k], now) {
        UsedUpIff(s[k], now);
      }
    }
  }

  lemma FinalisedRow(t: Task, now: nat)
    requires Exhausted(t, now)
    ensures var r := Rewritten(t, now, FailExhausted);
            r == Finalised(t, now) && GivesUpRow(t, r, now)
  {
  }

  // ---------------------------------------------------------------- cancelling

  predicate IsCancelled(s: seq<Task>, id: string) {
    var t := Find(s, id);
    t.Some? ==> t.value.cancelRequested
  }

  /** Nobody withdraws the cancellation of task id by hand or creates the task anew. */
  predicate LeavesCancelled(e: Event, id: string) {
    && !(e.action.Create? && e.action.task.id == id)
    && !(e.action.Update? && e.action.id == id && e.action.patch.cancelRequested == Put(false))
  }

  /** Cancelling reaches every unfinished task of the instance, ends those that wait, and touches no other. */
  lemma CancellationReaches(s: seq<Task>, now: nat, instanceId: string, id: string)
    requires UniqueIds(s) && Find(s, id).Some?
    ensures var r := Find(Next(s, Event(now, CancelInstance(instanceId))), id);
            r.Some? && CancelsRow(Find(s, id).value, r.value, now, instanceId)
  {
    var e := Event(now, CancelInstance(instanceId));
    assert !Takes(s, e, id);
    StepOfTask(s, e, id);
    CancellingRow(Find(s, id).value, now, instanceId);
    hide *;
  }

  lemma CancelledStep(s: seq<Task>, e: Event, id: string)
    requires UniqueIds(s) && IsCancelled(s, id) && LeavesCancelled(e, id)
    ensures IsCancelled(Next(s, e), id) && !Takes(s, e, id)
  {
    hide Find, UniqueIds, Next, Finalised;
    if Find(s, id).Some? {
      StepOfTask(s, e, id);
    } else {
      assert forall k :: 0 <= k < |s| ==> s[k].id != id;
      if Find(Next(s, e), id).Some? {
        TaskAppears(s, e, id);
        assert false;
      }
    }
  }

  /** A cancelled task is never taken again and its lease is never renewed, in any run that does not withdraw
      the cancellation. */
  lemma {:induction false} CancelledStaysCancelled(s: seq<Task>, events: seq<Event>, id: string)
    requires UniqueIds(s) && IsCancelled(s, id)
    requires forall e :: e in events ==> LeavesCancelled(e, id)
    ensures IsCancelled(Run(s, events), id)
    ensures forall now, worker, lease :: !Takes(Run(s, events), Event(now, Claim(worker, lease)), id)
    ensures forall t, worker :: t in Run(s, events) ==> !Renewable(t, id, worker)
  {
    RunLast(s, events);
    RunKeepsIdsUnique(s, events);
    hide UniqueIds, Find, Next, Run, IsCancelled;
    if events != [] {
      var n := |events| - 1;
      RunKeepsIdsUnique(s, events[..n]);
      CancelledStaysCancelled(s, events[..n], id);
      CancelledStep(Run(s, events[..n]), events[n], id);
    }
    NotTaken(Run(s, events), id);
  }

  lemma NotTaken(s: seq<Task>, id: string)
    requires UniqueIds(s) && IsCancelled(s, id)
    ensures forall now, worker, lease :: !Takes(s, Event(now, Claim(worker, lease)), id)
    ensures forall t, worker :: t in s ==> !Renewable(t, id, worker)
  {
    forall now, worker, lease ensures !Takes(s, Event(now, Claim(worker, lease)), id) {
      CancelledStep(s, Event(now, Claim(worker, lease)), id);
    }
    forall k | 0 <= k < |s| && s[k].id == id ensures s[k].cancelRequested {
      FindUnique(s, k);
    }
  }
}
