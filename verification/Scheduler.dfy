/** The cron dispatcher of server/schedulerRunner.ts over the fire table of server/db/index.ts.

  Every store call is one atomic step of `Step`; between any two of them the process may crash (losing only
  its program counter), a call may throw, and users and task runners may change jobs, tasks and fires.
  The invariant holds in every such run: one fire for each job and fire time, one task for each fire, and
  always the same task whichever path created it. The class executes the calls and the recovery pass. */
module Scheduler {

  import opened Options

  /** Free-form JSON values are carried as text. */
  datatype Payload = Payload(
    jobId: Option<string>, templateId: Option<string>, templateSlug: Option<string>, templateInputs: string,
    templateSnapshot: string, trigger: string, cron: string, dispatchedAt: string, fireId: Option<string>)

  /** The fields of a task that are fixed when it is created. */
  datatype Request = Request(
    ownerId: string, instanceId: string, templateId: Option<string>, title: string, triggerType: string,
    prompt: Option<string>, fireId: Option<string>, key: Option<string>, payload: Payload)

  datatype Task = Task(id: string, status: string, request: Request)

  datatype JobPayload = JobPayload(
    templateId: Option<string>, templateSlug: Option<string>, templateInputs: Option<string>,
    templateSnapshot: Option<string>, trigger: Option<string>)

  datatype Job = Job(
    id: string, ownerId: string, instanceId: string, templateId: Option<string>, title: string,
    prompt: Option<string>, payload: JobPayload, cron: string, nextRunAt: Option<string>, isActive: bool)

  datatype FireStatus = Claimed | Dispatched | Completed | Failed

  datatype Fire = Fire(
    id: string, jobId: string, fireAt: string, key: string, status: FireStatus, taskId: Option<string>,
    snapshot: Request)

  datatype Store = Store(jobs: seq<Job>, fires: seq<Fire>, tasks: seq<Task>)

  const PAGE := 20

  // ---------------------------------------------------------------- the two ways to build a task

  /** JavaScript's `x || null` on an optional text. */
  function OrNull(x: Option<string>): Option<string> {
    if x == Some("") then None else x
  }

  function OrElse(x: Option<string>, y: Option<string>): Option<string> {
    if OrNull(x).Some? then x else y
  }

  function PayloadOf(job: Job, now: string): Payload {
    Payload(Some(job.id), OrElse(job.templateId, job.payload.templateId), job.payload.templateSlug,
            job.payload.templateInputs.GetOr("{}"), job.payload.templateSnapshot.GetOr("{}"),
            job.payload.trigger.GetOr("{\"type\":\"schedule\",\"cron\":" + job.cron + "}"), job.cron, now, None)
  }

  function TitleOf(job: Job): string {
    if job.title == "" then "Scheduled Task" else job.title
  }

  /** The task snapshot stored with a claimed fire. */
  function SnapshotOf(job: Job, now: string): Request {
    Request(job.ownerId, job.instanceId, OrElse(job.templateId, job.payload.templateId), TitleOf(job), "schedule",
            OrNull(job.prompt), None, None, PayloadOf(job, now))
  }

  /** What tasksRepo.create stores of a request. */
  function Stored(r: Request): Request {
    r.(templateId := OrNull(r.templateId), prompt := OrNull(r.prompt), fireId := OrNull(r.fireId), key := OrNull(r.key),
       triggerType := if r.triggerType == "" then "manual" else r.triggerType)
  }

  /** The request of the uncrashed path: built again from the job. */
  function DirectRequest(job: Job, fire: Fire, now: string): Request {
    Stored(Request(job.ownerId, job.instanceId, OrElse(job.templateId, job.payload.templateId), TitleOf(job),
                   "schedule", OrNull(job.prompt), Some(fire.id), Some(fire.key),
                   PayloadOf(job, now).(fireId := Some(fire.id))))
  }

  /** The request of the recovery path: built from the stored snapshot alone. */
  function RecoveredRequest(fire: Fire): Request {
    Stored(fire.snapshot.(fireId := Some(fire.id), key := Some(fire.key),
                          payload := fire.snapshot.payload.(fireId := Some(fire.id))))
  }

  /** What is created says what the job says: its own template, else the payload's; its title, else a stock one; no
    empty prompt; the payload's inputs, snapshot and trigger, else stock ones; and where it comes from. */
  lemma RequestSaysWhatTheJobSays(job: Job, fire: Fire, now: string)
    requires fire.id != "" && fire.key != ""
    ensures var q := DirectRequest(job, fire, now);
            && q.ownerId == job.ownerId && q.instanceId == job.instanceId && q.triggerType == "schedule"
            && q.fireId == q.payload.fireId == Some(fire.id) && q.key == Some(fire.key)
            && (job.title != "" ==> q.title == job.title) && (job.title == "" ==> q.title == "Scheduled Task")
            && (job.prompt.GetOr("") == "" ==> q.prompt.None?)
            && (job.prompt.GetOr("") != "" ==> q.prompt == job.prompt)
            && (job.templateId.GetOr("") != "" ==> q.templateId == q.payload.templateId == job.templateId)
            && (job.templateId.GetOr("") == "" ==>
                  q.payload.templateId == job.payload.templateId
                  && q.templateId.GetOr("") == job.payload.templateId.GetOr(""))
    ensures var p := DirectRequest(job, fire, now).payload;
            && p.jobId == Some(job.id) && p.templateSlug == job.payload.templateSlug
            && p.cron == job.cron && p.dispatchedAt == now
            && (job.payload.templateInputs.Some? ==> p.templateInputs == job.payload.templateInputs.value)
            && (job.payload.templateSnapshot.Some? ==> p.templateSnapshot == job.payload.templateSnapshot.value)
            && (job.payload.trigger.Some? ==> p.trigger == job.payload.trigger.value)
            && (job.payload.templateInputs.None? ==> p.templateInputs == "{}")
            && (job.payload.templateSnapshot.None? ==> p.templateSnapshot == "{}")
  {
  }

  /** A crash between claiming and creating does not change what is created. */
  lemma RecoveryBuildsTheSameTask(job: Job, fire: Fire, now: string)
    requires fire.snapshot == SnapshotOf(job, now)
    ensures RecoveredRequest(fire) == DirectRequest(job, fire, now)
  {
  }

  // ---------------------------------------------------------------- idempotency keys

  function Key(jobId: string, fireAt: string): string {
    jobId + ":" + fireAt
  }

  /** The job and time of the left key continue as the job and time of the right one: the right job's id is the
      left one's, a colon and some text, and the left time is that text, a colon and the right time. */
  predicate Shifted(job1: string, at1: string, job2: string, at2: string) {
    && |job1| < |job2| && job2[..|job1|] == job1 && job2[|job1|] == ':'
    && at1 == job2[|job1| + 1..] + ":" + at2
  }

  /** Exactly when two keys agree. */
  lemma KeysAgreeIff(job1: string, at1: string, job2: string, at2: string)
    ensures Key(job1, at1) == Key(job2, at2) <==>
            (job1 == job2 && at1 == at2) || Shifted(job1, at1, job2, at2) || Shifted(job2, at2, job1, at1)
  {
    if |job1| == |job2| {
      KeysOfEqualLength(job1, at1, job2, at2);
    } else if |job1| < |job2| {
      KeyOfLonger(job1, at1, job2, at2);
    } else {
      KeyOfLonger(job2, at2, job1, at1);
    }
  }

  lemma KeysOfEqualLength(job1: string, at1: string, job2: string, at2: string)
    requires |job1| == |job2|
    ensures Key(job1, at1) == Key(job2, at2) <==> job1 == job2 && at1 == at2
  {
    var k1, k2 := Key(job1, at1), Key(job2, at2);
    assert k1[..|job1|] == job1 && k2[..|job2|] == job2;
    assert k1[|job1| + 1..] == at1 && k2[|job2| + 1..] == at2;
  }

  lemma KeyOfLonger(job1: string, at1: string, job2: string, at2: string)
    requires |job1| < |job2|
    ensures Key(job1, at1) == Key(job2, at2) <==> Shifted(job1, at1, job2, at2)
  {
    var k1, k2, n := Key(job1, at1), Key(job2, at2), |job1|;
    assert k1[..n] == job1 && k1[n] == ':' && k1[n + 1..] == at1;
    assert k2[..n] == job2[..n] && k2[n] == job2[n] && k2[n + 1..] == job2[n + 1..] + ":" + at2;
    assert k1 == k1[..n] + [k1[n]] + k1[n + 1..] && k2 == k2[..n] + [k2[n]] + k2[n + 1..];
  }

  /** Keys of fires whose times have the same length, as ISO timestamps have, tell them apart whatever the job
      ids are; and so do keys of jobs whose ids have no colon, whatever the times are. */
  lemma KeysTellFiresApart(job1: string, at1: string, job2: string, at2: string)
    requires |at1| == |at2| || (':' !in job1 && ':' !in job2)
    ensures Key(job1, at1) == Key(job2, at2) <==> job1 == job2 && at1 == at2
  {
    KeysAgreeIff(job1, at1, job2, at2);
  }

  // ---------------------------------------------------------------- the store calls

  predicate ForFire(t: Task, fireId: string) {
    t.request.fireId == Some(fireId) || t.request.payload.fireId == Some(fireId)
  }

  /** The source's findTaskByScheduledFireId. */
  function FindTask(tasks: seq<Task>, fireId: string): (t: Option<Task>)
    ensures t.Some? ==> t.value in tasks && ForFire(t.value, fireId)
    ensures t.None? ==> forall u :: u in tasks ==> !ForFire(u, fireId)
  {
    if tasks == [] then None
    else if ForFire(tasks[0], fireId) then Some(tasks[0])
    else FindTask(tasks[1..], fireId)
  }

  function FindKey(fires: seq<Fire>, key: string): (f: Option<Fire>)
    ensures f.Some? ==> f.value in fires && f.value.key == key
    ensures f.None? ==> forall g :: g in fires ==> g.key != key
  {
    if fires == [] then None
    else if fires[0].key == key then Some(fires[0])
    else FindKey(fires[1..], key)
  }

  /** The source's listRecoverableScheduledFires, without its page limit. */
  function Recoverable(fires: seq<Fire>): (r: seq<Fire>)
    ensures forall f :: f in r <==> f in fires && (f.status == Claimed || f.status == Dispatched)
  {
    if fires == [] then []
    else
      (if fires[0].status == Claimed || fires[0].status == Dispatched then [fires[0]] else []) + Recoverable(fires[1..])
  }

  function FirstPage<T>(s: seq<T>): seq<T> {
    if |s| <= PAGE then s else s[..PAGE]
  }

  /** The source's claimScheduledFire; Some when this call created the fire. */
  function ClaimFire(s: Store, jobId: string, fireAt: string, snapshot: Request, id: string): (Store, Option<Fire>) {
    var key := Key(jobId, fireAt);
    if FindKey(s.fires, key).Some? then (s, None)
    else
      var fire := Fire(id, jobId, fireAt, key, Claimed, None, snapshot);
      (s.(fires := s.fires + [fire]), Some(fire))
  }

  function CreateTask(s: Store, request: Request, id: string): (Store, Task) {
    var task := Task(id, "queued", request);
    (s.(tasks := s.tasks + [task]), task)
  }

  /** The source's updateScheduledFire with the three updates the repository makes. */
  function MarkFire(s: Store, fireId: string, status: FireStatus, taskId: Option<string>): Store {
    s.(fires := seq(|s.fires|, k requires 0 <= k < |s.fires| =>
      if s.fires[k].id == fireId
      then s.fires[k].(status := status, taskId := if taskId.Some? then taskId else s.fires[k].taskId)
      else s.fires[k]))
  }

  function AdvanceJob(s: Store, jobId: string, nextRunAt: string): Store {
    s.(jobs := seq(|s.jobs|, k requires 0 <= k < |s.jobs| =>
      if s.jobs[k].id == jobId then s.jobs[k].(nextRunAt := Some(nextRunAt)) else s.jobs[k]))
  }

  /** How recovery marks a fire whose task has this status. */
  function StatusAfter(taskStatus: string): FireStatus {
    if taskStatus in ["success", "completed"] then Completed
    else if taskStatus in ["failed", "failed-terminal", "cancelled", "canceled", "config_required"] then Failed
    else Dispatched
  }

  function MarkRecovered(s: Store, fire: Fire, task: Task): Store {
    var status := StatusAfter(task.status);
    MarkFire(s, fire.id, status, if status == Dispatched then Some(task.id) else None)
  }

  // ---------------------------------------------------------------- the invariant

  ghost predicate HasTask(s: Store, fireId: string) {
    exists t :: t in s.tasks && ForFire(t, fireId)
  }

  /** No two fires have the same id or stand for the same job and fire time. */
  predicate FiresUnique(fires: seq<Fire>) {
    && (forall i, j :: 0 <= i < j < |fires| ==> fires[i].id != fires[j].id && fires[i].key != fires[j].key)
    && (forall f :: f in fires ==> f.key == Key(f.jobId, f.fireAt) && f.id != "" && f.key != "")
  }

  /** No two tasks belong to the same fire. */
  ghost predicate TasksUnique(tasks: seq<Task>) {
    forall i, j, id :: 0 <= i < j < |tasks| && ForFire(tasks[i], id) ==> !ForFire(tasks[j], id)
  }

  /** Every scheduled task belongs to a stored fire and is the one its snapshot asks for. */
  ghost predicate TasksFaithful(s: Store) {
    forall t, id :: t in s.tasks && ForFire(t, id) ==>
      exists f :: f in s.fires && f.id == id && t.request == RecoveredRequest(f)
  }

  /** A fire leaves the state 'claimed' only when it has its task. */
  ghost predicate FiresServed(s: Store) {
    forall f :: f in s.fires && f.status != Claimed ==> HasTask(s, f.id)
  }

  ghost predicate Inv(s: Store) {
    FiresUnique(s.fires) && TasksUnique(s.tasks) && TasksFaithful(s) && FiresServed(s)
  }

  /** The fire is stored; its status may have moved on. */
  ghost predicate Known(s: Store, f: Fire) {
    exists g :: g in s.fires && g.id == f.id && RecoveredRequest(g) == RecoveredRequest(f)
  }

  lemma ClaimKeepsInv(s: Store, jobId: string, fireAt: string, snapshot: Request, id: string)
    requires Inv(s) && id != ""
    requires forall f :: f in s.fires ==> f.id != id
    requires forall t :: t in s.tasks ==> !ForFire(t, id)
    ensures var (r, claimed) := ClaimFire(s, jobId, fireAt, snapshot, id);
            Inv(r) && (claimed.Some? ==> Known(r, claimed.value) && !HasTask(r, claimed.value.id))
  {
    var (r, claimed) := ClaimFire(s, jobId, fireAt, snapshot, id);
    if claimed.Some? {
      assert r.fires == s.fires + [claimed.value];
      forall t, fid | t in r.tasks && ForFire(t, fid)
        ensures exists f :: f in r.fires && f.id == fid && t.request == RecoveredRequest(f)
      {
        var f :| f in s.fires && f.id == fid && t.request == RecoveredRequest(f);
        assert f in r.fires;
      }
      assert claimed.value in r.fires;
      forall f | f in r.fires && f.status != Claimed ensures HasTask(r, f.id) {
        assert f in s.fires && HasTask(s, f.id);
      }
    }
  }

  lemma CreateKeepsInv(s: Store, fire: Fire, id: string)
    requires Inv(s) && Known(s, fire) && !HasTask(s, fire.id) && fire.id != ""
    ensures var (r, task) := CreateTask(s, RecoveredRequest(fire), id);
            Inv(r) && Known(r, fire) && HasTask(r, fire.id)
  {
    var (r, task) := CreateTask(s, RecoveredRequest(fire), id);
    assert r.tasks == s.tasks + [task] && r.fires == s.fires;
    assert ForFire(task, fire.id) && task in r.tasks;
    assert HasTask(r, fire.id);
    MoreTasksStillServe(s, r);
    var g :| g in s.fires && g.id == fire.id && RecoveredRequest(g) == RecoveredRequest(fire);
    hide RecoveredRequest;
    forall t, fid | t in r.tasks && ForFire(t, fid)
      ensures exists f :: f in r.fires && f.id == fid && t.request == RecoveredRequest(f)
    {
      if t !in s.tasks {
        assert g in r.fires && g.id == fid && t.request == RecoveredRequest(g);
      }
    }
  }

  lemma MoreTasksStillServe(s: Store, r: Store)
    requires FiresServed(s) && s.fires == r.fires && forall t :: t in s.tasks ==> t in r.tasks
    ensures FiresServed(r)
  {
    forall f | f in r.fires && f.status != Claimed ensures HasTask(r, f.id) {
      var t :| t in s.tasks && ForFire(t, f.id);
    }
  }

  /** Fires that differ only in their status and task id. */
  ghost predicate SameFires(a: seq<Fire>, b: seq<Fire>) {
    |a| == |b| && forall k :: 0 <= k < |a| ==> b[k] == a[k].(status := b[k].status, taskId := b[k].taskId)
  }

  lemma SameFiresMatch(a: seq<Fire>, b: seq<Fire>, f: Fire)
    requires SameFires(a, b) && f in a
    ensures exists g :: g in b && g.id == f.id && RecoveredRequest(g) == RecoveredRequest(f)
  {
    var k :| 0 <= k < |a| && a[k] == f;
    assert b[k] in b && b[k].id == f.id && RecoveredRequest(b[k]) == RecoveredRequest(f);
  }

  lemma SameFiresKeepFacts(s: Store, r: Store)
    requires FiresUnique(s.fires) && TasksFaithful(s)
    requires SameFires(s.fires, r.fires) && r.tasks == s.tasks
    ensures FiresUnique(r.fires) && TasksFaithful(r)
    ensures forall f :: Known(s, f) ==> Known(r, f)
  {
    hide RecoveredRequest, Key;
    forall f | f in r.fires ensures f.key == Key(f.jobId, f.fireAt) && f.id != "" && f.key != "" {
      var k :| 0 <= k < |r.fires| && r.fires[k] == f;
      assert s.fires[k] in s.fires;
    }
    forall t, id | t in r.tasks && ForFire(t, id)
      ensures exists f :: f in r.fires && f.id == id && t.request == RecoveredRequest(f)
    {
      var f :| f in s.fires && f.id == id && t.request == RecoveredRequest(f);
      SameFiresMatch(s.fires, r.fires, f);
    }
    forall f | Known(s, f) ensures Known(r, f) {
      var g :| g in s.fires && g.id == f.id && RecoveredRequest(g) == RecoveredRequest(f);
      SameFiresMatch(s.fires, r.fires, g);
    }
  }

  lemma MarkKeepsInv(s: Store, fireId: string, status: FireStatus, taskId: Option<string>)
    requires Inv(s) && HasTask(s, fireId)
    ensures var r := MarkFire(s, fireId, status, taskId);
            Inv(r) && r.tasks == s.tasks && SameFires(s.fires, r.fires) && forall f :: Known(s, f) ==> Known(r, f)
  {
    var r := MarkFire(s, fireId, status, taskId);
    assert SameFires(s.fires, r.fires);
    hide RecoveredRequest, Key;
    SameFiresKeepFacts(s, r);
    forall f | f in r.fires && f.status != Claimed ensures HasTask(r, f.id) {
      var k :| 0 <= k < |r.fires| && r.fires[k] == f;
      assert s.fires[k] in s.fires && s.fires[k].id == f.id;
      assert HasTask(s, f.id);
    }
  }

  // ---------------------------------------------------------------- one process, step by step

  /** ISO timestamps are compared as texts. */
  predicate TextAtMost(a: string, b: string) {
    a == "" || (b != "" && (a[0] < b[0] || (a[0] == b[0] && TextAtMost(a[1..], b[1..]))))
  }

  /** The source's listDueScheduledJobs, without its page limit. */
  function Due(jobs: seq<Job>, now: string): seq<Job> {
    if jobs == [] then []
    else (if jobs[0].isActive && (OrNull(jobs[0].nextRunAt).None? || TextAtMost(jobs[0].nextRunAt.value, now))
          then [jobs[0]] else []) + Due(jobs[1..], now)
  }

  /** Text order: the first character that differs decides, and a text that ends first comes first. */
  predicate Before(a: string, b: string) {
    exists k :: 0 <= k <= |a| && DecidedAt(a, b, k)
  }

  predicate DecidedAt(a: string, b: string, k: nat)
    requires k <= |a|
  {
    k < |b| && (forall i :: 0 <= i < k ==> a[i] == b[i]) && (k < |a| ==> a[k] < b[k])
  }

  lemma {:induction false} TextAtMostIff(a: string, b: string)
    ensures TextAtMost(a, b) <==> a == b || Before(a, b)
  {
    if a == "" {
      assert b != "" ==> DecidedAt(a, b, 0);
    } else if b != "" {
      TextAtMostIff(a[1..], b[1..]);
      BeforeLater(a, b);
      assert a == [a[0]] + a[1..] && b == [b[0]] + b[1..];
      hide Before;
    }
  }

  lemma BeforeLater(a: string, b: string)
    requires a != "" && b != ""
    ensures Before(a, b) <==> a[0] < b[0] || (a[0] == b[0] && Before(a[1..], b[1..]))
  {
    if a[0] < b[0] {
      assert DecidedAt(a, b, 0);
    }
    if a[0] == b[0] && Before(a[1..], b[1..]) {
      var k :| 0 <= k < |a| && DecidedAt(a[1..], b[1..], k);
      forall i | 0 <= i < k + 1 ensures a[i] == b[i] {
        assert i > 0 ==> a[1..][i - 1] == b[1..][i - 1];
      }
      assert DecidedAt(a, b, k + 1);
    }
    if Before(a, b) && a[0] >= b[0] {
      var k :| 0 <= k <= |a| && DecidedAt(a, b, k);
      assert DecidedAt(a[1..], b[1..], k - 1);
    }
  }

  /** The job is active, and has no time or one that is not after now. */
  predicate IsDue(job: Job, now: string) {
    job.isActive
    && (job.nextRunAt.GetOr("") == "" || job.nextRunAt.value == now || Before(job.nextRunAt.value, now))
  }

  /** The due jobs before position k. */
  function DueBefore(jobs: seq<Job>, now: string, k: nat): nat
    requires k <= |jobs|
  {
    if k == 0 then 0 else DueBefore(jobs, now, k - 1) + (if IsDue(jobs[k - 1], now) then 1 else 0)
  }

  lemma DueCons(jobs: seq<Job>, now: string)
    requires jobs != []
    ensures Due(jobs, now) == Due([jobs[0]], now) + Due(jobs[1..], now)
  {
    hide TextAtMost;
    assert Due([jobs[0]][1..], now) == [];
  }

  lemma {:induction false} DueConcat(a: seq<Job>, b: seq<Job>, now: string)
    ensures Due(a + b, now) == Due(a, now) + Due(b, now)
  {
    hide *;
    if a == [] {
      DueOfNothing(a, now);
      assert a[..0] == a && a + b == b;
    } else {
      DueConcat(a[1..], b, now);
      DueCons(a, now);
      DueCons(a + b, now);
      assert (a + b)[1..] == a[1..] + b;
    }
  }

  lemma DueOne(job: Job, now: string)
    ensures Due([job], now) == if IsDue(job, now) then [job] else []
  {
    if OrNull(job.nextRunAt).Some? {
      TextAtMostIff(job.nextRunAt.value, now);
    }
    hide TextAtMost, Before;
    assert Due([job][1..], now) == [];
  }

  /** The list holds the due jobs in order: the job at k stands behind those that are due before it. */
  lemma {:induction false} DueInOrder(jobs: seq<Job>, now: string, k: nat)
    requires k <= |jobs|
    ensures |Due(jobs[..k], now)| == DueBefore(jobs, now, k)
    ensures k < |jobs| && IsDue(jobs[k], now) ==>
              DueBefore(jobs, now, k) < |Due(jobs, now)| && Due(jobs, now)[DueBefore(jobs, now, k)] == jobs[k]
    decreases k
  {
    hide Due, IsDue;
    if k == 0 {
      DueOfNothing(jobs, now);
    } else {
      DueInOrder(jobs, now, k - 1);
      assert jobs[..k] == jobs[..k - 1] + [jobs[k - 1]];
      DueConcat(jobs[..k - 1], [jobs[k - 1]], now);
      DueOne(jobs[k - 1], now);
    }
    if k < |jobs| {
      DueOne(jobs[k], now);
      DueConcat([jobs[k]], jobs[k + 1..], now);
      DueConcat(jobs[..k], [jobs[k]] + jobs[k + 1..], now);
      assert jobs == jobs[..k] + ([jobs[k]] + jobs[k + 1..]);
    }
  }

  lemma DueOfNothing(jobs: seq<Job>, now: string)
    ensures Due(jobs[..0], now) == []
  {
  }

  /** The first twenty of them make the page, and nothing else does. */
  lemma DuePage(jobs: seq<Job>, now: string)
    ensures forall k :: 0 <= k < |jobs| && IsDue(jobs[k], now) && DueBefore(jobs, now, k) < 20 ==>
              jobs[k] in FirstPage(Due(jobs, now))
    ensures forall job :: job in FirstPage(Due(jobs, now)) ==> job in jobs && IsDue(job, now)
  {
    forall k | 0 <= k < |jobs| && IsDue(jobs[k], now) && DueBefore(jobs, now, k) < 20
      ensures jobs[k] in FirstPage(Due(jobs, now))
    {
      DueInOrder(jobs, now, k);
      var page := FirstPage(Due(jobs, now));
      assert page[DueBefore(jobs, now, k)] == jobs[k];
    }
    DueAreDue(jobs, now);
  }

  lemma {:induction false} DueAreDue(jobs: seq<Job>, now: string)
    ensures forall job :: job in Due(jobs, now) ==> job in jobs && IsDue(job, now)
  {
    hide IsDue, Due;
    if jobs == [] {
      DueOfNothing(jobs, now);
      assert jobs[..0] == jobs;
    } else {
      DueAreDue(jobs[1..], now);
      DueOne(jobs[0], now);
      DueConcat([jobs[0]], jobs[1..], now);
      assert jobs == [jobs[0]] + jobs[1..];
    }
  }

  function FireAt(job: Job, now: string): string {
    OrNull(job.nextRunAt).GetOr(now)
  }

  /** Where a tick is between two store calls. The current fire or job is the first of its list. */
  datatype Pc =
    | Idle
    | FindRecovered(fires: seq<Fire>)
    | CreateRecovered(fires: seq<Fire>)
    | MarkingRecovered(fires: seq<Fire>, task: Task)
    | ListingDue
    | ClaimNext(jobs: seq<Job>, now: string)
    | Advance(jobs: seq<Job>, now: string, claimed: Option<Fire>)
    | CreateDirect(jobs: seq<Job>, now: string, fire: Fire)
    | MarkingDirect(jobs: seq<Job>, now: string, fire: Fire, task: Task)

  datatype Machine = Machine(store: Store, pc: Pc)

  /** `Proceed` carries what the next call gets from outside: a random id, the clock, whether the instance is
      ready, and the next run time the cron expression yields. */
  datatype Event =
    | Proceed(id: string, now: string, ready: bool, nextRunAt: string)
    | Throw
    | Crash
    | UserChangesJobs(jobs: seq<Job>)
    | TaskChangesStatus(index: nat, status: string)
    | RunnerFinishesFire(fireId: string, success: bool)
    | UserCreatesTask(task: Task)

  function Continue(m: Machine, e: Event): Machine
    requires e.Proceed?
  {
    var s := m.store;
    match m.pc
    case Idle => Machine(s, FindRecovered(FirstPage(Recoverable(s.fires))))
    case FindRecovered(fires) =>
      if fires == [] then Machine(s, ListingDue)
      else
        var found := FindTask(s.tasks, fires[0].id);
        Machine(s, if found.Some? then MarkingRecovered(fires, found.value) else CreateRecovered(fires))
    case CreateRecovered(fires) =>
      if fires == [] then m.(pc := Idle)
      else
        var (r, task) := CreateTask(s, RecoveredRequest(fires[0]), e.id);
        Machine(r, MarkingRecovered(fires, task))
    case MarkingRecovered(fires, task) =>
      if fires == [] then m.(pc := Idle)
      else Machine(MarkRecovered(s, fires[0], task), FindRecovered(fires[1..]))
    case ListingDue => Machine(s, ClaimNext(FirstPage(Due(s.jobs, e.now)), e.now))
    case ClaimNext(jobs, now) =>
      if jobs == [] then Machine(s, Idle)
      else if !e.ready then
        Machine(s.(jobs := Deactivated(s.jobs, jobs[0].id)), ClaimNext(jobs[1..], now))
      else
        var (r, claimed) := ClaimFire(s, jobs[0].id, FireAt(jobs[0], now), SnapshotOf(jobs[0], now), e.id);
        Machine(r, Advance(jobs, now, claimed))
    case Advance(jobs, now, claimed) =>
      if jobs == [] then m.(pc := Idle)
      else
        Machine(AdvanceJob(s, jobs[0].id, e.nextRunAt),
                if claimed.Some? then CreateDirect(jobs, now, claimed.value) else ClaimNext(jobs[1..], now))
    case CreateDirect(jobs, now, fire) =>
      if jobs == [] then m.(pc := Idle)
      else
        var (r, task) := CreateTask(s, DirectRequest(jobs[0], fire, now), e.id);
        Machine(r, MarkingDirect(jobs, now, fire, task))
    case MarkingDirect(jobs, now, fire, task) =>
      if jobs == [] then m.(pc := Idle)
      else Machine(MarkFire(s, fire.id, Dispatched, Some(task.id)), ClaimNext(jobs[1..], now))
  }

  function Deactivated(jobs: seq<Job>, id: string): seq<Job> {
    seq(|jobs|, k requires 0 <= k < |jobs| => if jobs[k].id == id then jobs[k].(isActive := false) else jobs[k])
  }

  /** An exception gives up the current job, or the whole tick when it comes from recovery or listing. */
  function AfterThrow(pc: Pc): Pc {
    match pc
    case ClaimNext(jobs, now) => if jobs == [] then Idle else ClaimNext(jobs[1..], now)
    case Advance(jobs, now, _) => if jobs == [] then Idle else ClaimNext(jobs[1..], now)
    case CreateDirect(jobs, now, _) => if jobs == [] then Idle else ClaimNext(jobs[1..], now)
    case MarkingDirect(jobs, now, _, _) => if jobs == [] then Idle else ClaimNext(jobs[1..], now)
    case _ => Idle
  }

  ghost function Step(m: Machine, e: Event): Machine {
    var s := m.store;
    match e
    case Proceed(_, _, _, _) => Continue(m, e)
    case Throw => m.(pc := AfterThrow(m.pc))
    case Crash => m.(pc := Idle)
    case UserChangesJobs(jobs) => m.(store := s.(jobs := jobs))
    case TaskChangesStatus(k, status) =>
      if k < |s.tasks| then m.(store := s.(tasks := s.tasks[k := s.tasks[k].(status := status)])) else m
    case RunnerFinishesFire(id, success) =>
      if HasTask(s, id) then m.(store := MarkFire(s, id, if success then Completed else Failed, None)) else m
    case UserCreatesTask(t) => m.(store := s.(tasks := s.tasks + [t]))
  }

  /** Random ids have not been used before, and only the dispatcher links tasks to fires. */
  predicate Fresh(s: Store, id: string) {
    id != "" && (forall f :: f in s.fires ==> f.id != id) && (forall t :: t in s.tasks ==> !ForFire(t, id))
  }

  predicate Allowed(s: Store, e: Event) {
    match e
    case Proceed(id, _, _, _) => Fresh(s, id)
    case UserCreatesTask(t) => t.request.fireId.None? && t.request.payload.fireId.None?
    case _ => true
  }

  /** The fire just claimed for the current job, its task still to be created. */
  ghost predicate Pending(s: Store, fire: Fire, job: Job, now: string) {
    Known(s, fire) && !HasTask(s, fire.id) && fire.snapshot == SnapshotOf(job, now)
  }

  ghost predicate AllKnown(s: Store, fires: seq<Fire>) {
    forall f :: f in fires ==> Known(s, f)
  }

  ghost predicate PcInv(s: Store, pc: Pc) {
    match pc
    case FindRecovered(fires) => AllKnown(s, fires)
    case CreateRecovered(fires) => fires != [] && AllKnown(s, fires) && !HasTask(s, fires[0].id)
    case MarkingRecovered(fires, task) => fires != [] && AllKnown(s, fires) && HasTask(s, fires[0].id)
    case Advance(jobs, now, claimed) => jobs != [] && (claimed.Some? ==> Pending(s, claimed.value, jobs[0], now))
    case CreateDirect(jobs, now, fire) => jobs != [] && Pending(s, fire, jobs[0], now)
    case MarkingDirect(jobs, now, fire, task) => jobs != [] && HasTask(s, fire.id)
    case _ => true
  }

  lemma KnownHasId(s: Store, f: Fire)
    requires FiresUnique(s.fires) && Known(s, f)
    ensures f.id != ""
  {
  }

  lemma ContinueKeepsInv(m: Machine, e: Event)
    requires e.Proceed? && Fresh(m.store, e.id) && Inv(m.store) && PcInv(m.store, m.pc)
    ensures Inv(Continue(m, e).store) && PcInv(Continue(m, e).store, Continue(m, e).pc)
  {
    hide Inv, Known, HasTask, RecoveredRequest, DirectRequest, SnapshotOf;
    var s := m.store;
    match m.pc
    case Idle =>
      RecoverableAreKnown(s);
    case FindRecovered(fires) =>
      if fires != [] {
        FoundMeansHasTask(s, fires[0].id);
      }
    case CreateRecovered(fires) =>
      InvKnownId(s, fires[0]);
      CreateKeepsInv(s, fires[0], e.id);
      KnownNeedsFires(s, CreateTask(s, RecoveredRequest(fires[0]), e.id).0);
    case MarkingRecovered(fires, task) =>
      MarkKeepsInv(s, fires[0].id, StatusAfter(task.status),
                   if StatusAfter(task.status) == Dispatched then Some(task.id) else None);
    case ListingDue =>
    case ClaimNext(jobs, now) =>
      if jobs != [] {
        if e.ready {
          ClaimKeepsInv(s, jobs[0].id, FireAt(jobs[0], now), SnapshotOf(jobs[0], now), e.id);
        } else {
          JobsDoNotMatter(s, Deactivated(s.jobs, jobs[0].id));
        }
      }
    case Advance(jobs, now, claimed) =>
      JobsDoNotMatter(s, AdvanceJob(s, jobs[0].id, e.nextRunAt).jobs);
    case CreateDirect(jobs, now, fire) =>
      InvKnownId(s, fire);
      RecoveryBuildsTheSameTask(jobs[0], fire, now);
      CreateKeepsInv(s, fire, e.id);
    case MarkingDirect(jobs, now, fire, task) =>
      MarkKeepsInv(s, fire.id, Dispatched, Some(task.id));
  }

  lemma InvKnownId(s: Store, f: Fire)
    requires Inv(s) && Known(s, f)
    ensures f.id != ""
  {
    KnownHasId(s, f);
  }

  lemma RecoverableAreKnown(s: Store)
    ensures AllKnown(s, FirstPage(Recoverable(s.fires)))
  {
    hide RecoveredRequest;
  }

  lemma FoundMeansHasTask(s: Store, id: string)
    ensures FindTask(s.tasks, id).Some? <==> HasTask(s, id)
  {
  }

  lemma KnownNeedsFires(s: Store, r: Store)
    requires s.fires == r.fires
    ensures forall f :: Known(s, f) ==> Known(r, f)
  {
    hide RecoveredRequest;
  }

  /** The invariant says nothing about the jobs. */
  lemma JobsDoNotMatter(s: Store, jobs: seq<Job>)
    ensures var r := s.(jobs := jobs);
            && (Inv(s) ==> Inv(r))
            && (forall f :: Known(r, f) <==> Known(s, f))
            && (forall id :: HasTask(r, id) <==> HasTask(s, id))
  {
    hide RecoveredRequest, FiresUnique, TasksUnique;
    var r := s.(jobs := jobs);
    forall id ensures HasTask(r, id) <==> HasTask(s, id) {
    }
  }

  /** Outsiders neither break the invariant nor invalidate what the tick remembers. */
  lemma OutsideKeepsInv(m: Machine, e: Event)
    requires !e.Proceed? && Allowed(m.store, e) && Inv(m.store) && PcInv(m.store, m.pc)
    ensures Inv(Step(m, e).store) && PcInv(Step(m, e).store, Step(m, e).pc)
  {
    hide Inv, Known, HasTask, RecoveredRequest, SnapshotOf;
    var s := m.store;
    match e
    case Throw =>
    case Crash =>
    case UserChangesJobs(jobs) =>
      JobsDoNotMatter(s, jobs);
    case TaskChangesStatus(k, status) =>
      if k < |s.tasks| {
        RelabelKeepsInv(s, s.tasks[k := s.tasks[k].(status := status)]);
      }
    case RunnerFinishesFire(id, success) =>
      if HasTask(s, id) {
        MarkKeepsInv(s, id, if success then Completed else Failed, None);
        SameTasksSameFires(s, MarkFire(s, id, if success then Completed else Failed, None));
      }
    case UserCreatesTask(t) =>
      UnlinkedTaskKeepsInv(s, t);
  }

  lemma SameTasksSameFires(s: Store, r: Store)
    requires s.tasks == r.tasks
    ensures forall id :: HasTask(r, id) <==> HasTask(s, id)
  {
    forall id ensures HasTask(r, id) <==> HasTask(s, id) {
    }
  }

  lemma RelabelKeepsInv(s: Store, tasks: seq<Task>)
    requires Inv(s) && |tasks| == |s.tasks|
    requires forall k :: 0 <= k < |tasks| ==> tasks[k].request == s.tasks[k].request
    ensures var r := s.(tasks := tasks);
            && Inv(r)
            && (forall f :: Known(s, f) ==> Known(r, f))
            && (forall id :: HasTask(r, id) <==> HasTask(s, id))
  {
    hide RecoveredRequest;
    var r := s.(tasks := tasks);
    forall id ensures HasTask(r, id) <==> HasTask(s, id) {
      if HasTask(r, id) {
        var t :| t in r.tasks && ForFire(t, id);
        var k :| 0 <= k < |tasks| && tasks[k] == t;
        assert s.tasks[k] in s.tasks && ForFire(s.tasks[k], id);
      }
      if HasTask(s, id) {
        var t :| t in s.tasks && ForFire(t, id);
        var k :| 0 <= k < |tasks| && s.tasks[k] == t;
        assert tasks[k] in r.tasks && ForFire(tasks[k], id);
      }
    }
    forall t, id | t in r.tasks && ForFire(t, id)
      ensures exists f :: f in r.fires && f.id == id && t.request == RecoveredRequest(f)
    {
      var k :| 0 <= k < |tasks| && tasks[k] == t;
      assert s.tasks[k] in s.tasks && ForFire(s.tasks[k], id);
    }
    assert FiresServed(r);
    assert TasksUnique(r.tasks) by {
      forall i, j, id | 0 <= i < j < |tasks| && ForFire(tasks[i], id) ensures !ForFire(tasks[j], id) {
        assert ForFire(s.tasks[i], id);
      }
    }
  }

  lemma UnlinkedTaskKeepsInv(s: Store, t: Task)
    requires Inv(s) && t.request.fireId.None? && t.request.payload.fireId.None?
    ensures var r := s.(tasks := s.tasks + [t]);
            && Inv(r)
            && (forall f :: Known(s, f) ==> Known(r, f))
            && (forall id :: HasTask(r, id) <==> HasTask(s, id))
  {
    hide RecoveredRequest;
    var r := s.(tasks := s.tasks + [t]);
    forall id ensures HasTask(r, id) <==> HasTask(s, id) {
      if HasTask(s, id) {
        var u :| u in s.tasks && ForFire(u, id);
        assert u in r.tasks;
      }
    }
    assert FiresServed(r);
  }

  ghost function Run(m: Machine, events: seq<Event>): Machine {
    if events == [] then m else Step(Run(m, events[..|events| - 1]), events[|events| - 1])
  }

  ghost predicate AllowedRun(m: Machine, events: seq<Event>) {
    forall k :: 0 <= k < |events| ==> Allowed(Run(m, events[..k]).store, events[k])
  }

  /** The dispatcher's invariant holds after every step of every run, wherever it crashes or throws. */
  lemma {:induction false} RunsStayExact(m: Machine, events: seq<Event>)
    requires Inv(m.store) && PcInv(m.store, m.pc) && AllowedRun(m, events)
    ensures Inv(Run(m, events).store) && PcInv(Run(m, events).store, Run(m, events).pc)
  {
    if events != [] {
      var n := |events| - 1;
      var front := events[..n];
      forall k | 0 <= k < n ensures Allowed(Run(m, front[..k]).store, front[k]) {
        assert front[..k] == events[..k];
      }
      RunsStayExact(m, front);
      assert Allowed(Run(m, front).store, events[n]);
      if events[n].Proceed? {
        ContinueKeepsInv(Run(m, front), events[n]);
      } else {
        OutsideKeepsInv(Run(m, front), events[n]);
      }
    }
  }

  ghost predicate ExactlyOneTask(s: Store, fireId: string) {
    exists i :: 0 <= i < |s.tasks| && ForFire(s.tasks[i], fireId)
      && forall j :: 0 <= j < |s.tasks| && j != i ==> !ForFire(s.tasks[j], fireId)
  }

  lemma ServedOnce(s: Store, fireId: string)
    requires Inv(s) && HasTask(s, fireId)
    ensures ExactlyOneTask(s, fireId)
  {
    var t :| t in s.tasks && ForFire(t, fireId);
    var i :| 0 <= i < |s.tasks| && s.tasks[i] == t;
  }

  /** At most once, in every run from an empty store: no two fires for one job and fire time, no two tasks
      for one fire, every task the one its fire asks for, and a fire that is no longer merely claimed has
      exactly one task. */
  lemma AtMostOnce(events: seq<Event>)
    requires AllowedRun(Machine(Store([], [], []), Idle), events)
    ensures var s := Run(Machine(Store([], [], []), Idle), events).store;
            && (forall i, j :: 0 <= i < j < |s.fires| ==>
                  s.fires[i].jobId != s.fires[j].jobId || s.fires[i].fireAt != s.fires[j].fireAt)
            && TasksUnique(s.tasks)
            && TasksFaithful(s)
            && forall f :: f in s.fires && f.status != Claimed ==> ExactlyOneTask(s, f.id)
  {
    var m := Machine(Store([], [], []), Idle);
    RunsStayExact(m, events);
    var s := Run(m, events).store;
    forall f | f in s.fires && f.status != Claimed ensures ExactlyOneTask(s, f.id) {
      ServedOnce(s, f.id);
    }
  }

  // ---------------------------------------------------------------- in place

  class Dispatcher {
    var store: Store
    var isRunnerActive: bool

    constructor ()
      ensures store == Store([], [], []) && !isRunnerActive
    {
      store, isRunnerActive := Store([], [], []), false;
    }

    /** One turn of the recovery loop: find or create the task, then mark the fire. */
    method RecoverFire(fire: Fire, id: string)
      requires Inv(store) && Known(store, fire)
      modifies this`store
      ensures Inv(store) && Grows(old(store), store) && HasTask(store, fire.id)
      ensures var found := FindTask(old(store).tasks, fire.id);
              store.tasks == old(store).tasks
                + if found.Some? then [] else [Task(id, "queued", RecoveredRequest(fire))]
      ensures var found := FindTask(old(store).tasks, fire.id);
              var status := if found.Some? then found.value.status else "queued";
              forall f :: f in store.fires && f.id == fire.id ==>
                && (f.status == Completed <==> status == "success" || status == "completed")
                && (f.status == Failed <==>
                      status == "failed" || status == "failed-terminal" || status == "cancelled"
                      || status == "canceled" || status == "config_required")
                && (f.status == Dispatched ==> f.taskId == Some(if found.Some? then found.value.id else id))
                && f.status != Claimed
    {
      hide Inv, Known, HasTask, RecoveredRequest, SameFires, Fresh;
      ghost var was := store;
      SameFiresReflexive(was.fires);
      FoundMeansHasTask(store, fire.id);
      var found := FindTask(store.tasks, fire.id);
      var task;
      if found.Some? {
        task := found.value;
      } else {
        InvKnownId(store, fire);
        CreateKeepsInv(store, fire, id);
        var (after, created) := CreateTask(store, RecoveredRequest(fire), id);
        KnownNeedsFires(store, after);
        MoreTasks(store, after, fire);
        store, task := after, created;
      }
      ghost var unmarked := store;
      var status := StatusAfter(task.status);
      var taskId := if status == Dispatched then Some(task.id) else None;
      MarkKeepsInv(unmarked, fire.id, status, taskId);
      store := MarkFire(store, fire.id, status, taskId);
      MarkedAs(unmarked, fire.id, status, taskId);
      SameTasksSameFires(unmarked, store);
      SameIds(unmarked, store);
    }

    /** The source's recoverScheduledFires. After it every listed fire has exactly one task, and if the list
        fits on one page, every fire of the store has. */
    method RecoverScheduledFires(ids: seq<string>)
      requires Inv(store) && |ids| >= PAGE
      modifies this`store
      ensures Inv(store) && Grows(old(store), store)
      ensures forall f :: f in FirstPage(Recoverable(old(store).fires)) ==> ExactlyOneTask(store, f.id)
      ensures |Recoverable(old(store).fires)| <= PAGE ==> forall f :: f in store.fires ==> ExactlyOneTask(store, f.id)
    {
      hide Inv, Known, HasTask, Grows;
      ghost var was := store;
      var fires := FirstPage(Recoverable(store.fires));
      RecoverableAreKnown(store);
      GrowsReflexive(store);
      var k := 0;
      while k < |fires|
        invariant 0 <= k <= |fires| <= PAGE && Inv(store) && Grows(was, store)
        invariant forall i :: 0 <= i < k ==> HasTask(store, fires[i].id)
      {
        ghost var before := store;
        GrowsKeeps(was, store);
        RecoverFire(fires[k], ids[k]);
        GrowsKeeps(before, store);
        GrowsTransitive(was, before, store);
        k := k + 1;
      }
      RecoveredAll(was, store, fires);
    }

    /** Claim the fire of this job and time and move the job on; None when the fire was there already. */
    method ClaimAndAdvance(job: Job, now: string, nextRunAt: string, fireId: string) returns (claimed: Option<Fire>)
      requires Inv(store) && Fresh(store, fireId)
      modifies this`store
      ensures Inv(store) && store.tasks == old(store).tasks
      ensures HasKey(store.fires, Key(job.id, FireAt(job, now)))
      ensures job.cron != "" ==> JobsAfter(old(store).jobs, store.jobs, job, true, nextRunAt)
      ensures claimed.None? ==> store.fires == old(store).fires
      ensures claimed.Some? ==>
                var fire := claimed.value;
                && store.fires == old(store).fires + [fire] && fire.id == fireId != "" && fire.jobId == job.id
                && fire.fireAt == FireAt(job, now) && fire.snapshot == SnapshotOf(job, now)
                && Known(store, fire) && !HasTask(store, fire.id)
      ensures forall id :: Fresh(old(store), id) && id != fireId ==> Fresh(store, id)
    {
      hide Inv, Known, HasTask, SnapshotOf, FireAt, Key, RecoveredRequest;
      ClaimKeepsInv(store, job.id, FireAt(job, now), SnapshotOf(job, now), fireId);
      var (after, created) := ClaimFire(store, job.id, FireAt(job, now), SnapshotOf(job, now), fireId);
      ClaimedHasKey(store, job.id, FireAt(job, now), SnapshotOf(job, now), fireId);
      JobsDoNotMatter(after, AdvanceJob(after, job.id, nextRunAt).jobs);
      AdvancedJobs(after, job, nextRunAt);
      store, claimed := AdvanceJob(after, job.id, nextRunAt), created;
    }

    /** Create the task of the fire just claimed and mark the fire. */
    method ServeFire(job: Job, now: string, fire: Fire, taskId: string)
      requires Inv(store) && Known(store, fire) && !HasTask(store, fire.id) && fire.id != ""
      requires fire.snapshot == SnapshotOf(job, now)
      modifies this`store
      ensures Inv(store) && SameFires(old(store).fires, store.fires) && HasTask(store, fire.id)
      ensures store.jobs == old(store).jobs
      ensures store.tasks == old(store).tasks + [Task(taskId, "queued", DirectRequest(job, fire, now))]
      ensures forall f :: f in store.fires && f.id == fire.id ==> f.status == Dispatched && f.taskId == Some(taskId)
      ensures KeepsTasks(old(store), store)
      ensures forall id :: Fresh(old(store), id) ==> Fresh(store, id)
    {
      hide Inv, Known, HasTask, SnapshotOf, RecoveredRequest, DirectRequest, Fresh, SameFires;
      RecoveryBuildsTheSameTask(job, fire, now);
      CreateKeepsInv(store, fire, taskId);
      var (created, task) := CreateTask(store, DirectRequest(job, fire, now), taskId);
      MoreTasks(store, created, fire);
      MarkKeepsInv(created, fire.id, Dispatched, Some(task.id));
      store := MarkFire(created, fire.id, Dispatched, Some(task.id));
      MarkedAs(created, fire.id, Dispatched, Some(task.id));
      SameTasksSameFires(created, store);
      SameIds(created, store);
    }

    /** One turn of the due-job loop, when nothing fails. The fire of this job and time exists afterwards,
        and if every earlier fire had its task, so does this one. */
    method DispatchJob(job: Job, now: string, ready: bool, nextRunAt: string, fireId: string, taskId: string)
      requires Inv(store) && Fresh(store, fireId)
      modifies this`store
      ensures Inv(store)
      ensures AllServed(old(store)) ==> AllServed(store)
      ensures ready && job.cron != "" ==> HasKey(store.fires, Key(job.id, FireAt(job, now)))
      ensures Extends(old(store).fires, store.fires, if ready && job.cron != "" then {SlotOf(job, now)} else {})
      ensures KeepsTasks(old(store), store) && ServedFrom(store, |old(store).fires|)
      ensures JobsAfter(old(store).jobs, store.jobs, job, ready, nextRunAt)
      ensures forall id :: Fresh(old(store), id) && id != fireId ==> Fresh(store, id)
    {
      hide *;
      ghost var was := store;
      ExtendsItself(was.fires, if ready && job.cron != "" then {SlotOf(job, now)} else {});
      KeepsItsTasks(was);
      if job.cron == "" {
        SameJobsAfter(was.jobs, job, ready, nextRunAt);
        return;
      }
      if !ready {
        store := store.(jobs := Deactivated(store.jobs, job.id));
        JobsKeepAll(was, store.jobs);
        DeactivatedJobs(was.jobs, job, nextRunAt);
        return;
      }
      var claimed := ClaimAndAdvance(job, now, nextRunAt, fireId);
      if claimed.None? {
        ServedFires(was, store);
        SlotOfFire(job, now);
        return;
      }
      ghost var advanced := store;
      ServeFire(job, now, claimed.value, taskId);
      ServedWithOneMore(was, advanced, store, claimed.value);
      AppendedThenMarked(was.fires, claimed.value, store.fires);
      SlotOfFire(job, now);
      SameFiresKeepKey(advanced.fires, store.fires, Key(job.id, FireAt(job, now)));
    }

    /** The source's runSchedulerTick, when nothing fails: with at most one page of recoverable fires, every
        fire there is afterwards has exactly one task, and every due and ready job has been fired. */
    method RunTick(now: string, ready: string -> bool, nextRunAt: string -> string,
                   recoveryIds: seq<string>, fireIds: seq<string>, taskIds: seq<string>)
      requires Inv(store)
      requires |recoveryIds| >= PAGE && |fireIds| >= PAGE && |taskIds| >= PAGE
      requires forall k :: 0 <= k < |fireIds| ==> Fresh(store, fireIds[k])
      requires forall i, j :: 0 <= i < j < |fireIds| ==> fireIds[i] != fireIds[j]
      modifies this
      ensures Inv(store)
      ensures old(isRunnerActive) ==> store == old(store) && isRunnerActive
      ensures !old(isRunnerActive) ==> !isRunnerActive
      ensures !old(isRunnerActive) && |Recoverable(old(store).fires)| <= PAGE ==>
                forall f :: f in store.fires ==> ExactlyOneTask(store, f.id)
      ensures !old(isRunnerActive) ==>
                forall k :: 0 <= k < |old(store).jobs| && Reached(old(store).jobs, now, ready, k) ==>
                  HasKey(store.fires, Key(old(store).jobs[k].id, FireAt(old(store).jobs[k], now)))
      ensures !old(isRunnerActive) && IsoTimes(old(store), now) ==>
                forall k :: 0 <= k < |old(store).jobs| && Reached(old(store).jobs, now, ready, k) ==>
                  HasFireOf(store.fires, old(store).jobs[k], now)
      ensures !old(isRunnerActive) ==>
                |old(store).fires| <= |store.fires|
                && forall n :: |old(store).fires| <= n < |store.fires| ==>
                     IsForDueJob(store.fires[n], old(store).jobs, now, ready) && HasTask(store, store.fires[n].id)
      ensures !old(isRunnerActive) && DistinctJobs(old(store).jobs) ==>
                |store.jobs| == |old(store).jobs|
                && forall k :: 0 <= k < |old(store).jobs| ==>
                     AfterTick(old(store).jobs, store.jobs[k], now, ready, nextRunAt, k)
    {
      if isRunnerActive {
        return;
      }
      hide Inv, HasTask, ExactlyOneTask, Fresh, Due, FireAt, Key, Grows, AllServed, HasKey, Recoverable,
           HasFireOf, IsForDueJob, Reached, AfterTick, DistinctJobs, Extends, KeepsTasks, JobsAfterAll, IsoTimes;
      isRunnerActive := true;
      ghost var was := store;
      RecoverScheduledFires(recoveryIds);
      GrowsKeepsFresh(was, store);
      ghost var recovered := store;
      ghost var healed := |Recoverable(was.fires)| <= PAGE;
      if healed {
        OneTaskMeansServed(store);
      }
      DispatchDue(FirstPage(Due(store.jobs, now)), now, ready, nextRunAt, fireIds, taskIds);
      if healed {
        ServedMeansOneTask(store);
      }
      TickFires(was, recovered, store, now, ready);
      if DistinctJobs(was.jobs) {
        TickJobs(was.jobs, store.jobs, now, ready, nextRunAt);
      }
      isRunnerActive := false;
    }

    /** The due-job loop. */
    method DispatchDue(jobs: seq<Job>, now: string, ready: string -> bool, nextRunAt: string -> string,
                       fireIds: seq<string>, taskIds: seq<string>)
      requires Inv(store) && |jobs| <= |fireIds| && |jobs| <= |taskIds|
      requires forall k :: 0 <= k < |fireIds| ==> Fresh(store, fireIds[k])
      requires forall i, j :: 0 <= i < j < |fireIds| ==> fireIds[i] != fireIds[j]
      modifies this`store
      ensures Inv(store)
      ensures AllServed(old(store)) ==> AllServed(store)
      ensures forall job :: job in jobs && ready(job.id) && job.cron != "" ==>
                HasKey(store.fires, Key(job.id, FireAt(job, now)))
      ensures Extends(old(store).fires, store.fires, Slots(jobs, now, ready))
      ensures KeepsTasks(old(store), store) && ServedFrom(store, |old(store).fires|)
      ensures JobsAfterAll(old(store).jobs, store.jobs, jobs, ready, nextRunAt)
    {
      hide *;
      ghost var was := store;
      ghost var served := AllServed(store);
      var k := 0;
      ExtendsItself(was.fires, Slots(jobs, now, ready));
      KeepsItsTasks(was);
      NothingMoved(was.jobs, ready, nextRunAt);
      while k < |jobs|
        invariant 0 <= k <= |jobs| && Inv(store) && (served ==> AllServed(store))
        invariant forall i :: k <= i < |fireIds| ==> Fresh(store, fireIds[i])
        invariant forall i :: 0 <= i < k && ready(jobs[i].id) && jobs[i].cron != "" ==>
                    HasKey(store.fires, Key(jobs[i].id, FireAt(jobs[i], now)))
        invariant Extends(was.fires, store.fires, Slots(jobs, now, ready))
        invariant KeepsTasks(was, store) && ServedFrom(store, |was.fires|)
        invariant JobsAfterAll(was.jobs, store.jobs, jobs[..k], ready, nextRunAt)
      {
        ghost var before := store;
        ghost var few := if ready(jobs[k].id) && jobs[k].cron != "" then {SlotOf(jobs[k], now)} else {};
        DispatchJob(jobs[k], now, ready(jobs[k].id), nextRunAt(jobs[k].cron), fireIds[k], taskIds[k]);
        ExtendsKeepsKeys(before.fires, store.fires, few);
        if ready(jobs[k].id) && jobs[k].cron != "" {
          SlotsHas(jobs, now, ready, k);
        }
        ExtendsTransitive(was.fires, before.fires, store.fires, few, Slots(jobs, now, ready));
        TasksKept(was, before, store, few, Slots(jobs, now, ready));
        OneMoreMoved(was.jobs, before.jobs, store.jobs, jobs, k, ready, nextRunAt);
        k := k + 1;
      }
      assert jobs[..k] == jobs;
    }
  }

  predicate HasKey(fires: seq<Fire>, key: string) {
    exists f :: f in fires && f.key == key
  }

  /** The fire of this job: at the job's own time, or at the time of the tick when it has none. */
  predicate IsFireOf(f: Fire, job: Job, now: string) {
    f.jobId == job.id && f.fireAt == if job.nextRunAt.GetOr("") == "" then now else job.nextRunAt.value
  }

  predicate HasFireOf(fires: seq<Fire>, job: Job, now: string) {
    exists f :: f in fires && IsFireOf(f, job, now)
  }

  /** The tick comes to the job at k and fires it. */
  predicate Reached(jobs: seq<Job>, now: string, ready: string -> bool, k: nat)
    requires k < |jobs|
  {
    Listed(jobs, now, k) && ready(jobs[k].id) && jobs[k].cron != ""
  }

  /** The job at k is due and no twenty are due before it. */
  predicate Listed(jobs: seq<Job>, now: string, k: nat)
    requires k < |jobs|
  {
    IsDue(jobs[k], now) && DueBefore(jobs, now, k) < 20
  }

  predicate IsForDueJob(f: Fire, jobs: seq<Job>, now: string, ready: string -> bool) {
    exists job :: job in jobs && IsDue(job, now) && ready(job.id) && job.cron != "" && IsFireOf(f, job, now)
      && f.snapshot == SnapshotOf(job, now)
  }

  // ---------------------------------------------------------------- what becomes of the jobs

  predicate DistinctJobs(jobs: seq<Job>) {
    forall i, j :: 0 <= i < j < |jobs| ==> jobs[i].id != jobs[j].id
  }

  /** A fired job moves on to its next time, one that is not ready is switched off. */
  predicate IsMoved(before: Job, after: Job, ready: bool, nextRunAt: string) {
    after == if ready then before.(nextRunAt := Some(nextRunAt)) else before.(isActive := false)
  }

  /** The row of this job has moved, the others are as they were. */
  predicate JobsAfter(before: seq<Job>, after: seq<Job>, job: Job, ready: bool, nextRunAt: string) {
    && |after| == |before|
    && forall k :: 0 <= k < |before| ==>
         if before[k].id == job.id && job.cron != "" then IsMoved(before[k], after[k], ready, nextRunAt)
         else after[k] == before[k]
  }

  /** Each row whose job is among these has moved once, the others are as they were. */
  predicate JobsAfterAll(before: seq<Job>, after: seq<Job>, jobs: seq<Job>, ready: string -> bool,
                         nextRunAt: string -> string) {
    && |after| == |before|
    && (forall k :: 0 <= k < |before| && (forall job :: job in jobs ==> job.id != before[k].id || job.cron == "") ==>
          after[k] == before[k])
    && (DistinctJobs(jobs) ==>
          forall k, job :: 0 <= k < |before| && job in jobs && job.id == before[k].id && job.cron != "" ==>
            IsMoved(before[k], after[k], ready(job.id), nextRunAt(job.cron)))
  }

  /** What the tick makes of the job at k: one that is listed and has a cron text moves, any other stays. */
  predicate AfterTick(jobs: seq<Job>, after: Job, now: string, ready: string -> bool,
                      nextRunAt: string -> string, k: nat)
    requires k < |jobs|
  {
    if Listed(jobs, now, k) && jobs[k].cron != "" then
      IsMoved(jobs[k], after, ready(jobs[k].id), nextRunAt(jobs[k].cron))
    else after == jobs[k]
  }

  lemma SameJobsAfter(jobs: seq<Job>, job: Job, ready: bool, nextRunAt: string)
    requires job.cron == ""
    ensures JobsAfter(jobs, jobs, job, ready, nextRunAt)
  {
  }

  lemma DeactivatedJobs(jobs: seq<Job>, job: Job, nextRunAt: string)
    requires job.cron != ""
    ensures JobsAfter(jobs, Deactivated(jobs, job.id), job, false, nextRunAt)
  {
  }

  lemma AdvancedJobs(s: Store, job: Job, nextRunAt: string)
    ensures job.cron != "" ==> JobsAfter(s.jobs, AdvanceJob(s, job.id, nextRunAt).jobs, job, true, nextRunAt)
  {
  }

  lemma NothingMoved(jobs: seq<Job>, ready: string -> bool, nextRunAt: string -> string)
    ensures JobsAfterAll(jobs, jobs, [], ready, nextRunAt)
  {
  }

  lemma OneMoreMoved(was: seq<Job>, before: seq<Job>, after: seq<Job>, jobs: seq<Job>, n: nat,
                     ready: string -> bool, nextRunAt: string -> string)
    requires n < |jobs| && JobsAfterAll(was, before, jobs[..n], ready, nextRunAt)
    requires JobsAfter(before, after, jobs[n], ready(jobs[n].id), nextRunAt(jobs[n].cron))
    ensures JobsAfterAll(was, after, jobs[..n + 1], ready, nextRunAt)
  {
    var few, more := jobs[..n], jobs[..n + 1];
    assert more == few + [jobs[n]];
    forall k | 0 <= k < |was| && forall job :: job in more ==> job.id != was[k].id || job.cron == ""
      ensures after[k] == was[k]
    {
      assert jobs[n] in more;
      assert before[k] == was[k];
    }
    if DistinctJobs(more) {
      assert DistinctJobs(few);
      forall k, job | 0 <= k < |was| && job in more && job.id == was[k].id && job.cron != ""
        ensures IsMoved(was[k], after[k], ready(job.id), nextRunAt(job.cron))
      {
        if job in few {
          var i :| 0 <= i < n && few[i] == job;
          assert more[i].id != more[n].id;
          assert IsMoved(was[k], before[k], ready(job.id), nextRunAt(job.cron));
        } else {
          forall other | other in few ensures other.id != was[k].id {
            var i :| 0 <= i < n && few[i] == other;
            assert more[i].id != more[n].id;
          }
          assert before[k] == was[k];
        }
      }
    }
  }

  /** Date.prototype.toISOString gives 24 characters, the clock's and every stored time. */
  const ISO_LENGTH := 24

  predicate AllIso(fires: seq<Fire>) {
    forall f :: f in fires ==> |f.fireAt| == ISO_LENGTH
  }

  predicate IsoTimes(s: Store, now: string) {
    && |now| == ISO_LENGTH && AllIso(s.fires)
    && forall job :: job in s.jobs ==> |FireAt(job, now)| == ISO_LENGTH
  }

  /** What the dispatcher claims a fire for, and with which task snapshot. */
  datatype Slot = Slot(jobId: string, fireAt: string, snapshot: Request)

  function SlotOf(job: Job, now: string): Slot {
    Slot(job.id, FireAt(job, now), SnapshotOf(job, now))
  }

  function Slots(jobs: seq<Job>, now: string, ready: string -> bool): set<Slot> {
    set job | job in jobs && ready(job.id) && job.cron != "" :: SlotOf(job, now)
  }

  lemma SlotsHas(jobs: seq<Job>, now: string, ready: string -> bool, k: nat)
    requires k < |jobs| && ready(jobs[k].id) && jobs[k].cron != ""
    ensures SlotOf(jobs[k], now) in Slots(jobs, now, ready)
  {
    hide SlotOf;
    assert jobs[k] in jobs;
  }

  /** The fires of a are still there, in their places, and those added since are for these slots. */
  ghost predicate Extends(a: seq<Fire>, b: seq<Fire>, slots: set<Slot>) {
    && |a| <= |b|
    && (forall k :: 0 <= k < |a| ==> b[k] == a[k].(status := b[k].status, taskId := b[k].taskId))
    && (forall k :: |a| <= k < |b| ==> Slot(b[k].jobId, b[k].fireAt, b[k].snapshot) in slots)
  }

  lemma ExtendsItself(a: seq<Fire>, slots: set<Slot>)
    ensures Extends(a, a, slots)
  {
  }

  lemma ExtendsTransitive(a: seq<Fire>, b: seq<Fire>, c: seq<Fire>, few: set<Slot>, slots: set<Slot>)
    requires Extends(a, b, slots) && Extends(b, c, few) && few <= slots
    ensures Extends(a, c, slots)
  {
    forall k | |a| <= k < |c| ensures Slot(c[k].jobId, c[k].fireAt, c[k].snapshot) in slots {
      assert k < |b| ==> c[k] == b[k].(status := c[k].status, taskId := c[k].taskId);
    }
  }

  lemma ExtendsKeepsKeys(a: seq<Fire>, b: seq<Fire>, slots: set<Slot>)
    requires Extends(a, b, slots)
    ensures forall key :: HasKey(a, key) ==> HasKey(b, key)
  {
    forall key | HasKey(a, key) ensures HasKey(b, key) {
      var f :| f in a && f.key == key;
      var k :| 0 <= k < |a| && a[k] == f;
      assert b[k] in b && b[k].key == key;
    }
  }

  lemma ExtendsKeepsIso(a: seq<Fire>, b: seq<Fire>, slots: set<Slot>)
    requires Extends(a, b, slots) && AllIso(a) && forall slot :: slot in slots ==> |slot.fireAt| == ISO_LENGTH
    ensures AllIso(b)
  {
    forall f | f in b ensures |f.fireAt| == ISO_LENGTH {
      var k :| 0 <= k < |b| && b[k] == f;
      if k < |a| {
        assert a[k] in a;
      }
    }
  }

  lemma AppendedThenMarked(a: seq<Fire>, fire: Fire, b: seq<Fire>)
    requires SameFires(a + [fire], b)
    ensures Extends(a, b, {Slot(fire.jobId, fire.fireAt, fire.snapshot)})
  {
    assert forall k :: 0 <= k < |a| ==> (a + [fire])[k] == a[k];
  }

  lemma SameFiresKeepKey(a: seq<Fire>, b: seq<Fire>, key: string)
    requires SameFires(a, b) && HasKey(a, key)
    ensures HasKey(b, key)
  {
    var f :| f in a && f.key == key;
    var k :| 0 <= k < |a| && a[k] == f;
    assert b[k] in b && b[k].key == key;
  }

  lemma ClaimedHasKey(s: Store, jobId: string, fireAt: string, snapshot: Request, id: string)
    ensures HasKey(ClaimFire(s, jobId, fireAt, snapshot, id).0.fires, Key(jobId, fireAt))
  {
    hide Key;
    var (r, claimed) := ClaimFire(s, jobId, fireAt, snapshot, id);
    var f := if claimed.Some? then claimed.value else FindKey(s.fires, Key(jobId, fireAt)).value;
    assert f in r.fires && f.key == Key(jobId, fireAt);
  }

  ghost predicate KeepsTasks(s: Store, r: Store) {
    forall id :: HasTask(s, id) ==> HasTask(r, id)
  }

  /** The fires from position n on have their tasks. */
  ghost predicate ServedFrom(s: Store, n: nat) {
    forall k :: n <= k < |s.fires| ==> HasTask(s, s.fires[k].id)
  }

  lemma KeepsItsTasks(s: Store)
    ensures KeepsTasks(s, s) && ServedFrom(s, |s.fires|)
  {
  }

  lemma TasksKept(was: Store, before: Store, after: Store, few: set<Slot>, slots: set<Slot>)
    requires KeepsTasks(was, before) && KeepsTasks(before, after)
    requires Extends(was.fires, before.fires, slots) && Extends(before.fires, after.fires, few)
    requires ServedFrom(before, |was.fires|) && ServedFrom(after, |before.fires|)
    ensures KeepsTasks(was, after) && ServedFrom(after, |was.fires|)
  {
    hide HasTask;
    forall k | |was.fires| <= k < |after.fires| ensures HasTask(after, after.fires[k].id) {
      if k < |before.fires| {
        assert HasTask(before, before.fires[k].id);
      }
    }
  }

  lemma SlotOfFire(job: Job, now: string)
    ensures SlotOf(job, now) == Slot(job.id, FireAt(job, now), SnapshotOf(job, now))
  {
  }

  lemma MarkedAs(s: Store, fireId: string, status: FireStatus, taskId: Option<string>)
    ensures forall f :: f in MarkFire(s, fireId, status, taskId).fires && f.id == fireId ==>
              f.status == status && (taskId.Some? ==> f.taskId == taskId)
  {
  }

  /** After a tick over ISO times all fires have one. */
  lemma IsoTick(was: Store, recovered: Store, end: Store, now: string, ready: string -> bool)
    requires IsoTimes(was, now) && SameFires(was.fires, recovered.fires)
    requires Extends(recovered.fires, end.fires, Slots(FirstPage(Due(was.jobs, now)), now, ready))
    ensures AllIso(end.fires)
    ensures forall job :: job in FirstPage(Due(was.jobs, now)) ==> |FireAt(job, now)| == ISO_LENGTH
  {
    DueAreDue(was.jobs, now);
    hide Due, IsDue, FireAt, SnapshotOf;
    forall f | f in recovered.fires ensures |f.fireAt| == ISO_LENGTH {
      var k :| 0 <= k < |recovered.fires| && recovered.fires[k] == f;
      assert was.fires[k] in was.fires;
    }
    ExtendsKeepsIso(recovered.fires, end.fires, Slots(FirstPage(Due(was.jobs, now)), now, ready));
  }

  /** Among ISO times a fire with the key is the fire of that job and time. */
  lemma KeyIsFire(s: Store, job: Job, now: string)
    requires Inv(s) && AllIso(s.fires) && |FireAt(job, now)| == ISO_LENGTH
    requires HasKey(s.fires, Key(job.id, FireAt(job, now)))
    ensures HasFireOf(s.fires, job, now)
  {
    hide TasksUnique, TasksFaithful, FiresServed, Key;
    var f :| f in s.fires && f.key == Key(job.id, FireAt(job, now));
    KeysTellFiresApart(f.jobId, f.fireAt, job.id, FireAt(job, now));
    assert IsFireOf(f, job, now);
  }

  /** Which fires a tick leaves behind: those of the jobs it reaches, and no others that were not there. */
  lemma TickFires(was: Store, recovered: Store, end: Store, now: string, ready: string -> bool)
    requires Inv(end) && SameFires(was.fires, recovered.fires)
    requires Extends(recovered.fires, end.fires, Slots(FirstPage(Due(was.jobs, now)), now, ready))
    requires ServedFrom(end, |recovered.fires|)
    requires forall job :: job in FirstPage(Due(was.jobs, now)) && ready(job.id) && job.cron != "" ==>
               HasKey(end.fires, Key(job.id, FireAt(job, now)))
    ensures forall k :: 0 <= k < |was.jobs| && Reached(was.jobs, now, ready, k) ==>
              HasKey(end.fires, Key(was.jobs[k].id, FireAt(was.jobs[k], now)))
    ensures IsoTimes(was, now) ==> forall k :: 0 <= k < |was.jobs| && Reached(was.jobs, now, ready, k) ==>
              HasFireOf(end.fires, was.jobs[k], now)
    ensures |was.fires| <= |end.fires|
    ensures forall n :: |was.fires| <= n < |end.fires| ==>
              IsForDueJob(end.fires[n], was.jobs, now, ready) && HasTask(end, end.fires[n].id)
  {
    hide *;
    DuePage(was.jobs, now);
    ExtendedLengths(was, recovered, end, Slots(FirstPage(Due(was.jobs, now)), now, ready));
    if IsoTimes(was, now) {
      IsoTick(was, recovered, end, now, ready);
    }
    forall k | 0 <= k < |was.jobs| && Reached(was.jobs, now, ready, k)
      ensures HasKey(end.fires, Key(was.jobs[k].id, FireAt(was.jobs[k], now)))
      ensures IsoTimes(was, now) ==> HasFireOf(end.fires, was.jobs[k], now)
    {
      ReachedIsListed(was.jobs, now, ready, k);
      if IsoTimes(was, now) {
        KeyIsFire(end, was.jobs[k], now);
      }
    }
    forall n | |was.fires| <= n < |end.fires|
      ensures IsForDueJob(end.fires[n], was.jobs, now, ready) && HasTask(end, end.fires[n].id)
    {
      NewFireIsForDueJob(end.fires[n], FirstPage(Due(was.jobs, now)), was.jobs, now, ready);
      ServedFromHas(end, |recovered.fires|, n);
    }
  }

  lemma ServedFromHas(s: Store, n: nat, k: nat)
    requires ServedFrom(s, n) && n <= k < |s.fires|
    ensures HasTask(s, s.fires[k].id)
  {
    hide HasTask;
  }

  lemma ExtendedLengths(was: Store, recovered: Store, end: Store, slots: set<Slot>)
    requires SameFires(was.fires, recovered.fires) && Extends(recovered.fires, end.fires, slots)
    ensures |was.fires| == |recovered.fires| <= |end.fires|
    ensures forall n :: |was.fires| <= n < |end.fires| ==>
              Slot(end.fires[n].jobId, end.fires[n].fireAt, end.fires[n].snapshot) in slots
  {
  }

  lemma ReachedIsListed(jobs: seq<Job>, now: string, ready: string -> bool, k: nat)
    requires k < |jobs| && Reached(jobs, now, ready, k)
    ensures IsDue(jobs[k], now) && DueBefore(jobs, now, k) < 20 && ready(jobs[k].id) && jobs[k].cron != ""
  {
    hide IsDue, DueBefore;
  }

  lemma NewFireIsForDueJob(f: Fire, page: seq<Job>, jobs: seq<Job>, now: string, ready: string -> bool)
    requires Slot(f.jobId, f.fireAt, f.snapshot) in Slots(page, now, ready)
    requires forall job :: job in page ==> job in jobs && IsDue(job, now)
    ensures IsForDueJob(f, jobs, now, ready)
  {
    hide IsDue, SnapshotOf;
  }

  lemma {:induction false} DueStaysDistinct(jobs: seq<Job>, now: string)
    requires DistinctJobs(jobs)
    ensures DistinctJobs(Due(jobs, now))
  {
    hide Due, IsDue;
    if jobs == [] {
      DueOfNothing(jobs, now);
      assert jobs[..0] == jobs;
    } else {
      var tail := jobs[1..];
      DueStaysDistinct(tail, now);
      DueAreDue(tail, now);
      DueOne(jobs[0], now);
      DueConcat([jobs[0]], tail, now);
      assert jobs == [jobs[0]] + tail;
      forall j | 0 <= j < |Due(tail, now)| ensures Due(tail, now)[j].id != jobs[0].id {
        assert Due(tail, now)[j] in tail;
        var i :| 0 <= i < |tail| && tail[i] == Due(tail, now)[j];
        assert jobs[i + 1] == tail[i];
      }
    }
  }

  /** What a tick makes of the jobs. */
  lemma TickJobs(was: seq<Job>, end: seq<Job>, now: string, ready: string -> bool, nextRunAt: string -> string)
    requires DistinctJobs(was) && JobsAfterAll(was, end, FirstPage(Due(was, now)), ready, nextRunAt)
    ensures |end| == |was|
    ensures forall k :: 0 <= k < |was| ==> AfterTick(was, end[k], now, ready, nextRunAt, k)
  {
    hide Due, IsDue, IsMoved;
    var page := FirstPage(Due(was, now));
    DueStaysDistinct(was, now);
    assert DistinctJobs(page);
    DuePage(was, now);
    hide DueBefore, FirstPage;
    forall k | 0 <= k < |was| ensures AfterTick(was, end[k], now, ready, nextRunAt, k) {
      if was[k] in page {
        PageIsListed(was, now, k);
      } else {
        forall job | job in page ensures job.id != was[k].id {
          var j :| 0 <= j < |was| && was[j] == job;
        }
      }
    }
  }

  /** The page holds no job behind the first twenty. */
  lemma PageIsListed(jobs: seq<Job>, now: string, k: nat)
    requires k < |jobs| && DistinctJobs(jobs) && jobs[k] in FirstPage(Due(jobs, now))
    ensures Listed(jobs, now, k)
  {
    hide Due, IsDue, DueBefore;
    DueAreDue(jobs, now);
    DueInOrder(jobs, now, k);
    DueStaysDistinct(jobs, now);
    var page := FirstPage(Due(jobs, now));
    var i :| 0 <= i < |page| && page[i] == jobs[k];
    assert Due(jobs, now)[i] == jobs[k];
  }

  lemma JobsKeepAll(s: Store, jobs: seq<Job>)
    ensures var r := s.(jobs := jobs);
            && (Inv(s) ==> Inv(r))
            && (AllServed(s) ==> AllServed(r))
            && (forall id :: Fresh(s, id) ==> Fresh(r, id))
            && KeepsTasks(s, r) && ServedFrom(r, |s.fires|)
  {
    JobsDoNotMatter(s, jobs);
    hide HasTask, Inv;
  }

  lemma ServedFires(s: Store, r: Store)
    requires s.fires == r.fires && s.tasks == r.tasks
    ensures AllServed(s) ==> AllServed(r)
    ensures KeepsTasks(s, r) && ServedFrom(r, |s.fires|)
  {
    SameTasksSameFires(s, r);
    hide HasTask;
  }

  lemma ServedWithOneMore(was: Store, advanced: Store, r: Store, fire: Fire)
    requires advanced.fires == was.fires + [fire] && advanced.tasks == was.tasks
    requires SameFires(advanced.fires, r.fires) && HasTask(r, fire.id)
    requires KeepsTasks(advanced, r)
    ensures AllServed(was) ==> AllServed(r)
    ensures KeepsTasks(was, r) && ServedFrom(r, |was.fires|)
  {
    SameTasksSameFires(was, advanced);
    hide HasTask;
    if AllServed(was) {
      forall f | f in r.fires ensures HasTask(r, f.id) {
        var k :| 0 <= k < |r.fires| && r.fires[k] == f;
        assert advanced.fires[k].id == f.id;
        assert k < |was.fires| ==> was.fires[k] in was.fires;
      }
    }
  }

  lemma OneTaskMeansServed(s: Store)
    requires forall f :: f in s.fires ==> ExactlyOneTask(s, f.id)
    ensures AllServed(s)
  {
    forall f | f in s.fires ensures HasTask(s, f.id) {
      var i :| 0 <= i < |s.tasks| && ForFire(s.tasks[i], f.id);
      assert s.tasks[i] in s.tasks;
    }
  }

  lemma ServedMeansOneTask(s: Store)
    requires Inv(s) && AllServed(s)
    ensures forall f :: f in s.fires ==> ExactlyOneTask(s, f.id)
  {
    hide Inv, HasTask, ExactlyOneTask;
    forall f | f in s.fires ensures ExactlyOneTask(s, f.id) {
      ServedOnce(s, f.id);
    }
  }

  /** Only statuses change and tasks are added; no task is lost and no fresh id is used up. */
  ghost predicate Grows(s: Store, r: Store) {
    && SameFires(s.fires, r.fires) && r.jobs == s.jobs && s.tasks <= r.tasks
    && (forall id :: HasTask(s, id) ==> HasTask(r, id))
    && (forall id :: Fresh(s, id) ==> Fresh(r, id))
  }

  ghost predicate AllServed(s: Store) {
    forall f :: f in s.fires ==> HasTask(s, f.id)
  }

  lemma GrowsReflexive(s: Store)
    ensures Grows(s, s)
  {
  }

  lemma GrowsKeepsFresh(s: Store, r: Store)
    requires Grows(s, r)
    ensures SameFires(s.fires, r.fires) && r.jobs == s.jobs && forall id :: Fresh(s, id) ==> Fresh(r, id)
  {
  }

  lemma GrowsTransitive(s: Store, r: Store, t: Store)
    requires Grows(s, r) && Grows(r, t)
    ensures Grows(s, t)
  {
    hide HasTask, Fresh;
  }

  lemma GrowsKeeps(s: Store, r: Store)
    requires Grows(s, r)
    ensures forall id :: HasTask(s, id) ==> HasTask(r, id)
    ensures forall f :: f in s.fires ==> Known(r, f)
    ensures forall f :: Known(s, f) ==> Known(r, f)
  {
    hide HasTask, Fresh, RecoveredRequest;
    forall f | Known(s, f) ensures Known(r, f) {
      var g :| g in s.fires && g.id == f.id && RecoveredRequest(g) == RecoveredRequest(f);
      SameFiresMatch(s.fires, r.fires, g);
    }
    forall f | f in s.fires ensures Known(r, f) {
      SameFiresMatch(s.fires, r.fires, f);
    }
  }

  lemma SameFiresReflexive(a: seq<Fire>)
    ensures SameFires(a, a)
  {
  }

  lemma SameIds(s: Store, r: Store)
    requires SameFires(s.fires, r.fires) && s.tasks == r.tasks
    ensures forall id :: Fresh(s, id) ==> Fresh(r, id)
  {
    forall f | f in r.fires ensures exists g :: g in s.fires && g.id == f.id {
      var k :| 0 <= k < |r.fires| && r.fires[k] == f;
      assert s.fires[k] in s.fires && s.fires[k].id == f.id;
    }
  }

  /** One more task, for a fire that is stored: no other fire loses its task or its fresh id. */
  lemma MoreTasks(s: Store, r: Store, fire: Fire)
    requires Known(s, fire) && s.fires == r.fires && |r.tasks| == |s.tasks| + 1 && s.tasks <= r.tasks
    requires r.tasks[|s.tasks|].request == RecoveredRequest(fire) && fire.id != ""
    ensures forall id :: HasTask(s, id) ==> HasTask(r, id)
    ensures forall id :: Fresh(s, id) ==> Fresh(r, id)
  {
    var task := r.tasks[|s.tasks|];
    assert r.tasks == s.tasks + [task];
    assert forall id :: ForFire(task, id) ==> id == fire.id;
  }

  lemma RecoveredAll(was: Store, s: Store, fires: seq<Fire>)
    requires Inv(was) && Inv(s) && Grows(was, s) && fires == FirstPage(Recoverable(was.fires))
    requires forall i :: 0 <= i < |fires| ==> HasTask(s, fires[i].id)
    ensures forall f :: f in fires ==> ExactlyOneTask(s, f.id)
    ensures |Recoverable(was.fires)| <= PAGE ==> forall f :: f in s.fires ==> ExactlyOneTask(s, f.id)
  {
    hide ExactlyOneTask, HasTask, FiresUnique, TasksUnique, TasksFaithful;
    forall f | f in fires ensures ExactlyOneTask(s, f.id) {
      ServedOnce(s, f.id);
    }
    if |Recoverable(was.fires)| <= PAGE {
      forall f | f in s.fires ensures ExactlyOneTask(s, f.id) {
        var k :| 0 <= k < |s.fires| && s.fires[k] == f;
        var g := was.fires[k];
        assert g in was.fires && g.id == f.id;
        assert g.status == Claimed ==> g in Recoverable(was.fires);
        ServedOnce(s, f.id);
      }
    }
  }
}
