/** The upgrade saga of server/upgradeManager.ts: back up by rename, create, check, then commit or compensate.

  Docker is a map from names to containers. Every call may fail; a failing call has no effect. `Faults` says
  which calls of one upgrade the daemon carries out, so a theorem for all faults is one for every way an
  upgrade can go wrong. Gateway and dashboard are one container under one name. */
module UpgradeSaga {

  datatype Container = Container(id: string, image: string, running: bool)

  type Docker = map<string, Container>

  datatype Phase =
    Queued | PullingImage | Rebuilding | HealthCheck | ChatReady | RollingBack | RolledBack | Completed | FailedPhase

  datatype Record = Record(status: string, upgradeStatus: string, phase: Phase, imageTag: string)

  /** Which calls succeed, in the order they are made. */
  datatype Faults = Faults(
    // before anything is stopped
    pull: bool, prepare: bool, build: bool,
    // backing up, tried for the gateway name and again for the dashboard name
    inspectGate: bool, stopGate: bool, renameGate: bool,
    inspectDash: bool, stopDash: bool, renameDash: bool,
    // the new container
    createNew: bool, connectNew: bool, startNew: bool, newStaysUp: bool, newChatReady: bool,
    // after the backups are removed
    removeBackup: bool, finish: bool,
    // compensation
    removeNew: bool, removeByName: bool, renameBack: bool, startBack: bool, backStaysUp: bool, proxy: bool,
    backChatReady: bool)

  // ---------------------------------------------------------------- Docker calls

  function Stopped(d: Docker, name: string): Docker {
    if name in d then d[name := d[name].(running := false)] else d
  }

  predicate CanRename(d: Docker, from: string, to: string) {
    from in d && to !in d
  }

  function Renamed(d: Docker, from: string, to: string): Docker
    requires CanRename(d, from, to)
  {
    (d - {from})[to := d[from]]
  }

  class Manager {
    var docker: Docker
    var record: Record

    constructor (docker: Docker, record: Record)
      ensures this.docker == docker && this.record == record
    {
      this.docker, this.record := docker, record;
    }

    method Stop(name: string, granted: bool)
      modifies this`docker
      ensures docker == if granted then Stopped(old(docker), name) else old(docker)
    {
      if granted {
        docker := Stopped(docker, name);
      }
    }

    method Rename(from: string, to: string, granted: bool) returns (ok: bool)
      modifies this`docker
      ensures ok <==> granted && CanRename(old(docker), from, to)
      ensures docker == if ok then Renamed(old(docker), from, to) else old(docker)
    {
      ok := granted && CanRename(docker, from, to);
      if ok {
        docker := Renamed(docker, from, to);
      }
    }

    /** A name in use makes the daemon refuse. */
    method Create(name: string, container: Container, granted: bool) returns (ok: bool)
      modifies this`docker
      ensures ok <==> granted && name !in old(docker)
      ensures docker == if ok then old(docker)[name := container.(running := false)] else old(docker)
    {
      ok := granted && name !in docker;
      if ok {
        docker := docker[name := container.(running := false)];
      }
    }

    /** Starting fails when there is nothing to start; `staysUp` says whether a later look finds it running. */
    method Start(name: string, granted: bool, staysUp: bool) returns (ok: bool)
      modifies this`docker
      ensures ok <==> granted && name in old(docker)
      ensures docker == if ok then old(docker)[name := old(docker)[name].(running := staysUp)] else old(docker)
    {
      ok := granted && name in docker;
      if ok {
        docker := docker[name := docker[name].(running := staysUp)];
      }
    }

    method Remove(name: string, granted: bool)
      modifies this`docker
      ensures docker == if granted then old(docker) - {name} else old(docker)
    {
      if granted {
        docker := docker - {name};
      }
    }

    // -------------------------------------------------------------- the flow

    /** Stop and rename under the gateway name, then under the dashboard name, which is the same one. A
        failed stop is ignored; a failed rename leaves the container where it is. There may be none. */
    method BackUp(name: string, backup: string, f: Faults) returns (gateExisted: bool, dashExisted: bool)
      requires backup !in docker && name != backup
      modifies this`docker
      ensures !(gateExisted && dashExisted)
      ensures (gateExisted || dashExisted) <==> BackedUp(f, name in old(docker))
      ensures BackedUp(f, name in old(docker)) ==>
                name !in docker && backup in docker && SameContainer(docker[backup], old(docker)[name])
                && docker[backup].running == (old(docker)[name].running && !StoppedFirst(f))
      ensures !BackedUp(f, name in old(docker)) ==>
                backup !in docker && (name in docker <==> name in old(docker))
                && (name in docker ==> SameContainer(docker[name], old(docker)[name]))
      ensures OthersKept(old(docker), docker, name, backup)
    {
      gateExisted, dashExisted := false, false;
      if f.inspectGate && name in docker {
        Stop(name, f.stopGate);
        gateExisted := Rename(name, backup, f.renameGate);
      }
      if f.inspectDash && name in docker {
        Stop(name, f.stopDash);
        dashExisted := Rename(name, backup, f.renameDash);
      }
    }

    /** The source's rollbackFlow: free the name, put the backup back, start it and wait for it. */
    method RollBack(name: string, backup: string, gateExisted: bool, dashExisted: bool, f: Faults)
      requires name != backup && !(gateExisted && dashExisted)
      modifies this
      ensures record.imageTag == old(record).imageTag
      ensures OthersKept(old(docker), docker, name, backup)
      ensures backup in old(docker) && backup !in docker ==>
                name in docker && SameContainer(docker[name], old(docker)[backup])
      ensures backup in docker ==> backup in old(docker) && docker[backup] == old(docker)[backup]
      ensures (gateExisted || dashExisted) && backup in old(docker) && (f.removeByName || name !in old(docker))
              && Restarts(f) ==>
                && name in docker && docker[name] == old(docker)[backup].(running := true)
                && record.status == "running" && record.phase == RolledBack
      ensures !gateExisted && !dashExisted && f.removeByName ==>
                name !in docker && record.status == "failed" && record.phase == FailedPhase
      ensures backup !in old(docker) && f.removeByName ==> IsLost(docker, record, name, backup)
      ensures IsHonest(docker, record, name) && record.upgradeStatus == "failed"
    {
      record := record.(phase := RollingBack);
      Remove(name, f.removeByName);
      var ok := true;
      if gateExisted {
        ok := RestoreBackup(name, backup, f);
      }
      if ok && dashExisted {
        ok := RestoreBackup(name, backup, f);
      }
      if ok && f.proxy && f.backChatReady && name in docker && docker[name].running {
        record := record.(status := "running", upgradeStatus := "failed", phase := RolledBack);
      } else {
        record := record.(status := "failed", upgradeStatus := "failed", phase := FailedPhase);
      }
    }

    /** Rename the backup back and start it; false stands for the exception that ends the rollback. */
    method RestoreBackup(name: string, backup: string, f: Faults) returns (ok: bool)
      requires name != backup
      modifies this`docker
      ensures OthersKept(old(docker), docker, name, backup)
      ensures ok <==> f.renameBack && CanRename(old(docker), backup, name) && f.startBack && f.backStaysUp
      ensures if f.renameBack && CanRename(old(docker), backup, name)
              then backup !in docker && name in docker
                   && docker[name] == old(docker)[backup].(
                        running := if f.startBack then f.backStaysUp else old(docker)[backup].running)
              else docker == old(docker)
    {
      ok := Rename(backup, name, f.renameBack);
      if ok {
        ok := Start(name, f.startBack, f.backStaysUp);
        ok := ok && f.backStaysUp;
      }
    }

    /** Both catch blocks: remove the new container if there is one, then roll back. `original` is the container
        there was when the flow began, if it was present. */
    method Abandon(name: string, backup: string, ghost original: Container, ghost present: bool, created: bool,
                   gateExisted: bool, dashExisted: bool, f: Faults)
      requires name != backup && !(gateExisted && dashExisted)
      requires (gateExisted || dashExisted) <==> BackedUp(f, present)
      requires backup in docker ==> BackedUp(f, present) && SameContainer(docker[backup], original)
      modifies this
      ensures record.imageTag == old(record).imageTag
      ensures OthersKept(old(docker), docker, name, backup)
      ensures Undone(f, backup in old(docker), original, docker, record, name, backup)
      ensures record.upgradeStatus == "failed"
      ensures backup in docker ==> backup in old(docker) && docker[backup] == old(docker)[backup]
    {
      if created {
        Remove(name, f.removeNew);
      }
      RollBack(name, backup, gateExisted, dashExisted, f);
    }

    /** Create the new container, start it, and check it. */
    method TryNew(name: string, next: Container, isDirectRollback: bool, f: Faults)
      returns (created: bool, healthy: bool)
      modifies this
      ensures created <==> f.createNew && name !in old(docker)
      ensures healthy <==> created && f.connectNew && f.startNew && f.newStaysUp && f.newChatReady
      ensures if created then name in docker && docker[name] == next.(running := docker[name].running)
              else docker == old(docker)
      ensures healthy ==> docker[name].running
      ensures forall n :: n != name ==>
                (n in docker <==> n in old(docker)) && (n in docker ==> docker[n] == old(docker)[n])
      ensures record == old(record).(phase := record.phase)
    {
      created := Create(name, next, f.createNew);
      var started := false;
      if created && f.connectNew {
        started := Start(name, f.startNew, f.newStaysUp);
      }
      if started && !isDirectRollback {
        record := record.(phase := HealthCheck);
      }
      healthy := started && docker[name].running && f.newChatReady;
    }

    /** Everything between the backup and the final write: the new container, the two checks, and the
        removal of the backup. */
    method Replace(name: string, backup: string, ghost original: Container, ghost present: bool, next: Container,
                   isDirectRollback: bool, gateExisted: bool, dashExisted: bool, f: Faults)
      returns (success: bool)
      requires name != backup && !(gateExisted && dashExisted)
      requires (gateExisted || dashExisted) <==> BackedUp(f, present)
      requires if BackedUp(f, present)
               then name !in docker && backup in docker && SameContainer(docker[backup], original)
               else (name in docker <==> present) && backup !in docker
      modifies this
      ensures OthersKept(old(docker), docker, name, backup)
      ensures success <==> Checks(f, present) && f.finish
      ensures success ==> name in docker && docker[name] == next.(running := true)
      ensures record.imageTag == old(record).imageTag
      ensures !success ==> Undone(f, KeepsBackup(f, present), original, docker, record, name, backup)
      ensures !success ==> record.upgradeStatus == "failed"
      ensures backup in docker ==> backup in old(docker) && docker[backup] == old(docker)[backup]
    {
      hide Undone, SameContainer, BackedUp, OthersKept, Checks, KeepsBackup;
      ghost var was := docker;
      ChecksMeans(f, present);
      var created, healthy := TryNew(name, next, isDirectRollback, f);
      ghost var tried := docker;
      ChangedNames(was, tried, name, backup);
      if healthy {
        success := Finish(name, backup, original, present, gateExisted, dashExisted, f);
      } else {
        Abandon(name, backup, original, present, created, gateExisted, dashExisted, f);
        success := false;
      }
      OthersStillKept(was, tried, docker, name, backup);
    }

    /** After both checks: remove the backup and do what is left to do. */
    method Finish(name: string, backup: string, ghost original: Container, ghost present: bool,
                  gateExisted: bool, dashExisted: bool, f: Faults)
      returns (success: bool)
      requires name != backup && !(gateExisted && dashExisted) && name in docker
      requires (gateExisted || dashExisted) <==> BackedUp(f, present)
      requires if BackedUp(f, present) then backup in docker && SameContainer(docker[backup], original)
               else backup !in docker
      modifies this
      ensures OthersKept(old(docker), docker, name, backup)
      ensures success <==> f.finish
      ensures success ==> name in docker && docker[name] == old(docker)[name]
      ensures record.imageTag == old(record).imageTag
      ensures !success ==>
                Undone(f, BackedUp(f, present) && !f.removeBackup, original, docker, record, name, backup)
      ensures !success ==> record.upgradeStatus == "failed"
      ensures backup in docker ==> backup in old(docker) && docker[backup] == old(docker)[backup]
    {
      hide Undone, SameContainer, BackedUp, OthersKept;
      ghost var was := docker;
      if gateExisted || dashExisted {
        Remove(backup, f.removeBackup);
      }
      ghost var removed := docker;
      ChangedNames(was, removed, name, backup);
      if !f.finish {
        Abandon(name, backup, original, present, true, gateExisted, dashExisted, f);
        OthersStillKept(was, removed, docker, name, backup);
        return false;
      }
      success := true;
    }

    /** The source's upgradeInstanceFlow. `next` is the new container, `tag` the tag it is meant to run. There may
        be no container yet, or one that is stopped: a direct rollback asks for neither. */
    method Upgrade(name: string, backup: string, next: Container, tag: string, isDirectRollback: bool, f: Faults)
      returns (success: bool)
      requires backup !in docker && name != backup
      modifies this
      // nothing else is touched
      ensures OthersKept(old(docker), docker, name, backup)
      // the outcome
      ensures success <==> Commits(f, name in old(docker))
      ensures success ==> name in docker && docker[name] == next.(running := true)
                          && record.status == "running" && record.imageTag == tag
                          && record.phase == (if isDirectRollback then RolledBack else Completed)
      ensures record.upgradeStatus == if success then "success" else "failed"
      // a backup that is still there was stopped first, whenever Docker granted it, and not started since
      ensures backup in docker ==>
                name in old(docker) && docker[backup].running == (old(docker)[name].running && !StoppedFirst(f))
      // the recorded image changes only with the container
      ensures !success ==> record.imageTag == old(record).imageTag
      // failing before the stop is harmless
      ensures !BeforeStop(f) ==> docker == old(docker) && record.status == old(record).status
      // failing after the stop is undone exactly when there is a backup to go back to
      ensures BeforeStop(f) && !success && f.removeByName && Restarts(f) && name in old(docker) ==>
                (IsBack(old(docker)[name], docker, record, name) <==> KeepsBackup(f, true))
      // and then, whatever the compensation does, the original container still exists
      ensures BeforeStop(f) && !success && name in old(docker) && KeepsBackup(f, true) ==>
                Survives(old(docker)[name], docker, name, backup)
      // the record claims a running container only when there is one
      ensures !success && BeforeStop(f) ==> IsHonest(docker, record, name)
      // while without one the rollback leaves no container at all: it removes the original that could not be
      // renamed, the new container after the backup was removed too early, or the one that had no predecessor
      ensures BeforeStop(f) && !success && !KeepsBackup(f, name in old(docker)) && f.removeByName ==>
                IsLost(docker, record, name, backup)
    {
      hide IsBack, IsLost, Survives, SameContainer, Restarts, BackedUp, Checks, OthersKept, IsHonest, KeepsBackup,
           StoppedFirst;
      var previous := record.status;
      record := record.(status := "upgrading", upgradeStatus := "upgrading",
                        phase := if isDirectRollback then RollingBack else Queued);
      if !f.pull || !f.prepare || !f.build {
        record := record.(status := previous, upgradeStatus := "failed", phase := FailedPhase);
        OthersStillKept(docker, docker, docker, name, backup);
        return false;
      }
      if !isDirectRollback {
        record := record.(phase := Rebuilding);
      }
      ghost var present := name in docker;
      ghost var original := if present then docker[name] else next;
      var gateExisted, dashExisted := BackUp(name, backup, f);
      ghost var backedUp := docker;
      NothingToKeep(f);
      success := Replace(name, backup, original, present, next, isDirectRollback, gateExisted, dashExisted, f);
      OthersStillKept(old(docker), backedUp, docker, name, backup);
      if success {
        record := record.(status := "running", upgradeStatus := "success", imageTag := tag,
                          phase := if isDirectRollback then RolledBack else Completed);
      }
    }

    /** The source's upgradeInstanceUnlocked: an upgrade that is no rollback starts only from a running container,
        so what a failed one brings back is what there was. */
    method UpgradeInstance(name: string, backup: string, next: Container, tag: string, f: Faults)
      returns (refused: bool, success: bool)
      requires backup !in docker && name != backup
      modifies this
      ensures refused <==> !(name in old(docker) && old(docker)[name].running)
      ensures refused ==> docker == old(docker) && record == old(record) && !success
      ensures !refused ==> (success <==> Commits(f, true))
      ensures success ==> name in docker && docker[name] == next.(running := true) && record.imageTag == tag
      ensures !refused ==> record.upgradeStatus == if success then "success" else "failed"
      ensures !refused && !success && f.removeByName && Restarts(f) && (BeforeStop(f) ==> KeepsBackup(f, true)) ==>
                name in docker && docker[name] == old(docker)[name] && record.imageTag == old(record).imageTag
    {
      hide KeepsBackup, Checks, BackedUp, Restarts, OthersKept;
      refused, success := !(name in docker && docker[name].running), false;
      if !refused {
        success := Upgrade(name, backup, next, tag, false, f);
      }
    }
  }

  // ---------------------------------------------------------------- what the promises are about

  predicate BeforeStop(f: Faults) {
    f.pull && f.prepare && f.build
  }

  /** There was a container, and one of the two attempts to rename it got through. */
  predicate BackedUp(f: Faults, present: bool) {
    present && ((f.inspectGate && f.renameGate) || (f.inspectDash && f.renameDash))
  }

  /** A stop was granted before the rename that got through. */
  predicate StoppedFirst(f: Faults) {
    || (f.inspectGate && f.stopGate)
    || (!(f.inspectGate && f.renameGate) && f.inspectDash && f.stopDash)
  }

  /** The new container came up and passed both checks; the name is free for it only after a backup, or when there
      was no container. */
  predicate Checks(f: Faults, present: bool) {
    (present ==> BackedUp(f, present)) && f.createNew && f.connectNew && f.startNew && f.newStaysUp && f.newChatReady
  }

  /** There is a backup when something fails: it was made, and the step that fails is not the one after its
      removal. */
  predicate KeepsBackup(f: Faults, present: bool) {
    BackedUp(f, present) && !(Checks(f, present) && f.removeBackup)
  }

  predicate Commits(f: Faults, present: bool) {
    BeforeStop(f) && Checks(f, present) && f.finish
  }

  /** The calls that bring the old container back up succeed. */
  predicate Restarts(f: Faults) {
    f.renameBack && f.startBack && f.backStaysUp && f.proxy && f.backChatReady
  }

  predicate SameContainer(a: Container, b: Container) {
    a.id == b.id && a.image == b.image
  }

  predicate OthersKept(d: Docker, e: Docker, name: string, backup: string) {
    d - {name, backup} == e - {name, backup}
  }

  lemma ChecksMeans(f: Faults, present: bool)
    ensures Checks(f, present) <==> (BackedUp(f, present) || !present)
                                    && f.createNew && f.connectNew && f.startNew && f.newStaysUp && f.newChatReady
    ensures KeepsBackup(f, present) <==> BackedUp(f, present) && !(Checks(f, present) && f.removeBackup)
    ensures BackedUp(f, present) ==> present
  {
  }

  lemma ChangedNames(d: Docker, e: Docker, name: string, backup: string)
    requires forall n :: n != name && n != backup ==> (n in d <==> n in e) && (n in d ==> d[n] == e[n])
    ensures OthersKept(d, e, name, backup)
  {
  }

  lemma OthersStillKept(d: Docker, e: Docker, g: Docker, name: string, backup: string)
    ensures OthersKept(d, d, name, backup)
    ensures OthersKept(d, e, name, backup) && OthersKept(e, g, name, backup) ==> OthersKept(d, g, name, backup)
  {
  }

  lemma NothingToKeep(f: Faults)
    ensures !BackedUp(f, false) && !KeepsBackup(f, false)
  {
  }

  /** The original container runs under its name again, and the record says so. */
  predicate IsBack(original: Container, d: Docker, record: Record, name: string) {
    name in d && d[name] == original.(running := true) && record.status == "running" && record.phase == RolledBack
  }

  /** After a failure the record says failed, or rolled back to a container that does run. */
  predicate IsHonest(d: Docker, record: Record, name: string) {
    if record.status == "running" then record.phase == RolledBack && name in d && d[name].running
    else record.status == "failed" && record.phase == FailedPhase
  }

  predicate Survives(original: Container, d: Docker, name: string, backup: string) {
    (name in d && SameContainer(d[name], original)) || (backup in d && SameContainer(d[backup], original))
  }

  /** What the compensation achieves after a failure, with a backup to go back to or without. */
  predicate Undone(f: Faults, kept: bool, original: Container, d: Docker, record: Record, name: string,
                   backup: string)
  {
    && (f.removeByName && Restarts(f) ==> (IsBack(original, d, record, name) <==> kept))
    && (kept ==> Survives(original, d, name, backup))
    && (!kept && f.removeByName ==> IsLost(d, record, name, backup))
    && IsHonest(d, record, name)
  }

  predicate IsLost(d: Docker, record: Record, name: string, backup: string) {
    name !in d && backup !in d && record.status == "failed" && record.phase == FailedPhase
  }

  /** Every call succeeds but the refresh of the proxy after both checks: the upgrade to a healthy container ends
      with no container at all. */
  method LateFailureLosesBothContainers() returns (d: Docker, record: Record)
    ensures "agent" !in d && "agent-bak" !in d && record.status == "failed" && record.imageTag == "v1"
  {
    var f := Faults(true, true, true, true, true, true, true, true, true, true, true, true, true, true, true, false,
                    true, true, true, true, true, true, true);
    var m := new Manager(map["agent" := Container("1", "v1", true)], Record("running", "", Completed, "v1"));
    var success := m.Upgrade("agent", "agent-bak", Container("2", "v2", false), "v2", false, f);
    d, record := m.docker, m.record;
  }

  /** Every call succeeds but the two renames: the upgrade ends with no container at all. */
  method RefusedRenamesLoseTheContainer() returns (d: Docker, record: Record)
    ensures "agent" !in d && record.status == "failed"
  {
    var f := Faults(true, true, true, true, true, false, true, true, false, true, true, true, true, true, true, true,
                    true, true, true, true, true, true, true);
    var m := new Manager(map["agent" := Container("1", "v1", true)], Record("running", "", Completed, "v1"));
    var success := m.Upgrade("agent", "agent-bak", Container("2", "v2", false), "v2", false, f);
    d, record := m.docker, m.record;
  }
}
