/** The crash-loop limiter of server/reconciler.ts.

  A reconciliation cycle restarts a container that should run and does not, at most three times; the count is
  kept in memory and saved with the instance before every start, and is cleared when the container is seen
  running. The process may die at any point of a cycle or between cycles, which loses the count in memory;
  saving may fail silently. */
module CrashLoop {

  const LIMIT: nat := 3

  /** What a cycle finds: a container that should run and does not, a running one, or anything else (another
    status, no container, an instance the cycle passes over). */
  datatype Seen = Down | Up | Other

  /** How far the process gets in the cycle. */
  datatype Death = BeforeSave | AfterSave | AfterStart | Survives

  /** `saves`: the save before the start (or the save of a cleared count) succeeds. `runs`: the started
    container is verified running. `resaves`: the save after a failed start succeeds. */
  datatype World = World(saves: bool, runs: bool, resaves: bool, death: Death)

  /** One instance: the count in memory, the count saved, and, since the container was last seen running, how
    often it was started, how often after a save that failed, and how often the process died. */
  datatype State = State(memory: nat, saved: nat, starts: nat, unsaved: nat, deaths: nat)

  function Max(a: nat, b: nat): nat {
    if a >= b then a else b
  }

  function Attempts(s: State): nat {
    Max(s.memory, s.saved)
  }

  function Died(s: State): State {
    s.(memory := 0, deaths := s.deaths + 1)
  }

  /** What is done about a container that is down, as far as the process gets. */
  function Healed(s: State, w: World): State {
    var next := Attempts(s) + 1;
    if w.death.BeforeSave? then s.(memory := next) else
    var saving := s.(memory := next, saved := if w.saves then next else s.saved);
    if w.death.AfterSave? then saving else
    var started := saving.(starts := s.starts + 1, unsaved := if w.saves then s.unsaved else s.unsaved + 1);
    if w.death.Survives? && !w.runs && w.resaves then started.(saved := next) else started
  }

  function Cleared(s: State, w: World): State {
    State(0, if w.saves && !w.death.BeforeSave? then 0 else s.saved, 0, 0, 0)
  }

  function Cycle(s: State, seen: Seen, w: World): State {
    var r := match seen
             case Down => if Attempts(s) < LIMIT then Healed(s, w) else s
             case Up => Cleared(s, w)
             case Other => s;
    if w.death.Survives? then r else Died(r)
  }

  datatype Event = Reconcile(seen: Seen, world: World) | Crash

  function Step(s: State, e: Event): State {
    match e
    case Reconcile(seen, world) => Cycle(s, seen, world)
    case Crash => Died(s)
  }

  function Run(s: State, events: seq<Event>): State {
    if events == [] then s else Step(Run(s, events[..|events| - 1]), events[|events| - 1])
  }

  /** The limit with failing saves: three starts for each life of the process. */
  predicate Limited(s: State) {
    Attempts(s) <= LIMIT && s.starts <= Attempts(s) + LIMIT * s.deaths
  }

  lemma {:induction false} RunsStayLimited(s: State, events: seq<Event>)
    requires Limited(s)
    ensures Limited(Run(s, events))
  {
    if events != [] {
      RunsStayLimited(s, events[..|events| - 1]);
    }
  }

  predicate SavesWork(e: Event) {
    e.Reconcile? ==> e.world.saves
  }

  /** With working saves the count that survives a crash covers every start. */
  predicate Covered(s: State) {
    s.memory <= LIMIT && s.starts <= s.saved <= LIMIT
  }

  /** Every start is either covered by the saved count or was made after a save that failed. */
  predicate Accounted(s: State) {
    s.memory <= LIMIT && s.saved <= LIMIT && s.starts <= s.saved + s.unsaved
  }

  /** However often and wherever the process dies, and whichever saves fail: at most three starts between two
      sightings of a running container, and one for each start made after a failed save. */
  lemma {:induction false} ThreeStartsAndTheUnsaved(s: State, events: seq<Event>)
    requires Accounted(s)
    ensures Accounted(Run(s, events)) && Run(s, events).starts <= LIMIT + Run(s, events).unsaved
  {
    if events != [] {
      ThreeStartsAndTheUnsaved(s, events[..|events| - 1]);
    }
  }

  /** When saves succeed, at most three starts happen between two sightings of a running container, however
    often and wherever the process dies. */
  lemma {:induction false} AtMostThreeStarts(s: State, events: seq<Event>)
    requires Covered(s) && forall k :: 0 <= k < |events| ==> SavesWork(events[k])
    ensures Covered(Run(s, events)) && Run(s, events).starts <= LIMIT
  {
    if events != [] {
      AtMostThreeStarts(s, events[..|events| - 1]);
    }
  }

  function Repeat(e: Event, n: nat): seq<Event> {
    seq(n, _ => e)
  }

  /** The need for working saves: if no save succeeds and the process dies after each start, containers are
    started without end, each start an unsaved one. */
  lemma {:induction false} FailedSavesLoopForever(n: nat)
    ensures var r := Run(State(0, 0, 0, 0, 0), Repeat(Reconcile(Down, World(false, false, false, AfterStart)), n));
            r == State(0, 0, n, n, n)
  {
    if n > 0 {
      var e := Reconcile(Down, World(false, false, false, AfterStart));
      FailedSavesLoopForever(n - 1);
      assert Repeat(e, n)[..n - 1] == Repeat(e, n - 1);
    }
  }

  lemma {:induction false} RunConcat(s: State, a: seq<Event>, b: seq<Event>)
    ensures Run(s, a + b) == Run(Run(s, a), b)
  {
    if b == [] {
      assert a + b == a;
    } else {
      var n := |b| - 1;
      RunConcat(s, a, b[..n]);
      assert (a + b)[..|a + b| - 1] == a + b[..n];
    }
  }

  lemma ThreeMore(s: State, e: Event)
    ensures Run(s, Repeat(e, LIMIT)) == Step(Step(Step(s, e), e), e)
  {
    assert Repeat(e, 3)[..2] == Repeat(e, 2) && Repeat(e, 2)[..1] == Repeat(e, 1);
    assert Run(s, Repeat(e, 1)) == Step(s, e) by { assert Repeat(e, 1)[..0] == []; }
    assert Run(s, Repeat(e, 2)) == Step(Step(s, e), e);
    hide Step;
  }

  /** The bound with the unsaved starts is attained for every number of them: after any number of starts whose
      save failed, working saves still allow three. One failed save is enough for a fourth start. */
  lemma UnsavedBoundIsReached(n: nat) returns (events: seq<Event>)
    ensures var r := Run(State(0, 0, 0, 0, 0), events);
            r.unsaved == n && r.starts == LIMIT + r.unsaved
  {
    var lost := Repeat(Reconcile(Down, World(false, false, false, AfterStart)), n);
    var e := Reconcile(Down, World(true, false, false, AfterStart));
    events := lost + Repeat(e, LIMIT);
    FailedSavesLoopForever(n);
    RunConcat(State(0, 0, 0, 0, 0), lost, Repeat(e, LIMIT));
    ThreeMore(Run(State(0, 0, 0, 0, 0), lost), e);
  }

  /** So is the bound with the deaths of the process: with failing saves every life makes three starts. */
  lemma {:induction false} DeathsBoundIsReached(n: nat) returns (events: seq<Event>)
    ensures var r := Run(State(0, 0, 0, 0, 0), events);
            r == State(LIMIT, 0, LIMIT * (n + 1), LIMIT * (n + 1), n) && r.starts == Attempts(r) + LIMIT * r.deaths
  {
    var e := Reconcile(Down, World(false, false, false, Survives));
    var start := State(0, 0, 0, 0, 0);
    if n == 0 {
      events := Repeat(e, LIMIT);
      ThreeMore(start, e);
    } else {
      var before := DeathsBoundIsReached(n - 1);
      events := before + [Crash] + Repeat(e, LIMIT);
      RunConcat(start, before, [Crash]);
      assert Run(Run(start, before), [Crash]) == Died(Run(start, before)) by { assert [Crash][..0] == []; }
      RunConcat(start, before + [Crash], Repeat(e, LIMIT));
      ThreeMore(Run(start, before + [Crash]), e);
    }
  }

  /** A process that lives on makes all three attempts and then stops, whatever the saves do. */
  lemma {:induction false} ThreeStartsAreMade(s: State, downs: seq<Event>)
    requires s.starts == Attempts(s) == 0
    requires forall k :: 0 <= k < |downs| ==>
               downs[k].Reconcile? && downs[k].seen == Down && downs[k].world.death == Survives
    ensures var r := Run(s, downs);
            r.starts == Attempts(r) == r.memory == (if |downs| < LIMIT then |downs| else LIMIT)
  {
    if downs != [] {
      ThreeStartsAreMade(s, downs[..|downs| - 1]);
    }
  }

  /** A sighting of the running container that is saved makes the three attempts available again. */
  lemma UpStartsAfresh(s: State, w: World)
    requires w.saves && w.death == Survives
    ensures var r := Cycle(s, Up, w); r.starts == Attempts(r) == 0 && Covered(r)
  {
  }

  /** The run as the instance sees it: cycles that pass over it are left out, and of those the process does not
    survive only the crash remains. */
  function Noticed(events: seq<Event>): seq<Event> {
    if events == [] then []
    else
      var n := |events| - 1;
      var front := Noticed(events[..n]);
      match events[n]
      case Reconcile(Other, w) => if w.death.Survives? then front else front + [Crash]
      case e => front + [e]
  }

  /** Passing over an instance neither starts it nor gives it back its attempts. */
  lemma {:induction false} PassingOverChangesNothing(s: State, events: seq<Event>)
    ensures Run(s, events) == Run(s, Noticed(events))
  {
    if events != [] {
      var n := |events| - 1;
      PassingOverChangesNothing(s, events[..n]);
      RunSnoc(s, Noticed(events[..n]), events[n]);
      RunSnoc(s, Noticed(events[..n]), Crash);
    }
  }

  lemma RunSnoc(s: State, events: seq<Event>, e: Event)
    ensures Run(s, events + [e]) == Step(Run(s, events), e)
  {
    hide Step;
    assert (events + [e])[..|events|] == events;
  }

  /** After three attempts in all it is left alone until it is seen running. */
  lemma {:induction false} ExhaustedIsLeftAlone(s: State, events: seq<Event>)
    requires s.saved >= LIMIT
    requires forall k :: 0 <= k < |events| ==> events[k].Reconcile? ==> events[k].seen != Up
    ensures Run(s, events).starts == s.starts && Run(s, events).saved == s.saved
  {
    if events != [] {
      ExhaustedIsLeftAlone(s, events[..|events| - 1]);
    }
  }

  // ---------------------------------------------------------------- in place

  type Id = nat

  class Reconciler {
    var autoHealAttempts: map<Id, nat>
    var containerStartAttempts: map<Id, nat>
    ghost var starts: map<Id, nat>
    ghost var unsaved: map<Id, nat>
    ghost var deaths: Id -> nat

    constructor ()
      ensures forall i :: Of(i) == State(0, 0, 0, 0, 0)
    {
      autoHealAttempts, containerStartAttempts := map[], map[];
      starts, unsaved, deaths := map[], map[], _ => 0;
    }

    ghost function Of(id: Id): State
      reads this
    {
      State(Get(autoHealAttempts, id), Get(containerStartAttempts, id), Get(starts, id), Get(unsaved, id), deaths(id))
    }

    method Persist(id: Id, attempts: nat, ok: bool)
      modifies this`containerStartAttempts
      ensures Of(id) == old(Of(id)).(saved := if ok then attempts else old(Of(id)).saved)
      ensures forall i :: i != id ==> Of(i) == old(Of(i))
    {
      if ok {
        containerStartAttempts := containerStartAttempts[id := attempts];
      }
    }

    method Remember(id: Id, attempts: nat)
      modifies this`autoHealAttempts
      ensures Of(id) == old(Of(id)).(memory := attempts)
      ensures forall i :: i != id ==> Of(i) == old(Of(i))
    {
      autoHealAttempts := autoHealAttempts[id := attempts];
    }

    /** The container is started. */
    ghost method CountStart(id: Id, saved: bool)
      modifies this`starts, this`unsaved
      ensures Of(id) == old(Of(id)).(starts := old(Of(id)).starts + 1,
                                     unsaved := old(Of(id)).unsaved + if saved then 0 else 1)
      ensures forall i :: i != id ==> Of(i) == old(Of(i))
    {
      starts := starts[id := Get(starts, id) + 1];
      unsaved := unsaved[id := Get(unsaved, id) + if saved then 0 else 1];
    }

    method Die()
      modifies this
      ensures forall i :: Of(i) == Died(old(Of(i)))
    {
      autoHealAttempts := map[];
      ghost var before := deaths;
      deaths := i => before(i) + 1;
    }

    method ReconcileOne(id: Id, seen: Seen, w: World)
      modifies this
      ensures Of(id) == Cycle(old(Of(id)), seen, w)
      ensures forall i :: i != id ==>
                Of(i) == if w.death.Survives? then old(Of(i)) else Died(old(Of(i)))
    {
      match seen {
        case Down =>
          var attempts := Max(Get(autoHealAttempts, id), Get(containerStartAttempts, id));
          if attempts < LIMIT {
            Heal(id, attempts + 1, w);
          }
        case Up =>
          Clear(id, w);
        case Other =>
      }
      if !w.death.Survives? {
        Die();
      }
    }

    method Heal(id: Id, next: nat, w: World)
      requires next == Attempts(Of(id)) + 1
      modifies this
      ensures Of(id) == Healed(old(Of(id)), w)
      ensures forall i :: i != id ==> Of(i) == old(Of(i))
    {
      hide Get;
      Remember(id, next);
      if !w.death.BeforeSave? {
        Persist(id, next, w.saves);
        if !w.death.AfterSave? {
          CountStart(id, w.saves);
          if w.death.Survives? && !w.runs {
            Persist(id, next, w.resaves);
          }
        }
      }
    }

    /** The container is seen running: the count in memory goes, and the history starts afresh. */
    method Forget(id: Id)
      modifies this`autoHealAttempts, this`starts, this`unsaved, this`deaths
      ensures Of(id) == State(0, old(Of(id)).saved, 0, 0, 0)
      ensures forall i :: i != id ==> Of(i) == old(Of(i))
    {
      ghost var before := deaths;
      starts, unsaved, deaths := starts[id := 0], unsaved[id := 0], i => if i == id then 0 else before(i);
      autoHealAttempts := autoHealAttempts - {id};
    }

    method Clear(id: Id, w: World)
      modifies this
      ensures Of(id) == Cleared(old(Of(id)), w)
      ensures forall i :: i != id ==> Of(i) == old(Of(i))
    {
      hide Get;
      Forget(id);
      if !w.death.BeforeSave? && Max(Get(autoHealAttempts, id), Get(containerStartAttempts, id)) > 0 {
        Persist(id, 0, w.saves);
      }
    }
  }

  function Get(m: map<Id, nat>, id: Id): nat {
    if id in m then m[id] else 0
  }
}
