/** The counting semaphore of server/utils.ts.

  Every call of acquire draws the next ticket; a ticket is granted at once or waits. `State` adds to the
  source's two fields what they are about: which tickets hold a permit, how many have been granted, and how
  many releases were stray, that is, came from a ticket holding none (a handle used twice). */
module Semaphores {

  datatype State = State(
    max: nat, active: int, queue: seq<nat>,
    drawn: nat, granted: nat, holders: set<nat>, stray: nat)

  datatype Event = Acquire | Release(ticket: nat)

  function Initial(max: nat): State {
    State(max, 0, [], 0, 0, {}, 0)
  }

  function Granted(s: State, ticket: nat): State {
    s.(active := s.active + 1, granted := s.granted + 1, holders := s.holders + {ticket})
  }

  function Acquired(s: State): State {
    var t := s.drawn;
    if s.active < s.max then Granted(s, t).(drawn := t + 1) else s.(queue := s.queue + [t], drawn := t + 1)
  }

  function Released(s: State, ticket: nat): State {
    var r := s.(active := s.active - 1, holders := s.holders - {ticket},
                stray := if ticket in s.holders then s.stray else s.stray + 1);
    if r.queue == [] then r else Granted(r.(queue := r.queue[1..]), r.queue[0])
  }

  function Step(s: State, e: Event): State {
    match e
    case Acquire => Acquired(s)
    case Release(ticket) => Released(s, ticket)
  }

  function Run(s: State, events: seq<Event>): State {
    if events == [] then s else Step(Run(s, events[..|events| - 1]), events[|events| - 1])
  }

  /** First come, first served: the tickets granted are 0, 1, .., granted - 1, and those waiting are the
      following ones in order. Nobody waits while a permit is free. The holders are as many as the counter
      says plus one for every stray release. */
  ghost predicate Consistent(s: State) {
    && s.granted + |s.queue| == s.drawn
    && (forall i :: 0 <= i < |s.queue| ==> s.queue[i] == s.granted + i)
    && (forall t :: t in s.holders ==> t < s.granted)
    && |s.holders| == s.active + s.stray
    && s.active <= s.max
    && (s.queue != [] ==> s.active == s.max)
  }

  lemma StepKeepsConsistent(s: State, e: Event)
    requires Consistent(s)
    ensures Consistent(Step(s, e)) && Step(s, e).max == s.max
  {
    match e
    case Acquire =>
    case Release(ticket) =>
      if ticket in s.holders {
        assert |s.holders - {ticket}| == |s.holders| - 1;
      } else {
        assert s.holders - {ticket} == s.holders;
      }
  }

  /** In every interleaving, well behaved or not. */
  lemma {:induction false} RunsStayConsistent(s: State, events: seq<Event>)
    requires Consistent(s)
    ensures Consistent(Run(s, events)) && Run(s, events).max == s.max
  {
    if events != [] {
      var n := |events| - 1;
      RunsStayConsistent(s, events[..n]);
      StepKeepsConsistent(Run(s, events[..n]), events[n]);
    }
  }

  predicate ReleasesItsOwn(s: State, e: Event) {
    e.Release? ==> e.ticket in s.holders
  }

  lemma RunLast(s: State, events: seq<Event>)
    requires events != []
    ensures Run(s, events) == Step(Run(s, events[..|events| - 1]), events[|events| - 1])
  {
  }

  lemma StepStray(s: State, e: Event)
    ensures Step(s, e).stray >= s.stray
    ensures Step(s, e).stray == s.stray <==> ReleasesItsOwn(s, e)
  {
  }

  /** Every release of the run comes from a ticket that holds a permit at that moment. */
  ghost predicate Orderly(s: State, events: seq<Event>) {
    forall k :: 0 <= k < |events| ==> ReleasesItsOwn(Run(s, events[..k]), events[k])
  }

  lemma OrderlyLast(s: State, events: seq<Event>)
    requires events != []
    ensures var n := |events| - 1;
            Orderly(s, events) <==> Orderly(s, events[..n]) && ReleasesItsOwn(Run(s, events[..n]), events[n])
  {
    hide ReleasesItsOwn, Run;
    var n := |events| - 1;
    assert forall k :: 0 <= k < n ==> events[..n][..k] == events[..k];
  }

  /** A run is free of stray releases exactly when it is orderly. */
  lemma {:induction false} StrayIff(s: State, events: seq<Event>)
    ensures Run(s, events).stray >= s.stray
    ensures Run(s, events).stray == s.stray <==> Orderly(s, events)
  {
    if events != [] {
      var n := |events| - 1;
      StrayIff(s, events[..n]);
      RunLast(s, events);
      StepStray(Run(s, events[..n]), events[n]);
      OrderlyLast(s, events);
    }
    hide *;
  }

  /** Used as intended the semaphore admits at most its maximum, and makes a caller wait only at the maximum. */
  lemma NeverMoreThanMax(max: nat, events: seq<Event>)
    requires Orderly(Initial(max), events)
    ensures var r := Run(Initial(max), events);
            |r.holders| == r.active <= max && (r.queue != [] ==> |r.holders| == max)
  {
    StrayIff(Initial(max), events);
    RunsStayConsistent(Initial(max), events);
  }

  /** Who holds a permit: every ticket that has been granted one and has not given it back. No ticket gives back a
    permit it was not yet granted. */
  lemma {:induction false} HoldersAre(max: nat, events: seq<Event>)
    requires Orderly(Initial(max), events)
    ensures var r := Run(Initial(max), events);
            && (forall t: nat :: t in r.holders <==> t < r.granted && Release(t) !in events)
            && (forall t: nat :: Release(t) in events ==> t < r.granted)
  {
    if events != [] {
      var n := |events| - 1;
      var front, before := events[..n], Run(Initial(max), events[..n]);
      OrderlyLast(Initial(max), events);
      HoldersAre(max, front);
      RunLast(Initial(max), events);
      RunsStayConsistent(Initial(max), front);
      StepHolders(before, events[n]);
      hide *;
      assert events == front + [events[n]];
    }
  }

  lemma StepHolders(s: State, e: Event)
    requires Consistent(s) && ReleasesItsOwn(s, e)
    ensures var r := Step(s, e);
            && s.granted <= r.granted <= s.granted + 1
            && (e.Release? ==> e.ticket in s.holders)
            && forall t: nat :: t in r.holders <==>
                 (t in s.holders && e != Release(t)) || s.granted <= t < r.granted
  {
  }

  /** Every stray release costs one permit: as many holders too many are admitted as soon as enough callers come. */
  lemma StrayReleasesOveradmit(s: State, calls: nat)
    requires Consistent(s) && calls == s.max - s.active
    ensures var r := Run(s, seq(calls, _ => Acquire));
            |r.holders| == s.max + s.stray
  {
    AcquiresGranted(s, calls);
  }

  lemma {:induction false} AcquiresGranted(s: State, calls: nat)
    requires Consistent(s) && s.active + calls <= s.max
    ensures var r := Run(s, seq(calls, _ => Acquire));
            Consistent(r) && r.active == s.active + calls && r.stray == s.stray && r.max == s.max
  {
    if calls > 0 {
      AcquiresGranted(s, calls - 1);
      var events := seq(calls, _ => Acquire);
      assert events[..calls - 1] == seq(calls - 1, _ => Acquire);
      StepKeepsConsistent(Run(s, events[..calls - 1]), Acquire);
    }
  }

  // ---------------------------------------------------------------- in place

  class Semaphore {
    const maxConcurrency: nat
    var activeCount: int
    var queue: seq<nat>
    ghost var state: State

    ghost predicate Valid()
      reads this
    {
      && state.max == maxConcurrency && state.active == activeCount && state.queue == queue
      && Consistent(state)
    }

    constructor (maxConcurrency: nat)
      ensures Valid() && state == Initial(maxConcurrency)
    {
      this.maxConcurrency := maxConcurrency;
      activeCount, queue, state := 0, [], Initial(maxConcurrency);
    }

    /** The source's acquire; the ticket of the caller stands for the promise it gets. */
    method AcquirePermit(caller: nat) returns (now: bool)
      requires Valid() && caller == state.drawn
      modifies this
      ensures Valid() && state == Acquired(old(state))
      ensures now <==> caller in state.holders
    {
      StepKeepsConsistent(state, Acquire);
      state := Acquired(state);
      now := activeCount < maxConcurrency;
      if now {
        activeCount := activeCount + 1;
      } else {
        queue := queue + [caller];
      }
    }

    /** The source's release, through the handle of `ticket`. */
    method ReleasePermit(ghost ticket: nat)
      requires Valid()
      modifies this
      ensures Valid() && state == Released(old(state), ticket)
    {
      StepKeepsConsistent(state, Release(ticket));
      state := Released(state, ticket);
      activeCount := activeCount - 1;
      if |queue| > 0 {
        queue := queue[1..];
        activeCount := activeCount + 1;
      }
    }
  }
}
