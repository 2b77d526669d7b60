/** The bounded run timeline of shared/localRunTimeline.ts: a collector that is fed a stream of events, and a
  reader that re-checks what was stored. The two count sizes differently: the collector takes the length of
  the JSON of the whole list, the reader adds up the lengths of the single events.

  How an event is sanitised and how long its JSON is come as a `Codec`; the theorems hold of every lawful one,
  and the collector uses that of the source. */
module Timeline {

  import opened Options
  import opened TimelineEvents

  datatype RunState = RunState(events: seq<Event>, lastId: int, partial: bool)

  const MAX_EVENTS := 200
  const MAX_CHARACTERS := 64 * 1024
  const MAX_RUNS := 64

  // ---------------------------------------------------------------- sizes

  function TotalSize(c: Codec, events: seq<Event>): nat {
    if events == [] then 0 else TotalSize(c, events[..|events| - 1]) + c.size(events[|events| - 1])
  }

  /** JSON.stringify of a list: brackets, the elements, and a comma between two of them. */
  function ListSize(c: Codec, events: seq<Event>): nat {
    TotalSize(c, events) + 2 + (if events == [] then 0 else |events| - 1)
  }

  predicate Increasing(events: seq<Event>) {
    forall i, j :: 0 <= i < j < |events| ==> events[i].id < events[j].id
  }

  // ---------------------------------------------------------------- the collector

  /** The new last list: adjacent text is joined under the id of its first part. */
  function Pushed(events: seq<Event>, e: Event): seq<Event> {
    if events != [] && events[|events| - 1].kind.TextKind? && e.kind.TextKind?
    then var last := events[|events| - 1]; events[..|events| - 1] + [last.(data := last.data + e.data)]
    else events + [e]
  }

  function Fresh(first: Event): RunState {
    RunState([], 0, first.id != 1)
  }

  /** What one event does to the state of its run. */
  function Taken(c: Codec, st: RunState, raw: Event): RunState {
    if raw.id <= st.lastId then st
    else
      var partial := st.partial || raw.id != st.lastId + 1;
      var e := Safe(c, raw);
      if e.None? then RunState(st.events, raw.id, partial)
      else
        var candidate := Pushed(st.events, e.value);
        if |candidate| > MAX_EVENTS || ListSize(c, candidate) > MAX_CHARACTERS then RunState(st.events, raw.id, true)
        else RunState(candidate, raw.id, partial)
  }

  /** The state of a run that has been sent these events. */
  function Collected(c: Codec, raws: seq<Event>): RunState
    requires raws != []
  {
    var n := |raws| - 1;
    Taken(c, if n == 0 then Fresh(raws[0]) else Collected(c, raws[..n]), raws[n])
  }

  // -------------------------------------------------------------- what it should have collected

  /** The events that are neither replays nor late: each id is larger than all before it. */
  function Accepted(raws: seq<Event>): (r: seq<Event>)
    ensures forall k :: 0 <= k < |r| ==> r[k].id > 0
  {
    if raws == [] then []
    else
      var n := |raws| - 1;
      var front := Accepted(raws[..n]);
      if raws[n].id > LastId(front) then front + [raws[n]] else front
  }

  function LastId(accepted: seq<Event>): int {
    if accepted == [] then 0 else accepted[|accepted| - 1].id
  }

  function Sanitised(c: Codec, events: seq<Event>): seq<Event> {
    if events == [] then []
    else
      var n := |events| - 1;
      var e := Safe(c, events[n]);
      Sanitised(c, events[..n]) + (if e.Some? then [e.value] else [])
  }

  function JoinedFront(events: seq<Event>): seq<Event>
    requires |events| >= 2
  {
    [events[0].(data := events[0].data + events[1].data)] + events[2..]
  }

  /** Joining adjacent text from the front, without any bound. */
  function Coalesced(events: seq<Event>): seq<Event>
    decreases |events|
  {
    if |events| <= 1 then events
    else if events[0].kind.TextKind? && events[1].kind.TextKind? then
      Coalesced(JoinedFront(events))
    else [events[0]] + Coalesced(events[1..])
  }

  /** Joining from the front is the same as pushing one event after the other. */
  lemma {:induction false} CoalescedSnoc(events: seq<Event>, e: Event)
    ensures Coalesced(events + [e]) == Pushed(Coalesced(events), e)
    decreases |events|
  {
    hide *;
    var all := events + [e];
    if |events| == 0 {
      assert all == [e];
      CoalescedPair(events, e);
    } else if |events| == 1 {
      CoalescedPair(events, e);
    } else {
      CoalescedUnfold(events);
      CoalescedUnfold(all);
      if events[0].kind.TextKind? && events[1].kind.TextKind? {
        CoalescedSnoc(JoinedFront(events), e);
        JoinedFrontSnoc(events, e);
      } else {
        CoalescedSnoc(events[1..], e);
        assert all[1..] == events[1..] + [e];
        CoalescedStarts(events[1..]);
        PushedCons(events[0], Coalesced(events[1..]), e);
      }
    }
  }

  lemma CoalescedUnfold(events: seq<Event>)
    requires |events| >= 2
    ensures events[0].kind.TextKind? && events[1].kind.TextKind? ==>
              Coalesced(events) == Coalesced(JoinedFront(events)) && |JoinedFront(events)| < |events|
    ensures !(events[0].kind.TextKind? && events[1].kind.TextKind?) ==>
              Coalesced(events) == [events[0]] + Coalesced(events[1..])
  {
  }

  lemma CoalescedPair(events: seq<Event>, e: Event)
    requires |events| <= 1
    ensures Coalesced(events + [e]) == Pushed(Coalesced(events), e)
  {
    if events == [] {
      assert events + [e] == [e];
    } else {
      assert (events + [e])[2..] == [] && (events + [e])[1..] == [e];
    }
  }

  lemma JoinedFrontSnoc(events: seq<Event>, e: Event)
    requires |events| >= 2
    ensures JoinedFront(events + [e]) == JoinedFront(events) + [e]
  {
  }

  lemma PushedCons(first: Event, events: seq<Event>, e: Event)
    requires events != []
    ensures Pushed([first] + events, e) == [first] + Pushed(events, e)
  {
    var all := [first] + events;
    assert all[..|all| - 1] == [first] + events[..|events| - 1] && all[|all| - 1] == events[|events| - 1];
  }

  lemma {:induction false} CoalescedStarts(events: seq<Event>)
    requires events != []
    ensures Coalesced(events) != []
    decreases |events|
  {
    if |events| > 1 && events[0].kind.TextKind? && events[1].kind.TextKind? {
      CoalescedStarts(JoinedFront(events));
    }
  }

  /** The ids are exactly 1, 2, .., n. */
  predicate Gapless(accepted: seq<Event>) {
    forall k :: 0 <= k < |accepted| ==> accepted[k].id == k + 1
  }

  /** A stored event: in range, and text or the output of the sanitiser. */
  ghost predicate Clean(c: Codec, e: Event) {
    0 <= e.id <= MAX_SAFE_INTEGER
    && (!e.kind.TextKind? ==> exists data :: c.clean(e.kind, data) == Some(e.data))
  }

  /** What always holds of a run's state. */
  ghost predicate Bounded(c: Codec, st: RunState) {
    && |st.events| <= MAX_EVENTS && ListSize(c, st.events) <= MAX_CHARACTERS
    && Increasing(st.events)
    && (forall k :: 0 <= k < |st.events| ==> st.events[k].id <= st.lastId && Clean(c, st.events[k]))
  }

  lemma SafeIsClean(c: Codec, raw: Event)
    requires Safe(c, raw).Some?
    ensures Clean(c, Safe(c, raw).value) && Safe(c, raw).value.id == raw.id
  {
    if !raw.kind.TextKind? {
      assert c.clean(raw.kind, raw.data) == Some(Safe(c, raw).value.data);
    }
  }

  lemma TakenIsBounded(c: Codec, st: RunState, raw: Event)
    requires Bounded(c, st)
    ensures Bounded(c, Taken(c, st, raw))
  {
    hide ListSize, Clean;
    if raw.id > st.lastId && Safe(c, raw).Some? {
      SafeIsClean(c, raw);
      var e := Safe(c, raw).value;
      if st.events != [] && st.events[|st.events| - 1].kind.TextKind? {
        CleanText(c, st.events[|st.events| - 1], e.data);
      }
    }
  }

  lemma CleanText(c: Codec, e: Event, more: string)
    requires Clean(c, e) && e.kind.TextKind?
    ensures Clean(c, e.(data := e.data + more))
  {
  }

  /** The archive never claims to be complete when it is not: a run that is not marked partial holds exactly
      its accepted stream, whose ids are 1..lastId, sanitised and with adjacent text joined. Marked or not,
      it stays within the bounds. */
  lemma {:induction false} UnmarkedRunsAreExact(c: Codec, raws: seq<Event>)
    requires raws != []
    ensures var st := Collected(c, raws);
            && Bounded(c, st)
            && st.lastId == LastId(Accepted(raws))
            && (!st.partial ==>
                  && Gapless(Accepted(raws)) && |Accepted(raws)| == st.lastId
                  && st.events == Coalesced(Sanitised(c, Accepted(raws))))
    decreases |raws|
  {
    var n := |raws| - 1;
    var before := if n == 0 then Fresh(raws[0]) else Collected(c, raws[..n]);
    assert Collected(c, raws) == Taken(c, before, raws[n]);
    hide Taken, Bounded, Collected, Sanitised, Coalesced, Safe, Fresh, Gapless;
    if n == 0 {
      assert raws[..0] == [];
      FreshIsExact(c, raws[0]);
    } else {
      UnmarkedRunsAreExact(c, raws[..n]);
    }
    TakenIsBounded(c, before, raws[n]);
    TakenIsExact(c, before, Accepted(raws[..n]), raws[n]);
  }

  lemma FreshIsExact(c: Codec, first: Event)
    ensures Bounded(c, Fresh(first)) && Fresh(first).lastId == LastId([])
    ensures Gapless([]) && [] == Coalesced(Sanitised(c, []))
  {
  }

  lemma TakenIsExact(c: Codec, st: RunState, accepted: seq<Event>, raw: Event)
    requires st.lastId == LastId(accepted)
    requires !st.partial ==>
               Gapless(accepted) && |accepted| == st.lastId && st.events == Coalesced(Sanitised(c, accepted))
    ensures var r := Taken(c, st, raw);
            var now := if raw.id > LastId(accepted) then accepted + [raw] else accepted;
            && r.lastId == LastId(now)
            && (!r.partial ==> Gapless(now) && |now| == r.lastId && r.events == Coalesced(Sanitised(c, now)))
  {
    hide ListSize, Coalesced, Pushed;
    if raw.id > st.lastId {
      var now := accepted + [raw];
      assert now[..|accepted|] == accepted;
      var e := Safe(c, raw);
      if e.Some? {
        CoalescedSnoc(Sanitised(c, accepted), e.value);
      } else {
        assert Sanitised(c, now) == Sanitised(c, accepted);
      }
    }
  }

  // -------------------------------------------------------------- when it is marked and what it keeps

  /** What may not be stored as one list. */
  predicate TooMuch(c: Codec, events: seq<Event>) {
    |events| > 200 || ListSize(c, events) > 65536
  }

  /** After the first k accepted events the joined list is too much. */
  predicate OverflowsAt(c: Codec, accepted: seq<Event>, k: nat)
    requires k <= |accepted|
  {
    TooMuch(c, Coalesced(Sanitised(c, accepted[..k])))
  }

  /** The run did not begin with event 1, or misses one in between, or at some moment did not fit. */
  ghost predicate Incomplete(c: Codec, raws: seq<Event>)
    requires raws != []
  {
    || raws[0].id != 1
    || !Gapless(Accepted(raws))
    || exists k :: 0 <= k <= |Accepted(raws)| && OverflowsAt(c, Accepted(raws), k)
  }

  /** What is stored of a stream: each event that still fits when joined to those stored before it. */
  function Kept(c: Codec, events: seq<Event>): seq<Event> {
    if events == [] then []
    else
      var n := |events| - 1;
      var front := Kept(c, events[..n]);
      if TooMuch(c, Coalesced(front + [events[n]])) then front else front + [events[n]]
  }

  /** The mark is exact: a run is marked partial if and only if it is incomplete. */
  lemma {:induction false} MarkedIff(c: Codec, raws: seq<Event>)
    requires raws != []
    ensures Collected(c, raws).partial <==> Incomplete(c, raws)
    decreases |raws|
  {
    hide *;
    var n := |raws| - 1;
    var front, raw := raws[..n], raws[n];
    AcceptedSnoc(front, raw);
    assert front + [raw] == raws;
    if n == 0 {
      CollectedStart(c, raw);
      assert raws == [raw];
      AcceptedOfNothing(c, front);
      FreshMarks(c, raw);
      MarkedStep(c, Fresh(raw), [], raw, raw.id != 1);
    } else {
      CollectedStep(c, front, raw);
      IncompleteIff(c, front);
      MarkedIff(c, front);
      UnmarkedRunsAreExact(c, front);
      MarkedStep(c, Collected(c, front), Accepted(front), raw, raws[0].id != 1);
    }
    IncompleteIff(c, raws);
  }

  /** The three causes, over a stream of accepted events. */
  ghost predicate Broken(c: Codec, accepted: seq<Event>) {
    !Gapless(accepted) || exists k :: 0 <= k <= |accepted| && OverflowsAt(c, accepted, k)
  }

  lemma IncompleteIff(c: Codec, raws: seq<Event>)
    requires raws != []
    ensures Incomplete(c, raws) <==> raws[0].id != 1 || Broken(c, Accepted(raws))
  {
    hide Accepted, Gapless, OverflowsAt;
  }

  lemma FreshMarks(c: Codec, first: Event)
    ensures Fresh(first).lastId == LastId([]) == 0 && (Fresh(first).partial <==> first.id != 1)
    ensures Gapless([]) && Fresh(first).events == Coalesced(Sanitised(c, []))
  {
  }

  lemma AcceptedOfNothing(c: Codec, raws: seq<Event>)
    requires raws == []
    ensures Accepted(raws) == [] && !Broken(c, [])
  {
    assert raws[..0] == raws;
  }

  lemma AcceptedSnoc(raws: seq<Event>, raw: Event)
    ensures Accepted(raws + [raw]) ==
            if raw.id > LastId(Accepted(raws)) then Accepted(raws) + [raw] else Accepted(raws)
  {
    assert (raws + [raw])[..|raws|] == raws;
  }

  lemma MarkedStep(c: Codec, st: RunState, accepted: seq<Event>, raw: Event, late: bool)
    requires st.lastId == LastId(accepted) && (st.partial <==> late || Broken(c, accepted))
    requires !st.partial ==>
               Gapless(accepted) && |accepted| == st.lastId && st.events == Coalesced(Sanitised(c, accepted))
    ensures var now := if raw.id > LastId(accepted) then accepted + [raw] else accepted;
            Taken(c, st, raw).partial <==> late || Broken(c, now)
  {
    hide *;
    TakenMarks(c, st, raw);
    if raw.id > LastId(accepted) {
      BrokenSnoc(c, accepted, raw);
      if !st.partial {
        SanitisedSnoc(c, accepted, raw);
        NotBrokenAtEnd(c, accepted);
        OverflowsWithLast(c, accepted, raw);
        if Safe(c, raw).Some? {
          CoalescedSnoc(Sanitised(c, accepted), Safe(c, raw).value);
        } else {
          assert Sanitised(c, accepted) + [] == Sanitised(c, accepted);
        }
        GaplessSnoc(accepted, raw);
      }
    }
  }

  lemma TakenMarks(c: Codec, st: RunState, raw: Event)
    ensures raw.id <= st.lastId ==> Taken(c, st, raw) == st
    ensures raw.id > st.lastId ==>
              (Taken(c, st, raw).partial <==>
                 || st.partial || raw.id != st.lastId + 1
                 || (Safe(c, raw).Some? && TooMuch(c, Pushed(st.events, Safe(c, raw).value))))
  {
    hide Safe, Pushed, ListSize;
  }

  lemma GaplessSnoc(accepted: seq<Event>, raw: Event)
    requires Gapless(accepted) && |accepted| == LastId(accepted)
    ensures Gapless(accepted + [raw]) <==> raw.id == LastId(accepted) + 1
  {
    assert (accepted + [raw])[|accepted|] == raw;
  }

  lemma SanitisedSnoc(c: Codec, events: seq<Event>, raw: Event)
    ensures Sanitised(c, events + [raw]) ==
            Sanitised(c, events) + if Safe(c, raw).Some? then [Safe(c, raw).value] else []
  {
    hide Safe;
    assert (events + [raw])[..|events|] == events;
  }

  lemma BrokenSnoc(c: Codec, accepted: seq<Event>, raw: Event)
    ensures Broken(c, accepted) ==> Broken(c, accepted + [raw])
    ensures Broken(c, accepted + [raw]) && !Broken(c, accepted) ==>
              !Gapless(accepted + [raw]) || OverflowsAt(c, accepted + [raw], |accepted| + 1)
    ensures !Gapless(accepted + [raw]) || OverflowsAt(c, accepted + [raw], |accepted| + 1) ==>
              Broken(c, accepted + [raw])
  {
    hide TooMuch, Coalesced, Sanitised;
    var now := accepted + [raw];
    assert forall k :: 0 <= k <= |accepted| ==> now[..k] == accepted[..k];
    if !Gapless(accepted) {
      var k :| 0 <= k < |accepted| && accepted[k].id != k + 1;
      assert now[k].id != k + 1;
    }
    assert forall k :: 0 <= k <= |accepted| ==> (OverflowsAt(c, now, k) <==> OverflowsAt(c, accepted, k));
  }

  lemma NotBrokenAtEnd(c: Codec, accepted: seq<Event>)
    requires !Broken(c, accepted)
    ensures !TooMuch(c, Coalesced(Sanitised(c, accepted)))
  {
    hide TooMuch, Coalesced, Sanitised;
    assert !OverflowsAt(c, accepted, |accepted|);
    assert accepted[..|accepted|] == accepted;
  }

  lemma OverflowsWithLast(c: Codec, accepted: seq<Event>, raw: Event)
    ensures OverflowsAt(c, accepted + [raw], |accepted| + 1) <==>
            TooMuch(c, Coalesced(Sanitised(c, accepted + [raw])))
  {
    hide TooMuch, Coalesced, Sanitised;
    assert (accepted + [raw])[..|accepted| + 1] == accepted + [raw];
  }

  /** Marked or not, a run holds exactly what fits of its accepted stream: every event whose joined list is not too
      much is stored, and no other. */
  lemma {:induction false} HeldIsKept(c: Codec, raws: seq<Event>)
    requires raws != []
    ensures Collected(c, raws).events == Coalesced(Kept(c, Sanitised(c, Accepted(raws))))
    decreases |raws|
  {
    hide *;
    var n := |raws| - 1;
    var front, raw := raws[..n], raws[n];
    AcceptedSnoc(front, raw);
    assert front + [raw] == raws;
    if n == 0 {
      assert raws == [raw];
      CollectedStart(c, raw);
      AcceptedOfNothing(c, front);
      FreshHolds(c, raw);
      KeptStep(c, Fresh(raw), [], raw);
    } else {
      CollectedStep(c, front, raw);
      HeldIsKept(c, front);
      UnmarkedRunsAreExact(c, front);
      KeptStep(c, Collected(c, front), Accepted(front), raw);
    }
  }

  lemma FreshHolds(c: Codec, raw: Event)
    ensures Fresh(raw).events == Coalesced(Kept(c, Sanitised(c, []))) && Fresh(raw).lastId == LastId([])
  {
  }

  lemma KeptStep(c: Codec, st: RunState, accepted: seq<Event>, raw: Event)
    requires st.lastId == LastId(accepted) && st.events == Coalesced(Kept(c, Sanitised(c, accepted)))
    ensures var now := if raw.id > LastId(accepted) then accepted + [raw] else accepted;
            Taken(c, st, raw).events == Coalesced(Kept(c, Sanitised(c, now)))
  {
    hide *;
    TakenHolds(c, st, raw);
    if raw.id > LastId(accepted) {
      SanitisedSnoc(c, accepted, raw);
      var clean := Sanitised(c, accepted);
      if Safe(c, raw).Some? {
        KeptSnoc(c, clean, Safe(c, raw).value);
        CoalescedSnoc(Kept(c, clean), Safe(c, raw).value);
        assert Kept(c, clean) + [] == Kept(c, clean);
      } else {
        assert clean + [] == clean;
      }
    }
  }

  lemma TakenHolds(c: Codec, st: RunState, raw: Event)
    ensures Taken(c, st, raw).events ==
            if raw.id <= st.lastId || Safe(c, raw).None? || TooMuch(c, Pushed(st.events, Safe(c, raw).value))
            then st.events else Pushed(st.events, Safe(c, raw).value)
  {
    hide Safe, Pushed, ListSize;
  }

  lemma KeptSnoc(c: Codec, events: seq<Event>, e: Event)
    ensures Kept(c, events + [e]) ==
            Kept(c, events) + if TooMuch(c, Coalesced(Kept(c, events) + [e])) then [] else [e]
  {
    hide TooMuch, Coalesced;
    assert (events + [e])[..|events|] == events;
    assert Kept(c, events) + [] == Kept(c, events);
  }

  /** The last accepted id is the largest there was, so what is accepted is what is larger than all before. */
  lemma {:induction false} LastIdIsLargest(raws: seq<Event>)
    ensures forall k :: 0 <= k < |raws| ==> raws[k].id <= LastId(Accepted(raws))
    ensures LastId(Accepted(raws)) == 0 || exists k :: 0 <= k < |raws| && raws[k].id == LastId(Accepted(raws))
  {
    if raws != [] {
      var n := |raws| - 1;
      LastIdIsLargest(raws[..n]);
      AcceptedSnoc(raws[..n], raws[n]);
      assert raws[..n] + [raws[n]] == raws;
      assert forall k :: 0 <= k < n ==> raws[..n][k] == raws[k];
    }
  }

  /** One more event: stored, joined to the last, if its id is larger than all before, it can be shown, and the list
      still fits; otherwise what is held stays as it is. */
  lemma StoredIff(c: Codec, raws: seq<Event>, raw: Event)
    requires raws != []
    ensures var held, now := Collected(c, raws).events, Collected(c, raws + [raw]).events;
            var newer := raw.id > 0 && forall k :: 0 <= k < |raws| ==> raws[k].id < raw.id;
            if newer && Safe(c, raw).Some? && !TooMuch(c, Coalesced(held + [Safe(c, raw).value]))
            then now == Coalesced(held + [Safe(c, raw).value])
            else now == held
  {
    hide *;
    CollectedStep(c, raws, raw);
    UnmarkedRunsAreExact(c, raws);
    TakenHolds(c, Collected(c, raws), raw);
    LastIdIsLargest(raws);
    AcceptedIsPositive(raws);
    if Safe(c, raw).Some? {
      HeldIsJoined(c, raws);
      CoalescedSnoc(Collected(c, raws).events, Safe(c, raw).value);
    }
  }

  lemma AcceptedIsPositive(raws: seq<Event>)
    ensures LastId(Accepted(raws)) >= 0
  {
  }

  /** What is held is joined already. */
  lemma HeldIsJoined(c: Codec, raws: seq<Event>)
    requires raws != []
    ensures Coalesced(Collected(c, raws).events) == Collected(c, raws).events
  {
    hide *;
    HeldIsKept(c, raws);
    JoinedOnce(Kept(c, Sanitised(c, Accepted(raws))));
  }

  lemma {:induction false} JoinedOnce(events: seq<Event>)
    ensures Coalesced(Coalesced(events)) == Coalesced(events)
    decreases |events|
  {
    if events == [] {
    } else {
      var n := |events| - 1;
      var front := Coalesced(events[..n]);
      JoinedOnce(events[..n]);
      CoalescedSnoc(events[..n], events[n]);
      assert events[..n] + [events[n]] == events;
      if front != [] && front[|front| - 1].kind.TextKind? && events[n].kind.TextKind? {
        JoinedLast(front, events[n].data);
      } else {
        CoalescedSnoc(front, events[n]);
      }
    }
  }

  /** Lengthening the last text of a joined list leaves it joined. */
  lemma {:induction false} JoinedLast(events: seq<Event>, more: string)
    requires events != [] && Coalesced(events) == events && events[|events| - 1].kind.TextKind?
    ensures var last := events[|events| - 1];
            var longer := events[..|events| - 1] + [last.(data := last.data + more)];
            Coalesced(longer) == longer
  {
    var n := |events| - 1;
    var last := events[n];
    var front, longer := events[..n], events[..n] + [last.(data := last.data + more)];
    assert events == front + [last];
    FrontIsJoined(front, last);
    CoalescedSnoc(front, last);
    CoalescedSnoc(front, last.(data := last.data + more));
  }

  lemma FrontIsJoined(front: seq<Event>, last: Event)
    requires Coalesced(front + [last]) == front + [last]
    ensures Coalesced(front) == front
  {
    CoalescedSnoc(front, last);
    CoalescedIsNoLonger(front);
    var joined := Coalesced(front);
    var pushed := Pushed(joined, last);
    assert |pushed| == |front| + 1;
    assert pushed == joined + [last];
    assert pushed[..|front|] == front && pushed[..|front|] == joined;
  }

  lemma {:induction false} CoalescedIsNoLonger(events: seq<Event>)
    ensures |Coalesced(events)| <= |events|
    decreases |events|
  {
    if |events| > 1 {
      if events[0].kind.TextKind? && events[1].kind.TextKind? {
        CoalescedIsNoLonger(JoinedFront(events));
      } else {
        CoalescedIsNoLonger(events[1..]);
      }
    }
  }

  // ---------------------------------------------------------------- the reader

  /** What is read of a list, and whether anything had to be left out. */
  function Read(c: Codec, items: seq<Event>, size: nat, lastId: int): (seq<Event>, bool) {
    if items == [] then ([], false)
    else
      var e := Safe(c, items[0]);
      if e.None? || e.value.id <= lastId then
        (Read(c, items[1..], size, lastId).0, true)
      else if size + c.size(e.value) > MAX_CHARACTERS then
        ([], true)
      else
        var rest := Read(c, items[1..], size + c.size(e.value), e.value.id);
        ([e.value] + rest.0, rest.1)
  }

  lemma {:induction false} SanitisedCons(c: Codec, e: Event, events: seq<Event>)
    ensures Sanitised(c, [e] + events) == Sanitised(c, [e]) + Sanitised(c, events)
  {
    hide *;
    if events == [] {
      SanitisedOfNothing(c);
      assert [e] + events == [e] && Sanitised(c, [e]) + [] == Sanitised(c, [e]);
    } else {
      var n := |events| - 1;
      SanitisedCons(c, e, events[..n]);
      SanitisedSnoc(c, events[..n], events[n]);
      SanitisedSnoc(c, [e] + events[..n], events[n]);
      assert events[..n] + [events[n]] == events && ([e] + events[..n]) + [events[n]] == [e] + events;
    }
  }

  lemma SanitisedOfNothing(c: Codec)
    ensures Sanitised(c, []) == [] 
  {
  }

  lemma SanitisedHead(c: Codec, items: seq<Event>)
    requires items != []
    ensures Sanitised(c, items) ==
            (if Safe(c, items[0]).Some? then [Safe(c, items[0]).value] else []) + Sanitised(c, items[1..])
  {
    hide *;
    SanitisedOfNothing(c);
    SanitisedSnoc(c, [], items[0]);
    assert [] + [items[0]] == [items[0]] && items == [items[0]] + items[1..];
    SanitisedCons(c, items[0], items[1..]);
  }

  lemma {:induction false} SanitisedIsNoLonger(c: Codec, items: seq<Event>)
    ensures |Sanitised(c, items)| <= |items|
  {
    hide Safe;
    if items != [] {
      SanitisedIsNoLonger(c, items[..|items| - 1]);
    }
  }

  /** Every item can be shown, each id is larger than the one before it, and all together are not too long. */
  predicate Readable(c: Codec, items: seq<Event>, size: nat, lastId: int) {
    && |Sanitised(c, items)| == |items|
    && Increasing(items) && (items != [] ==> lastId < items[0].id)
    && size + TotalSize(c, Sanitised(c, items)) <= 65536
  }

  /** Something is left out, and the list marked, exactly when it is not readable as a whole. */
  lemma {:induction false} ReadsAllIff(c: Codec, items: seq<Event>, size: nat, lastId: int)
    requires size <= 65536
    ensures !Read(c, items, size, lastId).1 <==> Readable(c, items, size, lastId)
    ensures Readable(c, items, size, lastId) ==> Read(c, items, size, lastId).0 == Sanitised(c, items)
  {
    hide Read, Readable, Sanitised, Safe;
    if items == [] {
      ReadNothing(c, size, lastId);
      ReadableNothing(c, size, lastId);
    } else {
      var e := Safe(c, items[0]);
      SanitisedHead(c, items);
      SanitisedIsNoLonger(c, items[1..]);
      assert items[0..] == items;
      ReadUnfold(c, items, 0, size, lastId);
      ReadableHead(c, items, size, lastId);
      if e.Some? && e.value.id > lastId && size + c.size(e.value) <= 65536 {
        ReadsAllIff(c, items[1..], size + c.size(e.value), e.value.id);
      }
    }
  }

  lemma ReadableNothing(c: Codec, size: nat, lastId: int)
    requires size <= 65536
    ensures Readable(c, [], size, lastId) && Sanitised(c, []) == []
  {
  }

  lemma ReadableHead(c: Codec, items: seq<Event>, size: nat, lastId: int)
    requires items != []
    ensures var e := Safe(c, items[0]);
            Readable(c, items, size, lastId) <==>
              e.Some? && e.value.id > lastId && size + c.size(e.value) <= 65536
              && Readable(c, items[1..], size + c.size(e.value), e.value.id)
  {
    hide Sanitised, TotalSize, Safe;
    var e := Safe(c, items[0]);
    SanitisedHead(c, items);
    SanitisedIsNoLonger(c, items[1..]);
    if e.Some? {
      SafeIsClean(c, items[0]);
      TotalSizeCons(c, e.value, Sanitised(c, items[1..]));
      IncreasingHead(items);
    }
  }

  lemma IncreasingHead(items: seq<Event>)
    requires items != []
    ensures Increasing(items) <==> Increasing(items[1..]) && (|items| > 1 ==> items[0].id < items[1].id)
  {
    if Increasing(items[1..]) && (|items| > 1 ==> items[0].id < items[1].id) {
      forall i, j | 0 <= i < j < |items| ensures items[i].id < items[j].id {
        assert items[j] == items[1..][j - 1];
        assert i > 0 ==> items[i] == items[1..][i - 1];
      }
    }
  }

  /** The loop of the source's readLocalRunTimeline, over a header that has been accepted. */
  method ReadTimeline(c: Codec, items: seq<Event>, markedPartial: bool) returns (events: seq<Event>, partial: bool)
    ensures var page := if |items| > MAX_EVENTS then items[..MAX_EVENTS] else items;
            && events == Read(c, page, 0, -1).0
            && partial == (markedPartial || |items| > MAX_EVENTS || Read(c, page, 0, -1).1)
    ensures partial <==>
              markedPartial || |items| > 200 || !Readable(c, items, 0, -1)
    ensures !partial ==> events == Sanitised(c, items)
    ensures |events| <= MAX_EVENTS && Increasing(events) && TotalSize(c, events) <= MAX_CHARACTERS
  {
    hide Safe, TotalSize, Read, Sanitised, Readable;
    partial := markedPartial || |items| > MAX_EVENTS;
    events := [];
    TotalSizeOfNothing(c);
    var page := if |items| > MAX_EVENTS then items[..MAX_EVENTS] else items;
    var size: nat, lastId, k := 0, -1, 0;
    ReadsAllIff(c, page, 0, -1);
    ghost var marked, all := partial, Read(c, page, 0, -1);
    assert page[0..] == page;
    while k < |page|
      invariant 0 <= k <= |page| <= MAX_EVENTS && |events| <= k
      invariant events + Read(c, page[k..], size, lastId).0 == all.0
      invariant (partial || Read(c, page[k..], size, lastId).1) == (marked || all.1)
      invariant Increasing(events) && forall i :: 0 <= i < |events| ==> events[i].id <= lastId
      invariant size == TotalSize(c, events) <= MAX_CHARACTERS
    {
      var e := Safe(c, page[k]);
      ReadUnfold(c, page, k, size, lastId);
      if e.None? || e.value.id <= lastId {
        partial := true;
        k := k + 1;
        continue;
      }
      var bytes := c.size(e.value);
      if size + bytes > MAX_CHARACTERS {
        partial := true;
        assert events + [] == events;
        return;
      }
      TotalSizeSnoc(c, events, e.value);
      ghost var rest := Read(c, page[k + 1..], size + bytes, e.value.id).0;
      assert events + ([e.value] + rest) == (events + [e.value]) + rest;
      events, size, lastId := events + [e.value], size + bytes, e.value.id;
      k := k + 1;
    }
    ReadNothing(c, size, lastId);
    assert page[k..] == [] && events + [] == events;
  }

  lemma TotalSizeOfNothing(c: Codec)
    ensures TotalSize(c, []) == 0
  {
  }

  lemma ReadUnfold(c: Codec, page: seq<Event>, k: nat, size: nat, lastId: int)
    requires k < |page|
    ensures var e := Safe(c, page[k]);
            Read(c, page[k..], size, lastId) ==
            if e.None? || e.value.id <= lastId then (Read(c, page[k + 1..], size, lastId).0, true)
            else if size + c.size(e.value) > MAX_CHARACTERS then ([], true)
            else var rest := Read(c, page[k + 1..], size + c.size(e.value), e.value.id); ([e.value] + rest.0, rest.1)
  {
    hide Safe;
    assert page[k..][1..] == page[k + 1..] && page[k..][0] == page[k];
  }

  lemma TotalSizeSnoc(c: Codec, events: seq<Event>, e: Event)
    ensures TotalSize(c, events + [e]) == TotalSize(c, events) + c.size(e)
  {
    assert (events + [e])[..|events|] == events;
  }

  /** The same events, each as sanitising once more leaves it; text is untouched. */
  predicate SameStory(c: Codec, a: seq<Event>, b: seq<Event>) {
    |a| == |b| && forall k :: 0 <= k < |a| ==>
      && Safe(c, a[k]) == Some(b[k]) && a[k].id == b[k].id && a[k].kind == b[k].kind
      && (a[k].kind.TextKind? ==> a[k].data == b[k].data)
  }

  lemma CleanIsSafe(c: Codec, e: Event)
    requires Lawful(c) && Clean(c, e)
    ensures Safe(c, e).Some?
    ensures var r := Safe(c, e).value;
            r.id == e.id && r.kind == e.kind && (e.kind.TextKind? ==> r == e) && c.size(r) <= c.size(e)
  {
    if !e.kind.TextKind? {
      var data :| c.clean(e.kind, data) == Some(e.data);
      assert Stable(c, e.kind, c.clean(e.kind, data).value);
      assert e == Event(e.id, e.kind, e.data);
    }
  }

  lemma {:induction false} TotalSizeCons(c: Codec, e: Event, events: seq<Event>)
    ensures TotalSize(c, [e] + events) == c.size(e) + TotalSize(c, events)
  {
    if events == [] {
      assert [e] + events == [e] && [e][..0] == [];
    } else {
      var n := |events| - 1;
      TotalSizeCons(c, e, events[..n]);
      assert ([e] + events)[..n + 1] == [e] + events[..n];
    }
  }

  lemma ReadNothing(c: Codec, size: nat, lastId: int)
    ensures Read(c, [], size, lastId) == ([], false)
  {
  }

  lemma SameStoryNothing(c: Codec)
    ensures SameStory(c, [], [])
  {
  }

  lemma SameStoryCons(c: Codec, events: seq<Event>, e: Event, rest: seq<Event>)
    requires events != [] && SameStory(c, events[1..], rest)
    requires Safe(c, events[0]) == Some(e)
    requires e.id == events[0].id && e.kind == events[0].kind && (e.kind.TextKind? ==> e == events[0])
    ensures SameStory(c, events, [e] + rest)
  {
    assert forall k :: 1 <= k < |events| ==> events[k] == events[1..][k - 1] && ([e] + rest)[k] == rest[k - 1];
  }

  lemma TotalSizeHead(c: Codec, events: seq<Event>)
    requires events != []
    ensures TotalSize(c, events) == c.size(events[0]) + TotalSize(c, events[1..])
  {
    assert events == [events[0]] + events[1..];
    TotalSizeCons(c, events[0], events[1..]);
  }

  /** A list as the collector leaves it, with ids above lastId. */
  ghost predicate StoredAbove(c: Codec, events: seq<Event>, lastId: int) {
    Increasing(events) && forall k :: 0 <= k < |events| ==> Clean(c, events[k]) && lastId < events[k].id
  }

  lemma StoredTail(c: Codec, events: seq<Event>, lastId: int)
    requires events != [] && StoredAbove(c, events, lastId)
    ensures Clean(c, events[0]) && lastId < events[0].id && StoredAbove(c, events[1..], events[0].id)
  {
    hide Clean;
  }

  lemma ReadHead(c: Codec, events: seq<Event>, size: nat, lastId: int)
    requires events != [] && Safe(c, events[0]).Some? && Safe(c, events[0]).value.id > lastId
    requires size + c.size(Safe(c, events[0]).value) <= MAX_CHARACTERS
    ensures var e := Safe(c, events[0]).value;
            var rest := Read(c, events[1..], size + c.size(e), e.id);
            Read(c, events, size, lastId) == ([e] + rest.0, rest.1)
  {
    hide Safe;
  }

  /** Reading what the collector stored drops nothing, although it counts sizes in another way. */
  lemma {:induction false} ReadingStoredDropsNothing(c: Codec, events: seq<Event>, size: nat, lastId: int)
    requires Lawful(c) && StoredAbove(c, events, lastId)
    requires size + TotalSize(c, events) <= MAX_CHARACTERS
    ensures !Read(c, events, size, lastId).1
    ensures SameStory(c, events, Read(c, events, size, lastId).0)
  {
    hide *;
    ReadNothing(c, size, lastId);
    if events != [] {
      StoredTail(c, events, lastId);
      CleanIsSafe(c, events[0]);
      TotalSizeHead(c, events);
      ReadHead(c, events, size, lastId);
      var e := Safe(c, events[0]).value;
      ReadingStoredDropsNothing(c, events[1..], size + c.size(e), e.id);
      SameStoryCons(c, events, e, Read(c, events[1..], size + c.size(e), e.id).0);
    } else {
      SameStoryNothing(c);
    }
  }

  // ---------------------------------------------------------------- in place

  /** Runs in the order they were first seen: the source's Map. */
  function IndexOf(runs: seq<(string, RunState)>, runId: string): (k: int)
    ensures -1 <= k < |runs|
    ensures k >= 0 ==> runs[k].0 == runId
    ensures k == -1 ==> forall i :: 0 <= i < |runs| ==> runs[i].0 != runId
  {
    if runs == [] then -1
    else if runs[|runs| - 1].0 == runId then |runs| - 1
    else IndexOf(runs[..|runs| - 1], runId)
  }

  class Collector {
    const codec: Codec
    var runs: seq<(string, RunState)>
    ghost var sent: map<string, seq<Event>>   // what each held run was sent since it was first seen

    ghost predicate Valid()
      reads this
    {
      && Lawful(codec) && |runs| <= MAX_RUNS
      && (forall i, j :: 0 <= i < j < |runs| ==> runs[i].0 != runs[j].0)
      && (forall i :: 0 <= i < |runs| ==> runs[i].0 in sent && sent[runs[i].0] != []
                                          && runs[i].1 == Collected(codec, sent[runs[i].0]))
    }

    /** JSON.parse and the test for sensitive paths are the two things the sanitiser calls. */
    constructor (parse: string -> Option<Raw>, sensitive: string -> bool)
      requires Parses(parse, sensitive)
      ensures Valid() && codec == Json(parse, sensitive) && runs == []
    {
      JsonIsLawful(parse, sensitive);
      codec := Json(parse, sensitive);
      runs, sent := [], map[];
    }

    method Clear(runId: string)
      requires Valid()
      modifies this
      ensures Valid() && IndexOf(runs, runId) == -1 && sent == old(sent)
      ensures var was, k := old(runs), IndexOf(old(runs), runId);
              runs == if k >= 0 then was[..k] + was[k + 1..] else was
    {
      var k := IndexOf(runs, runId);
      if k >= 0 {
        runs := runs[..k] + runs[k + 1..];
      }
    }

    /** The source's add. The oldest run gives way when there are already 64. */
    method Add(runId: string, raw: Event)
      requires Valid()
      modifies this
      ensures Valid() && IndexOf(runs, runId) >= 0
      ensures sent[runId] == (if IndexOf(old(runs), runId) >= 0 then old(sent)[runId] + [raw] else [raw])
      ensures forall id :: id != runId && id in old(sent) ==> id in sent && sent[id] == old(sent)[id]
      ensures var was, k := old(runs), IndexOf(old(runs), runId);
              if k >= 0 then
                |runs| == |was| && runs[k].0 == runId && forall i :: 0 <= i < |was| && i != k ==> runs[i] == was[i]
              else
                runs != [] && runs[|runs| - 1].0 == runId
                && runs[..|runs| - 1] == if |was| >= 64 then was[1..] else was
    {
      hide Collected, Taken;
      var k := IndexOf(runs, runId);
      if k == -1 {
        if |runs| >= MAX_RUNS {
          runs := runs[1..];
        }
        CollectedStart(codec, raw);
        runs := runs + [(runId, Taken(codec, Fresh(raw), raw))];
        sent := sent[runId := [raw]];
        assert runs[|runs| - 1].0 == runId;
      } else {
        CollectedStep(codec, sent[runId], raw);
        runs := runs[k := (runId, Taken(codec, runs[k].1, raw))];
        sent := sent[runId := sent[runId] + [raw]];
        assert runs[k].0 == runId;
      }
    }

    /** The source's snapshot: the stored events through the reader. Nothing is dropped, text is verbatim,
        and the mark is that of the run; a run that is not held comes out empty and marked. */
    method Snapshot(runId: string) returns (events: seq<Event>, partial: bool)
      requires Valid()
      ensures IndexOf(runs, runId) == -1 ==> events == [] && partial
      ensures IndexOf(runs, runId) >= 0 ==>
                var st := Collected(codec, sent[runId]);
                SameStory(codec, st.events, events) && partial == st.partial
      ensures IndexOf(runs, runId) >= 0 ==>
                && partial == Incomplete(codec, sent[runId])
                && SameStory(codec, Coalesced(Kept(codec, Sanitised(codec, Accepted(sent[runId])))), events)
    {
      hide Read, Collected, SameStory, Lawful, TotalSize, Increasing, Incomplete, Kept, Sanitised, Coalesced, Accepted;
      var k := IndexOf(runs, runId);
      var stored := if k == -1 then [] else runs[k].1.events;
      if k >= 0 {
        CollectedIsReadBack(codec, sent[runId]);
        MarkedIff(codec, sent[runId]);
        HeldIsKept(codec, sent[runId]);
      } else {
        ReadNothing(codec, 0, -1);
      }
      events, partial := ReadTimeline(codec, stored, k == -1 || runs[k].1.partial);
    }
  }

  /** Whatever a run was sent, all of what it holds is read back. */
  lemma CollectedIsReadBack(c: Codec, raws: seq<Event>)
    requires Lawful(c) && raws != []
    ensures var st := Collected(c, raws);
            && |st.events| <= MAX_EVENTS
            && !Read(c, st.events, 0, -1).1 && SameStory(c, st.events, Read(c, st.events, 0, -1).0)
  {
    UnmarkedRunsAreExact(c, raws);
    hide Read, Collected, SameStory, Lawful, TotalSize;
    ReadingStoredDropsNothing(c, Collected(c, raws).events, 0, -1);
  }

  lemma CollectedStart(c: Codec, raw: Event)
    ensures Collected(c, [raw]) == Taken(c, Fresh(raw), raw)
  {
  }

  lemma CollectedStep(c: Codec, raws: seq<Event>, raw: Event)
    requires raws != []
    ensures Collected(c, raws + [raw]) == Taken(c, Collected(c, raws), raw)
  {
    assert (raws + [raw])[..|raws|] == raws;
  }
}
