/** The host ports an instance may get (server/utils.ts). */
module Ports {

  import opened Options

  const RESERVED: set<int> := {3000, 15929}

  /** The configured range. An unset or unparsable setting is None; the default end is 19999 even for a
      configured start above it. */
  function PortRange(parsedStart: Option<int>, parsedEnd: Option<int>): (range: (int, int))
    ensures 1024 <= range.0 <= 65535 && range.1 <= 65535
    ensures range.0 == 10100 || Some(range.0) == parsedStart
    ensures range.1 == 19999 || (Some(range.1) == parsedEnd && range.0 <= range.1)
    ensures parsedStart.Some? && 1024 <= parsedStart.value <= 65535 ==> range.0 == parsedStart.value
    ensures parsedEnd.Some? && range.0 <= parsedEnd.value <= 65535 ==> range.1 == parsedEnd.value
  {
    var start := if parsedStart.Some? && 1024 <= parsedStart.value <= 65535 then parsedStart.value else 10100;
    var end := if parsedEnd.Some? && start <= parsedEnd.value <= 65535 then parsedEnd.value else 19999;
    (start, end)
  }

  /** The range is empty, and no instance can be given a port, exactly when the start is configured above
      the default end and the end is not configured above it as well. */
  lemma RangeEmptyIff(parsedStart: Option<int>, parsedEnd: Option<int>)
    ensures var (start, end) := PortRange(parsedStart, parsedEnd);
            start > end <==>
              && parsedStart.Some? && 20000 <= parsedStart.value <= 65535
              && (parsedEnd.None? || parsedEnd.value < parsedStart.value || parsedEnd.value > 65535)
  {
  }

  predicate Offered(port: int, start: int, end: int) {
    start <= port <= end && port !in RESERVED
  }

  predicate NoDuplicates(s: seq<int>) {
    forall i, j :: 0 <= i < j < |s| ==> s[i] != s[j]
  }

  /** The source's listInstancePortCandidates for the range start..end: every offered port once, the
      preferred one first when it is offered, the others in order. A missing preference is None; the
      source takes 0 for missing too. */
  method ListCandidates(preferred: Option<int>, start: int, end: int) returns (candidates: seq<int>)
    requires 1024 <= start
    ensures NoDuplicates(candidates)
    ensures forall port :: port in candidates <==> start <= port <= end && port != 3000 && port != 15929
    ensures preferred.Some? && Offered(preferred.value, start, end) ==>
              candidates != [] && candidates[0] == preferred.value
              && forall i, j :: 1 <= i < j < |candidates| ==> candidates[i] < candidates[j]
    ensures preferred.None? || !Offered(preferred.value, start, end) ==>
              forall i, j :: 0 <= i < j < |candidates| ==> candidates[i] < candidates[j]
  {
    candidates := [];
    if preferred.Some? && preferred.value != 0 && start <= preferred.value <= end && preferred.value !in RESERVED {
      candidates := [preferred.value];
    }
    ghost var front := candidates;
    var port := start;
    while port <= end
      invariant start <= port && (start <= end ==> port <= end + 1)
      invariant NoDuplicates(candidates) && front <= candidates
      invariant forall p :: p in candidates <==>
                  p in front || (Offered(p, start, end) && p < port && Some(p) != preferred)
      invariant forall i, j :: |front| <= i < j < |candidates| ==> candidates[i] < candidates[j]
      invariant forall i :: |front| <= i < |candidates| ==> candidates[i] < port
    {
      if port !in RESERVED && Some(port) != preferred {
        assert port !in candidates;
        candidates := candidates + [port];
      }
      port := port + 1;
    }
  }
}
