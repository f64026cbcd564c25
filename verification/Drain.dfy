// The persisted drain clock of a provider withdrawal: one annotation on the
// routing overlay's ConfigMap, written by every reconcile of the tenant.
module Drain {
  import opened Wrappers
  import opened Overlays

  // Durations and instants are nanoseconds, as in Go's time package.
  const SECOND: nat := 1_000_000_000
  const REQUEST_TIMEOUT: nat := 300 * SECOND
  const SAFETY_MARGIN: nat := 10 * SECOND
  const DRAIN: nat := REQUEST_TIMEOUT + SAFETY_MARGIN
  const REQUEUE: nat := 5 * SECOND

  // Unreadable stands for a value that does not parse, or parses without a
  // revision or without a start time.
  datatype Annotation =
    | Absent
    | Unreadable
    | Draining(revision: Revision, startedAt: int)

  datatype DrainError = NotOwned | PatchFailed

  // The annotation and the remaining wait after one observation.
  function Observed(drain: Annotation, revision: Revision, safe: bool, now: int): (Annotation, int) {
    if !safe then
      (if drain.Draining? then Absent else drain, REQUEUE)
    else if !drain.Draining? || drain.revision != revision then
      (Draining(revision, now), DRAIN)
    else
      var remaining := DRAIN - (now - drain.startedAt);
      (drain, if remaining > 0 then remaining else 0)
  }

  class OverlayConfigMap {
    var managed: bool
    var drain: Annotation

    // Every write is a patch under an optimistic lock; patched says whether
    // the API server accepted it.
    method WithdrawalDrainRemaining(revision: Revision, safe: bool, now: int, patched: bool)
      returns (remaining: Result<int, DrainError>)
      modifies this`drain
      ensures !managed ==> remaining == Err(NotOwned) && drain == old(drain)
      ensures managed ==>
        var (next, wait) := Observed(old(drain), revision, safe, now);
        if next == old(drain) || patched then drain == next && remaining == Ok(wait)
        else drain == old(drain) && remaining == Err(PatchFailed)
    {
      if !managed {
        return Err(NotOwned);
      }
      var stateExists := drain.Draining?;
      if !safe {
        if stateExists {
          if !patched {
            return Err(PatchFailed);
          }
          drain := Absent;
        }
        return Ok(REQUEUE);
      }
      if !stateExists || drain.revision != revision {
        if !patched {
          return Err(PatchFailed);
        }
        drain := Draining(revision, now);
        return Ok(DRAIN);
      }
      var left := DRAIN - (now - drain.startedAt);
      if left > 0 {
        return Ok(left);
      }
      return Ok(0);
    }

    method ClearWithdrawalDrainState(patched: bool) returns (cleared: Result<bool, DrainError>)
      modifies this`drain
      ensures cleared.Ok? <==> old(drain).Absent? || (managed && patched)
      ensures drain == if cleared.Ok? then Absent else old(drain)
    {
      if drain.Absent? {
        return Ok(false);
      }
      if !managed {
        return Err(NotOwned);
      }
      if !patched {
        return Err(PatchFailed);
      }
      drain := Absent;
      return Ok(true);
    }
  }

  /******* The annotation over a whole history *******/

  // A history of everything that can touch the annotation. Unrecorded is an
  // observation that leaves it alone: the serving revision was unknown, so the
  // annotation was never read, or the write was refused.
  datatype Event =
    | Known(revision: Revision, safe: bool, at: int)
    | Unrecorded
    | Cleared

  function After(drain: Annotation, event: Event): Annotation {
    match event
    case Known(revision, safe, at) => Observed(drain, revision, safe, at).0
    case Unrecorded => drain
    case Cleared => Absent
  }

  function Replay(history: seq<Event>): Annotation {
    if history == [] then Absent
    else After(Replay(history[..|history| - 1]), history[|history| - 1])
  }

  // Every known observation from position i on was safe at this revision, and
  // nothing cleared the annotation since.
  ghost predicate SafeSince(history: seq<Event>, i: int, revision: Revision) {
    && 0 <= i < |history|
    && history[i].Known?
    && forall k :: i <= k < |history| ==>
         history[k].Unrecorded? || (history[k].Known? && history[k].safe && history[k].revision == revision)
  }

  ghost predicate Chronological(history: seq<Event>) {
    forall i, k :: 0 <= i < k < |history| && history[i].Known? && history[k].Known? ==> history[i].at <= history[k].at
  }

  // The annotation always records the first observation of the current
  // unbroken series of safe observations, and nothing when there is none.
  lemma {:induction false} ReplayIsSeriesStart(history: seq<Event>)
    ensures !Replay(history).Unreadable?
    ensures Replay(history).Draining? ==>
      exists i :: SafeSince(history, i, Replay(history).revision) && history[i].at == Replay(history).startedAt
    ensures forall i, revision :: SafeSince(history, i, revision) ==>
      && Replay(history).Draining? && Replay(history).revision == revision
      && (Chronological(history) ==> Replay(history).startedAt <= history[i].at)
  {
    if history != [] {
      var n := |history| - 1;
      var before := history[..n];
      ReplayIsSeriesStart(before);
      var was, now := Replay(before), Replay(history);
      if now.Draining? {
        if was.Draining? && now == was {
          var i :| SafeSince(before, i, was.revision) && before[i].at == was.startedAt;
          assert SafeSince(history, i, now.revision);
        } else {
          assert SafeSince(history, n, now.revision);
        }
      }
      forall i, revision | SafeSince(history, i, revision)
        ensures now.Draining? && now.revision == revision
        ensures Chronological(history) ==> now.startedAt <= history[i].at
      {
        if i < n {
          assert SafeSince(before, i, revision);
          assert Chronological(history) ==> Chronological(before);
        }
      }
    }
  }

  // A zero wait means exactly that the observations have been safe at the
  // same revision, without interruption, for the whole drain duration.
  lemma {:induction false} ZeroWaitIffDrained(history: seq<Event>, revision: Revision, now: int)
    requires Chronological(history + [Known(revision, true, now)])
    ensures Observed(Replay(history), revision, true, now).1 == 0 <==>
      exists i :: SafeSince(history, i, revision) && now - history[i].at >= DRAIN
  {
    ReplayIsSeriesStart(history);
    var all := history + [Known(revision, true, now)];
    assert forall i :: 0 <= i < |history| ==> all[i] == history[i];
    assert Chronological(history);
  }

  // The wait of a known observation: five seconds when it is not safe, which
  // also ends the series; otherwise what is left of 310 seconds since the
  // first observation of the unbroken series it belongs to, or starts.
  lemma {:induction false} WaitIsTheRest(history: seq<Event>, revision: Revision, safe: bool, now: int)
    ensures var (next, wait) := Observed(Replay(history), revision, safe, now);
      var all := history + [Known(revision, safe, now)];
      if !safe then wait == 5 * SECOND && !next.Draining?
      else exists i ::
        && SafeSince(all, i, revision)
        && wait == (if now - all[i].at < 310 * SECOND then 310 * SECOND - (now - all[i].at) else 0)
        && (Chronological(all) ==> forall k :: SafeSince(all, k, revision) ==> all[i].at <= all[k].at)
  {
    var all, n := history + [Known(revision, safe, now)], |history|;
    ReplayIsSeriesStart(history);
    ReplayIsSeriesStart(all);
    assert all[..n] == history;
    if safe {
      var started := Replay(all);
      assert SafeSince(all, n, revision);
      var i :| SafeSince(all, i, started.revision) && all[i].at == started.startedAt;
      assert SafeSince(all, i, revision);
    }
  }

  // What a history makes of an annotation found at its start.
  function ReplayFrom(drain: Annotation, history: seq<Event>): Annotation {
    if history == [] then drain
    else After(ReplayFrom(drain, history[..|history| - 1]), history[|history| - 1])
  }

  // An annotation that cannot be read stays until an observation is safe, which
  // starts the drain anew, or until the state is cleared.
  lemma {:induction false} UnreadableStays(history: seq<Event>)
    ensures ReplayFrom(Unreadable, history).Unreadable? <==>
      forall k :: 0 <= k < |history| ==> history[k].Unrecorded? || (history[k].Known? && !history[k].safe)
    ensures history != [] && history[|history| - 1].Known? && history[|history| - 1].safe ==>
      ReplayFrom(Unreadable, history).Draining?
  {
    if history != [] { UnreadableStays(history[..|history| - 1]); }
  }
}
