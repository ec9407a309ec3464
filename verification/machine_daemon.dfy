/** The machine daemon: its patrols, the events it reports and the shutdowns it starts. */
module MachineDaemon {
  import opened Basics
  import opened Inactivity

  datatype Event =
    | Discovered(id: string)
    | ConfigError(id: string)
    | Removed(id: string)
    | PatrolFailed
    | IdleDeadline(id: string)
    | ShutdownStarted(id: string)
    | ShutdownFailed(id: string)
    | ShutdownSucceeded(id: string)
    | DaemonReady

  // ----- Events -----

  /** The set of workspaces that a reader of the event log knows about. */
  function Replay(known: set<string>, events: seq<Event>): set<string>
  {
    if events == [] then known
    else
      var before := Replay(known, events[..|events| - 1]);
      match events[|events| - 1]
      case Discovered(id) => before + {id}
      case Removed(id) => before - {id}
      case _ => before
  }

  lemma {:induction false} ReplayAppends(known: set<string>, a: seq<Event>, b: seq<Event>)
    ensures Replay(known, a + b) == Replay(Replay(known, a), b)
  {
    if b == [] {
      assert a + b == a;
    } else {
      assert (a + b)[..|a + b| - 1] == a + b[..|b| - 1];
      ReplayAppends(known, a, b[..|b| - 1]);
    }
  }

  lemma ReplayOne(known: set<string>, a: seq<Event>, e: Event)
    ensures Replay(known, a + [e]) == Replay(Replay(known, a), [e])
    ensures e.Discovered? ==> Replay(known, a + [e]) == Replay(known, a) + {e.id}
    ensures e.Removed? ==> Replay(known, a + [e]) == Replay(known, a) - {e.id}
    ensures !e.Discovered? && !e.Removed? ==> Replay(known, a + [e]) == Replay(known, a)
  {
    ReplayAppends(known, a, [e]);
    assert (a + [e])[..|a|] == a;
  }

  /** An unnamed workspace is not tracked. */
  function Ids(statuses: seq<Status>): set<string>
  {
    set s | s in statuses && s.id != "" :: s.id
  }

  function InvalidIds(statuses: seq<Status>): set<string>
  {
    set s | s in statuses && s.id != "" && s.state == InvalidConfig :: s.id
  }

  ghost predicate Distinct(statuses: seq<Status>)
  {
    forall i, j | 0 <= i < j < |statuses| :: statuses[i].id == statuses[j].id ==> statuses[i].id == ""
  }

  ghost predicate NoDuplicates(events: seq<Event>)
  {
    forall i, j | 0 <= i < j < |events| :: events[i] != events[j]
  }

  /** Exactly the changes are reported: what appeared, what became invalid and what went away. */
  ghost predicate Reports(found: seq<Event>, known: set<string>, invalid: set<string>,
                          current: set<string>, broken: set<string>, gone: set<string>)
  {
    && (forall e | e in found :: e.Discovered? || e.ConfigError? || e.Removed?)
    && (forall id :: Discovered(id) in found <==> id in current - known)
    && (forall id :: ConfigError(id) in found <==> id in broken - invalid)
    && (forall id :: Removed(id) in found <==> id in gone)
  }

  /** The events that one status causes. */
  function Announcement(known: set<string>, invalid: set<string>, s: Status): seq<Event>
  {
    if s.id == "" then []
    else
      (if s.id in known then [] else [Discovered(s.id)])
      + (if s.state != InvalidConfig || s.id in invalid then [] else [ConfigError(s.id)])
  }

  function Announced(known: set<string>, invalid: set<string>, statuses: seq<Status>): seq<Event>
  {
    if statuses == [] then []
    else Announced(known, invalid, statuses[..|statuses| - 1]) + Announcement(known, invalid, statuses[|statuses| - 1])
  }

  lemma IdsGrow(statuses: seq<Status>, s: Status)
    ensures Ids(statuses + [s]) == Ids(statuses) + (if s.id == "" then {} else {s.id})
    ensures InvalidIds(statuses + [s]) == InvalidIds(statuses) + (if s.id == "" || s.state != InvalidConfig then {} else {s.id})
  {
  }

  lemma ReportsGrow(found: seq<Event>, known: set<string>, invalid: set<string>, current: set<string>, broken: set<string>, s: Status)
    requires Reports(found, known, invalid, current, broken, {})
    ensures Reports(found + Announcement(known, invalid, s), known, invalid,
                    current + (if s.id == "" then {} else {s.id}),
                    broken + (if s.id == "" || s.state != InvalidConfig then {} else {s.id}), {})
  {
  }

  lemma AnnouncedGrows(known: set<string>, invalid: set<string>, statuses: seq<Status>, i: nat, before: seq<Event>)
    requires i < |statuses|
    ensures var s := statuses[i];
            && before + Announced(known, invalid, statuses[..i + 1]) == before + Announced(known, invalid, statuses[..i]) + Announcement(known, invalid, s)
            && Ids(statuses[..i + 1]) == Ids(statuses[..i]) + (if s.id == "" then {} else {s.id})
            && InvalidIds(statuses[..i + 1]) == InvalidIds(statuses[..i]) + (if s.id == "" || s.state != InvalidConfig then {} else {s.id})
  {
    assert statuses[..i + 1] == statuses[..i] + [statuses[i]];
    IdsGrow(statuses[..i], statuses[i]);
    ConcatAssociates(before, Announced(known, invalid, statuses[..i]), Announcement(known, invalid, statuses[i]));
  }

  lemma {:induction false} AnnouncedReports(known: set<string>, invalid: set<string>, statuses: seq<Status>)
    ensures Reports(Announced(known, invalid, statuses), known, invalid, Ids(statuses), InvalidIds(statuses), {})
  {
    if statuses != [] {
      var before, s := statuses[..|statuses| - 1], statuses[|statuses| - 1];
      assert statuses == before + [s];
      AnnouncedReports(known, invalid, before);
      IdsGrow(before, s);
      ReportsGrow(Announced(known, invalid, before), known, invalid, Ids(before), InvalidIds(before), s);
    }
  }

  lemma {:induction false} AnnouncedReplays(known: set<string>, invalid: set<string>, statuses: seq<Status>)
    ensures Replay(known, Announced(known, invalid, statuses)) == known + Ids(statuses)
  {
    if statuses != [] {
      var before, s := statuses[..|statuses| - 1], statuses[|statuses| - 1];
      assert statuses == before + [s];
      AnnouncedReplays(known, invalid, before);
      IdsGrow(before, s);
      ReplayAppends(known, Announced(known, invalid, before), Announcement(known, invalid, s));
      AnnouncementReplays(known, invalid, s, known + Ids(before));
    }
  }

  lemma AnnouncementReplays(known: set<string>, invalid: set<string>, s: Status, before: set<string>)
    requires known <= before
    ensures Replay(before, Announcement(known, invalid, s)) == before + (if s.id == "" then {} else {s.id})
  {
    if s.id != "" {
      ReplayOne(before, [], Discovered(s.id));
      ReplayOne(before, [], ConfigError(s.id));
      ReplayOne(before, [Discovered(s.id)], ConfigError(s.id));
      assert [] + [Discovered(s.id)] == [Discovered(s.id)] && [] + [ConfigError(s.id)] == [ConfigError(s.id)];
    }
  }

  /** With distinct workspace IDs nothing is reported twice. */
  lemma {:induction false} AnnouncedOnce(known: set<string>, invalid: set<string>, statuses: seq<Status>)
    requires Distinct(statuses)
    ensures NoDuplicates(Announced(known, invalid, statuses))
  {
    if statuses != [] {
      var before, s := statuses[..|statuses| - 1], statuses[|statuses| - 1];
      AnnouncedOnce(known, invalid, before);
      AnnouncedReports(known, invalid, before);
      var a, b := Announced(known, invalid, before), Announcement(known, invalid, s);
      assert s.id != "" ==> s.id !in Ids(before);
      NoDuplicatesJoin(a, b);
    }
  }

  lemma NoDuplicatesJoin(a: seq<Event>, b: seq<Event>)
    requires NoDuplicates(a) && NoDuplicates(b) && forall e | e in a :: e !in b
    ensures NoDuplicates(a + b)
  {
    forall i, j | 0 <= i < j < |a + b|
      ensures (a + b)[i] != (a + b)[j]
    {
      if i < |a| <= j { assert a[i] in a && b[j - |a|] in b; }
    }
  }

  /** The removals complete the report. */
  lemma TransitionsComplete(known: set<string>, invalid: set<string>, statuses: seq<Status>, gone: seq<Event>)
    requires NoDuplicates(gone) && forall e | e in gone :: e.Removed?
    requires forall id :: Removed(id) in gone <==> id in known - Ids(statuses)
    requires Replay(known + Ids(statuses), gone) == Ids(statuses)
    ensures var found := Announced(known, invalid, statuses) + gone;
            && Reports(found, known, invalid, Ids(statuses), InvalidIds(statuses), known - Ids(statuses))
            && Replay(known, found) == Ids(statuses)
            && (Distinct(statuses) ==> NoDuplicates(found))
  {
    var announced := Announced(known, invalid, statuses);
    AnnouncedReports(known, invalid, statuses);
    AnnouncedReplays(known, invalid, statuses);
    ReplayAppends(known, announced, gone);
    if Distinct(statuses) {
      AnnouncedOnce(known, invalid, statuses);
      NoDuplicatesJoin(announced, gone);
    }
  }

  // ----- Time -----

  /**
   * What a patrol meets: the clock, the heartbeat, the modification time of every workspace file
   * and the listing, which can fail.
   */
  datatype Snapshot = Snapshot(now: int, heartbeat: int, mtimes: map<string, int>, listing: Option<seq<Observed>>, shutdownOk: bool)

  predicate Consistent(s: Snapshot)
  {
    s.listing.Some? ==> forall o | o in s.listing.value && o.mtime.Some? :: o.path in s.mtimes && s.mtimes[o.path] == o.mtime.value
  }

  /** Files are only ever touched at the current time, so no modification time goes back. */
  ghost predicate FilesMoveOn(since: int, mtimes: map<string, int>, s: Snapshot)
  {
    && since <= s.now
    && forall p | p in s.mtimes :: (if p in mtimes then mtimes[p] else since) <= s.mtimes[p]
  }

  ghost predicate Course(since: int, mtimes: map<string, int>, trace: seq<Snapshot>)
    decreases |trace|
  {
    trace != [] ==> (FilesMoveOn(since, mtimes, trace[0]) && Consistent(trace[0]) && Course(trace[0].now, trace[0].mtimes, trace[1..]))
  }

  ghost predicate TouchedSince(t0: int, mtimes: map<string, int>, stale: set<string>)
  {
    forall p | p in mtimes && p !in stale :: t0 <= mtimes[p]
  }

  lemma {:induction false} TouchLasts(t0: int, since: int, mtimes: map<string, int>, trace: seq<Snapshot>, stale: set<string>, k: nat)
    requires t0 <= since && TouchedSince(t0, mtimes, stale) && Course(since, mtimes, trace) && k < |trace|
    ensures Consistent(trace[k]) && TouchedSince(t0, trace[k].mtimes, stale)
    decreases k
  {
    assert TouchedSince(t0, trace[0].mtimes, stale);
    if k > 0 {
      TouchLasts(t0, trace[0].now, trace[0].mtimes, trace[1..], stale, k - 1);
    }
  }

  ghost predicate Stops(s: Snapshot, fallback: string)
  {
    s.listing.Some? && AllDue(s.listing.value, s.heartbeat, fallback, s.now)
  }

  /** No workspace that is present and was touched at startup can be stopped before its timeout has passed since then. */
  ghost predicate WaitedFor(t0: int, s: Snapshot, stale: set<string>)
  {
    s.listing.Some? && forall o | o in s.listing.value && o.path !in stale ::
      o.parsed.Some? && WorkspaceTimeout(o.parsed.value).Some? && t0 + WorkspaceTimeout(o.parsed.value).value <= s.now
  }

  lemma NoEarlyShutdown(t0: int, since: int, mtimes: map<string, int>, trace: seq<Snapshot>, stale: set<string>, fallback: string, k: nat)
    requires t0 <= since && TouchedSince(t0, mtimes, stale) && Course(since, mtimes, trace)
    requires k < |trace| && Stops(trace[k], fallback)
    ensures WaitedFor(t0, trace[k], stale)
  {
    TouchLasts(t0, since, mtimes, trace, stale, k);
  }

  // ----- What a patrol logs -----

  predicate IsTransition(e: Event) { e.Discovered? || e.ConfigError? || e.Removed? }

  /**
   A failed listing is all that is logged of its patrol. Any other logs the changes, and a shutdown, with
   its outcome, exactly when the machine is to be stopped: that of the workspace with the latest deadline.
   */
  ghost predicate PatrolLog(s: Snapshot, fallback: string, part: seq<Event>)
  {
    if s.listing.None? then part == [PatrolFailed]
    else if !Stops(s, fallback) then forall e | e in part :: IsTransition(e)
    else
      var n := |part| - 3;
      && n >= 0 && (forall e | e in part[..n] :: IsTransition(e))
      && part[n].IdleDeadline? && part[n + 1] == ShutdownStarted(part[n].id)
      && part[n + 2] == (if s.shutdownOk then ShutdownSucceeded(part[n].id) else ShutdownFailed(part[n].id))
      && exists at :: LatestDeadline(s.listing.value, s.heartbeat, Candidate(part[n].id, at))
  }

  lemma TransitionsThenShutdown(s: Snapshot, fallback: string, transitions: seq<Event>, candidate: Option<Candidate>)
    requires s.listing.Some? && (forall e | e in transitions :: IsTransition(e))
    requires candidate.Some? <==> Stops(s, fallback)
    requires candidate.Some? ==> LatestDeadline(s.listing.value, s.heartbeat, candidate.value)
    ensures PatrolLog(s, fallback, transitions + ShutdownEvents(candidate, s.shutdownOk))
  {
    var part := transitions + ShutdownEvents(candidate, s.shutdownOk);
    if candidate.Some? {
      assert part[..|part| - 3] == transitions;
      assert candidate.value == Candidate(part[|part| - 3].id, candidate.value.eligibleAt);
    } else {
      assert part == transitions;
    }
  }

  function Flatten(parts: seq<seq<Event>>): seq<Event>
  {
    if parts == [] then [] else Flatten(parts[..|parts| - 1]) + parts[|parts| - 1]
  }

  lemma FlattenGrows(before: seq<Event>, parts: seq<seq<Event>>, part: seq<Event>)
    ensures before + Flatten(parts + [part]) == before + Flatten(parts) + part
  {
    assert (parts + [part])[..|parts|] == parts;
  }

  /** The parts that the first `n` patrols logged, and which of them stopped the machine. */
  ghost predicate RunLogged(trace: seq<Snapshot>, fallback: string, stops: seq<bool>, parts: seq<seq<Event>>, n: nat)
  {
    && n <= |trace| && |stops| == |parts| == n
    && forall k | 0 <= k < n :: PatrolLog(trace[k], fallback, parts[k]) && stops[k] == Stops(trace[k], fallback)
  }

  lemma RunLoggedGrows(trace: seq<Snapshot>, fallback: string, stops: seq<bool>, parts: seq<seq<Event>>, n: nat, part: seq<Event>, stopped: bool)
    requires RunLogged(trace, fallback, stops, parts, n) && n < |trace|
    requires PatrolLog(trace[n], fallback, part) && stopped == Stops(trace[n], fallback)
    ensures RunLogged(trace, fallback, stops + [stopped], parts + [part], n + 1)
  {
  }

  // ----- The daemon -----

  function Touched(mtimes: map<string, int>, paths: set<string>, now: int): map<string, int>
  {
    map p | p in mtimes :: if p in paths then now else mtimes[p]
  }

  class Daemon {
    const shutdownAction: string
    var known: set<string>
    var knownInvalid: set<string>
    var events: seq<Event>
    var lastPatrolAt: Option<int>
    var lastSuccessAt: Option<int>
    var lastError: string
    /** What the last completed patrol saw. */
    ghost var seen: seq<Status>

    ghost predicate Valid()
      reads this
    {
      && Replay({}, events) == known
      && known == Ids(seen) && knownInvalid == InvalidIds(seen)
    }

    constructor (action: string)
      ensures Valid() && shutdownAction == action && events == [] && seen == []
    {
      shutdownAction := action;
      known, knownInvalid, events, seen := {}, {}, [], [];
      lastPatrolAt, lastSuccessAt, lastError := None, None, "";
    }

    method RecordWorkspaceTransitions(statuses: seq<Status>) returns (ghost found: seq<Event>)
      requires Valid()
      modifies this`known, this`knownInvalid, this`events, this`seen
      ensures Valid() && seen == statuses && events == old(events) + found
      ensures Reports(found, old(known), old(knownInvalid), Ids(statuses), InvalidIds(statuses), old(known) - Ids(statuses))
      ensures Distinct(statuses) ==> NoDuplicates(found)
    {
      var current, invalid := RecordPresent(statuses);
      ghost var gone := RecordRemovals(current);
      TransitionsComplete(known, knownInvalid, statuses, gone);
      found := Announced(known, knownInvalid, statuses) + gone;
      ConcatAssociates(old(events), Announced(known, knownInvalid, statuses), gone);
      ReplayAppends({}, old(events), found);
      known, knownInvalid, seen := current, invalid, statuses;
    }

    /** The workspaces that are there, in listing order. */
    method RecordPresent(statuses: seq<Status>) returns (current: set<string>, invalid: set<string>)
      modifies this`events
      ensures current == Ids(statuses) && invalid == InvalidIds(statuses)
      ensures events == old(events) + Announced(known, knownInvalid, statuses)
    {
      current, invalid := {}, {};
      for i := 0 to |statuses|
        invariant current == Ids(statuses[..i]) && invalid == InvalidIds(statuses[..i])
        invariant events == old(events) + Announced(known, knownInvalid, statuses[..i])
      {
        AnnouncedGrows(known, knownInvalid, statuses, i, old(events));
        current, invalid := RecordStatus(statuses[i], current, invalid);
      }
      assert statuses[..|statuses|] == statuses;
    }

    method RecordStatus(status: Status, current: set<string>, invalid: set<string>) returns (current': set<string>, invalid': set<string>)
      modifies this`events
      ensures current' == current + (if status.id == "" then {} else {status.id})
      ensures invalid' == invalid + (if status.id == "" || status.state != InvalidConfig then {} else {status.id})
      ensures events == old(events) + Announcement(known, knownInvalid, status)
    {
      current', invalid' := current, invalid;
      if status.id == "" {
        return;
      }
      current' := current + {status.id};
      if status.id !in known {
        events := events + [Discovered(status.id)];
      }
      if status.state == InvalidConfig {
        invalid' := invalid + {status.id};
        if status.id !in knownInvalid {
          events := events + [ConfigError(status.id)];
        }
      }
    }

    /** The known workspaces that are no longer there, in any order. */
    method RecordRemovals(current: set<string>) returns (ghost gone: seq<Event>)
      modifies this`events
      ensures events == old(events) + gone && NoDuplicates(gone)
      ensures forall e | e in gone :: e.Removed?
      ensures forall id :: Removed(id) in gone <==> id in known - current
      ensures Replay(known + current, gone) == current
    {
      gone := [];
      var rest := known;
      while rest != {}
        invariant rest <= known && events == old(events) + gone && NoDuplicates(gone)
        invariant forall e | e in gone :: e.Removed?
        invariant forall id :: Removed(id) in gone <==> id in known - rest - current
        invariant Replay(known + current, gone) == rest + current
        decreases |rest|
      {
        var id :| id in rest;
        rest := rest - {id};
        if id !in current {
          ReplayOne(known + current, gone, Removed(id));
          NoDuplicatesJoin(gone, [Removed(id)]);
          events, gone := events + [Removed(id)], gone + [Removed(id)];
        }
      }
    }

    method ShutdownWorkspace(id: string, ok: bool, ghost candidate: Option<Candidate>)
      requires Valid() && candidate.Some? && candidate.value.id == id
      modifies this`events
      ensures Valid() && events == old(events) + ShutdownEvents(candidate, ok)
    {
      ReplayShutdown({}, events, candidate, ok);
      events := events + [IdleDeadline(id)];
      events := events + [ShutdownStarted(id)];
      if ok {
        events := events + [ShutdownSucceeded(id)];
      } else {
        events := events + [ShutdownFailed(id)];
      }
      assert events == old(events) + ShutdownEvents(candidate, ok);
    }

    method RecordMissedPatrol(now: int)
      requires Valid()
      modifies this`events, this`lastPatrolAt, this`lastError
      ensures Valid() && events == old(events) + [PatrolFailed] && lastPatrolAt == Some(now) && lastError == "patrol_failed"
    {
      ReplayOne({}, events, PatrolFailed);
      events := events + [PatrolFailed];
      lastPatrolAt, lastError := Some(now), "patrol_failed";
    }

    /** One patrol: the workspace events it reported and the candidate whose shutdown command it ran. */
    method PatrolOnce(s: Snapshot) returns (ghost transitions: seq<Event>, ghost candidate: Option<Candidate>)
      requires Valid()
      modifies this
      ensures Valid() && lastPatrolAt == Some(s.now)
      ensures s.listing.None? ==> transitions == [] && lastError == "patrol_failed"
      ensures s.listing.None? ==> known == old(known) && knownInvalid == old(knownInvalid) && seen == old(seen)
      ensures s.listing.None? ==> lastSuccessAt == old(lastSuccessAt) && events == old(events) + [PatrolFailed]
      ensures s.listing.Some? ==> StatusesOf(seen, s.listing.value, s.heartbeat, shutdownAction, s.now) && lastSuccessAt == Some(s.now)
      ensures s.listing.Some? ==> Reports(transitions, old(known), old(knownInvalid), known, knownInvalid, old(known) - known)
      ensures s.listing.Some? && Distinct(seen) ==> NoDuplicates(transitions)
      ensures candidate.Some? <==> Stops(s, shutdownAction)
      ensures candidate.Some? ==> Best(seen, candidate.value) && LatestDeadline(s.listing.value, s.heartbeat, candidate.value)
      ensures s.listing.Some? ==> events == old(events) + transitions + ShutdownEvents(candidate, s.shutdownOk)
      ensures s.listing.Some? ==> lastError == if candidate.None? || s.shutdownOk then old(lastError) else "shutdown_failed"
    {
      if s.listing.None? {
        RecordMissedPatrol(s.now);
        return [], None;
      }
      var e := EvaluateMachineInactivity(s.listing.value, s.heartbeat, shutdownAction, s.now);
      transitions := RecordWorkspaceTransitions(e.statuses);
      lastPatrolAt, lastSuccessAt, candidate := Some(s.now), Some(s.now), e.candidate;
      if e.workspace.None? {
        assert events + [] == events;
        return;
      }
      ShutdownWorkspace(e.workspace.value.id, s.shutdownOk, candidate);
      if !s.shutdownOk {
        lastError := "shutdown_failed";
      }
    }

    /** The startup touch of every workspace file that can be listed and written. */
    method InitialTouch(mtimes: map<string, int>, listing: Option<seq<string>>, readOnly: set<string>, now: int)
      returns (after: map<string, int>)
      ensures listing.None? ==> after == mtimes
      ensures listing.Some? ==> after == Touched(mtimes, (set p | p in listing.value) - readOnly, now)
    {
      after := mtimes;
      if listing.None? {
        return;
      }
      var paths := listing.value;
      for i := 0 to |paths|
        invariant after == Touched(mtimes, (set p | p in paths[..i]) - readOnly, now)
      {
        assert paths[..i + 1] == paths[..i] + [paths[i]];
        if paths[i] in mtimes && paths[i] !in readOnly {
          after := after[paths[i] := now];
        }
      }
      assert paths[..|paths|] == paths;
    }

    /** One patrol, as its part of the log. */
    method PatrolLogged(s: Snapshot) returns (ghost part: seq<Event>, ghost stopped: bool)
      requires Valid()
      modifies this
      ensures Valid() && lastPatrolAt == Some(s.now)
      ensures events == old(events) + part && PatrolLog(s, shutdownAction, part)
      ensures stopped <==> Stops(s, shutdownAction)
    {
      ghost var transitions, candidate := PatrolOnce(s);
      part, stopped := [PatrolFailed], candidate.Some?;
      if s.listing.Some? {
        part := transitions + ShutdownEvents(candidate, s.shutdownOk);
        TransitionsThenShutdown(s, shutdownAction, transitions, candidate);
        ConcatAssociates(old(events), transitions, ShutdownEvents(candidate, s.shutdownOk));
      }
    }

    method Patrols(trace: seq<Snapshot>) returns (ghost stops: seq<bool>, ghost parts: seq<seq<Event>>)
      requires Valid()
      modifies this
      ensures Valid() && events == old(events) + Flatten(parts)
      ensures RunLogged(trace, shutdownAction, stops, parts, |trace|)
      ensures trace != [] ==> lastPatrolAt == Some(trace[|trace| - 1].now)
    {
      stops, parts := [], [];
      ghost var ready := events;
      assert ready + Flatten(parts) == ready;
      for i := 0 to |trace|
        invariant Valid() && RunLogged(trace, shutdownAction, stops, parts, i)
        invariant events == ready + Flatten(parts) && (i > 0 ==> lastPatrolAt == Some(trace[i - 1].now))
      {
        ghost var part, stopped := PatrolLogged(trace[i]);
        FlattenGrows(ready, parts, part);
        RunLoggedGrows(trace, shutdownAction, stops, parts, i, part, stopped);
        stops, parts := stops + [stopped], parts + [part];
      }
    }

    /** The daemon's life: the startup touch at `t0`, then one patrol a tick. */
    method Patrol(mtimes: map<string, int>, listing: Option<seq<string>>, readOnly: set<string>, t0: int, trace: seq<Snapshot>)
      returns (ghost stops: seq<bool>, ghost parts: seq<seq<Event>>)
      requires Valid()
      modifies this
      ensures Valid()
      ensures events == old(events) + [DaemonReady] + Flatten(parts)
      ensures |parts| == |trace| && forall k | 0 <= k < |trace| :: PatrolLog(trace[k], shutdownAction, parts[k])
      ensures trace != [] ==> lastPatrolAt == Some(trace[|trace| - 1].now)
      ensures |stops| == |trace| && forall k | 0 <= k < |trace| :: stops[k] == Stops(trace[k], shutdownAction)
      ensures var touched := if listing.Some? then (set p | p in listing.value) - readOnly else {};
              Course(t0, Touched(mtimes, touched, t0), trace) ==>
                forall k | 0 <= k < |trace| && stops[k] :: WaitedFor(t0, trace[k], mtimes.Keys - touched)
    {
      var after := InitialTouch(mtimes, listing, readOnly, t0);
      ReplayOne({}, events, DaemonReady);
      events := events + [DaemonReady];
      stops, parts := Patrols(trace);
      ghost var touched := if listing.Some? then (set p | p in listing.value) - readOnly else {};
      assert after == Touched(mtimes, touched, t0);
      if Course(t0, after, trace) {
        forall k | 0 <= k < |trace| && stops[k]
          ensures WaitedFor(t0, trace[k], mtimes.Keys - touched)
        {
          NoEarlyShutdown(t0, t0, after, trace, mtimes.Keys - touched, shutdownAction, k);
        }
      }
    }
  }

  function ShutdownEvents(candidate: Option<Candidate>, ok: bool): seq<Event>
  {
    if candidate.None? then []
    else
      var id := candidate.value.id;
      [IdleDeadline(id), ShutdownStarted(id), if ok then ShutdownSucceeded(id) else ShutdownFailed(id)]
  }

  lemma ReplayShutdown(known: set<string>, events: seq<Event>, candidate: Option<Candidate>, ok: bool)
    requires candidate.Some?
    ensures Replay(known, events + ShutdownEvents(candidate, ok)) == Replay(known, events)
  {
    var id := candidate.value.id;
    var last := if ok then ShutdownSucceeded(id) else ShutdownFailed(id);
    ReplayOne(known, events, IdleDeadline(id));
    ReplayOne(known, events + [IdleDeadline(id)], ShutdownStarted(id));
    ReplayOne(known, events + [IdleDeadline(id)] + [ShutdownStarted(id)], last);
    assert events + ShutdownEvents(candidate, ok) == events + [IdleDeadline(id)] + [ShutdownStarted(id)] + [last];
  }
}
