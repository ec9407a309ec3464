/** Deciding whether a machine may be shut down. Times and durations are integer nanoseconds. */
module Inactivity {
  import opened Basics

  const MINUTE := 60_000_000_000
  const BUSY_GRACE_PERIOD := 20 * MINUTE
  const DEFAULT_INACTIVITY_TIMEOUT := 20 * MINUTE
  const SHUTDOWN_ACTION_NONE := "none"

  datatype Timeout = Unset | Malformed | Duration(nanos: int)

  /** What the workspace file says. `action` is empty when the dev container sets none. */
  datatype Workspace = Workspace(id: string, shutdown: seq<string>, action: string, timeout: Timeout)

  /** One workspace file as a patrol observes it. `pathId` is the name its path suggests. */
  datatype Observed = Observed(path: string, pathId: string, parsed: Option<Workspace>, mtime: Option<int>, busyFile: bool)

  datatype State = Active | IdleDue | Busy | NotConfigured | InvalidConfig | NotRunning

  datatype Status = Status(id: string, state: State, blocks: bool, reason: string,
                           actionEnabled: bool, lastActivity: Option<int>, timeout: Option<int>, busy: bool, deadline: Option<int>)

  datatype Candidate = Candidate(id: string, eligibleAt: int)

  datatype Evaluation = Evaluation(statuses: seq<Status>, workspace: Option<Workspace>, candidate: Option<Candidate>, reason: string)

  function ActionEnabled(w: Workspace, fallback: string): bool
  {
    var action := if w.action != "" then w.action else fallback;
    |w.shutdown| > 0 && action != SHUTDOWN_ACTION_NONE
  }

  function MaxTime(first: int, second: int): int { if second > first then second else first }

  /** The workspace may be stopped when idle for `t`: a positive duration, twenty minutes unless it is set. */
  predicate AllowsTimeout(w: Workspace, t: int)
  {
    t > 0 && (w.timeout == Duration(t) || (w.timeout.Unset? && t == 20 * 60 * 1_000_000_000))
  }

  function WorkspaceTimeout(w: Workspace): (r: Option<int>)
    ensures forall t :: r == Some(t) <==> AllowsTimeout(w, t)
  {
    match w.timeout
    case Unset => Some(DEFAULT_INACTIVITY_TIMEOUT)
    case Malformed => None
    case Duration(nanos) => if nanos > 0 then Some(nanos) else None
  }

  function Blocked(id: string, state: State, reason: string): Status
  {
    Status(id, state, true, reason, false, None, None, false, None)
  }

  /** Only a due workspace does not block. Every blocking one says why, and every other one has a deadline. */
  function Evaluate(o: Observed, heartbeat: int, fallback: string, now: int): (s: Status)
    ensures s.blocks <==> !Due(o, heartbeat, fallback, now)
    ensures s.blocks <==> s.reason != ""
    ensures !s.blocks ==> s.deadline.Some? && s.deadline.value <= now && Deadline(o, heartbeat, s.deadline.value)
    ensures !s.blocks ==> s.id == o.parsed.value.id
  {
    if o.parsed.None? then Blocked(o.pathId, InvalidConfig, "Workspace configuration is invalid")
    else
      var w := o.parsed.value;
      if o.mtime.None? then Blocked(w.id, NotRunning, "Workspace state is unavailable")
      else if !ActionEnabled(w, fallback) then Blocked(w.id, NotConfigured, "Auto-stop is not configured")
      else if WorkspaceTimeout(w).None? then
        Blocked(w.id, InvalidConfig, "Inactivity timeout must be a positive duration")
      else
        var activity := MaxTime(o.mtime.value, heartbeat);
        var timeout := WorkspaceTimeout(w).value;
        assert AllowsTimeout(w, timeout) && Deadline(o, heartbeat, activity + timeout);
        if o.busyFile then
          Status(w.id, Busy, true, "Workspace is busy", true, Some(activity), Some(timeout), true,
                 Some(activity + BUSY_GRACE_PERIOD + timeout))
        else if activity + timeout > now then
          Status(w.id, Active, true, "Waiting for inactivity deadline", true, Some(activity), Some(timeout), false,
                 Some(activity + timeout))
        else
          Status(w.id, IdleDue, false, "", true, Some(activity), Some(timeout), false, Some(activity + timeout))
  }

  /** `at` is a whole timeout after the last activity, of the workspace or of the machine. */
  ghost predicate Deadline(o: Observed, heartbeat: int, at: int)
  {
    && o.parsed.Some? && o.mtime.Some?
    && exists t :: && AllowsTimeout(o.parsed.value, t)
                   && o.mtime.value + t <= at && heartbeat + t <= at && at in {o.mtime.value + t, heartbeat + t}
  }

  /** Auto-stop is on: a command to run, and an action that is not `none`. */
  predicate AutoStop(w: Workspace, fallback: string)
  {
    w.shutdown != [] && (if w.action == "" then fallback else w.action) != "none"
  }

  /** A workspace that may be stopped: readable, auto-stop on, not busy and idle for its timeout. */
  ghost predicate Due(o: Observed, heartbeat: int, fallback: string, now: int)
  {
    && o.parsed.Some? && o.mtime.Some? && !o.busyFile && AutoStop(o.parsed.value, fallback)
    && exists at :: at <= now && Deadline(o, heartbeat, at)
  }

  /** What each state means, and that a busy workspace gets twenty minutes more. */
  lemma StateMeans(o: Observed, heartbeat: int, fallback: string, now: int)
    ensures var s := Evaluate(o, heartbeat, fallback, now);
            && (s.state == IdleDue <==> Due(o, heartbeat, fallback, now))
            && (s.state == NotRunning <==> o.parsed.Some? && o.mtime.None?)
            && (s.state == NotConfigured <==> o.parsed.Some? && o.mtime.Some? && !AutoStop(o.parsed.value, fallback))
            && (s.state == InvalidConfig <==>
                  o.parsed.None? || (o.mtime.Some? && AutoStop(o.parsed.value, fallback) && forall t :: !AllowsTimeout(o.parsed.value, t)))
            && (s.state == Busy ==> o.busyFile && s.deadline.Some? && Deadline(o, heartbeat, s.deadline.value - 20 * 60 * 1_000_000_000))
            && (s.state == Active ==> !o.busyFile && s.deadline.Some? && now < s.deadline.value && Deadline(o, heartbeat, s.deadline.value))
            && (s.id == if o.parsed.Some? then o.parsed.value.id else o.pathId)
  {
  }

  ghost predicate AllDue(observed: seq<Observed>, heartbeat: int, fallback: string, now: int)
  {
    observed != [] && forall o | o in observed :: Due(o, heartbeat, fallback, now)
  }

  ghost predicate StatusesOf(statuses: seq<Status>, observed: seq<Observed>, heartbeat: int, fallback: string, now: int)
  {
    |statuses| == |observed| && forall i | 0 <= i < |observed| :: statuses[i] == Evaluate(observed[i], heartbeat, fallback, now)
  }

  method EvaluateWorkspaces(observed: seq<Observed>, heartbeat: int, fallback: string, now: int) returns (statuses: seq<Status>)
    ensures StatusesOf(statuses, observed, heartbeat, fallback, now)
  {
    statuses := [];
    for i := 0 to |observed|
      invariant |statuses| == i
      invariant forall k | 0 <= k < i :: statuses[k] == Evaluate(observed[k], heartbeat, fallback, now)
    {
      statuses := statuses + [Evaluate(observed[i], heartbeat, fallback, now)];
    }
  }

  /** The first status that blocks gives the reason. */
  ghost predicate FirstBlocks(statuses: seq<Status>, reason: string)
  {
    exists i :: 0 <= i < |statuses| && statuses[i].blocks && statuses[i].reason == reason
                && forall k | 0 <= k < i :: !statuses[k].blocks
  }

  method FirstWorkspaceBlocker(statuses: seq<Status>) returns (reason: string)
    ensures (forall s | s in statuses :: !s.blocks) ==> reason == ""
    ensures (exists s | s in statuses :: s.blocks) ==> FirstBlocks(statuses, reason)
  {
    for i := 0 to |statuses|
      invariant forall k | 0 <= k < i :: !statuses[k].blocks
    {
      if statuses[i].blocks {
        return statuses[i].reason;
      }
    }
    return "";
  }

  /** `s` is selected before `t`: a later deadline, or the smaller ID at the same deadline. */
  predicate Beats(s: Status, t: Status)
    requires s.deadline.Some? && t.deadline.Some?
  {
    s.deadline.value > t.deadline.value || (s.deadline.value == t.deadline.value && Less(s.id, t.id))
  }

  lemma BeatsTransitive(s: Status, t: Status, u: Status)
    requires s.deadline.Some? && t.deadline.Some? && u.deadline.Some?
    ensures Beats(s, t) && !Beats(u, t) ==> !Beats(u, s)
  {
    if Beats(s, t) && Beats(u, s) && u.deadline.value == s.deadline.value == t.deadline.value {
      LessIsTransitive(u.id, s.id, t.id);
    }
  }

  ghost predicate Best(statuses: seq<Status>, c: Candidate)
  {
    && (forall s | s in statuses :: s.deadline.Some?)
    && (exists s | s in statuses :: s.id == c.id && s.deadline.value == c.eligibleAt)
    && forall s | s in statuses ::
         s.deadline.value < c.eligibleAt || (s.deadline.value == c.eligibleAt && (s.id == c.id || Less(c.id, s.id)))
  }

  method LatestEligibleWorkspace(statuses: seq<Status>) returns (selected: nat)
    requires statuses != [] && forall s | s in statuses :: s.deadline.Some?
    ensures selected < |statuses|
    ensures Best(statuses, Candidate(statuses[selected].id, statuses[selected].deadline.value))
  {
    selected := 0;
    for i := 0 to |statuses|
      invariant selected < |statuses| && (selected < i || selected == i == 0)
      invariant forall k | 0 <= k < i :: !Beats(statuses[k], statuses[selected])
    {
      if i == 0 || Beats(statuses[i], statuses[selected]) {
        forall k | 0 <= k < i
          ensures !Beats(statuses[k], statuses[i])
        {
          BeatsTransitive(statuses[i], statuses[selected], statuses[k]);
        }
        LessIsTotal(statuses[i].id, statuses[i].id);
        selected := i;
      }
    }
    forall s | s in statuses
      ensures Less(s.id, statuses[selected].id) || s.id == statuses[selected].id || Less(statuses[selected].id, s.id)
    {
      LessIsTotal(s.id, statuses[selected].id);
    }
  }

  /** The reported candidate is unique, so the order in which the files were listed does not matter. */
  lemma BestIsUnique(a: seq<Status>, b: seq<Status>, c: Candidate, d: Candidate)
    requires forall s :: s in a <==> s in b
    requires Best(a, c) && Best(b, d)
    ensures c == d
  {
    var s :| s in a && s.id == c.id && s.deadline.value == c.eligibleAt;
    var t :| t in b && t.id == d.id && t.deadline.value == d.eligibleAt;
    assert s in b && t in a;
    LessIsTotal(c.id, d.id);
  }

  /** The candidate has the latest deadline of all workspaces, and of several such the smallest ID. */
  ghost predicate LatestDeadline(observed: seq<Observed>, heartbeat: int, c: Candidate)
  {
    && (exists o | o in observed :: Deadline(o, heartbeat, c.eligibleAt) && o.parsed.value.id == c.id)
    && forall o, at | o in observed && Deadline(o, heartbeat, at) ::
         at < c.eligibleAt || (at == c.eligibleAt && (o.parsed.value.id == c.id || Less(c.id, o.parsed.value.id)))
  }

  lemma DeadlineIsUnique(o: Observed, heartbeat: int, a: int, b: int)
    requires Deadline(o, heartbeat, a) && Deadline(o, heartbeat, b)
    ensures a == b
  {
    var t :| AllowsTimeout(o.parsed.value, t) && o.mtime.value + t <= a && heartbeat + t <= a && a in {o.mtime.value + t, heartbeat + t};
    var u :| AllowsTimeout(o.parsed.value, u) && o.mtime.value + u <= b && heartbeat + u <= b && b in {o.mtime.value + u, heartbeat + u};
    assert WorkspaceTimeout(o.parsed.value) == Some(t) && WorkspaceTimeout(o.parsed.value) == Some(u);
  }

  lemma BestIsLatest(statuses: seq<Status>, observed: seq<Observed>, heartbeat: int, fallback: string, now: int, selected: nat)
    requires StatusesOf(statuses, observed, heartbeat, fallback, now) && selected < |statuses|
    requires forall s | s in statuses :: !s.blocks
    requires Best(statuses, Candidate(statuses[selected].id, statuses[selected].deadline.value))
    ensures LatestDeadline(observed, heartbeat, Candidate(statuses[selected].id, statuses[selected].deadline.value))
  {
    assert !statuses[selected].blocks && observed[selected] in observed;
    forall o, at | o in observed && Deadline(o, heartbeat, at)
      ensures exists s :: s in statuses && s.deadline == Some(at) && s.id == o.parsed.value.id
    {
      var i :| 0 <= i < |observed| && observed[i] == o;
      assert statuses[i] in statuses && !statuses[i].blocks;
      DeadlineIsUnique(o, heartbeat, at, statuses[i].deadline.value);
    }
  }

  method EvaluateMachineInactivity(observed: seq<Observed>, heartbeat: int, fallback: string, now: int) returns (e: Evaluation)
    ensures e.workspace.Some? <==> e.candidate.Some?
    ensures e.workspace.Some? <==> AllDue(observed, heartbeat, fallback, now)
    ensures StatusesOf(e.statuses, observed, heartbeat, fallback, now)
    ensures e.workspace.Some? ==> Best(e.statuses, e.candidate.value) && LatestDeadline(observed, heartbeat, e.candidate.value)
    ensures e.workspace.None? && observed != [] ==> FirstBlocks(e.statuses, e.reason)
    ensures e.workspace.Some? ==> e.workspace.value.id == e.candidate.value.id && (exists o | o in observed :: o.parsed == e.workspace)
  {
    var statuses := EvaluateWorkspaces(observed, heartbeat, fallback, now);
    var blocker := FirstWorkspaceBlocker(statuses);
    if blocker != "" {
      return Evaluation(statuses, None, None, blocker);
    }
    if |statuses| == 0 {
      return Evaluation(statuses, None, None, "no workspace state was discovered");
    }
    var selected := LatestEligibleWorkspace(statuses);
    assert Due(observed[selected], heartbeat, fallback, now);
    BestIsLatest(statuses, observed, heartbeat, fallback, now, selected);
    return Evaluation(statuses, observed[selected].parsed,
                      Some(Candidate(statuses[selected].id, statuses[selected].deadline.value)), "all workspaces are idle");
  }

  lemma StatusPersists(o: Observed, heartbeat: int, fallback: string, now: int, later: int)
    requires Due(o, heartbeat, fallback, now) && now <= later
    ensures Due(o, heartbeat, fallback, later)
    ensures Evaluate(o, heartbeat, fallback, later) == Evaluate(o, heartbeat, fallback, now)
  {
  }

  lemma StatusesPersist(observed: seq<Observed>, relisted: seq<Observed>, heartbeat: int, fallback: string, now: int, later: int,
                        a: seq<Status>, b: seq<Status>, i: nat)
    requires AllDue(observed, heartbeat, fallback, now)
    requires now <= later || AllDue(observed, heartbeat, fallback, later)
    requires forall o | o in observed :: o in relisted
    requires StatusesOf(a, observed, heartbeat, fallback, now) && StatusesOf(b, relisted, heartbeat, fallback, later)
    requires i < |a|
    ensures a[i] in b && a[i].deadline.Some?
  {
    assert observed[i] in observed;
    var j :| 0 <= j < |relisted| && relisted[j] == observed[i];
    if now <= later {
      StatusPersists(observed[i], heartbeat, fallback, now, later);
    } else {
      StatusPersists(observed[i], heartbeat, fallback, later, now);
    }
    assert b[j] == a[i];
  }

  /**
   * With no new activity a machine that is due stays due, and the reported candidate is the same
   * whenever the patrol runs and in whatever order it lists the workspaces.
   */
  lemma EligibilityPersists(observed: seq<Observed>, relisted: seq<Observed>, heartbeat: int, fallback: string, now: int, later: int,
                            a: seq<Status>, b: seq<Status>, c: Candidate, d: Candidate)
    requires AllDue(observed, heartbeat, fallback, now) && now <= later
    requires forall o :: o in observed <==> o in relisted
    requires StatusesOf(a, observed, heartbeat, fallback, now) && StatusesOf(b, relisted, heartbeat, fallback, later)
    ensures AllDue(relisted, heartbeat, fallback, later)
    ensures Best(a, c) && Best(b, d) ==> c == d
  {
    assert observed[0] in relisted;
    forall o | o in relisted
      ensures Due(o, heartbeat, fallback, later)
    {
      StatusPersists(o, heartbeat, fallback, now, later);
    }
    forall i | 0 <= i < |a|
      ensures a[i] in b && a[i].deadline.Some?
    {
      StatusesPersist(observed, relisted, heartbeat, fallback, now, later, a, b, i);
    }
    forall i | 0 <= i < |b|
      ensures b[i] in a && b[i].deadline.Some?
    {
      StatusesPersist(relisted, observed, heartbeat, fallback, later, now, b, a, i);
    }
    if Best(a, c) && Best(b, d) {
      BestIsUnique(a, b, c, d);
    }
  }
}
