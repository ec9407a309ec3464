/** The life of one session's GPG agent tunnel: its forwarding loops, notices and readiness signal. */
module GpgTunnels {
  import opened Basics

  /** What an observer sees of a session. `Bound` lists the port mappings of one successful start. */
  datatype Event = Live | Notice | Ready | Wrapped | Bound(mappings: seq<string>)

  /** A managed forwarding loop. Its listener closes when it exits. */
  datatype Loop = Loop(listener: nat, running: bool, cancelled: bool)

  // ----- Event logs -----

  /** A failure was reported and the tunnel has not been seen live since. */
  predicate Reported(events: seq<Event>)
  {
    if events == [] then false
    else
      match events[|events| - 1]
      case Notice => true
      case Live => false
      case _ => Reported(events[..|events| - 1])
  }

  ghost predicate Alternates(events: seq<Event>)
  {
    events != [] ==>
      && Alternates(events[..|events| - 1])
      && (events[|events| - 1] == Notice ==> !Reported(events[..|events| - 1]))
  }

  /** Some `Live` lies strictly between i and j. */
  ghost predicate LiveBetween(events: seq<Event>, i: int, j: int)
  {
    exists k | i < k < j && 0 <= k < |events| :: events[k] == Live
  }

  lemma {:induction false} UnreportedSinceNotice(events: seq<Event>, i: nat)
    requires i < |events| && events[i] == Notice && !Reported(events)
    ensures LiveBetween(events, i, |events|)
  {
    var last := |events| - 1;
    if events[last] != Live {
      UnreportedSinceNotice(events[..last], i);
      var k :| i < k < last && events[..last][k] == Live;
      assert events[k] == Live;
    }
  }

  /** Two notices always have a live tunnel between them. */
  lemma {:induction false} NoticesAreSeparated(events: seq<Event>, i: nat, j: nat)
    requires Alternates(events) && i < j < |events| && events[i] == events[j] == Notice
    ensures LiveBetween(events, i, j)
  {
    var before := events[..|events| - 1];
    if j == |events| - 1 {
      UnreportedSinceNotice(before, i);
      var k :| i < k < |before| && before[k] == Live;
      assert events[k] == Live;
    } else {
      NoticesAreSeparated(before, i, j);
      var k :| i < k < j && before[k] == Live;
      assert events[k] == Live;
    }
  }

  function Count(events: seq<Event>, e: Event): nat
  {
    if events == [] then 0
    else Count(events[..|events| - 1], e) + if events[|events| - 1] == e then 1 else 0
  }

  /** How often a mapping beyond the agent socket was bound. */
  function UserBinds(events: seq<Event>): nat
  {
    if events == [] then 0
    else
      var last := events[|events| - 1];
      UserBinds(events[..|events| - 1]) + if last.Bound? && |last.mappings| > 1 then 1 else 0
  }

  lemma Appended(events: seq<Event>, e: Event)
    ensures Reported(events + [e]) == (e == Notice || (e != Live && Reported(events)))
    ensures Alternates(events) && (e == Notice ==> !Reported(events)) ==> Alternates(events + [e])
    ensures forall x :: Count(events + [e], x) == Count(events, x) + if e == x then 1 else 0
    ensures UserBinds(events + [e]) == UserBinds(events) + if e.Bound? && |e.mappings| > 1 then 1 else 0
  {
    assert (events + [e])[..|events|] == events;
  }

  // ----- The tunnel -----

  class GpgTunnel {
    const enabled: bool
    const socketMapping: string
    const userMappings: seq<string>

    var forward: Option<nat>
    var userReverseForwardsStarted: bool
    var failureReported: bool
    var readySignaled: bool
    var readyFile: bool

    /** The session's managed loops in the order they were started, and its open listeners. */
    var loops: seq<Loop>
    var listeners: map<nat, string>
    var nextListener: nat
    var events: seq<Event>
    /** How many steps of a setup or of a signal failed. */
    ghost var faults: nat

    /** At most one managed loop runs without being cancelled, and it is the one that is owned. */
    ghost predicate OwnsItsLoop()
      reads this
    {
      && (forward.Some? ==> forward.value < |loops| && !loops[forward.value].cancelled)
      && (forall i | 0 <= i < |loops| && loops[i].running && !loops[i].cancelled :: forward == Some(i))
      && (forall i | 0 <= i < |loops| :: loops[i].running <==> loops[i].listener in listeners)
      && (forall i | 0 <= i < |loops| :: loops[i].listener < nextListener)
      && (forall i, j | 0 <= i < j < |loops| :: loops[i].listener != loops[j].listener)
      && forall id | id in listeners :: id < nextListener
    }

    ghost predicate LogMatches()
      reads this
    {
      && Alternates(events) && Reported(events) == failureReported
      && Count(events, Ready) == (if readySignaled then 1 else 0)
      && Count(events, Wrapped) == (if readySignaled || readyFile then 1 else 0)
      && !(readySignaled && readyFile)
      && UserBinds(events) == (if userReverseForwardsStarted && userMappings != [] then 1 else 0)
    }

    ghost predicate Valid()
      reads this
    {
      OwnsItsLoop() && LogMatches()
    }

    constructor (on: bool, socket: string, users: seq<string>)
      ensures Valid() && events == [] && forward.None? && loops == [] && listeners == map[]
      ensures enabled == on && socketMapping == socket && userMappings == users
    {
      enabled, socketMapping, userMappings := on, socket, users;
      forward, userReverseForwardsStarted, failureReported, readySignaled, readyFile := None, false, false, false, false;
      loops, listeners, nextListener, events, faults := [], map[], 0, [], 0;
    }

    method Emit(e: Event)
      modifies this`events
      ensures events == old(events) + [e]
      ensures Reported(events) == (e == Notice || (e != Live && Reported(old(events))))
      ensures Alternates(old(events)) && (e == Notice ==> !Reported(old(events))) ==> Alternates(events)
      ensures forall x :: Count(events, x) == Count(old(events), x) + if e == x then 1 else 0
      ensures UserBinds(events) == UserBinds(old(events)) + if e.Bound? && |e.mappings| > 1 then 1 else 0
    {
      Appended(events, e);
      events := events + [e];
    }

    /** Time passes: any loops may exit, and any other listeners may close. */
    method Elapse()
      requires Valid()
      modifies this`loops, this`listeners
      ensures Valid() && |loops| == |old(loops)|
      ensures forall i | 0 <= i < |loops| :: loops[i] == old(loops)[i] || loops[i] == old(loops)[i].(running := false)
    {
      var gone: set<nat> := *;
      var was := loops;
      loops := seq(|was|, i requires 0 <= i < |was| =>
        if was[i].listener in gone then was[i].(running := false) else was[i]);
      listeners := listeners - gone;
    }

    /** A listener for each mapping, or none at all. */
    method BindReverseForwards(mappings: seq<string>) returns (bound: Option<seq<nat>>)
      requires forall id | id in listeners :: id < nextListener
      modifies this`listeners, this`nextListener, this`faults
      ensures faults == old(faults) + (if bound.Some? then 0 else 1)
      ensures forall id | id in listeners :: id < nextListener
      ensures old(nextListener) <= nextListener
      ensures bound.None? ==> listeners == old(listeners)
      ensures bound.Some? ==> Binds(old(listeners), bound.value, mappings, listeners)
      ensures bound.Some? ==> forall id | id in bound.value :: old(nextListener) <= id
    {
      var ids: seq<nat> := [];
      ghost var before := listeners;
      for k := 0 to |mappings|
        invariant faults == old(faults)
        invariant old(nextListener) <= nextListener && forall id | id in listeners :: id < nextListener
        invariant Binds(before, ids, mappings[..k], listeners) && forall id | id in ids :: old(nextListener) <= id
      {
        // The mapping may not parse, and its address may not be free.
        var able: bool := *;
        if !able {
          faults := faults + 1;
          listeners := listeners - (set x | x in ids);
          return None;
        }
        assert mappings[..k + 1] == mappings[..k] + [mappings[k]];
        BindsOneMore(before, ids, mappings[..k], listeners, nextListener, mappings[k]);
        ids, listeners, nextListener := ids + [nextListener], listeners[nextListener := mappings[k]], nextListener + 1;
      }
      assert mappings[..|mappings|] == mappings;
      return Some(ids);
    }

    /** Starts a loop for every mapping, the first of which is managed. */
    method StartReverseForwards(mappings: seq<string>) returns (started: Option<nat>)
      requires Valid() && forward.None? && mappings != []
      modifies this`listeners, this`nextListener, this`loops, this`faults
      ensures faults == old(faults) + (if started.Some? then 0 else 1)
      ensures started.None? ==> Valid() && loops == old(loops) && listeners == old(listeners)
      ensures started.Some? ==> |loops| == |old(loops)| + 1 && old(loops) <= loops && started.value == |old(loops)|
      ensures started.Some? ==> loops[started.value].running && !loops[started.value].cancelled
      ensures started.Some? ==> exists ids :: Binds(old(listeners), ids, mappings, listeners) && ids[0] == loops[started.value].listener
      ensures (forall i | 0 <= i < |loops| :: loops[i].running <==> loops[i].listener in listeners)
      ensures (forall i | 0 <= i < |loops| :: loops[i].listener < nextListener)
      ensures (forall i, j | 0 <= i < j < |loops| :: loops[i].listener != loops[j].listener)
      ensures forall id | id in listeners :: id < nextListener
    {
      var timeoutIsValid: bool := *;
      if !timeoutIsValid {
        faults := faults + 1;
        return None;
      }
      var bound := BindReverseForwards(mappings);
      if bound.None? {
        return None;
      }
      assert bound.value[0] in bound.value;
      assert forall id | id in old(listeners) :: id in listeners by { BindsKeepsOld(old(listeners), bound.value, mappings, listeners); }
      assert forall id | id in listeners && id !in bound.value :: id in old(listeners) by { BindsKeepsOld(old(listeners), bound.value, mappings, listeners); }
      started := Some(|loops|);
      loops := loops + [Loop(bound.value[0], true, false)];
    }

    /** Whether the owned loop still runs. An exited one is forgotten. */
    method ReconcileForward() returns (alive: bool)
      requires Valid()
      modifies this`forward
      ensures Valid() && alive == forward.Some? && (alive ==> forward == old(forward) && loops[forward.value].running)
      ensures old(forward).None? ==> forward.None?
    {
      if forward.None? {
        return false;
      }
      if !loops[forward.value].running {
        forward := None;
        return false;
      }
      return true;
    }

    method EnsureForwardBound() returns (ok: bool)
      requires Valid()
      modifies this`forward, this`loops, this`listeners, this`nextListener, this`userReverseForwardsStarted, this`events, this`faults
      ensures Valid() && (ok ==> forward.Some? && loops[forward.value].running)
      ensures |old(loops)| <= |loops| && Keeps(old(events), events)
      ensures faults == old(faults) + (if ok then 0 else 1)
      ensures old(forward).Some? && old(loops[forward.value].running) ==> ok && loops == old(loops) && events == old(events)
      ensures ok && (old(forward).None? || !old(loops[forward.value].running)) ==>
                events == old(events) + [Bound([socketMapping] + if old(userReverseForwardsStarted) then [] else userMappings)]
      ensures !ok ==> loops == old(loops) && listeners == old(listeners) && events == old(events)
    {
      var alive := ReconcileForward();
      if alive {
        return true;
      }
      var mappings := [socketMapping] + if userReverseForwardsStarted then [] else userMappings;
      var started := StartReverseForwards(mappings);
      if started.None? {
        return false;
      }
      Adopt(started.value, mappings);
      return true;
    }

    /** The tunnel takes over the loop it started. */
    method Adopt(started: nat, mappings: seq<string>)
      requires LogMatches() && forward.None? && started < |loops| && !loops[started].cancelled
      requires mappings == [socketMapping] + if userReverseForwardsStarted then [] else userMappings
      requires forall i | 0 <= i < |loops| && loops[i].running && !loops[i].cancelled :: i == started
      requires forall i | 0 <= i < |loops| :: (loops[i].running <==> loops[i].listener in listeners) && loops[i].listener < nextListener
      requires forall i, j | 0 <= i < j < |loops| :: loops[i].listener != loops[j].listener
      requires forall id | id in listeners :: id < nextListener
      modifies this`forward, this`userReverseForwardsStarted, this`events
      ensures Valid() && forward == Some(started) && events == old(events) + [Bound(mappings)]
    {
      Emit(Bound(mappings));
      forward := Some(started);
      userReverseForwardsStarted := true;
    }

    method Setup() returns (ok: bool)
      requires Valid()
      modifies this`forward, this`loops, this`listeners, this`nextListener, this`userReverseForwardsStarted, this`events, this`faults
      ensures Valid() && |old(loops)| <= |loops| && Keeps(old(events), events)
      ensures faults == old(faults) + (if ok then 0 else 1)
      ensures ok ==> forward.Some? && loops[forward.value].running
    {
      // The agent socket is detected and the command is built before anything is bound.
      var prepared: bool := *;
      if !prepared {
        faults := faults + 1;
        return false;
      }
      ok := EnsureForwardBound();
      if !ok {
        return false;
      }
      // The remote setup command may fail.
      ok := *;
      faults := faults + (if ok then 0 else 1);
    }

    method SeeLive()
      requires Valid()
      modifies this`failureReported, this`events
      ensures Valid() && !failureReported && events == old(events) + [Live]
    {
      Emit(Live);
      failureReported := false;
    }

    method Announce()
      requires Valid() && !failureReported
      modifies this`failureReported, this`events
      ensures Valid() && failureReported && events == old(events) + [Notice]
    {
      failureReported := true;
      Emit(Notice);
    }

    /**
     Reports whether the tunnel is live: it was running before the setup, the setup succeeded, or another
     terminal has it running `after` a failed setup. A failure is announced once until the tunnel is live
     again, and not at all when the session is being cancelled.
     */
    method EnsureTunnel(running: bool, after: bool, cancelled: bool) returns (live: bool)
      requires Valid()
      modifies this`forward, this`loops, this`listeners, this`nextListener, this`userReverseForwardsStarted, this`failureReported, this`events, this`faults
      ensures Valid() && faults >= old(faults)
      ensures live <==> running || after || faults == old(faults)
      ensures running ==> events == old(events) + [Live] && loops == old(loops) && faults == old(faults)
      ensures live ==> !failureReported && events != [] && events[|events| - 1] == Live
      ensures Count(events, Live) == Count(old(events), Live) + (if live then 1 else 0)
      ensures live ==> Count(events, Notice) == Count(old(events), Notice)
      ensures live && !running && !after ==> forward.Some? && loops[forward.value].running
      ensures !live && (cancelled || old(failureReported)) ==> failureReported == old(failureReported) && Keeps(old(events), events)
      ensures !live && !cancelled && !old(failureReported) ==> failureReported && events[|events| - 1] == Notice
    {
      if running {
        SeeLive();
        return true;
      }
      var ok := Setup();
      if ok {
        SeeLive();
        return true;
      }
      if after {
        SeeLive();
        return true;
      }
      if cancelled || failureReported {
        return false;
      }
      Announce();
      return false;
    }

    method SignalReadyOnce()
      requires Valid()
      modifies this`readySignaled, this`readyFile, this`events, this`faults
      ensures faults >= old(faults) && (readySignaled <==> faults == old(faults))
      ensures Valid() && (old(readySignaled) ==> readySignaled && events == old(events))
      ensures Count(events, Live) == Count(old(events), Live) && Count(events, Notice) == Count(old(events), Notice)
    {
      if readySignaled {
        return;
      }
      readySignaled := SignalReady();
    }

    method SignalReady() returns (ok: bool)
      requires Valid() && !readySignaled
      modifies this`readyFile, this`events, this`faults
      ensures faults == old(faults) + (if ok then 0 else 1)
      ensures OwnsItsLoop() && Alternates(events) && Reported(events) == failureReported
      ensures Count(events, Ready) == (if ok then 1 else 0) && !(ok && readyFile)
      ensures Count(events, Wrapped) == (if ok || readyFile then 1 else 0)
      ensures UserBinds(events) == UserBinds(old(events))
      ensures Count(events, Live) == Count(old(events), Live) && Count(events, Notice) == Count(old(events), Notice)
    {
      var known, isOpen, written: bool := *, *, *;
      if !known {
        faults := faults + 1;
        return false;
      }
      if !readyFile {
        if !isOpen {
          faults := faults + 1;
          return false;
        }
        readyFile := true;
        Emit(Wrapped);
      }
      if !written {
        // The descriptor may still work later, so it is kept.
        faults := faults + 1;
        return false;
      }
      Emit(Ready);
      readyFile := false;
      return true;
    }

    method StopForward()
      requires Valid()
      modifies this`forward, this`loops
      ensures Valid() && forward.None?
      ensures forall i | 0 <= i < |loops| :: loops[i].running ==> loops[i].cancelled
    {
      if forward.None? {
        return;
      }
      loops := loops[forward.value := loops[forward.value].(cancelled := true)];
      forward := None;
    }

    /** One check of the tunnel, and the readiness signal once it is live. */
    method Check(running: bool, after: bool, cancelled: bool) returns (live: bool)
      requires Valid()
      modifies this
      ensures Valid() && faults >= old(faults)
      ensures Count(events, Live) == Count(old(events), Live) + (if live then 1 else 0)
      ensures live ==> Count(events, Notice) == Count(old(events), Notice)
      ensures faults == old(faults) ==> live && readySignaled
      ensures live ==> readySignaled || faults > old(faults)
    {
      live := EnsureTunnel(running, after, cancelled);
      if live {
        SignalReadyOnce();
      }
    }

    /**
     A whole session: the first setup, `ticks` health checks, and the stop. Without failures every check
     finds the tunnel live, readiness is signalled, and nothing is announced.
     */
    method RunTunnel(ticks: nat)
      requires Valid()
      modifies this
      ensures Valid()
      ensures forall i | 0 <= i < |loops| :: loops[i].running ==> loops[i].cancelled
      ensures forall i, j | 0 <= i < j < |events| && events[i] == events[j] == Notice :: LiveBetween(events, i, j)
      ensures Count(events, Ready) <= 1 && Count(events, Wrapped) <= 1 && UserBinds(events) <= 1
      ensures !enabled ==> events == old(events)
      ensures enabled && faults == old(faults) ==>
                && readySignaled && Count(events, Ready) == 1
                && Count(events, Live) == Count(old(events), Live) + 1 + ticks && Count(events, Notice) == Count(old(events), Notice)
    {
      if enabled {
        Checks(ticks);
      }
      StopForward();
      forall i, j | 0 <= i < j < |events| && events[i] == events[j] == Notice
        ensures LiveBetween(events, i, j)
      {
        NoticesAreSeparated(events, i, j);
      }
    }

    method Checks(ticks: nat)
      requires Valid()
      modifies this
      ensures Valid() && faults >= old(faults)
      ensures faults == old(faults) ==>
                readySignaled && Count(events, Live) == Count(old(events), Live) + 1 + ticks && Count(events, Notice) == Count(old(events), Notice)
    {
      var running, after, cancelled: bool := *, *, *;
      var live := Check(running, after, cancelled);
      for n := 0 to ticks
        invariant Valid() && faults >= old(faults)
        invariant faults == old(faults) ==>
                    readySignaled && Count(events, Live) == Count(old(events), Live) + 1 + n && Count(events, Notice) == Count(old(events), Notice)
      {
        Elapse();
        running, after, cancelled := *, *, *;
        live := Check(running, after, cancelled);
      }
    }
  }

  /** Binding adds to the log nothing that concerns notices or readiness. */
  ghost predicate Keeps(before: seq<Event>, after: seq<Event>)
  {
    before == after || (|after| == |before| + 1 && before == after[..|before|] && after[|before|].Bound?)
  }

  /** `ids` were opened for `mappings` and are all that is new. */
  ghost predicate Binds(before: map<nat, string>, ids: seq<nat>, mappings: seq<string>, after: map<nat, string>)
  {
    && |ids| == |mappings|
    && (forall k | 0 <= k < |ids| :: ids[k] in after && ids[k] !in before && after[ids[k]] == mappings[k])
    && (forall j, k | 0 <= j < k < |ids| :: ids[j] != ids[k])
    && after - (set x | x in ids) == before
  }

  lemma BindsOneMore(before: map<nat, string>, ids: seq<nat>, mappings: seq<string>, after: map<nat, string>, id: nat, mapping: string)
    requires Binds(before, ids, mappings, after) && id !in after && id !in before
    ensures Binds(before, ids + [id], mappings + [mapping], after[id := mapping])
  {
    var more := ids + [id];
    assert (set x | x in more) == (set x | x in ids) + {id};
    assert after[id := mapping] - (set x | x in more) == before;
  }

  lemma BindsKeepsOld(before: map<nat, string>, ids: seq<nat>, mappings: seq<string>, after: map<nat, string>)
    requires Binds(before, ids, mappings, after)
    ensures forall id :: id in after <==> id in before || id in ids
  {
    forall id | id in after && id !in ids
      ensures id in before
    {
      assert id in after - (set x | x in ids);
    }
    forall id | id in before
      ensures id in after
    {
      assert id in after - (set x | x in ids);
    }
  }
}
