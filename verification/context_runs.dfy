/** The delete command, and everything any sequence of its runs and crashes can leave behind. */
module ContextRuns {
  import opened Basics
  import opened SecretRefs
  import opened ContextStores
  import opened ContextDeletionSpec
  import opened ContextSnapshot
  import opened ContextDeletion
  import opened ContextRecovery

  // ----- The command -----

  function Target(cfg: Config, contextName: string): string
  {
    if contextName == "" then cfg.defaultContext else contextName
  }

  /** The context is registered, is not `default`, and all its bindings can be read. */
  predicate Deletable(d: Durable, cfg: Config, contextName: string)
  {
    var target := Target(cfg, contextName);
    && target in cfg.contexts && target != DEFAULT_CONTEXT
    && forall b :: b in cfg.contexts[target].secrets ==> Readable(d, target, b)
  }

  predicate OwnersRecorded(d: Durable, cfg: Config, contextName: string)
  {
    var target := Target(cfg, contextName);
    target in cfg.contexts ==> forall b :: b in cfg.contexts[target].secrets ==> OwnerRecorded(d, target, b)
  }

  /** What a fresh deletion reports: a refusal that changes nothing, or what its operations reported. */
  ghost predicate Outcome(before: Durable, cfg: Config, i: Intent, d: Durable, errors: seq<Error>, r: Option<Error>)
  {
    if i.context !in cfg.contexts || i.context == DEFAULT_CONTEXT then errors == [] && r == Some(StoreError({})) && d == before
    else Told(before, i, d, errors, r) || Unparsable(before, cfg.contexts[i.context].secrets, d, errors, r)
  }

  /** A fresh deletion: `default` and unregistered contexts are refused before anything is opened. */
  method DeleteRegisteredContext(s: Stores, cfg: Config, contextName: string) returns (r: Option<Error>, ghost i: Intent, ghost errors: seq<Error>)
    requires s.disk.intent == None && cfg == Load(s.disk.config)
    modifies s
    ensures StaysSafe(s, old(s.disk), i)
    ensures i.context == if contextName == "" then cfg.defaultContext else contextName
    ensures s.raised == old(s.raised) + errors && Outcome(old(s.disk), cfg, i, s.disk, errors, r)
    ensures r.None? ==> s.disk.intent == None && AllGone(old(s.disk), i, s.disk)
    ensures r.Some? && !Matches(r.value, DeletionPending) ==> s.disk.intent == None && AllOriginal(old(s.disk), s.disk)
    ensures s.disk.intent.Some? ==> r.Some? && Matches(r.value, DeletionPending)
    ensures r.None? ==> Deletable(old(s.disk), cfg, contextName)
    ensures s.faults == old(s.faults) && OwnersRecorded(old(s.disk), cfg, contextName) ==>
              (r.None? <==> Deletable(old(s.disk), cfg, contextName))
  {
    var target := if contextName == "" then cfg.defaultContext else contextName;
    i, errors := Intent(target, EMPTY_CONTEXT, [], []), [];
    if target !in cfg.contexts || target == DEFAULT_CONTEXT { return Some(StoreError({})), i, errors; }
    r, errors := OpenRequest(s, cfg, target);
    if r.Some? { return; }
    r, i, errors := DeleteContextValues(s, cfg, target);
  }

  /** Opens the stores of a deletion: the environment store, and the secret store if anything is bound. */
  method OpenRequest(s: Stores, cfg: Config, target: string) returns (r: Option<Error>, ghost errors: seq<Error>)
    requires target in cfg.contexts
    modifies s
    ensures s.disk == old(s.disk) && old(s.history) <= s.history
    ensures forall n :: |old(s.history)| <= n < |s.history| ==> s.history[n] == s.disk
    ensures s.Counted(errors)
    ensures match r case None => errors == [] case Some(e) => |errors| == 1 && Plain(e, errors[0])
  {
    var e := s.OpenStores();
    if e.Some? { return Some(CleanupError("environment store is unavailable", e.value, None, false)), [e.value]; }
    if cfg.contexts[target].secrets != [] {
      e := s.OpenStores();
      if e.Some? { return Some(CleanupError("secret store is unavailable", e.value, None, false)), [e.value]; }
    }
    return None, [];
  }

  /** The states a run passed through, from the one it started in to the one it ended in. */
  ghost function Visited(pre: Durable, history: seq<Durable>, from: nat, d: Durable): seq<Durable>
    requires from <= |history|
  {
    [pre] + history[from..] + [d]
  }

  /**
   What one run of the command promises: from a state without an intent, a deletion of its own;
   from a state with one, the completion of that deletion and no other.
   */
  ghost predicate RunOk(pre: Durable, before: Durable, i: Intent, states: seq<Durable>)
  {
    match pre.intent
    case None => AllSafe(pre, i, states)
    case Some(p) => p == i && (CrashSafe(before, i, pre) ==> AllSafe(before, i, states) && Descending(Trail(i, states)))
  }

  predicate Admitted(d: Durable, contextName: string)
  {
    d.intent.Some? ==> contextName != "" && contextName == d.intent.value.context
  }

  /** Takes the config lock, which a pending deletion grants only to its own target, and loads. */
  method LockAndLoad(s: Stores, contextName: string) returns (r: Result<Config, Error>, intent: Option<Intent>)
    modifies s
    ensures s.disk == old(s.disk) && old(s.history) <= s.history
    ensures forall n :: |old(s.history)| <= n < |s.history| ==> s.history[n] == s.disk
    ensures r.Ok? ==> r.value == Load(s.disk.config) && intent == s.disk.intent && |s.history| == |old(s.history)| + 3
    ensures s.disk.intent.Some? && contextName != s.disk.intent.value.context ==> r.Err?
    ensures s.disk.intent.Some? && contextName == "" ==> r.Err?
    ensures s.faults == old(s.faults) ==> (r.Ok? <==> Admitted(s.disk, contextName))
    ensures r.Ok? ==> s.faults == old(s.faults)
    ensures s.raised == old(s.raised) + (if s.faults == old(s.faults) then [] else [r.error])
    ensures s.faults == old(s.faults) || (s.faults == old(s.faults) + 1 && r.Err?)
  {
    var locked := s.ReadIntent();
    if locked.Err? { return Err(locked.error), None; }
    if locked.value.Some? && (contextName == "" || contextName != locked.value.value.context) {
      return Err(RecoveryError(StoreError({}))), None;
    }
    var cfg := s.LoadConfig();
    if cfg.Err? { return cfg, None; }
    var again := s.ReadIntent();
    if again.Err? { return Err(again.error), None; }
    return cfg, again.value;
  }

  /** A deletion either could not be started, or reports its outcome. */
  ghost predicate FreshOutcome(before: Durable, contextName: string, i: Intent, d: Durable, errors: seq<Error>, r: Option<Error>)
  {
    || (|errors| == 1 && r == Some(errors[0]) && d == before)
    || (i.context == Target(Load(before.config), contextName) && Outcome(before, Load(before.config), i, d, errors, r))
  }

  method Run(s: Stores, contextName: string, ghost before: Durable) returns (r: Option<Error>, ghost i: Intent, ghost errors: seq<Error>)
    modifies s
    ensures old(s.disk).intent == None ==>
              s.raised == old(s.raised) + errors && FreshOutcome(old(s.disk), contextName, i, s.disk, errors, r)
    ensures old(s.history) <= s.history
    ensures RunOk(old(s.disk), before, i, Visited(old(s.disk), s.history, |old(s.history)|, s.disk))
    ensures old(s.disk).intent == None && r.None? ==> s.disk.intent == None && AllGone(old(s.disk), i, s.disk)
    ensures old(s.disk).intent == None && r.Some? && !Matches(r.value, DeletionPending) ==>
              s.disk.intent == None && AllOriginal(old(s.disk), s.disk)
    ensures old(s.disk).intent == None && s.disk.intent.Some? ==> r.Some? && Matches(r.value, DeletionPending)
    ensures old(s.disk).intent.Some? && contextName != old(s.disk).intent.value.context ==> r.Some? && s.disk == old(s.disk)
    ensures old(s.disk).intent == Some(i) && CrashSafe(before, i, old(s.disk)) && r.None? ==> AllGone(before, i, s.disk) && s.disk.intent == None
    ensures s.faults == old(s.faults) && old(s.disk).intent == None && OwnersRecorded(old(s.disk), Load(old(s.disk).config), contextName) ==>
              (r.None? <==> Deletable(old(s.disk), Load(old(s.disk).config), contextName))
    ensures s.faults == old(s.faults) && old(s.disk).intent == Some(i) && CrashSafe(before, i, old(s.disk)) ==>
              Admitted(old(s.disk), contextName) ==> r.None?
  {
    i := if s.disk.intent.Some? then s.disk.intent.value else Intent("", EMPTY_CONTEXT, [], []);
    ghost var pre, from := s.disk, |s.history|;
    UntouchedIsOriginal(pre);
    var loaded, intent := LockAndLoad(s, contextName);
    if loaded.Err? {
      StillRuns(pre, before, i, s.history, from);
      return Some(loaded.error), i, Errors(Some(loaded.error));
    }
    errors := [];
    ghost var h := s.history;
    if intent.Some? {
      r, errors := ResumeContextDeletion(s, loaded.value, intent.value, before);
      if CrashSafe(before, i, pre) { ReadsThenRecovery(before, i, pre, h, from, s.history, s.disk); }
    } else {
      r, i, errors := DeleteRegisteredContext(s, loaded.value, contextName);
    }
  }

  lemma UntouchedIsOriginal(pre: Durable)
    ensures AllOriginal(pre, pre)
  {
    forall k ensures SecretIntact(pre, pre, k) { }
  }

  /** A run that only read anything keeps every promise. */
  lemma StillRuns(pre: Durable, before: Durable, i: Intent, history: seq<Durable>, from: nat)
    requires pre.intent.Some? ==> pre.intent.value == i
    requires from <= |history| && forall n :: from <= n < |history| ==> history[n] == pre
    ensures RunOk(pre, before, i, Visited(pre, history, from, pre))
  {
    UntouchedIsOriginal(pre);
    var v := Visited(pre, history, from, pre);
    assert forall n :: 0 <= n < |v| ==> v[n] == pre;
    assert forall n :: 0 <= n < |v| ==> Trail(i, v)[n] == Remaining(i, pre);
  }

  /** Reading the intent and the configuration first adds nothing to what recovery visits. */
  lemma ReadsThenRecovery(before: Durable, i: Intent, pre: Durable, h: seq<Durable>, from: nat, history: seq<Durable>, d: Durable)
    requires CrashSafe(before, i, pre)
    requires from + 3 == |h| && h[from..] == [pre, pre, pre] && h <= history
    requires OnTrack(before, i, pre, history, |h|, d)
    ensures AllSafe(before, i, Visited(pre, history, from, d)) && Descending(Trail(i, Visited(pre, history, from, d)))
  {
    var v, w := Visited(pre, history, from, d), [pre] + history[|h|..];
    assert forall n :: 3 <= n < |v| - 1 ==> v[n] == w[n - 3];
    assert forall n :: 0 <= n <= 3 ==> v[n] == pre;
    DelayedDescends(i, pre, v, w);
  }

  lemma DelayedDescends(i: Intent, pre: Durable, v: seq<Durable>, w: seq<Durable>)
    requires |v| == |w| + 4 && |w| > 0 && Descending(Trail(i, w)) && v[|v| - 1] == w[|w| - 1]
    requires (forall n :: 3 <= n < |v| - 1 ==> v[n] == w[n - 3]) && forall n :: 0 <= n <= 3 ==> v[n] == pre
    ensures Descending(Trail(i, v))
  {
    forall n | 0 < n < |v| ensures Trail(i, v)[n] <= Trail(i, v)[n - 1] {
      if 3 < n < |v| - 1 { assert Trail(i, w)[n - 3] <= Trail(i, w)[n - 4]; }
    }
  }

  // ----- All runs -----

  /** The deletion a durable state belongs to: the state it began in and the intent it records. */
  datatype Deletion = Deletion(before: Durable, intent: Intent)

  datatype World = World(disk: Durable, current: Option<Deletion>)

  /** The delete command ran until it returned, or until a crash at any of the states it visited. */
  ghost predicate DeleteRan(w: World, states: seq<Durable>, w': World)
  {
    && states != [] && states[0] == w.disk && w'.disk in states
    && match w.disk.intent
       case None => w'.current.Some? && w'.current.value.before == w.disk && RunOk(w.disk, w.disk, w'.current.value.intent, states)
       case Some(p) => w'.current == w.current && w.current.Some? && RunOk(w.disk, w.current.value.before, p, states)
  }

  /** Any other command: admitted only without an intent, and it starts a new epoch. */
  ghost predicate OtherRan(w: World, w': World)
  {
    w.disk.intent == None && w'.disk.intent == None && w'.current == None
  }

  ghost predicate Step(w: World, w': World)
  {
    OtherRan(w, w') || exists states :: DeleteRan(w, states, w')
  }

  ghost predicate WorldOk(w: World)
  {
    match w.current
    case None => w.disk.intent == None
    case Some(t) => CrashSafe(t.before, t.intent, w.disk)
  }

  lemma StepKeepsWorldOk(w: World, w': World)
    requires WorldOk(w) && Step(w, w')
    ensures WorldOk(w')
  {
    if !OtherRan(w, w') {
      var states :| DeleteRan(w, states, w');
      var n :| 0 <= n < |states| && states[n] == w'.disk;
      var t := w'.current.value;
      assert CrashSafe(t.before, t.intent, states[n]);
    }
  }

  /**
   The write-ahead guarantee over every run: any sequence of deletions, recoveries, crashes at any
   durable effect, and other commands. Without a durable intent the last deletion has changed
   nothing or has completely finished; with one, it is recoverable.
   */
  lemma {:induction false} NoIntentMeansAllOrNothing(run: seq<World>, n: nat)
    requires n < |run| && WorldOk(run[0])
    requires forall m :: 0 <= m < |run| - 1 ==> Step(run[m], run[m + 1])
    ensures WorldOk(run[n])
    ensures run[n].current.Some? && run[n].disk.intent == None ==>
              var t := run[n].current.value;
              AllOriginal(t.before, run[n].disk) || (IntentFor(t.before, t.intent) && AllGone(t.before, t.intent, run[n].disk))
  {
    if n > 0 {
      NoIntentMeansAllOrNothing(run, n - 1);
      StepKeepsWorldOk(run[n - 1], run[n]);
    }
  }

  /** What the deletion of a world has left to do. */
  ghost function Todo(w: World): set<Item>
  {
    if w.current.Some? then Remaining(w.current.value.intent, w.disk) else {}
  }

  lemma ResumeShrinks(w: World, w': World)
    requires WorldOk(w) && Step(w, w') && w.disk.intent.Some?
    ensures w'.current == w.current && Todo(w') <= Todo(w)
  {
    var states :| DeleteRan(w, states, w');
    var n :| 0 <= n < |states| && states[n] == w'.disk;
    LaterIsSmaller(Trail(w.current.value.intent, states), 0, n);
  }

  ghost predicate Linked(run: seq<World>, m: nat) { m + 1 < |run| ==> Step(run[m], run[m + 1]) }

  /**
   Across any number of crashes and resumes, while a deletion is pending nothing recorded comes back: the
   recorded secrets and values still present, the registration, the directory and the intent only shrink.
   */
  lemma {:induction false} PendingOnlyShrinks(run: seq<World>, a: nat, b: nat)
    requires a <= b < |run| && WorldOk(run[0])
    requires forall m: nat :: Linked(run, m)
    requires forall m :: a <= m < b ==> run[m].disk.intent.Some?
    ensures run[b].current == run[a].current
    ensures Todo(run[b]) <= Todo(run[a]) && |Todo(run[b])| <= |Todo(run[a])|
  {
    if a < b {
      PendingOnlyShrinks(run, a, b - 1);
      AlwaysOk(run, b - 1);
      assert Linked(run, b - 1);
      ResumeShrinks(run[b - 1], run[b]);
    }
    SubsetSize(Todo(run[b]), Todo(run[a]));
  }

  lemma AlwaysOk(run: seq<World>, n: nat)
    requires n < |run| && WorldOk(run[0])
    requires forall m: nat :: Linked(run, m)
    ensures WorldOk(run[n])
  {
    forall m | 0 <= m < |run| - 1
      ensures Step(run[m], run[m + 1])
    {
      assert Linked(run, m);
    }
    NoIntentMeansAllOrNothing(run, n);
  }

  // ----- The default context -----

  /** The persisted default names a registered context. */
  predicate DefaultNamed(c: Config)
  {
    c.defaultContext in c.contexts
  }

  /**
   A finished deletion leaves the persisted default naming a registered context exactly when that
   default was not the target or `default` is registered, to which it is reset otherwise.
   */
  lemma DefaultAfterDeletion(before: Durable, i: Intent, d: Durable)
    requires IntentFor(before, i) && AllGone(before, i, d)
    ensures DefaultNamed(d.config) <==> Load(before.config).defaultContext != i.context || DEFAULT_CONTEXT in before.config.contexts
  {
    var c := Load(before.config);
    assert d.config == Config(c.contexts - {i.context}, if c.defaultContext == i.context then DEFAULT_CONTEXT else c.defaultContext, "");
  }

  /** With only `foo` registered, deleting it leaves a default that only loading provides. */
  lemma DeletedOnlyContext()
    ensures var c := Config(map["foo" := EMPTY_CONTEXT], "foo", "");
            var left := Persisted(Unregister(Load(c), "foo"));
            DefaultNamed(c) && !DefaultNamed(left) && DefaultNamed(Load(left))
  {
    var c := Config(map["foo" := EMPTY_CONTEXT], "foo", "");
    assert Load(c) == c && Unregister(c, "foo").contexts == map[];
  }

  /** A default that was never registered is registered by the deletion of another context. */
  lemma UnregisteredDefaultIsSaved()
    ensures var c := Config(map["foo" := EMPTY_CONTEXT], "bar", "");
            var left := Persisted(Unregister(Load(c), "foo"));
            !DefaultNamed(c) && DEFAULT_CONTEXT !in c.contexts && DefaultNamed(left)
  {
    var c := Config(map["foo" := EMPTY_CONTEXT], "bar", "");
    assert "bar" in Unregister(Load(c), "foo").contexts;
  }

  /** `default` is registered and the persisted default names a registered context. */
  predicate DefaultRegistered(c: Config)
  {
    DefaultNamed(c) && DEFAULT_CONTEXT in c.contexts
  }

  /** No state a deletion can leave loses that, because `default` is never deleted. */
  lemma DefaultSurvives(before: Durable, i: Intent, d: Durable)
    requires DefaultRegistered(before.config) && CrashSafe(before, i, d)
    ensures DefaultRegistered(d.config)
  {
  }

  ghost predicate DefaultKept(w: World)
  {
    DefaultRegistered(w.disk.config) && (w.current.Some? ==> DefaultRegistered(w.current.value.before.config))
  }

  /** Nor does any sequence of deletions, crashes and recoveries, if the other commands keep it. */
  lemma {:induction false} DefaultAlwaysRegistered(run: seq<World>, n: nat)
    requires n < |run| && WorldOk(run[0]) && DefaultKept(run[0])
    requires forall m: nat :: Linked(run, m)
    requires forall m :: 0 <= m < |run| - 1 && OtherRan(run[m], run[m + 1]) ==> DefaultRegistered(run[m + 1].disk.config)
    ensures DefaultKept(run[n])
  {
    if n > 0 {
      DefaultAlwaysRegistered(run, n - 1);
      AlwaysOk(run, n - 1);
      assert Linked(run, n - 1);
      var w, w' := run[n - 1], run[n];
      StepKeepsWorldOk(w, w');
      if !OtherRan(w, w') { DefaultSurvives(w'.current.value.before, w'.current.value.intent, w'.disk); }
    }
  }

  // ----- The program itself -----

  /**
   Runs the delete command, which may be killed: the next command then starts in any one of the
   durable states that this one visited.
   */
  method DeleteOrCrash(s: Stores, contextName: string, ghost w: World) returns (ghost w': World)
    requires WorldOk(w) && w.disk == s.disk
    modifies s
    ensures Step(w, w') && WorldOk(w') && w'.disk == s.disk
  {
    var pre, from := s.disk, |s.history|;
    ghost var before := if pre.intent.Some? then w.current.value.before else pre;
    ghost var i, errors;
    var r;
    r, i, errors := Run(s, contextName, before);
    ghost var states := Visited(pre, s.history, from, s.disk);
    assert states[|states| - 1] == s.disk;
    var stop: int := *;
    if 0 <= stop <= |s.history| - from {
      s.disk := if stop == 0 then pre else s.history[from + stop - 1];
      assert s.disk == states[stop];
    }
    w' := World(s.disk, Some(Deletion(before, i)));
    assert DeleteRan(w, states, w');
    StepKeepsWorldOk(w, w');
  }

  /** Any other command does anything, and leaves no intent. */
  method OtherCommand(s: Stores, ghost w: World) returns (ghost w': World)
    requires s.disk.intent == None && w.disk == s.disk
    modifies s
    ensures Step(w, w') && WorldOk(w') && w'.disk == s.disk
  {
    var d: Durable := *;
    s.disk := d.(intent := None);
    w' := World(s.disk, None);
  }

  /**
   Any sequence of commands, each of which a crash may cut short: `Some` deletes a context, `None` is
   any other command, which is refused while a deletion is pending. What the program does is a run of
   the worlds above, so that it keeps the write-ahead guarantee.
   */
  method Drive(s: Stores, commands: seq<Option<string>>) returns (ghost run: seq<World>)
    requires s.disk.intent == None
    modifies s
    ensures run != [] && run[0] == World(old(s.disk), None) && run[|run| - 1].disk == s.disk
    ensures forall m: nat :: Linked(run, m)
    ensures s.disk.intent == None && run[|run| - 1].current.Some? ==>
              var t := run[|run| - 1].current.value;
              AllOriginal(t.before, s.disk) || (IntentFor(t.before, t.intent) && AllGone(t.before, t.intent, s.disk))
  {
    run := [World(s.disk, None)];
    for n := 0 to |commands|
      invariant run != [] && run[0] == World(old(s.disk), None) && run[|run| - 1].disk == s.disk
      invariant WorldOk(run[|run| - 1]) && forall m: nat :: Linked(run, m)
    {
      ghost var w, next := run[|run| - 1], run[|run| - 1];
      if commands[n].Some? {
        next := DeleteOrCrash(s, commands[n].value, w);
        run := Extended(run, next);
      } else if s.disk.intent == None {
        next := OtherCommand(s, w);
        run := Extended(run, next);
      }
    }
  }

  ghost function Extended(run: seq<World>, w: World): (r: seq<World>)
    requires run != [] && Step(run[|run| - 1], w) && forall m: nat :: Linked(run, m)
    ensures r == run + [w] && forall m: nat :: Linked(r, m)
  {
    var r := run + [w];
    assert forall m: nat :: Linked(run, m) ==> Linked(r, m);
    r
  }

  /** Whatever happens to one context, other contexts, their values and unmanaged secrets stay. */
  lemma OthersUntouched(before: Durable, i: Intent, d: Durable, k: Key, context: string)
    requires CrashSafe(before, i, d) && context != i.context
    ensures k.context != i.context || !Owned(before, i.context, k.name) ==> SecretIntact(before, d, k)
    ensures k.context != i.context ==> (k in d.envs <==> k in before.envs) && (k in d.envs ==> d.envs[k] == before.envs[k])
    ensures context in before.dirs <==> context in d.dirs
    ensures context in d.dirs ==> d.dirs[context] == before.dirs[context]
    ensures context in before.config.contexts ==> context in d.config.contexts && d.config.contexts[context] == before.config.contexts[context]
  {
    assert forall x :: x in d.dirs && x != i.context <==> x in d.dirs - {i.context};
    assert forall x :: x in before.dirs && x != i.context <==> x in before.dirs - {i.context};
    if context in d.dirs && context in before.dirs {
      assert (d.dirs - {i.context})[context] == d.dirs[context];
      assert (before.dirs - {i.context})[context] == before.dirs[context];
    }
    assert IntentFor(before, i) ==> (Managed(i, k) <==> k.context == i.context && Owned(before, i.context, k.name));
  }
}
