/** Completing an interrupted deletion from its durable intent, and the delete command itself. */
module ContextRecovery {
  import opened Basics
  import opened SecretRefs
  import opened ContextStores
  import opened ContextDeletionSpec
  import opened ContextDeletion

  /** The intent is durable and its first `k` secrets are gone. */
  ghost predicate Recovering(before: Durable, i: Intent, k: nat, d: Durable)
  {
    && k <= |i.secrets|
    && d.intent == Some(i) && CrashSafe(before, i, d)
    && forall j :: 0 <= j < k ==> SecretKey(i, j) !in d.secrets
  }

  // ----- Progress -----

  /** What remains in each of the states. */
  ghost function Trail(i: Intent, states: seq<Durable>): (t: seq<set<Item>>)
    ensures |t| == |states|
  {
    seq(|states|, n requires 0 <= n < |states| => Remaining(i, states[n]))
  }

  /** No step brings anything recorded back. */
  ghost predicate Descending<T>(sets: seq<set<T>>)
  {
    forall n :: 0 < n < |sets| ==> sets[n] <= sets[n - 1]
  }

  /** Hence no later set holds anything that an earlier one did not. */
  lemma {:induction false} LaterIsSmaller<T>(sets: seq<set<T>>, a: nat, b: nat)
    requires Descending(sets) && a <= b < |sets|
    ensures sets[b] <= sets[a] && |sets[b]| <= |sets[a]|
  {
    if a < b { LaterIsSmaller(sets, a, b - 1); }
    SubsetSize(sets[b], sets[a]);
  }

  lemma TrailExtends(i: Intent, states: seq<Durable>, d: Durable)
    requires states != [] && Descending(Trail(i, states))
    requires Remaining(i, d) <= Remaining(i, states[|states| - 1])
    ensures Descending(Trail(i, states + [d]))
  {
    var t := Trail(i, states + [d]);
    forall n | 0 < n < |t| ensures t[n] <= t[n - 1] {
      if n < |states| { assert t[n] == Trail(i, states)[n] && t[n - 1] == Trail(i, states)[n - 1]; }
    }
  }

  lemma SubsetSize<T>(a: set<T>, b: set<T>)
    requires a <= b
    ensures |a| <= |b|
  {
    assert b == a + (b - a);
  }

  lemma DeleteShrinks(i: Intent, d: Durable, key: Key, ok: bool, d': Durable)
    requires DeleteEffect(d, key, ok, d')
    ensures Remaining(i, d') <= Remaining(i, d)
  {
  }

  lemma EnvsShrink(i: Intent, d: Durable)
    ensures Remaining(i, WithoutEnvs(d, i.context, i.envNames)) <= Remaining(i, d)
  {
  }

  lemma SaveShrinks(i: Intent, d: Durable)
    requires i.context != DEFAULT_CONTEXT
    ensures Remaining(i, d.(config := Persisted(Unregister(Load(d.config), i.context)))) <= Remaining(i, d)
  {
    UnregisterForgets(Load(d.config), i.context);
  }

  lemma DirShrinks(i: Intent, d: Durable, ok: bool, d': Durable)
    requires DirEffect(d, i.context, ok, d')
    ensures Remaining(i, d') <= Remaining(i, d)
  {
  }

  // ----- Recovery -----

  /** The states since `first`, each safe to crash in, none with more left to do than the last. */
  ghost predicate Converging(before: Durable, i: Intent, states: seq<Durable>, d: Durable)
  {
    && states != [] && states[|states| - 1] == d
    && AllSafe(before, i, states)
    && Descending(Trail(i, states))
  }

  lemma ConvergingExtends(before: Durable, i: Intent, states: seq<Durable>, d: Durable, d': Durable)
    requires Converging(before, i, states, d) && CrashSafe(before, i, d') && Remaining(i, d') <= Remaining(i, d)
    ensures Converging(before, i, states + [d'], d')
  {
    TrailExtends(i, states, d');
  }

  ghost predicate OwnerConflicts(d: Durable, target: string, record: SecretRecord)
  {
    && Key(target, record.name) in d.secrets
    && d.secrets[Key(target, record.name)].backend != record.backend
  }

  /** Deletes a recorded secret, unless another owner has since taken its name. */
  method DeleteRecordedContextSecret(s: Stores, target: string, record: SecretRecord) returns (r: Option<Error>)
    modifies s
    ensures DeleteEffect(old(s.disk), Key(target, record.name), r.None?, s.disk)
    ensures s.history == old(s.history) + [old(s.disk), s.disk] || (s.history == old(s.history) + [s.disk] && s.disk == old(s.disk))
    ensures OwnerConflicts(old(s.disk), target, record) ==> r.Some? && s.disk == old(s.disk)
    ensures !OwnerConflicts(old(s.disk), target, record) ==> s.Reported(r)
  {
    var key := Key(target, record.name);
    var meta := s.Meta(key);
    if meta.Err? {
      return if Matches(meta.error, SecretNotFound) then None else Some(meta.error);
    }
    if meta.value.backend != record.backend { return Some(StoreError({})); }
    r := s.DeleteSecret(key);
  }

  lemma RecoverStep(before: Durable, i: Intent, k: nat, d: Durable, ok: bool, d': Durable)
    requires Recovering(before, i, k, d) && k < |i.secrets| && DeleteEffect(d, SecretKey(i, k), ok, d')
    ensures CrashSafe(before, i, d') && Remaining(i, d') <= Remaining(i, d)
    ensures ok ==> Recovering(before, i, k + 1, d')
  {
    DeleteKeepsBetween(before, i, k, d, ok, d');
    DeleteEffectKeepsOthers(before, d, SecretKey(i, k), ok, d');
    DeleteShrinks(i, d, SecretKey(i, k), ok, d');
    forall j | 0 <= j < k && ok ensures SecretKey(i, j) !in d'.secrets {
      assert SecretKey(i, j) != SecretKey(i, k);
    }
  }

  /** The recorded owner still owns every recorded secret in the states the protocol produces. */
  lemma OwnersAgree(before: Durable, i: Intent, k: nat, d: Durable)
    requires Recovering(before, i, k, d) && k < |i.secrets|
    ensures !OwnerConflicts(d, i.context, i.secrets[k])
  {
    assert Managed(i, SecretKey(i, k));
    assert SecretHeld(before, i, d, SecretKey(i, k));
  }

  /** The recovery that began in state `first`, when the history was `from` long. */
  ghost predicate OnTrack(before: Durable, i: Intent, first: Durable, history: seq<Durable>, from: nat, d: Durable)
  {
    from <= |history| && Converging(before, i, [first] + history[from..], d)
  }

  lemma OnTrackExtends(before: Durable, i: Intent, first: Durable, history: seq<Durable>, from: nat, d: Durable, d': Durable)
    requires OnTrack(before, i, first, history, from, d)
    requires CrashSafe(before, i, d') && Remaining(i, d') <= Remaining(i, d)
    ensures OnTrack(before, i, first, history + [d'], from, d')
  {
    ConvergingExtends(before, i, [first] + history[from..], d, d');
    assert [first] + (history + [d'])[from..] == [first] + history[from..] + [d'];
  }

  lemma SecretStep(before: Durable, i: Intent, k: nat, first: Durable, history: seq<Durable>, from: nat, d: Durable,
                   ok: bool, d': Durable, history': seq<Durable>)
    requires Recovering(before, i, k, d) && k < |i.secrets| && OnTrack(before, i, first, history, from, d)
    requires DeleteEffect(d, SecretKey(i, k), ok, d')
    requires history' == history + [d, d'] || history' == history + [d']
    ensures OnTrack(before, i, first, history', from, d')
    ensures ok ==> Recovering(before, i, k + 1, d')
    ensures !OwnerConflicts(d, i.context, i.secrets[k])
  {
    OwnersAgree(before, i, k, d);
    RecoverStep(before, i, k, d, ok, d');
    if history' == history + [d, d'] {
      OnTrackExtends(before, i, first, history, from, d, d);
      OnTrackExtends(before, i, first, history + [d], from, d, d');
      assert history' == history + [d] + [d'];
    } else {
      OnTrackExtends(before, i, first, history, from, d, d');
    }
  }

  method DeleteRecordedSecrets(s: Stores, i: Intent, ghost before: Durable, ghost first: Durable, ghost from: nat)
    returns (r: Option<Error>)
    modifies s
    ensures s.disk == old(s.disk).(secrets := s.disk.secrets)
    ensures old(s.history) <= s.history
    ensures old(Recovering(before, i, 0, s.disk) && OnTrack(before, i, first, s.history, from, s.disk)) ==>
              && OnTrack(before, i, first, s.history, from, s.disk)
              && (r.None? ==> Recovering(before, i, |i.secrets|, s.disk))
              && s.Reported(r)
  {
    ghost var live := Recovering(before, i, 0, s.disk) && OnTrack(before, i, first, s.history, from, s.disk);
    for k := 0 to |i.secrets|
      invariant s.disk == old(s.disk).(secrets := s.disk.secrets)
      invariant old(s.history) <= s.history
      invariant live ==> Recovering(before, i, k, s.disk) && OnTrack(before, i, first, s.history, from, s.disk) && s.Reported(None)
    {
      ghost var d, h := s.disk, s.history;
      r := DeleteRecordedContextSecret(s, i.context, i.secrets[k]);
      if live { SecretStep(before, i, k, first, h, from, d, r.None?, s.disk, s.history); }
      if r.Some? { return; }
    }
    r := None;
  }

  /** Deleting the recorded environment names leaves them gone, whether or not they already were. */
  lemma EnvStep(before: Durable, i: Intent, d: Durable)
    requires Recovering(before, i, |i.secrets|, d)
    ensures var d' := WithoutEnvs(d, i.context, i.envNames);
      ValuesGone(before, i, d') && d'.config == d.config && Remaining(i, d') <= Remaining(i, d)
  {
    var d' := WithoutEnvs(d, i.context, i.envNames);
    assert d'.envs == EnvsCleared(before, i.context);
    forall k ensures SecretIntact(before, d, k) <==> SecretIntact(before, d', k) { }
    forall k ensures SecretHeld(before, i, d, k) <==> SecretHeld(before, i, d', k) { }
    EnvsShrink(i, d);
  }

  lemma SaveStep(before: Durable, i: Intent, d: Durable)
    requires ValuesGone(before, i, d) && i.context in Load(d.config).contexts
    ensures var d' := d.(config := Persisted(Unregister(Load(d.config), i.context)));
      ValuesGone(before, i, d') && d'.config == ConfigWithout(before, i.context) && Remaining(i, d') <= Remaining(i, d)
  {
    UnregisterForgets(Load(before.config), i.context);
    ConfigSaved(before, i, d);
    SaveShrinks(i, d);
  }

  lemma FinishStep(before: Durable, i: Intent, first: Durable, history: seq<Durable>, from: nat, d: Durable, ok: bool,
                   unlinked: Durable, d': Durable, history': seq<Durable>)
    requires OnTrack(before, i, first, history, from, d)
    requires ValuesGone(before, i, d) && d.config == ConfigWithout(before, i.context)
    requires DirEffect(d, i.context, ok, unlinked) && d' == unlinked.(intent := d'.intent)
    requires d'.intent == Some(i) || (ok && d'.intent == None)
    requires history' == history + [unlinked, d'] || (history' == history + [unlinked] && d' == unlinked)
    ensures OnTrack(before, i, first, history', from, d')
    ensures d'.intent == None ==> AllGone(before, i, d')
  {
    FinishIsSafe(before, i, d, ok, unlinked, d'.intent);
    DirShrinks(i, d, ok, unlinked);
    OnTrackExtends(before, i, first, history, from, d, unlinked);
    assert Remaining(i, d') <= Remaining(i, unlinked);
    OnTrackExtends(before, i, first, history + [unlinked], from, unlinked, d');
    assert history + [unlinked] + [d'] == history + [unlinked, d'];
  }

  /**
   Completes only what the durable intent records. From every state the protocol can leave, each
   step is safe to crash in, nothing recorded comes back, and if no operation fails the deletion
   is complete: neither the digest nor the ownership check refuses. A context that was registered
   anew under the same name is refused untouched.
   */
  method ResumeContextDeletion(s: Stores, cfg: Config, intent: Intent, ghost before: Durable) returns (r: Option<Error>, ghost errors: seq<Error>)
    requires cfg == Load(s.disk.config)
    modifies s
    ensures intent.context in cfg.contexts && cfg.contexts[intent.context] != intent.fingerprint ==>
              r.Some? && Matches(r.value, DeletionPending) && s.disk == old(s.disk) && s.history == old(s.history)
    ensures r.Some? ==> Matches(r.value, DeletionPending)
    ensures old(s.history) <= s.history
    ensures old(s.disk.intent == Some(intent) && CrashSafe(before, intent, s.disk)) ==>
              && OnTrack(before, intent, old(s.disk), s.history, |old(s.history)|, s.disk)
              && (r.None? ==> AllGone(before, intent, s.disk) && Remaining(intent, s.disk) == {})
              && s.Counted(errors) && r == Unfinished(errors) && |errors| <= 1
  {
    if intent.context in cfg.contexts && cfg.contexts[intent.context] != intent.fingerprint {
      return Some(RecoveryError(StoreError({}))), [];
    }
    r, errors := ResumeRecorded(s, cfg, intent, before);
  }

  /** The first error that an operation reports ends the recovery, which stays pending. */
  function Unfinished(errors: seq<Error>): Option<Error> { if errors == [] then None else Some(RecoveryError(errors[0])) }

  method ResumeRecorded(s: Stores, cfg: Config, intent: Intent, ghost before: Durable) returns (r: Option<Error>, ghost errors: seq<Error>)
    requires cfg == Load(s.disk.config)
    modifies s
    ensures r.Some? ==> Matches(r.value, DeletionPending)
    ensures old(s.history) <= s.history
    ensures old(s.disk.intent == Some(intent) && CrashSafe(before, intent, s.disk)) ==>
              && OnTrack(before, intent, old(s.disk), s.history, |old(s.history)|, s.disk)
              && (r.None? ==> AllGone(before, intent, s.disk) && Remaining(intent, s.disk) == {})
              && s.Counted(errors) && r == Unfinished(errors) && |errors| <= 1
  {
    ghost var first, from := s.disk, |s.history|;
    var e := OpenRecovery(s, intent, before);
    if e.Some? { return Some(RecoveryError(e.value)), [e.value]; }
    r, errors := DeleteRecorded(s, cfg, intent, before, first, from);
  }

  /** The recorded secrets and then the rest. */
  method DeleteRecorded(s: Stores, cfg: Config, intent: Intent, ghost before: Durable, ghost first: Durable, ghost from: nat)
    returns (r: Option<Error>, ghost errors: seq<Error>)
    requires cfg == Load(s.disk.config)
    modifies s
    ensures r.Some? ==> Matches(r.value, DeletionPending)
    ensures old(s.history) <= s.history
    ensures old(Recovering(before, intent, 0, s.disk) && OnTrack(before, intent, first, s.history, from, s.disk)) ==>
              && OnTrack(before, intent, first, s.history, from, s.disk)
              && (r.None? ==> AllGone(before, intent, s.disk) && Remaining(intent, s.disk) == {})
              && s.Counted(errors) && r == Unfinished(errors) && |errors| <= 1
  {
    var e := DeleteRecordedSecrets(s, intent, before, first, from);
    if e.Some? { return Some(RecoveryError(e.value)), [e.value]; }
    r, errors := CompleteRecovery(s, cfg, intent, before, first, from);
  }

  method OpenRecovery(s: Stores, intent: Intent, ghost before: Durable) returns (r: Option<Error>)
    modifies s
    ensures s.disk == old(s.disk) && s.history == old(s.history) + [s.disk] && s.Reported(r)
    ensures s.disk.intent == Some(intent) && CrashSafe(before, intent, s.disk) ==>
              Recovering(before, intent, 0, s.disk) && OnTrack(before, intent, old(s.disk), s.history, |old(s.history)|, s.disk)
  {
    ghost var d, h := s.disk, s.history;
    r := s.OpenStores();
    if s.disk.intent == Some(intent) && CrashSafe(before, intent, s.disk) {
      StartsOnTrack(before, intent, d, h);
      OnTrackExtends(before, intent, d, h, |h|, d, d);
    }
  }

  lemma StartsOnTrack(before: Durable, i: Intent, d: Durable, history: seq<Durable>)
    requires CrashSafe(before, i, d)
    ensures OnTrack(before, i, d, history, |history|, d)
  {
    assert [d] + history[|history|..] == [d];
  }

  /** Saves the configuration without the context, unless that was already done. */
  method SaveUnregistered(s: Stores, cfg: Config, intent: Intent, ghost before: Durable, ghost first: Durable, ghost from: nat)
    returns (r: Option<Error>)
    requires cfg == Load(s.disk.config)
    modifies s
    ensures s.Reported(r) && old(s.history) <= s.history
    ensures old(ValuesGone(before, intent, s.disk) && OnTrack(before, intent, first, s.history, from, s.disk)) ==>
              && OnTrack(before, intent, first, s.history, from, s.disk)
              && (r.None? ==> ValuesGone(before, intent, s.disk) && s.disk.config == ConfigWithout(before, intent.context))
  {
    if intent.context !in cfg.contexts { return None; }
    ghost var d, h := s.disk, s.history;
    r := s.SaveConfig(Unregister(cfg, intent.context));
    if ValuesGone(before, intent, d) && OnTrack(before, intent, first, h, from, d) {
      SaveStep(before, intent, d);
      OnTrackExtends(before, intent, first, h, from, d, s.disk);
    }
  }

  method DeleteRecordedEnvs(s: Stores, intent: Intent, ghost before: Durable, ghost first: Durable, ghost from: nat)
    returns (r: Option<Error>)
    modifies s
    ensures s.disk.config == old(s.disk).config && old(s.history) <= s.history
    ensures s.Reported(r)
    ensures old(Recovering(before, intent, |intent.secrets|, s.disk) && OnTrack(before, intent, first, s.history, from, s.disk)) ==>
              && OnTrack(before, intent, first, s.history, from, s.disk)
              && (r.None? ==> ValuesGone(before, intent, s.disk))
  {
    ghost var d, h := s.disk, s.history;
    r := s.DeleteEnvs(intent.context, intent.envNames);
    if Recovering(before, intent, |intent.secrets|, d) && OnTrack(before, intent, first, h, from, d) {
      EnvStep(before, intent, d);
      OnTrackExtends(before, intent, first, h, from, d, s.disk);
    }
  }

  method FinishRecovery(s: Stores, intent: Intent, ghost before: Durable, ghost first: Durable, ghost from: nat)
    returns (r: Option<Error>, ghost errors: seq<Error>)
    modifies s
    ensures s.Counted(errors) && r == Unfinished(errors) && |errors| <= 1 && old(s.history) <= s.history
    ensures old(ValuesGone(before, intent, s.disk) && s.disk.config == ConfigWithout(before, intent.context)
                && OnTrack(before, intent, first, s.history, from, s.disk)) ==>
              && OnTrack(before, intent, first, s.history, from, s.disk)
              && (r.None? ==> AllGone(before, intent, s.disk) && Remaining(intent, s.disk) == {})
  {
    ghost var d, h := s.disk, s.history;
    ghost var unlinked;
    r, unlinked, errors := FinishContextDeletion(s, intent.context);
    if ValuesGone(before, intent, d) && d.config == ConfigWithout(before, intent.context) && OnTrack(before, intent, first, h, from, d) {
      FinishStep(before, intent, first, h, from, d, |s.history| > |h| + 1, unlinked, s.disk, s.history);
      if r.None? { GoneIffNothingRemains(before, intent, s.disk); }
    }
  }

  /** The three steps after the recorded secrets, in the order the intent relies on. */
  method CompleteRecovery(s: Stores, cfg: Config, intent: Intent, ghost before: Durable, ghost first: Durable, ghost from: nat)
    returns (r: Option<Error>, ghost errors: seq<Error>)
    requires cfg == Load(s.disk.config)
    modifies s
    ensures s.Counted(errors) && r == Unfinished(errors) && |errors| <= 1 && old(s.history) <= s.history
    ensures old(Recovering(before, intent, |intent.secrets|, s.disk) && OnTrack(before, intent, first, s.history, from, s.disk)) ==>
              && OnTrack(before, intent, first, s.history, from, s.disk)
              && (r.None? ==> AllGone(before, intent, s.disk) && Remaining(intent, s.disk) == {})
  {
    var e := DeleteRecordedEnvs(s, intent, before, first, from);
    if e.Some? { return Some(RecoveryError(e.value)), [e.value]; }
    e := SaveUnregistered(s, cfg, intent, before, first, from);
    if e.Some? { return Some(RecoveryError(e.value)), [e.value]; }
    r, errors := FinishRecovery(s, intent, before, first, from);
  }
}
