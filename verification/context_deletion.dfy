/** Deleting a registered context: the forward transaction and its rollback. */
module ContextDeletion {
  import opened Basics
  import opened SecretRefs
  import opened ContextStores
  import opened ContextDeletionSpec
  import opened ContextSnapshot

  // ----- The intent -----

  function BuildIntent(cfg: Config, target: string, snap: Snapshot): Intent
    requires target in cfg.contexts
  {
    Intent(
      target,
      cfg.contexts[target],
      seq(|snap.secrets|, i requires 0 <= i < |snap.secrets| => SecretRecord(snap.secrets[i].name, snap.secrets[i].meta.backend)),
      EnvNames(snap.envs))
  }

  function EnvNames(envs: seq<EnvSnapshot>): seq<string>
  {
    seq(|envs|, i requires 0 <= i < |envs| => envs[i].name)
  }

  /** The in-memory snapshot can undo everything the intent `i` allows. */
  ghost predicate Undoes(before: Durable, i: Intent, snap: Snapshot)
  {
    && |snap.secrets| == |i.secrets|
    && ListsEnvs(before, i.context, snap.envs)
    && i.envNames == EnvNames(snap.envs)
    && forall j :: 0 <= j < |i.secrets| ==>
         var k, x := SecretKey(i, j), snap.secrets[j];
         && x.name == i.secrets[j].name && x.meta.backend == i.secrets[j].backend
         && k in before.secrets
         && before.secrets[k].value == Some(x.value)
         && before.secrets[k].lastUsed == x.meta.lastUsed
         && before.secrets[k].backend in {x.meta.backend, Unrecorded}
  }

  /** The intent of a complete snapshot names exactly the managed values, and can be undone. */
  lemma SnapshotIntent(before: Durable, d: Durable, target: string, snap: Snapshot)
    requires target != "" && target != DEFAULT_CONTEXT && target in Load(before.config).contexts
    requires SnapshotOf(before, d, target, snap)
    ensures var i := BuildIntent(Load(before.config), target, snap);
      IntentFor(before, i) && Undoes(before, i, snap) && OwnersKnown(i)
  {
    var i := BuildIntent(Load(before.config), target, snap);
    forall n ensures Records(i, n) <==> Owned(before, target, n) {
      if HasName(snap.secrets, n) {
        var j :| 0 <= j < |snap.secrets| && snap.secrets[j].name == n;
        assert i.secrets[j].name == n;
      }
      if Records(i, n) {
        var j :| 0 <= j < |i.secrets| && i.secrets[j].name == n;
        assert snap.secrets[j].name == n;
      }
    }
    forall k | k in before.envs && k.context == target ensures k.name in i.envNames {
      var j :| 0 <= j < |snap.envs| && snap.envs[j].name == k.name;
      assert i.envNames[j] == k.name;
    }
  }

  // ----- States of the transaction -----

  /** `k` secrets are deleted and nothing else has changed; the intent is durable. */
  ghost predicate Forward(before: Durable, i: Intent, k: nat, d: Durable)
  {
    && k <= |i.secrets|
    && Undoing(before, i, k, d)
    && d.envs == before.envs
    && forall j :: 0 <= j < k ==> SecretKey(i, j) !in d.secrets
  }

  /** Only the first `n` secrets, and the environment values, may differ from the original. */
  ghost predicate Undoing(before: Durable, i: Intent, n: nat, d: Durable)
  {
    && d.intent == Some(i) && OwnersKnown(i) && Between(before, i, d)
    && d.config == before.config && d.dirs == before.dirs
    && forall j :: n <= j < |i.secrets| ==> SecretIntact(before, d, SecretKey(i, j))
  }

  lemma DeleteEffectKeepsOthers(before: Durable, d: Durable, key: Key, ok: bool, d': Durable)
    requires DeleteEffect(d, key, ok, d')
    ensures forall k :: k != key && SecretIntact(before, d, k) ==> SecretIntact(before, d', k)
    ensures forall k :: k != key && k !in d.secrets ==> k !in d'.secrets
  {
  }

  /** A deletion of a recorded secret, complete or not, stays between original and gone. */
  lemma DeleteKeepsBetween(before: Durable, i: Intent, j: nat, d: Durable, ok: bool, d': Durable)
    requires j < |i.secrets| && Between(before, i, d)
    requires DeleteEffect(d, SecretKey(i, j), ok, d')
    requires OwnersKnown(i)
    ensures Between(before, i, d')
  {
    var key := SecretKey(i, j);
    assert Managed(i, key) by { assert i.secrets[j].name == key.name; }
    DeleteEffectKeepsOthers(before, d, key, ok, d');
    forall k | Managed(i, k) ensures SecretHeld(before, i, d', k) {
      assert SecretHeld(before, i, d, k);
      if k in d'.secrets { HeldAfterDelete(before, i, d, key, ok, d', k); }
    }
  }

  lemma HeldAfterDelete(before: Durable, i: Intent, d: Durable, key: Key, ok: bool, d': Durable, k: Key)
    requires DeleteEffect(d, key, ok, d') && SecretHeld(before, i, d, k) && k in d'.secrets && OwnersKnown(i)
    ensures SecretHeld(before, i, d', k)
  {
  }

  lemma DeleteStep(before: Durable, i: Intent, k: nat, d: Durable, ok: bool, d': Durable)
    requires k < |i.secrets| && Forward(before, i, k, d) && IntentFor(before, i)
    requires DeleteEffect(d, SecretKey(i, k), ok, d')
    ensures Undoing(before, i, k + 1, d')
    ensures ok ==> Forward(before, i, k + 1, d')
  {
    DeleteKeepsBetween(before, i, k, d, ok, d');
    DeleteEffectKeepsOthers(before, d, SecretKey(i, k), ok, d');
    forall j | k < j < |i.secrets| ensures SecretIntact(before, d', SecretKey(i, j)) {
      assert SecretKey(i, j) != SecretKey(i, k);
      assert SecretIntact(before, d, SecretKey(i, j));
    }
    forall j | 0 <= j < k && ok ensures SecretKey(i, j) !in d'.secrets {
      assert SecretKey(i, j) != SecretKey(i, k);
    }
  }

  // ----- Rollback -----

  /** The secrets from index `j` up to `n` are back as they were captured, except those that failed. */
  ghost predicate Restored(i: Intent, snap: Snapshot, j: nat, n: nat, failed: set<nat>, d: Durable)
  {
    && j <= n <= |i.secrets| == |snap.secrets|
    && (forall a :: a in failed ==> j <= a < n)
    && forall a :: j <= a < n && a !in failed ==>
         && SecretKey(i, a) in d.secrets
         && d.secrets[SecretKey(i, a)] == Secret(snap.secrets[a].meta.backend, Some(snap.secrets[a].value), snap.secrets[a].meta.lastUsed)
  }

  lemma RestoreFrame(d: Durable, key: Key, meta: SecretMeta, value: string, ok: bool, d': Durable, k: Key)
    requires RestoreEffect(d, key, meta, value, ok, d') && k != key
    ensures k in d'.secrets <==> k in d.secrets
    ensures k in d.secrets ==> d'.secrets[k] == d.secrets[k]
  {
    assert k in d.secrets <==> k in d.secrets - {key};
    assert k in d'.secrets <==> k in d'.secrets - {key};
    if k in d.secrets { assert (d.secrets - {key})[k] == (d'.secrets - {key})[k]; }
  }

  /** Restoring one captured secret, successfully or not, never leaves the recoverable states. */
  lemma RestoreKeepsUndoing(before: Durable, i: Intent, snap: Snapshot, j: nat, n: nat, d: Durable, ok: bool, d': Durable)
    requires Undoing(before, i, n, d) && Undoes(before, i, snap) && IntentFor(before, i) && j < n <= |i.secrets|
    requires RestoreEffect(d, SecretKey(i, j), snap.secrets[j].meta, snap.secrets[j].value, ok, d')
    ensures Undoing(before, i, n, d')
  {
    var key, x := SecretKey(i, j), snap.secrets[j];
    assert Managed(i, key) by { assert i.secrets[j].name == key.name; }
    forall k | !Managed(i, k) ensures SecretIntact(before, d', k) {
      assert SecretIntact(before, d, k);
      RestoreFrame(d, key, x.meta, x.value, ok, d', k);
    }
    forall k | Managed(i, k) ensures SecretHeld(before, i, d', k) {
      assert SecretHeld(before, i, d, k);
      RestoreHolds(before, i, snap, j, d, ok, d', k);
    }
    forall a | n <= a < |i.secrets| ensures SecretIntact(before, d', SecretKey(i, a)) {
      assert SecretIntact(before, d, SecretKey(i, a));
      RestoreFrame(d, key, x.meta, x.value, ok, d', SecretKey(i, a));
    }
  }

  lemma RestoreHolds(before: Durable, i: Intent, snap: Snapshot, j: nat, d: Durable, ok: bool, d': Durable, k: Key)
    requires Undoes(before, i, snap) && IntentFor(before, i) && j < |i.secrets| && SecretHeld(before, i, d, k)
    requires RestoreEffect(d, SecretKey(i, j), snap.secrets[j].meta, snap.secrets[j].value, ok, d')
    ensures SecretHeld(before, i, d', k)
  {
    if k != SecretKey(i, j) {
      RestoreFrame(d, SecretKey(i, j), snap.secrets[j].meta, snap.secrets[j].value, ok, d', k);
    } else {
      assert forall a :: 0 <= a < |i.secrets| && i.secrets[a].name == k.name ==> a == j;
    }
  }

  lemma RestoreExtends(i: Intent, snap: Snapshot, j: nat, n: nat, failed: set<nat>, d: Durable, ok: bool, d': Durable, before: Durable)
    requires Restored(i, snap, j + 1, n, failed, d) && IntentFor(before, i)
    requires RestoreEffect(d, SecretKey(i, j), snap.secrets[j].meta, snap.secrets[j].value, ok, d')
    ensures Restored(i, snap, j, n, if ok then failed else failed + {j}, d')
  {
    forall a | j < a < n
      ensures SecretKey(i, a) in d.secrets ==> SecretKey(i, a) in d'.secrets && d'.secrets[SecretKey(i, a)] == d.secrets[SecretKey(i, a)]
    {
      RestoreFrame(d, SecretKey(i, j), snap.secrets[j].meta, snap.secrets[j].value, ok, d', SecretKey(i, a));
    }
  }

  lemma RestoredEverything(before: Durable, i: Intent, snap: Snapshot, n: nat, d: Durable)
    requires Undoing(before, i, n, d) && Undoes(before, i, snap) && Restored(i, snap, 0, n, {}, d)
    requires d.envs == before.envs
    ensures AllOriginal(before, d)
  {
    RestoredIsOriginal(before, i, d);
  }

  ghost predicate ListsName(values: seq<EnvSnapshot>, name: string)
  {
    exists a :: 0 <= a < |values| && values[a].name == name
  }

  /** One value after writing back: the listed entry, or whatever was there. */
  lemma {:induction false} WithEnvsAt(d: Durable, context: string, values: seq<EnvSnapshot>, k: Key)
    requires forall a, b :: 0 <= a < b < |values| ==> values[a].name != values[b].name
    ensures var w := WithEnvs(d, context, values);
      && w == d.(envs := w.envs)
      && (k.context == context && ListsName(values, k.name) ==>
            exists a :: 0 <= a < |values| && values[a].name == k.name && k in w.envs && w.envs[k] == values[a].entry)
      && (!(k.context == context && ListsName(values, k.name)) ==>
            (k in w.envs <==> k in d.envs) && (k in d.envs ==> w.envs[k] == d.envs[k]))
  {
    if values != [] {
      var n := |values| - 1;
      WithEnvsAt(d, context, values[..n], k);
      if k.context == context && values[n].name != k.name && ListsName(values, k.name) {
        var a :| 0 <= a < |values| && values[a].name == k.name;
        assert values[..n][a].name == k.name;
      }
      if ListsName(values[..n], k.name) {
        var a :| 0 <= a < n && values[..n][a].name == k.name;
        assert values[a].name == k.name;
      }
    }
  }

  lemma EnvsRestored(before: Durable, target: string, values: seq<EnvSnapshot>, d: Durable)
    requires ListsEnvs(before, target, values)
    requires d.envs == before.envs || d.envs == EnvsCleared(before, target)
    ensures WithEnvs(d, target, values) == d.(envs := before.envs)
  {
    var w := WithEnvs(d, target, values);
    forall k ensures (k in w.envs <==> k in before.envs) && (k in w.envs ==> w.envs[k] == before.envs[k]) {
      WithEnvsAt(d, target, values, k);
      if k.context == target { EnvAt(before, target, values, k); }
    }
    WithEnvsAt(d, target, values, Key("", ""));
    assert w.envs == before.envs;
  }

  lemma EnvAt(before: Durable, target: string, values: seq<EnvSnapshot>, k: Key)
    requires ListsEnvs(before, target, values) && k.context == target
    ensures k in before.envs <==> ListsName(values, k.name)
    ensures forall a :: 0 <= a < |values| && values[a].name == k.name ==> k in before.envs && before.envs[k] == values[a].entry
  {
    forall a | 0 <= a < |values| && values[a].name == k.name ensures k in before.envs && before.envs[k] == values[a].entry {
      assert Key(target, values[a].name) == k;
    }
  }

  /** Everything a protocol step leaves behind is safe to crash in. */
  twostate predicate StaysSafe(s: Stores, before: Durable, i: Intent)
    reads s
  {
    && old(s.history) <= s.history
    && CrashSafe(before, i, s.disk)
    && forall n :: |old(s.history)| <= n < |s.history| ==> CrashSafe(before, i, s.history[n])
  }

  /**
   Restores the attempted secrets in reverse order, going on after a failure: all are back but those
   whose own restoration failed.
   */
  method RestoreSecrets(s: Stores, target: string, snap: Snapshot, attempted: nat, ghost before: Durable, ghost i: Intent)
    returns (failures: seq<Error>, ghost failed: set<nat>)
    requires i.context == target && IntentFor(before, i) && Undoes(before, i, snap) && attempted <= |snap.secrets|
    requires Undoing(before, i, attempted, s.disk)
    modifies s
    ensures StaysSafe(s, before, i) && Undoing(before, i, attempted, s.disk) && s.disk.envs == old(s.disk).envs
    ensures Restored(i, snap, 0, attempted, failed, s.disk) && |failed| == |failures|
    ensures failures == [] && s.disk.envs == before.envs ==> AllOriginal(before, s.disk)
    ensures s.Counted(failures)
  {
    failures, failed := [], {};
    var j: nat := attempted;
    while j > 0
      invariant j <= attempted
      invariant StaysSafe(s, before, i) && Undoing(before, i, attempted, s.disk) && s.disk.envs == old(s.disk).envs
      invariant Restored(i, snap, j, attempted, failed, s.disk) && |failed| == |failures|
      invariant s.Counted(failures)
    {
      j := j - 1;
      ghost var d := s.disk;
      var x := snap.secrets[j];
      assert Key(target, x.name) == SecretKey(i, j);
      var e := s.RestoreSecret(Key(target, x.name), x.meta, x.value);
      RestoreKeepsUndoing(before, i, snap, j, attempted, d, e.None?, s.disk);
      RestoreExtends(i, snap, j, attempted, failed, d, e.None?, s.disk, before);
      if e.Some? {
        failures, failed := failures + [e.value], failed + {j};
      }
    }
    if failures == [] && s.disk.envs == before.envs {
      assert failed == {};
      RestoredEverything(before, i, snap, attempted, s.disk);
    }
  }

  /** The environment values if they were deleted, and then the attempted secrets. */
  method RestoreValues(s: Stores, target: string, snap: Snapshot, attempted: nat, restoreEnv: bool, ghost before: Durable, ghost i: Intent)
    returns (failures: seq<Error>, ghost failed: set<nat>)
    requires i.context == target && IntentFor(before, i) && Undoes(before, i, snap) && attempted <= |snap.secrets|
    requires Undoing(before, i, attempted, s.disk) && (!restoreEnv ==> s.disk.envs == before.envs)
    modifies s
    ensures StaysSafe(s, before, i) && Undoing(before, i, attempted, s.disk)
    ensures Restored(i, snap, 0, attempted, failed, s.disk)
    ensures |failed| + (if s.disk.envs == before.envs then 0 else 1) <= |failures|
    ensures failures == [] ==> AllOriginal(before, s.disk)
    ensures s.Counted(failures)
  {
    failures := [];
    if restoreEnv {
      EnvsRestored(before, target, snap.envs, s.disk);
      ghost var d := s.disk;
      var e := s.RestoreEnvs(target, snap.envs);
      if e.Some? { failures := [e.value]; } else { EnvsBack(before, i, attempted, d); }
    }
    var more;
    more, failed := RestoreSecrets(s, target, snap, attempted, before, i);
    failures := failures + more;
  }

  /** What a rollback reports: the errors of its own operations, and that recovery is pending because of them. */
  ghost predicate RolledBack(r: Error, phase: string, cause: Error, errors: seq<Error>, before: Durable, i: Intent, d: Durable)
  {
    if errors == [] then r == CleanupError(phase, cause, None, false) && d.intent == None && AllOriginal(before, d)
    else
      || (r == CleanupError(phase, cause, Some(Joined(errors)), true) && d.intent == Some(i) && d.config == before.config)
      || (|errors| == 1 && r == RecoveryError(errors[0]) && AllOriginal(before, d))
  }

  /**
   Undoes a failed deletion. An error that does not match DeletionPending promises that every
   managed value is back and that no intent remains. Whatever fails, each secret is back unless its
   own restoration failed, and so are the environment values.
   */
  method RollbackContextValues(s: Stores, target: string, snap: Snapshot, attempted: nat, restoreEnv: bool,
                               phase: string, cause: Error, ghost before: Durable, ghost i: Intent)
    returns (r: Error, ghost errors: seq<Error>, ghost failed: set<nat>)
    requires i.context == target && IntentFor(before, i) && Undoes(before, i, snap) && attempted <= |snap.secrets|
    requires Undoing(before, i, attempted, s.disk) && (!restoreEnv ==> s.disk.envs == before.envs)
    modifies s
    ensures StaysSafe(s, before, i)
    ensures s.Counted(errors)
    ensures RolledBack(r, phase, cause, errors, before, i, s.disk)
    ensures Restored(i, snap, 0, attempted, failed, s.disk)
    ensures forall j :: attempted <= j < |i.secrets| ==> SecretIntact(before, s.disk, SecretKey(i, j))
    ensures |failed| + (if s.disk.envs == before.envs then 0 else 1) <= |errors|
    ensures s.disk.intent.Some? ==> Matches(r, DeletionPending)
    ensures !Matches(r, DeletionPending) ==> AllOriginal(before, s.disk)
  {
    var failures;
    failures, failed := RestoreValues(s, target, snap, attempted, restoreEnv, before, i);
    errors := failures;
    if failures == [] {
      ghost var d := s.disk;
      var e := s.ClearIntent();
      ClearedIsStill(before, i, snap, attempted, failed, d, s.disk.intent);
      if e.Some? { return RecoveryError(e.value), [e.value], failed; }
      return CleanupError(phase, cause, None, false), errors, failed;
    }
    r := CleanupError(phase, cause, Some(Joined(failures)), true);
  }

  /** None of this depends on the intent. */
  lemma ClearedIsStill(before: Durable, i: Intent, snap: Snapshot, n: nat, failed: set<nat>, d: Durable, intent: Option<Intent>)
    requires Undoing(before, i, n, d) && Restored(i, snap, 0, n, failed, d)
    ensures Restored(i, snap, 0, n, failed, d.(intent := intent))
    ensures forall j :: n <= j < |i.secrets| ==> SecretIntact(before, d.(intent := intent), SecretKey(i, j))
    ensures AllOriginal(before, d) ==> AllOriginal(before, d.(intent := intent))
  {
    MarkerIrrelevant(before, i, d, intent);
  }

  lemma EnvsBack(before: Durable, i: Intent, n: nat, d: Durable)
    requires Undoing(before, i, n, d)
    ensures Undoing(before, i, n, d.(envs := before.envs))
  {
    var d' := d.(envs := before.envs);
    forall k ensures SecretIntact(before, d, k) <==> SecretIntact(before, d', k) { }
    forall k ensures SecretHeld(before, i, d, k) <==> SecretHeld(before, i, d', k) { }
  }

  // ----- What a deletion reports -----

  /** The error names its cause and nothing else. */
  predicate Plain(e: Error, cause: Error)
  {
    e.CleanupError? && e.cause == cause && e.rollback.None? && !e.recoveryPending
  }

  /** All managed secrets but at most `n` are as they were. */
  ghost predicate MostBack(before: Durable, i: Intent, d: Durable, n: nat)
  {
    exists failed: set<nat> :: |failed| <= n && BackExcept(before, i, d, failed)
  }

  ghost predicate BackExcept(before: Durable, i: Intent, d: Durable, failed: set<nat>)
  {
    forall j :: 0 <= j < |i.secrets| && j !in failed ==> SecretIntact(before, d, SecretKey(i, j))
  }

  /**
   The result is determined by the errors that the operations reported. A first error alone is passed on
   as the cause, with everything as before. Further ones come from the rollback: they are joined, recovery
   is pending and at most so many secrets are missing; or everything is back and only the intent stayed. An
   error after the configuration was saved leaves recovery pending.
   */
  ghost predicate Told(before: Durable, i: Intent, d: Durable, errors: seq<Error>, r: Option<Error>)
  {
    match r
    case None => errors == []
    case Some(e) =>
      || (|errors| == 1 && Plain(e, errors[0]) && (Matches(e, DeletionPending) || (d.intent == None && AllOriginal(before, d))))
      || (|errors| > 1 && e.CleanupError? && e.cause == errors[0] && e.rollback == Some(Joined(errors[1..])) && e.recoveryPending
          && d.intent == Some(i) && d.config == before.config && MostBack(before, i, d, |errors| - 1))
      || (|errors| == 2 && e == RecoveryError(errors[1]) && AllOriginal(before, d))
      || (|errors| == 1 && e == RecoveryError(errors[0]) && d.config == ConfigWithout(before, i.context))
  }

  /** So an error reports a pending deletion exactly in these three cases. */
  lemma ToldPendingIff(before: Durable, i: Intent, d: Durable, errors: seq<Error>, e: Error)
    requires Told(before, i, d, errors, Some(e)) && IntentFor(before, i)
    ensures Matches(e, DeletionPending) <==> |errors| > 1 || Matches(errors[0], DeletionPending) || d.config == ConfigWithout(before, i.context)
  {
    SavedIsNotOriginal(before, i);
  }

  /** Saving without the context always changes the file. */
  lemma SavedIsNotOriginal(before: Durable, i: Intent)
    requires IntentFor(before, i)
    ensures ConfigWithout(before, i.context) != before.config
  {
    var c := ConfigWithout(before, i.context);
    assert i.context !in c.contexts;
  }

  lemma RollbackIsTold(before: Durable, i: Intent, snap: Snapshot, n: nat, failed: set<nat>, d: Durable,
                       r: Error, phase: string, cause: Error, errors: seq<Error>)
    requires RolledBack(r, phase, cause, errors, before, i, d) && Undoes(before, i, snap)
    requires Restored(i, snap, 0, n, failed, d) && |failed| <= |errors|
    requires forall j :: n <= j < |i.secrets| ==> SecretIntact(before, d, SecretKey(i, j))
    ensures Told(before, i, d, [cause] + errors, Some(r))
  {
    assert ([cause] + errors)[1..] == errors;
    assert BackExcept(before, i, d, failed);
  }

  // ----- The forward transaction -----

  /** Every managed value is deleted; the context is still registered. */
  ghost predicate ValuesGone(before: Durable, i: Intent, d: Durable)
  {
    && d.intent == Some(i) && OwnersKnown(i) && IntentFor(before, i) && Between(before, i, d)
    && d.envs == EnvsCleared(before, i.context)
    && forall j :: 0 <= j < |i.secrets| ==> SecretKey(i, j) !in d.secrets
  }

  lemma EnvsDeleted(before: Durable, i: Intent, d: Durable)
    requires Forward(before, i, |i.secrets|, d) && IntentFor(before, i)
    ensures WithoutEnvs(d, i.context, i.envNames) == d.(envs := EnvsCleared(before, i.context))
    ensures ValuesGone(before, i, d.(envs := EnvsCleared(before, i.context)))
    ensures Undoing(before, i, |i.secrets|, d.(envs := EnvsCleared(before, i.context)))
  {
    var d' := d.(envs := EnvsCleared(before, i.context));
    assert WithoutEnvs(d, i.context, i.envNames).envs == d'.envs;
    forall k ensures SecretIntact(before, d, k) <==> SecretIntact(before, d', k) { }
    forall k ensures SecretHeld(before, i, d, k) <==> SecretHeld(before, i, d', k) { }
  }

  lemma ConfigSaved(before: Durable, i: Intent, d: Durable)
    requires ValuesGone(before, i, d)
    ensures ValuesGone(before, i, d.(config := ConfigWithout(before, i.context)))
  {
    var d' := d.(config := ConfigWithout(before, i.context));
    forall k ensures SecretIntact(before, d, k) <==> SecretIntact(before, d', k) { }
    forall k ensures SecretHeld(before, i, d, k) <==> SecretHeld(before, i, d', k) { }
  }

  lemma DirRemoved(before: Durable, i: Intent, d: Durable, ok: bool, d': Durable)
    requires ValuesGone(before, i, d) && DirEffect(d, i.context, ok, d')
    ensures ValuesGone(before, i, d')
  {
    forall k ensures SecretIntact(before, d, k) <==> SecretIntact(before, d', k) { }
    forall k ensures SecretHeld(before, i, d, k) <==> SecretHeld(before, i, d', k) { }
  }

  /** Removes the directory and then the intent, both after the configuration is saved. */
  method FinishContextDeletion(s: Stores, target: string) returns (r: Option<Error>, ghost unlinked: Durable, ghost errors: seq<Error>)
    modifies s
    ensures DirEffect(old(s.disk), target, r.None? || |s.history| > |old(s.history)| + 1, unlinked)
    ensures s.disk == unlinked.(intent := s.disk.intent) && s.disk.intent in {None, old(s.disk).intent}
    ensures s.history == old(s.history) + [unlinked, s.disk] || (s.history == old(s.history) + [unlinked] && s.disk == unlinked && r.Some?)
    ensures r.None? ==> s.disk.intent == None
    ensures r.Some? ==> Matches(r.value, DeletionPending)
    ensures s.Counted(errors)
    ensures match r case None => errors == [] case Some(e) => |errors| == 1 && e == RecoveryError(errors[0])
  {
    var e := s.RemoveDir(target);
    unlinked := s.disk;
    if e.Some? { return Some(RecoveryError(e.value)), unlinked, [e.value]; }
    e := s.ClearIntent();
    r, errors := if e.Some? then Some(RecoveryError(e.value)) else None, Errors(e);
  }

  /** Every state of the finish is safe; once the intent is gone, so is everything else. */
  lemma FinishIsSafe(before: Durable, i: Intent, d: Durable, ok: bool, unlinked: Durable, intent: Option<Intent>)
    requires ValuesGone(before, i, d) && d.config == ConfigWithout(before, i.context)
    requires DirEffect(d, i.context, ok, unlinked)
    requires intent == Some(i) || (ok && intent == None)
    ensures CrashSafe(before, i, unlinked) && CrashSafe(before, i, unlinked.(intent := intent))
    ensures intent == None ==> AllGone(before, i, unlinked.(intent := intent))
  {
    DirRemoved(before, i, d, ok, unlinked);
    if ok { EmptiedIsGone(before, i, unlinked); }
    MarkerIrrelevant(before, i, unlinked, intent);
  }

  /** The intent is durable before anything has changed, so the transaction may start. */
  lemma IntentWritten(before: Durable, snap: Snapshot, d: Durable, i: Intent, d': Durable)
    requires Quiet(before, d) && IntentFor(before, i) && SnapshotOf(before, d, i.context, snap)
    requires i == BuildIntent(Load(before.config), i.context, snap)
    requires d' == d.(intent := d'.intent) && (d'.intent == None || (d'.intent == Some(i) && OwnersKnown(i)))
    ensures CrashSafe(before, i, d')
    ensures d'.intent.Some? ==> Forward(before, i, 0, d')
  {
    MarkerIrrelevant(before, i, d, d'.intent);
    if d'.intent.Some? {
      forall j | 0 <= j < |i.secrets| ensures SecretKey(i, j) in d.secrets && d.secrets[SecretKey(i, j)].backend == i.secrets[j].backend {
        assert Captured(before, d, i.context, snap.secrets[j]);
      }
      OriginalIsBetween(before, i, d');
    }
  }

  /** Rolls back after the operation that failed with `cause`. */
  method Abort(s: Stores, target: string, snap: Snapshot, attempted: nat, restoreEnv: bool,
               phase: string, cause: Error, ghost before: Durable, ghost i: Intent)
    returns (r: Error, ghost errors: seq<Error>)
    requires i.context == target && IntentFor(before, i) && Undoes(before, i, snap) && attempted <= |snap.secrets|
    requires Undoing(before, i, attempted, s.disk) && (!restoreEnv ==> s.disk.envs == before.envs)
    requires s.raised != [] && s.raised[|s.raised| - 1] == cause
    modifies s
    ensures StaysSafe(s, before, i)
    ensures errors != [] && errors[0] == cause && s.raised == old(s.raised) + errors[1..] && s.faults == old(s.faults) + |errors| - 1
    ensures Told(before, i, s.disk, errors, Some(r))
    ensures s.disk.intent.Some? ==> Matches(r, DeletionPending)
    ensures !Matches(r, DeletionPending) ==> AllOriginal(before, s.disk)
  {
    ghost var more, failed;
    r, more, failed := RollbackContextValues(s, target, snap, attempted, restoreEnv, phase, cause, before, i);
    RollbackIsTold(before, i, snap, attempted, failed, s.disk, r, phase, cause, more);
    errors := [cause] + more;
    assert errors[1..] == more;
  }

  /** Environment values, then the configuration, then the directory and the intent. */
  method DeleteRemaining(s: Stores, cfg: Config, target: string, snap: Snapshot, ghost before: Durable, ghost i: Intent)
    returns (r: Option<Error>, ghost errors: seq<Error>)
    requires cfg == Load(before.config) && i.context == target && IntentFor(before, i) && Undoes(before, i, snap)
    requires Forward(before, i, |i.secrets|, s.disk)
    modifies s
    ensures StaysSafe(s, before, i)
    ensures r.None? ==> s.disk.intent == None && AllGone(before, i, s.disk)
    ensures r.Some? && !Matches(r.value, DeletionPending) ==> s.disk.intent == None && AllOriginal(before, s.disk)
    ensures s.disk.intent.Some? ==> r.Some? && Matches(r.value, DeletionPending)
    ensures s.Counted(errors) && Told(before, i, s.disk, errors, r)
  {
    EnvsDeleted(before, i, s.disk);
    var e := s.DeleteEnvs(target, EnvNames(snap.envs));
    if e.Some? {
      var failed;
      failed, errors := Abort(s, target, snap, |snap.secrets|, false, "environment deletion", e.value, before, i);
      return Some(failed), errors;
    }
    r, errors := SaveAndFinish(s, cfg, target, snap, before, i);
  }

  /** The configuration, then the directory and the intent. */
  method SaveAndFinish(s: Stores, cfg: Config, target: string, snap: Snapshot, ghost before: Durable, ghost i: Intent)
    returns (r: Option<Error>, ghost errors: seq<Error>)
    requires cfg == Load(before.config) && i.context == target && IntentFor(before, i) && Undoes(before, i, snap)
    requires ValuesGone(before, i, s.disk) && Undoing(before, i, |i.secrets|, s.disk)
    modifies s
    ensures StaysSafe(s, before, i)
    ensures r.None? ==> s.disk.intent == None && AllGone(before, i, s.disk)
    ensures r.Some? && !Matches(r.value, DeletionPending) ==> s.disk.intent == None && AllOriginal(before, s.disk)
    ensures s.disk.intent.Some? ==> r.Some? && Matches(r.value, DeletionPending)
    ensures s.Counted(errors) && Told(before, i, s.disk, errors, r)
  {
    ConfigSaved(before, i, s.disk);
    var e := s.SaveConfig(Unregister(cfg, target));
    if e.Some? {
      var failed;
      failed, errors := Abort(s, target, snap, |snap.secrets|, true, "config persistence", e.value, before, i);
      return Some(failed), errors;
    }
    ghost var d := s.disk;
    ghost var unlinked;
    r, unlinked, errors := FinishContextDeletion(s, target);
    FinishIsSafe(before, i, d, r.None? || s.disk.intent == None, unlinked, s.disk.intent);
  }

  /** Deletes the snapshotted secrets in order until one fails. The failed one counts as attempted. */
  method DeleteSnapshottedSecrets(s: Stores, target: string, snap: Snapshot, ghost before: Durable, ghost i: Intent)
    returns (attempted: nat, e: Option<Error>)
    requires i.context == target && IntentFor(before, i) && Undoes(before, i, snap) && Forward(before, i, 0, s.disk)
    modifies s
    ensures StaysSafe(s, before, i) && attempted <= |snap.secrets|
    ensures e.None? ==> Forward(before, i, |i.secrets|, s.disk)
    ensures e.Some? ==> Undoing(before, i, attempted, s.disk) && s.disk.envs == before.envs
    ensures s.Reported(e)
  {
    attempted, e := 0, None;
    while attempted < |snap.secrets|
      invariant attempted <= |snap.secrets| && Forward(before, i, attempted, s.disk) && StaysSafe(s, before, i)
      invariant s.faults == old(s.faults) && s.raised == old(s.raised) && e.None?
    {
      ghost var d := s.disk;
      assert Key(target, snap.secrets[attempted].name) == SecretKey(i, attempted);
      e := s.DeleteSecret(Key(target, snap.secrets[attempted].name));
      DeleteStep(before, i, attempted, d, e.None?, s.disk);
      attempted := attempted + 1;
      if e.Some? {
        return;
      }
    }
  }

  /** Everything that follows the durable intent. */
  method DeleteSnapshotted(s: Stores, cfg: Config, target: string, snap: Snapshot, ghost before: Durable, ghost i: Intent)
    returns (r: Option<Error>, ghost errors: seq<Error>)
    requires cfg == Load(before.config) && i.context == target && IntentFor(before, i) && Undoes(before, i, snap)
    requires Forward(before, i, 0, s.disk)
    modifies s
    ensures StaysSafe(s, before, i)
    ensures r.None? ==> s.disk.intent == None && AllGone(before, i, s.disk)
    ensures r.Some? && !Matches(r.value, DeletionPending) ==> s.disk.intent == None && AllOriginal(before, s.disk)
    ensures s.disk.intent.Some? ==> r.Some? && Matches(r.value, DeletionPending)
    ensures s.Counted(errors) && Told(before, i, s.disk, errors, r)
  {
    var attempted, e := DeleteSnapshottedSecrets(s, target, snap, before, i);
    if e.Some? {
      var failed;
      failed, errors := Abort(s, target, snap, attempted, false, "secret deletion", e.value, before, i);
      return Some(failed), errors;
    }
    r, errors := DeleteRemaining(s, cfg, target, snap, before, i);
  }

  /** A binding does not parse: nothing but reading has happened. */
  ghost predicate Unparsable(before: Durable, bindings: seq<string>, d: Durable, errors: seq<Error>, r: Option<Error>)
  {
    && errors == [] && r.Some? && Plain(r.value, StoreError({}))
    && d.intent == None && AllOriginal(before, d) && exists b :: b in bindings && ParseRef(b).None?
  }

  /**
   Deletes the managed values, the registration and the directory of `target`, or puts everything
   back. Whatever fails and wherever the process dies, no state is left in which values are
   missing and no intent says so.
   */
  method DeleteContextValues(s: Stores, cfg: Config, target: string) returns (r: Option<Error>, ghost i: Intent, ghost errors: seq<Error>)
    requires s.disk.intent == None && cfg == Load(s.disk.config)
    requires target in cfg.contexts && target != DEFAULT_CONTEXT && target != ""
    modifies s
    ensures i.context == target && StaysSafe(s, old(s.disk), i)
    ensures r.None? ==> s.disk.intent == None && IntentFor(old(s.disk), i) && AllGone(old(s.disk), i, s.disk)
    ensures r.Some? && !Matches(r.value, DeletionPending) ==> s.disk.intent == None && AllOriginal(old(s.disk), s.disk)
    ensures s.disk.intent.Some? ==> r.Some? && Matches(r.value, DeletionPending)
    ensures s.raised == old(s.raised) + errors
    ensures Told(old(s.disk), i, s.disk, errors, r) || Unparsable(old(s.disk), cfg.contexts[target].secrets, s.disk, errors, r)
    ensures r.None? ==> forall b :: b in cfg.contexts[target].secrets ==> Readable(old(s.disk), target, b)
    ensures (forall b :: b in cfg.contexts[target].secrets ==> Readable(old(s.disk), target, b) && OwnerRecorded(old(s.disk), target, b)) ==>
              s.faults == old(s.faults) ==> r.None?
  {
    ghost var before := s.disk;
    i := Intent(target, EMPTY_CONTEXT, [], []);
    var snapshot := SnapshotContextValues(s, cfg, target);
    errors := s.raised[|old(s.raised)|..];
    if snapshot.Err? { return Some(snapshot.error), i, errors; }
    var snap := snapshot.value;
    var intent := BuildIntent(cfg, target, snap);
    i := intent;
    SnapshotIntent(before, s.disk, target, snap);
    ghost var d := s.disk;
    var e := s.WriteIntent(intent);
    IntentWritten(before, snap, d, i, s.disk);
    if e.Some? { return Some(CleanupError("deletion intent persistence", e.value, None, false)), i, [e.value]; }
    r, errors := DeleteSnapshotted(s, cfg, target, snap, before, i);
  }
}
