/** Turning a plaintext environment value into a secret, with compensation. */
module SecretConversion {
  import opened Basics
  import opened ContextStores
  import opened ValueStores

  /** `Incomplete` reports whether the original secret could be restored. */
  datatype Outcome = Done | Failed | Incomplete(restored: bool)

  /** What every intermediate state keeps: no value is lost and nothing else is touched. */
  ghost predicate NothingLost(before: Vault, key: Key, value: string, d: Vault)
  {
    && d.config == before.config
    && d.secrets - {key} == before.secrets - {key} && d.envs - {key} == before.envs - {key}
    && (key in before.envs ==> if key in d.envs then d.envs[key] == before.envs[key] else key in d.secrets && d.secrets[key] == Some(value))
    && (key in d.envs ==> key in before.envs)
    && (key in before.secrets ==> key in d.secrets && d.secrets[key] in {before.secrets[key], Some(value)})
    && (key in d.secrets && key !in before.secrets ==> d.secrets[key] in {None, Some(value)})
  }

  ghost predicate NothingLostSince(before: Vault, key: Key, value: string, history: seq<Vault>, from: nat)
  {
    forall n | from <= n < |history| :: NothingLost(before, key, value, history[n])
  }

  lemma SetLosesNothing(before: Vault, key: Key, value: string, ok: bool, d: Vault)
    requires SetEffect(before, key, value, ok, d)
    ensures NothingLost(before, key, value, d)
  {
  }

  lemma CleanupLosesNothing(before: Vault, key: Key, value: string)
    ensures NothingLost(before, key, value, before.(secrets := before.secrets[key := Some(value)], envs := before.envs - {key}))
  {
  }

  /** Undoing the write while the plaintext is still there loses nothing, and restores everything when it succeeds. */
  lemma RestorationLosesNothing(before: Vault, key: Key, value: string, previous: Option<string>, failure: Option<Failure>, d: Vault)
    requires key in before.envs
    requires if key in before.secrets then before.secrets[key] == previous && previous.Some? else previous.None?
    requires var written := before.(secrets := before.secrets[key := Some(value)]);
             if previous.Some? then SetEffect(written, key, previous.value, failure.None?, d) else RemoveEffect(written, key, failure, d)
    ensures NothingLost(before, key, value, d) && d.envs == before.envs
    ensures failure.None? ==> d == before
  {
    if failure.None? {
      assert d.secrets == before.secrets;
    }
  }

  /** How to undo the first write: remove the new secret, or put the previous value back. */
  method SecretRestoration(v: Values, key: Key) returns (r: Result<Option<string>, Failure>)
    modifies v
    ensures v.at == old(v.at) && old(v.history) <= v.history
    ensures forall n | |old(v.history)| <= n < |v.history| :: v.history[n] == v.at
    ensures r.Ok? ==> r.value == if key in v.at.secrets then v.at.secrets[key] else None
    ensures r.Ok? && key in v.at.secrets ==> r.value.Some?
    ensures old(v.faults) <= v.faults <= old(v.faults) + (if r.Ok? then 0 else 1)
    ensures v.faults == old(v.faults) ==> (r.Ok? <==> key in v.at.secrets ==> v.at.secrets[key].Some?)
  {
    var present := v.SecretMeta(key);
    if present.Err? {
      return Err(present.error);
    }
    if !present.value {
      return Ok(None);
    }
    var previous := v.GetSecret(key);
    if previous.Err? {
      return Err(previous.error);
    }
    return Ok(Some(previous.value));
  }

  method Restore(v: Values, key: Key, previous: Option<string>) returns (ok: bool, ghost failure: Option<Failure>)
    modifies v
    ensures v.history == old(v.history) + [v.at] && v.faults == old(v.faults) + (if ok then 0 else 1) && ok == failure.None?
    ensures if previous.Some? then SetEffect(old(v.at), key, previous.value, ok, v.at) else RemoveEffect(old(v.at), key, failure, v.at)
  {
    if previous.None? {
      var f := v.DeleteSecret(key);
      return f.None?, f;
    }
    ok := v.SetSecret(key, previous.value);
    failure := if ok then None else Some(Indeterminate);
  }

  /** Without an operation failing, only a secret whose previous value is lost cannot take over a variable's name. */
  predicate Convertible(d: Vault, key: Key)
  {
    key in d.envs && key in d.secrets ==> d.secrets[key].Some?
  }

  method SetSecretValue(v: Values, key: Key, value: string) returns (r: Outcome)
    modifies v
    ensures v.Went() && NothingLostSince(old(v.at), key, value, v.history, |old(v.history)|)
    ensures NothingLost(old(v.at), key, value, v.at)
    ensures r.Done? ==> v.at == old(v.at).(secrets := old(v.at).secrets[key := Some(value)], envs := old(v.at).envs - {key})
    ensures r == Incomplete(true) ==> v.at == old(v.at)
    ensures !r.Done? ==> v.at.envs == old(v.at).envs
    ensures r.Failed? ==> SetEffect(old(v.at), key, value, false, v.at)
    ensures r.Incomplete? ==> key in old(v.at).envs
    ensures v.faults >= old(v.faults)
    ensures v.faults == old(v.faults) ==> (r.Done? <==> Convertible(old(v.at), key))
    ensures match r
            case Done => v.faults == old(v.faults)
            case Failed => v.faults == old(v.faults) + 1 || (v.faults == old(v.faults) && v.at == old(v.at))
            case Incomplete(restored) => v.faults == old(v.faults) + (if restored then 1 else 2)
  {
    ghost var before := v.at;
    var plaintext := v.EnvMeta(key);
    if plaintext.Err? {
      return Failed;
    }
    SetLosesNothing(before, key, value, false, before);
    if !plaintext.value {
      var ok := v.SetSecret(key, value);
      SetLosesNothing(before, key, value, ok, v.at);
      assert before.envs - {key} == before.envs;
      return if ok then Done else Failed;
    }
    var previous := SecretRestoration(v, key);
    if previous.Err? {
      return Failed;
    }
    var written := v.SetSecret(key, value);
    SetLosesNothing(before, key, value, written, v.at);
    if !written {
      return Failed;
    }
    r := RemovePlaintext(v, key, value, previous.value, before);
  }

  /** The secret is written; the plaintext goes, or else the secret is undone. */
  method RemovePlaintext(v: Values, key: Key, value: string, previous: Option<string>, ghost before: Vault) returns (r: Outcome)
    requires key in before.envs && v.at == before.(secrets := before.secrets[key := Some(value)])
    requires if key in before.secrets then before.secrets[key] == previous && previous.Some? else previous.None?
    modifies v
    ensures v.Went() && NothingLostSince(before, key, value, v.history, |old(v.history)|) && NothingLost(before, key, value, v.at)
    ensures match r
            case Done => v.at == before.(secrets := before.secrets[key := Some(value)], envs := before.envs - {key}) && v.faults == old(v.faults)
            case Failed => false
            case Incomplete(restored) =>
              && (restored ==> v.at == before) && v.at.envs == before.envs
              && v.faults == old(v.faults) + (if restored then 1 else 2)
  {
    SetLosesNothing(before, key, value, true, v.at);
    var removed := v.DeleteEnv(key);
    if !removed {
      var ok, failure := Restore(v, key, previous);
      RestorationLosesNothing(before, key, value, previous, failure, v.at);
      return Incomplete(ok);
    }
    CleanupLosesNothing(before, key, value);
    return Done;
  }
}
