/**
 The managed values and their bindings, and the contract of every operation on them. Time stamps and
 backend owners play no part here. Every operation may fail: `faults` counts the failures that the
 state did not call for, and `history` lists the state after each operation.
 */
module ValueStores {
  import opened Basics
  import opened ContextStores

  /** A catalogued secret may have lost its value. */
  datatype Vault = Vault(secrets: map<Key, Option<string>>, envs: map<Key, string>, config: Config)

  /** An error either left the original state or says that the state is unknown. */
  datatype Failure = Plain | Indeterminate

  /** Loading with the --context flag remembers the persisted default. */
  function LoadWith(file: Config, contextFlag: string): Config
  {
    if contextFlag == "" then Load(file)
    else
      var contexts := if contextFlag in file.contexts then file.contexts else file.contexts[contextFlag := EMPTY_CONTEXT];
      Config(contexts, contextFlag, file.defaultContext)
  }

  /**
   Loading selects the context of the flag, or else the persisted default, or else `default`, and registers
   it in memory if it is not. All registered contexts are as in the file.
   */
  lemma LoadingSelects(file: Config, contextFlag: string)
    ensures var c := LoadWith(file, contextFlag);
            && c.defaultContext == (if contextFlag != "" then contextFlag else if file.defaultContext != "" then file.defaultContext else "default")
            && c.contexts.Keys == file.contexts.Keys + {c.defaultContext}
            && (forall x | x in file.contexts :: c.contexts[x] == file.contexts[x])
            && (c.defaultContext !in file.contexts ==> c.contexts[c.defaultContext] == EMPTY_CONTEXT)
  {
  }

  /**
   Saving what was loaded for the flag keeps the persisted default, except that a file without one takes
   over the context of the flag.
   */
  lemma FlagIsNotSavedIff(file: Config, contextFlag: string)
    ensures var saved := Persisted(LoadWith(file, contextFlag));
            Load(saved).defaultContext == Load(file).defaultContext <==>
              contextFlag in {"", "default"} || file.defaultContext != ""
  {
  }

  /** A failed write may have replaced the value of a secret, but creates and removes nothing. */
  predicate SetEffect(d: Vault, key: Key, value: string, ok: bool, d': Vault)
  {
    || (d' == d.(secrets := d.secrets[key := Some(value)]) && (ok || key in d.secrets))
    || (d' == d && !ok)
  }

  predicate RemoveEffect(d: Vault, key: Key, failure: Option<Failure>, d': Vault)
  {
    match failure
    case None => d' == d.(secrets := d.secrets - {key})
    case Some(Plain) => d' == d
    case Some(Indeterminate) =>
      || d' == d
      || d' == d.(secrets := d.secrets - {key})
      || (key in d.secrets && d' == d.(secrets := d.secrets[key := None]))
  }

  /** `losses` counts the failures that left a secret in an unknown state. */
  class Values {
    var at: Vault
    ghost var history: seq<Vault>
    ghost var faults: nat
    ghost var losses: nat

    twostate predicate Moved(fault: bool)
      reads this
    {
      Ended(fault, false)
    }

    twostate predicate Ended(fault: bool, lost: bool)
      reads this
    {
      && history == old(history) + [at]
      && faults == old(faults) + (if fault then 1 else 0)
      && losses == old(losses) + (if lost then 1 else 0)
    }

    /** Any number of steps: the last state was durable too. */
    twostate predicate Went()
      reads this
    {
      old(history) <= history && at == if |history| == |old(history)| then old(at) else history[|history| - 1]
    }

    /** Nothing but the first and the last state was durable. */
    twostate predicate Switched()
      reads this
    {
      && Went()
      && forall n | |old(history)| <= n < |history| :: history[n] == old(at) || history[n] == at
    }

    method Step(next: Vault, ghost fault: bool)
      modifies this
      ensures at == next && Moved(fault)
    {
      at := next;
      history := history + [at];
      faults := faults + (if fault then 1 else 0);
    }

    method SetSecret(key: Key, value: string) returns (ok: bool)
      modifies this
      ensures Moved(!ok) && SetEffect(old(at), key, value, ok, at)
    {
      var written: bool := *;
      ok := *;
      var next := at.(secrets := at.secrets[key := Some(value)]);
      Step(if ok || (written && key in at.secrets) then next else at, !ok);
    }

    method SecretMeta(key: Key) returns (r: Result<bool, Failure>)
      modifies this
      ensures Moved(r.Err?) && at == old(at) && (r.Ok? ==> r.value == (key in at.secrets))
    {
      var failed: bool := *;
      Step(at, failed);
      r := if failed then Err(Plain) else Ok(key in at.secrets);
    }

    method GetSecret(key: Key) returns (r: Result<string, Failure>)
      modifies this
      ensures Moved(r.Err? && key in at.secrets && at.secrets[key].Some?) && at == old(at)
      ensures r.Ok? ==> key in at.secrets && at.secrets[key] == Some(r.value)
    {
      var failed: bool := *;
      Step(at, failed && key in at.secrets && at.secrets[key].Some?);
      if failed || key !in at.secrets || at.secrets[key].None? {
        return Err(Plain);
      }
      return Ok(at.secrets[key].value);
    }

    method DeleteSecret(key: Key) returns (failure: Option<Failure>)
      modifies this
      ensures Ended(failure.Some?, failure == Some(Indeterminate)) && RemoveEffect(old(at), key, failure, at)
    {
      var next: Vault := *;
      failure := *;
      if !RemoveEffect(at, key, failure, next) {
        next, failure := at, Some(Plain);
      }
      Step(next, failure.Some?);
      losses := losses + (if failure == Some(Indeterminate) then 1 else 0);
    }

    method EnvMeta(key: Key) returns (r: Result<bool, Failure>)
      modifies this
      ensures Moved(r.Err?) && at == old(at) && (r.Ok? ==> r.value == (key in at.envs))
    {
      var failed: bool := *;
      Step(at, failed);
      r := if failed then Err(Plain) else Ok(key in at.envs);
    }

    /** env.yaml is replaced atomically. */
    method SetEnv(key: Key, value: string) returns (ok: bool)
      modifies this
      ensures Moved(!ok) && at == if ok then old(at).(envs := old(at).envs[key := value]) else old(at)
    {
      ok := *;
      Step(if ok then at.(envs := at.envs[key := value]) else at, !ok);
    }

    method DeleteEnv(key: Key) returns (ok: bool)
      modifies this
      ensures Moved(!ok) && at == if ok then old(at).(envs := old(at).envs - {key}) else old(at)
    {
      ok := *;
      Step(if ok then at.(envs := at.envs - {key}) else at, !ok);
    }

    method LoadConfig(contextFlag: string) returns (r: Result<Config, Failure>)
      modifies this
      ensures Moved(r.Err?) && at == old(at) && (r.Ok? ==> r.value == LoadWith(at.config, contextFlag))
    {
      var failed: bool := *;
      Step(at, failed);
      r := if failed then Err(Plain) else Ok(LoadWith(at.config, contextFlag));
    }

    method SaveConfig(c: Config) returns (ok: bool)
      modifies this
      ensures Moved(!ok) && at == if ok then old(at).(config := Persisted(c)) else old(at)
    {
      ok := *;
      Step(if ok then at.(config := Persisted(c)) else at, !ok);
    }
  }
}
