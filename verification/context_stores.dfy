/**
 The durable resources a context deletion touches, and the contract of every operation on them.
 Each operation may fail, and what a failure leaves behind is chosen arbitrarily among the states
 its contract allows. A crash may follow any operation: `history` lists the durable state after each.
 A crash within an operation leaves a state that a failure of the same operation can leave.
 */
module ContextStores {
  import opened Basics

  const DEFAULT_CONTEXT := "default"

  datatype Key = Key(context: string, name: string)

  /** The backend that owns a secret's value; legacy catalog entries may not record one. */
  datatype Backend = Unrecorded | File | Keyring

  /** A catalog entry. A failed mutation can lose the backend's value and keep the entry. */
  datatype Secret = Secret(backend: Backend, value: Option<string>, lastUsed: int)

  datatype EnvValue = EnvValue(value: string, created: int, lastUsed: int)

  datatype ContextConfig = ContextConfig(secrets: seq<string>, envVars: seq<string>, settings: map<string, string>)

  /** `originalContext` is the persisted default while an override is in effect, else empty. */
  datatype Config = Config(contexts: map<string, ContextConfig>, defaultContext: string, originalContext: string)

  datatype SecretRecord = SecretRecord(name: string, backend: Backend)

  /**
   The durable deletion intent: identifiers only, never values. The collision-free digest of the
   registered context is modelled by the content it digests.
   */
  datatype Intent = Intent(context: string, fingerprint: ContextConfig, secrets: seq<SecretRecord>, envNames: seq<string>)

  /** The intent file only accepts secrets with a known owning backend. */
  predicate OwnersKnown(i: Intent)
  {
    forall j :: 0 <= j < |i.secrets| ==> i.secrets[j].backend != Unrecorded
  }

  datatype EnvSnapshot = EnvSnapshot(name: string, entry: EnvValue)

  datatype SecretMeta = SecretMeta(backend: Backend, lastUsed: int)

  /** Everything that survives a crash. A context directory is modelled by the files in it. */
  datatype Durable = Durable(
    secrets: map<Key, Secret>,
    envs: map<Key, EnvValue>,
    config: Config,
    dirs: map<string, set<string>>,
    intent: Option<Intent>)

  datatype Sentinel = DeletionPending | CleanupIndeterminate | SecretNotFound

  /** Errors as `errors.Is` sees them: a store error matches an arbitrary set of sentinels. */
  datatype Error =
    | StoreError(matches: set<Sentinel>)
    | CleanupError(phase: string, cause: Error, rollback: Option<Error>, recoveryPending: bool)
    | RecoveryError(cause: Error)
    | Joined(errors: seq<Error>)

  predicate Matches(e: Error, s: Sentinel)
  {
    match e
    case StoreError(matches) => s in matches
    case CleanupError(_, cause, None, _) => Matches(cause, s)
    case CleanupError(_, cause, Some(rollback), pending) =>
      || s == CleanupIndeterminate
      || Matches(cause, s)
      || Matches(rollback, s)
      || (pending && s == DeletionPending)
    case RecoveryError(cause) => s == DeletionPending || Matches(cause, s)
    case Joined(errors) => exists i :: 0 <= i < |errors| && Matches(errors[i], s)
  }

  // ----- Configuration -----

  const EMPTY_CONTEXT := ContextConfig([], [], map[])

  /** What loading makes of the persisted file: a default context always exists in memory. */
  function Load(file: Config): Config
  {
    var name := if file.defaultContext == "" then DEFAULT_CONTEXT else file.defaultContext;
    var contexts := if name in file.contexts then file.contexts else file.contexts[name := EMPTY_CONTEXT];
    Config(contexts, name, "")
  }

  /** What saving writes to the file: an overridden default is not persisted. */
  function Persisted(c: Config): Config
  {
    Config(c.contexts, if c.originalContext != "" then c.originalContext else c.defaultContext, "")
  }

  function ResetReferences(c: Config, context: string): Config
  {
    var d := if c.defaultContext == context then c.(defaultContext := DEFAULT_CONTEXT) else c;
    if d.originalContext == context then d.(originalContext := DEFAULT_CONTEXT) else d
  }

  /** The candidate configuration a deletion saves. */
  function Unregister(c: Config, context: string): Config
  {
    ResetReferences(c.(contexts := c.contexts - {context}), context)
  }

  // ----- Contracts of the stores -----

  /** Reading or deleting through the store may record the proven owner of a legacy entry. */
  predicate Repaired(a: Secret, b: Secret)
  {
    b.value == a.value && b.lastUsed == a.lastUsed && (b.backend == a.backend || a.backend == Unrecorded)
  }

  predicate RepairedExcept(m: map<Key, Secret>, m': map<Key, Secret>, key: Key)
  {
    && (forall k :: k in m' && k != key ==> k in m)
    && (forall k :: k in m && k != key ==> k in m' && Repaired(m[k], m'[k]))
  }

  /** A successful or failed read may stamp the entry and repair ownership; values never change. */
  predicate GetEffect(d: Durable, key: Key, d': Durable)
  {
    && d' == d.(secrets := d'.secrets)
    && RepairedExcept(d.secrets, d'.secrets, key)
    && (key in d'.secrets <==> key in d.secrets)
    && (key in d.secrets ==> Repaired(d.secrets[key].(lastUsed := d'.secrets[key].lastUsed), d'.secrets[key]))
  }

  /** The entry has its value and a known owner. */
  predicate Legible(d: Durable, key: Key)
  {
    key in d.secrets && d.secrets[key].value.Some? && d.secrets[key].backend != Unrecorded
  }

  /** A failed deletion may have removed the entry, or only the value behind it. */
  predicate DeleteEffect(d: Durable, key: Key, ok: bool, d': Durable)
  {
    && d' == d.(secrets := d'.secrets)
    && RepairedExcept(d.secrets, d'.secrets, key)
    && (key in d'.secrets ==>
          && !ok
          && key in d.secrets
          && var s := d.secrets[key].(value := d'.secrets[key].value);
          && (s.value == d.secrets[key].value || s.value == None)
          && Repaired(s, d'.secrets[key]))
  }

  /** A successful restoration reinstates metadata and value, keeping the recorded owner. */
  predicate RestoreEffect(d: Durable, key: Key, meta: SecretMeta, value: string, ok: bool, d': Durable)
  {
    && d' == d.(secrets := d'.secrets)
    && d'.secrets - {key} == d.secrets - {key}
    && (ok ==> meta.backend != Unrecorded && key in d'.secrets
               && d'.secrets[key] == Secret(meta.backend, Some(value), meta.lastUsed))
    && (!ok ==> (key in d'.secrets <==> key in d.secrets))
    && (!ok && key in d.secrets ==>
          || d'.secrets[key] == d.secrets[key]
          || (d.secrets[key].backend == meta.backend && d'.secrets[key] == d.secrets[key].(value := Some(value))))
  }

  predicate DirEffect(d: Durable, context: string, ok: bool, d': Durable)
  {
    && d' == d.(dirs := d'.dirs)
    && d'.dirs - {context} == d.dirs - {context}
    && (context in d'.dirs ==> !ok && context in d.dirs && d'.dirs[context] <= d.dirs[context])
  }

  /** Values of the context named in `names` are removed in one file replacement. */
  function WithoutEnvs(d: Durable, context: string, names: seq<string>): Durable
  {
    d.(envs := map k | k in d.envs && !(k.context == context && k.name in names) :: d.envs[k])
  }

  function WithEnvs(d: Durable, context: string, values: seq<EnvSnapshot>): Durable
  {
    if values == [] then d
    else
      var last := values[|values| - 1];
      var before := WithEnvs(d, context, values[..|values| - 1]);
      before.(envs := before.envs[Key(context, last.name) := last.entry])
  }

  /** The snapshot lists every value of the context exactly once. */
  predicate ListsEnvs(d: Durable, context: string, values: seq<EnvSnapshot>)
  {
    && (forall i, j :: 0 <= i < j < |values| ==> values[i].name != values[j].name)
    && (forall i :: 0 <= i < |values| ==>
          Key(context, values[i].name) in d.envs && d.envs[Key(context, values[i].name)] == values[i].entry)
    && (forall k :: k in d.envs && k.context == context ==> exists i :: 0 <= i < |values| && values[i].name == k.name)
  }

  /** The error an operation reported, if any. */
  function Errors(r: Option<Error>): seq<Error> { if r.None? then [] else [r.value] }

  /**
   The process-visible handles on the durable state, with their arbitrary failures. `raised` lists the
   errors that operations reported, in order; that an entry does not exist is none.
   */
  class Stores {
    var disk: Durable
    var history: seq<Durable>
    ghost var faults: nat
    ghost var raised: seq<Error>

    /** One operation ended: its resulting state is a possible crash state. */
    twostate predicate Logged(ok: bool)
      reads this
    {
      && history == old(history) + [disk]
      && faults == old(faults) + (if ok then 0 else 1)
    }

    /** It reports nothing but the error it failed with. */
    twostate predicate Ended(new r: Option<Error>)
      reads this
    {
      Logged(r.None?) && raised == old(raised) + Errors(r)
    }

    /** Several operations ended, of which exactly these errors were reported, each by a failure. */
    twostate predicate Counted(new errors: seq<Error>)
      reads this
    {
      raised == old(raised) + errors && faults == old(faults) + |errors|
    }

    twostate predicate Reported(new r: Option<Error>)
      reads this
    {
      Counted(Errors(r))
    }

    method OpenStores() returns (r: Option<Error>)
      modifies this
      ensures Ended(r) && disk == old(disk)
    {
      r := Failure();
      Finish(disk, r);
    }

    /** An operation may fail, with any error. */
    method Failure() returns (r: Option<Error>)
    {
      r := *;
    }

    /** Ends an operation in state `next`. */
    method Finish(next: Durable, r: Option<Error>)
      modifies this
      ensures disk == next && Ended(r)
    {
      disk := next;
      history := history + [disk];
      faults := faults + (if r.Some? then 1 else 0);
      raised := raised + Errors(r);
    }

    /** Ends an operation that the state refuses: an error, but no failure. */
    method Refuse(next: Durable) returns (e: Error)
      modifies this
      ensures disk == next && Logged(true) && raised == old(raised) + [e]
    {
      e := *;
      disk := next;
      history := history + [disk];
      raised := raised + [e];
    }

    method Meta(key: Key) returns (r: Result<SecretMeta, Error>)
      modifies this
      ensures Logged(r.Ok? || key !in disk.secrets) && disk == old(disk)
      ensures raised == old(raised) + (if r.Ok? || key !in disk.secrets then [] else [r.error])
      ensures r.Ok? ==> key in disk.secrets
                        && r.value == SecretMeta(disk.secrets[key].backend, disk.secrets[key].lastUsed)
      ensures r.Err? ==> (Matches(r.error, SecretNotFound) <==> key !in disk.secrets)
    {
      if key !in disk.secrets {
        Finish(disk, None);
        return Err(StoreError({SecretNotFound}));
      }
      var e := Failure();
      if e.Some? && Matches(e.value, SecretNotFound) { e := Some(StoreError({})); }
      Finish(disk, e);
      r := if e.None? then Ok(SecretMeta(disk.secrets[key].backend, disk.secrets[key].lastUsed)) else Err(e.value);
    }

    /** An entry without a value, or whose owner cannot be proven, is refused: that is no failure of the store. */
    method Get(key: Key) returns (r: Result<string, Error>)
      modifies this
      ensures Logged(r.Ok? || !Legible(old(disk), key)) && GetEffect(old(disk), key, disk)
      ensures raised == old(raised) + (if r.Ok? then [] else [r.error])
      ensures r.Ok? ==> Legible(disk, key) && disk.secrets[key].value == Some(r.value)
    {
      var e := Failure();
      var next: Durable := *;
      if !GetEffect(disk, key, next) { next := disk; }
      if !Legible(next, key) || (e.Some? && !Legible(disk, key)) {
        var refusal := Refuse(next);
        return Err(refusal);
      }
      var value := next.secrets[key].value.value;
      Finish(next, e);
      r := if e.None? then Ok(value) else Err(e.value);
    }

    method DeleteSecret(key: Key) returns (r: Option<Error>)
      modifies this
      ensures Ended(r) && DeleteEffect(old(disk), key, r.None?, disk)
    {
      r := Failure();
      var next: Durable := *;
      if !DeleteEffect(disk, key, r.None?, next) { next, r := disk, Some(StoreError({})); }
      Finish(next, r);
    }

    method RestoreSecret(key: Key, meta: SecretMeta, value: string) returns (r: Option<Error>)
      modifies this
      ensures Ended(r) && RestoreEffect(old(disk), key, meta, value, r.None?, disk)
    {
      r := Failure();
      var next: Durable := *;
      if !RestoreEffect(disk, key, meta, value, r.None?, next) { next, r := disk, Some(StoreError({})); }
      Finish(next, r);
    }

    method ListEnvs(context: string) returns (r: Result<seq<EnvSnapshot>, Error>)
      modifies this
      ensures Ended(if r.Ok? then None else Some(r.error)) && disk == old(disk)
      ensures r.Ok? ==> ListsEnvs(disk, context, r.value)
    {
      var e := Failure();
      var values: seq<EnvSnapshot> := *;
      if !ListsEnvs(disk, context, values) && e.None? { e := Some(StoreError({})); }
      Finish(disk, e);
      r := if e.None? then Ok(values) else Err(e.value);
    }

    method DeleteEnvs(context: string, names: seq<string>) returns (r: Option<Error>)
      modifies this
      ensures Ended(r)
      ensures disk == if r.None? then WithoutEnvs(old(disk), context, names) else old(disk)
    {
      r := Failure();
      Finish(if r.Some? then disk else WithoutEnvs(disk, context, names), r);
    }

    method RestoreEnvs(context: string, values: seq<EnvSnapshot>) returns (r: Option<Error>)
      modifies this
      ensures Ended(r)
      ensures disk == if r.None? then WithEnvs(old(disk), context, values) else old(disk)
    {
      r := Failure();
      Finish(if r.Some? then disk else WithEnvs(disk, context, values), r);
    }

    /** The configuration file is replaced atomically; every failure precedes the replacement. */
    method SaveConfig(c: Config) returns (r: Option<Error>)
      modifies this
      ensures Ended(r)
      ensures disk == if r.None? then old(disk).(config := Persisted(c)) else old(disk)
    {
      r := Failure();
      Finish(if r.Some? then disk else disk.(config := Persisted(c)), r);
    }

    method LoadConfig() returns (r: Result<Config, Error>)
      modifies this
      ensures Ended(if r.Ok? then None else Some(r.error)) && disk == old(disk)
      ensures r.Ok? ==> r.value == Load(disk.config)
    {
      var e := Failure();
      Finish(disk, e);
      r := if e.None? then Ok(Load(disk.config)) else Err(e.value);
    }

    method RemoveDir(context: string) returns (r: Option<Error>)
      modifies this
      ensures Ended(r) && DirEffect(old(disk), context, r.None?, disk)
    {
      r := Failure();
      var next: Durable := *;
      if !DirEffect(disk, context, r.None?, next) { next, r := disk, Some(StoreError({})); }
      Finish(next, r);
    }

    method ReadIntent() returns (r: Result<Option<Intent>, Error>)
      modifies this
      ensures Ended(if r.Ok? then None else Some(r.error)) && disk == old(disk)
      ensures r.Ok? ==> r.value == disk.intent
    {
      var e := Failure();
      Finish(disk, e);
      r := if e.None? then Ok(disk.intent) else Err(e.value);
    }

    /**
     An intent whose secrets lack an owner is refused. A failure that does not report a pending
     deletion left no intent behind: the file was never installed, or its removal is durable.
     Otherwise either state may remain.
     */
    method WriteIntent(i: Intent) returns (r: Option<Error>)
      modifies this
      ensures Logged(r.None? || !OwnersKnown(i)) && disk == old(disk).(intent := disk.intent)
      ensures raised == old(raised) + Errors(r)
      ensures disk.intent == old(disk).intent || (disk.intent == Some(i) && OwnersKnown(i))
      ensures r.None? ==> disk.intent == Some(i) && OwnersKnown(i)
      ensures r.Some? && !Matches(r.value, DeletionPending) ==> disk == old(disk)
    {
      if !OwnersKnown(i) {
        var refusal := Refuse(disk);
        return Some(refusal);
      }
      var stuck: bool := *;
      r := Failure();
      if r.Some? && stuck { r := Some(RecoveryError(r.value)); }
      Finish(if r.Some? && !stuck then disk else disk.(intent := Some(i)), r);
    }

    method ClearIntent() returns (r: Option<Error>)
      modifies this
      ensures Ended(r) && disk == old(disk).(intent := disk.intent)
      ensures disk.intent in {None, old(disk).intent}
      ensures r.None? ==> disk.intent == None
    {
      var stuck: bool := *;
      r := Failure();
      Finish(if r.Some? && stuck then disk else disk.(intent := None), r);
    }
  }
}
