/** Capturing the values a context deletion manages, before anything is deleted. */
module ContextSnapshot {
  import opened Basics
  import opened SecretRefs
  import opened ContextStores
  import opened ContextDeletionSpec

  /** A secret's metadata and value, captured in memory before anything is deleted. */
  datatype SecretSnapshot = SecretSnapshot(name: string, meta: SecretMeta, value: string)

  datatype Snapshot = Snapshot(envs: seq<EnvSnapshot>, secrets: seq<SecretSnapshot>)

  /** Reads so far have only stamped entries and repaired ownership. */
  ghost predicate Quiet(before: Durable, d: Durable)
  {
    d.intent == None && AllOriginal(before, d)
  }

  /** The captured secret is the stored one, as it was before the deletion began. */
  ghost predicate Captured(before: Durable, d: Durable, target: string, s: SecretSnapshot)
  {
    var k := Key(target, s.name);
    && k in before.secrets && k in d.secrets
    && before.secrets[k].value == Some(s.value)
    && before.secrets[k].lastUsed == s.meta.lastUsed
    && (before.secrets[k].backend == s.meta.backend || before.secrets[k].backend == Unrecorded)
    && s.meta.backend != Unrecorded && s.meta.backend == d.secrets[k].backend
  }

  /** Every secret of the context outside `seen` still carries its original timestamp. */
  ghost predicate StampsKept(before: Durable, d: Durable, target: string, seen: set<string>)
  {
    forall k :: k in before.secrets && k in d.secrets && !(k.context == target && k.name in seen) ==>
                  d.secrets[k].lastUsed == before.secrets[k].lastUsed
  }

  lemma GetKeepsOriginal(before: Durable, d: Durable, k: Key, d': Durable, seen: set<string>)
    requires Quiet(before, d) && GetEffect(d, k, d') && StampsKept(before, d, k.context, seen)
    ensures Quiet(before, d') && StampsKept(before, d', k.context, seen + {k.name})
    ensures forall s :: Captured(before, d, k.context, s) ==> Captured(before, d', k.context, s)
  {
    forall x ensures SecretIntact(before, d', x) {
      assert SecretIntact(before, d, x);
    }
  }

  /** Everything a read of the snapshot phase leaves: only harmless states, at each crash point. */
  twostate predicate ReadQuietly(s: Stores, before: Durable)
    reads s
  {
    && Quiet(before, s.disk)
    && old(s.history) <= s.history
    && forall n :: |old(s.history)| <= n < |s.history| ==> Quiet(before, s.history[n])
  }

  ghost predicate KeepsCaptures(before: Durable, d: Durable, d': Durable, target: string)
  {
    forall x :: Captured(before, d, target, x) ==> Captured(before, d', target, x)
  }

  /** What the snapshot of one binding found: its local secret, or that it names none. */
  ghost predicate SecretRead(before: Durable, d: Durable, target: string, binding: string, seen: set<string>, found: Option<SecretSnapshot>)
  {
    match found
    case None => Handled(before, target, binding, {}) && StampsKept(before, d, target, seen)
    case Some(x) =>
      && LocalName(binding) == Some(x.name)
      && Key(target, x.name) in before.secrets
      && (x.name !in seen ==> Captured(before, d, target, x))
      && StampsKept(before, d, target, seen + {x.name})
  }

  /** The binding parses, and the local secret it names, if it is in the catalog, still has its value. */
  predicate Readable(before: Durable, target: string, binding: string)
  {
    && ParseRef(binding).Some?
    && (LocalName(binding).Some? && Key(target, LocalName(binding).value) in before.secrets ==>
          before.secrets[Key(target, LocalName(binding).value)].value.Some?)
  }

  /** The catalog knows which backend owns the secret; otherwise it has to be proven first. */
  predicate OwnerRecorded(before: Durable, target: string, binding: string)
  {
    LocalName(binding).Some? && Key(target, LocalName(binding).value) in before.secrets ==>
      before.secrets[Key(target, LocalName(binding).value)].backend != Unrecorded
  }

  ghost predicate Handled(before: Durable, target: string, binding: string, seen: set<string>)
  {
    match LocalName(binding)
    case None => true
    case Some(n) => Key(target, n) in before.secrets ==> n in seen
  }

  /** A reading step reports nothing, or the one error that an operation reported, or that `unparsable`. */
  predicate Reported(was: seq<Error>, raised: seq<Error>, error: Option<Error>, unparsable: bool)
  {
    raised == was + Errors(error) || (raised == was && error == Some(StoreError({})) && unparsable)
  }

  function ErrorOf<T>(r: Result<T, Error>): Option<Error> { if r.Ok? then None else Some(r.error) }

  /** As a cleanup error with its phase. */
  predicate ReportedAs(was: seq<Error>, raised: seq<Error>, error: Option<Error>, unparsable: bool)
  {
    match error
    case None => raised == was
    case Some(CleanupError(_, cause, None, false)) => Reported(was, raised, Some(cause), unparsable)
    case _ => false
  }

  method SnapshotContextSecret(s: Stores, target: string, binding: string, ghost before: Durable, ghost seen: set<string>)
    returns (r: Result<Option<SecretSnapshot>, Error>)
    requires Quiet(before, s.disk) && StampsKept(before, s.disk, target, seen)
    modifies s
    ensures ReadQuietly(s, before)
    ensures KeepsCaptures(before, old(s.disk), s.disk, target)
    ensures r.Ok? ==> SecretRead(before, s.disk, target, binding, seen, r.value)
    ensures r.Ok? ==> Readable(before, target, binding)
    ensures Reported(old(s.raised), s.raised, ErrorOf(r), ParseRef(binding).None?)
    ensures r.Err? && Readable(before, target, binding) && OwnerRecorded(before, target, binding) ==> s.faults > old(s.faults)
    ensures s.faults >= old(s.faults)
  {
    var ref := ParseRef(binding);
    if ref.None? { return Err(StoreError({})); }
    if ref.value.source != LOCAL_SOURCE { return Ok(None); }
    var key := Key(target, ref.value.name);
    assert SecretIntact(before, s.disk, key);
    var meta := s.Meta(key);
    if meta.Err? {
      return if Matches(meta.error, SecretNotFound) then Ok(None) else Err(meta.error);
    }
    ghost var d := s.disk;
    var value := s.Get(key);
    GetKeepsOriginal(before, d, key, s.disk, seen);
    assert SecretIntact(before, s.disk, key);
    if value.Err? { return Err(value.error); }
    var backend := meta.value.backend;
    if backend == Unrecorded {
      var repaired := s.Meta(key);
      if repaired.Err? { return Err(repaired.error); }
      backend := repaired.value.backend;
    }
    r := Ok(Some(SecretSnapshot(ref.value.name, SecretMeta(backend, meta.value.lastUsed), value.value)));
  }

  ghost predicate HasName(captured: seq<SecretSnapshot>, name: string)
  {
    exists i :: 0 <= i < |captured| && captured[i].name == name
  }

  /** The snapshot holds every value the deletion manages, each exactly once. */
  ghost predicate SnapshotOf(before: Durable, d: Durable, target: string, snap: Snapshot)
  {
    && ListsEnvs(before, target, snap.envs)
    && (forall i :: 0 <= i < |snap.secrets| ==> Captured(before, d, target, snap.secrets[i]))
    && (forall i, j :: 0 <= i < j < |snap.secrets| ==> snap.secrets[i].name != snap.secrets[j].name)
    && (forall n :: HasName(snap.secrets, n) <==> Owned(before, target, n))
  }

  /** `captured` holds each secret named in `seen` once, and all of them are managed. */
  ghost predicate Collected(before: Durable, target: string, captured: seq<SecretSnapshot>, seen: set<string>)
  {
    && (forall i :: 0 <= i < |captured| ==> captured[i].name in seen)
    && (forall i, j :: 0 <= i < j < |captured| ==> captured[i].name != captured[j].name)
    && (forall n :: n in seen ==> Owned(before, target, n) && HasName(captured, n))
  }

  ghost predicate AllCaptured(before: Durable, d: Durable, target: string, captured: seq<SecretSnapshot>)
  {
    forall i :: 0 <= i < |captured| ==> Captured(before, d, target, captured[i])
  }

  ghost function Bindings(before: Durable, target: string): seq<string>
  {
    if target in Load(before.config).contexts then Load(before.config).contexts[target].secrets else []
  }

  /** Each of the first `b` bindings that names a stored secret has been seen. */
  ghost predicate AllHandled(before: Durable, target: string, b: nat, seen: set<string>)
  {
    b <= |Bindings(before, target)|
    && forall a :: 0 <= a < b ==> Handled(before, target, Bindings(before, target)[a], seen)
  }

  lemma CollectNew(before: Durable, target: string, captured: seq<SecretSnapshot>, seen: set<string>, x: SecretSnapshot)
    requires Collected(before, target, captured, seen) && x.name !in seen && Owned(before, target, x.name)
    ensures Collected(before, target, captured + [x], seen + {x.name})
  {
    forall n | n in seen + {x.name} ensures HasName(captured + [x], n) {
      HasNameGrows(captured, x, n);
    }
  }

  lemma HandleNext(before: Durable, target: string, b: nat, seen: set<string>, seen': set<string>)
    requires AllHandled(before, target, b, seen) && seen <= seen' && b < |Bindings(before, target)|
    requires Handled(before, target, Bindings(before, target)[b], seen')
    ensures AllHandled(before, target, b + 1, seen')
  {
    forall a | 0 <= a < b + 1 ensures Handled(before, target, Bindings(before, target)[a], seen') {
      if a < b { HandledGrows(before, target, Bindings(before, target)[a], seen, seen'); }
    }
  }

  ghost predicate Gathered(before: Durable, d: Durable, target: string, b: nat, captured: seq<SecretSnapshot>, seen: set<string>)
  {
    && StampsKept(before, d, target, seen)
    && Collected(before, target, captured, seen)
    && AllCaptured(before, d, target, captured)
    && AllHandled(before, target, b, seen)
  }

  lemma GatherNew(before: Durable, d: Durable, d': Durable, target: string, b: nat,
                  captured: seq<SecretSnapshot>, seen: set<string>, found: SecretSnapshot)
    requires Gathered(before, d, target, b, captured, seen) && b < |Bindings(before, target)|
    requires KeepsCaptures(before, d, d', target) && found.name !in seen
    requires SecretRead(before, d', target, Bindings(before, target)[b], seen, Some(found))
    ensures Gathered(before, d', target, b + 1, captured + [found], seen + {found.name})
  {
    NamedIsOwned(before, target, b, found.name);
    CollectNew(before, target, captured, seen, found);
    HandleNext(before, target, b, seen, seen + {found.name});
  }

  lemma GatherStep(before: Durable, d: Durable, d': Durable, target: string, b: nat,
                   captured: seq<SecretSnapshot>, seen: set<string>, found: Option<SecretSnapshot>)
    requires Gathered(before, d, target, b, captured, seen) && b < |Bindings(before, target)|
    requires KeepsCaptures(before, d, d', target)
    requires SecretRead(before, d', target, Bindings(before, target)[b], seen, found)
    ensures found.Some? && found.value.name !in seen ==>
              Gathered(before, d', target, b + 1, captured + [found.value], seen + {found.value.name})
    ensures found.None? || found.value.name in seen ==> Gathered(before, d', target, b + 1, captured, seen)
  {
    if found.Some? && found.value.name !in seen {
      GatherNew(before, d, d', target, b, captured, seen, found.value);
    } else {
      if found.Some? { assert seen + {found.value.name} == seen; }
      HandleNext(before, target, b, seen, seen);
    }
  }

  lemma NamedIsOwned(before: Durable, target: string, b: nat, name: string)
    requires b < |Bindings(before, target)| && Key(target, name) in before.secrets
    requires LocalName(Bindings(before, target)[b]) == Some(name)
    ensures Owned(before, target, name)
  {
    assert Bindings(before, target)[b] in Bindings(before, target);
  }

  lemma HandledGrows(before: Durable, target: string, binding: string, seen: set<string>, seen': set<string>)
    requires Handled(before, target, binding, seen) && seen <= seen'
    ensures Handled(before, target, binding, seen')
  {
  }

  lemma HasNameGrows(captured: seq<SecretSnapshot>, x: SecretSnapshot, n: string)
    requires HasName(captured, n) || n == x.name
    ensures HasName(captured + [x], n)
  {
    if n == x.name {
      assert (captured + [x])[|captured|].name == n;
    } else {
      var i :| 0 <= i < |captured| && captured[i].name == n;
      assert (captured + [x])[i].name == n;
    }
  }

  lemma GatheredAll(before: Durable, d: Durable, target: string, captured: seq<SecretSnapshot>, seen: set<string>, envs: seq<EnvSnapshot>)
    requires Collected(before, target, captured, seen) && AllCaptured(before, d, target, captured)
    requires AllHandled(before, target, |Bindings(before, target)|, seen)
    requires ListsEnvs(before, target, envs)
    ensures SnapshotOf(before, d, target, Snapshot(envs, captured))
  {
    forall n ensures HasName(captured, n) <==> Owned(before, target, n) {
      if Owned(before, target, n) {
        var b :| b in Bindings(before, target) && LocalName(b) == Some(n);
        var a :| 0 <= a < |Bindings(before, target)| && Bindings(before, target)[a] == b;
        assert Handled(before, target, Bindings(before, target)[a], seen);
      }
    }
  }

  ghost predicate AllReadable(before: Durable, target: string, b: nat)
  {
    b <= |Bindings(before, target)| && forall a :: 0 <= a < b ==> Readable(before, target, Bindings(before, target)[a])
  }

  ghost predicate AllRecorded(before: Durable, target: string)
  {
    forall b :: b in Bindings(before, target) ==> OwnerRecorded(before, target, b)
  }

  /** Equivalent bindings are snapshotted once; external sources never. */
  method SnapshotSecrets(s: Stores, target: string, bindings: seq<string>, ghost before: Durable)
    returns (r: Result<seq<SecretSnapshot>, Error>, ghost seen: set<string>)
    requires Quiet(before, s.disk) && StampsKept(before, s.disk, target, {}) && bindings == Bindings(before, target)
    modifies s
    ensures ReadQuietly(s, before)
    ensures r.Ok? ==> Gathered(before, s.disk, target, |bindings|, r.value, seen) && AllReadable(before, target, |bindings|)
    ensures r.Err? && AllReadable(before, target, |bindings|) && AllRecorded(before, target) ==> s.faults > old(s.faults)
    ensures ReportedAs(old(s.raised), s.raised, ErrorOf(r), exists b :: b in bindings && ParseRef(b).None?)
    ensures s.faults >= old(s.faults)
  {
    var captured: seq<SecretSnapshot> := [];
    var names: set<string> := {};
    for b := 0 to |bindings|
      invariant ReadQuietly(s, before) && Gathered(before, s.disk, target, b, captured, names) && AllReadable(before, target, b)
      invariant s.faults >= old(s.faults) && s.raised == old(s.raised)
    {
      var next;
      next, names := SnapshotNext(s, target, bindings, b, captured, names, before);
      if next.Err? { return next, names; }
      captured := next.value;
    }
    return Ok(captured), names;
  }

  /** Adds what one more binding names, unless an equivalent one came before. */
  method SnapshotNext(s: Stores, target: string, bindings: seq<string>, b: nat, captured: seq<SecretSnapshot>, names: set<string>, ghost before: Durable)
    returns (r: Result<seq<SecretSnapshot>, Error>, names': set<string>)
    requires Quiet(before, s.disk) && bindings == Bindings(before, target) && b < |bindings|
    requires Gathered(before, s.disk, target, b, captured, names) && AllReadable(before, target, b)
    modifies s
    ensures ReadQuietly(s, before) && s.faults >= old(s.faults)
    ensures r.Ok? ==> Gathered(before, s.disk, target, b + 1, r.value, names') && AllReadable(before, target, b + 1)
    ensures r.Err? && AllReadable(before, target, |bindings|) && AllRecorded(before, target) ==> s.faults > old(s.faults)
    ensures ReportedAs(old(s.raised), s.raised, ErrorOf(r), exists b :: b in bindings && ParseRef(b).None?)
  {
    names' := names;
    ghost var d := s.disk;
    var secret := SnapshotContextSecret(s, target, bindings[b], before, names);
    if secret.Err? { return Err(CleanupError("secret snapshot", secret.error, None, false)), names; }
    GatherStep(before, d, s.disk, target, b, captured, names, secret.value);
    if secret.value.Some? && secret.value.value.name !in names {
      return Ok(captured + [secret.value.value]), names + {secret.value.value.name};
    }
    r := Ok(captured);
  }

  method SnapshotContextValues(s: Stores, cfg: Config, target: string) returns (r: Result<Snapshot, Error>)
    requires s.disk.intent == None && cfg == Load(s.disk.config) && target in cfg.contexts
    modifies s
    ensures ReadQuietly(s, old(s.disk))
    ensures r.Ok? ==> SnapshotOf(old(s.disk), s.disk, target, r.value)
    ensures r.Ok? ==> forall b :: b in cfg.contexts[target].secrets ==> Readable(old(s.disk), target, b)
    ensures ReportedAs(old(s.raised), s.raised, ErrorOf(r), exists b :: b in cfg.contexts[target].secrets && ParseRef(b).None?)
    ensures r.Err? && (forall b :: b in cfg.contexts[target].secrets ==> Readable(old(s.disk), target, b) && OwnerRecorded(old(s.disk), target, b)) ==>
              s.faults > old(s.faults)
    ensures s.faults >= old(s.faults)
  {
    ghost var before := s.disk;
    var values := s.ListEnvs(target);
    if values.Err? { return Err(CleanupError("environment store is unavailable", values.error, None, false)); }
    var secrets, seen := SnapshotSecrets(s, target, cfg.contexts[target].secrets, before);
    if secrets.Err? { return Err(secrets.error); }
    GatheredAll(before, s.disk, target, secrets.value, seen, values.value);
    r := Ok(Snapshot(values.value, secrets.value));
  }
}
