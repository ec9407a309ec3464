/** What a context deletion promises of every durable state a crash can leave. */
module ContextDeletionSpec {
  import opened Basics
  import opened SecretRefs
  import opened ContextStores

  /** The local-store name a binding refers to; other sources are never owned by the context. */
  function LocalName(binding: string): Option<string>
  {
    match ParseRef(binding)
    case None => None
    case Some(r) => if r.source == LOCAL_SOURCE then Some(r.name) else None
  }

  /** The secrets a deletion manages: those named by a local binding and present in the store. */
  ghost predicate Owned(d: Durable, target: string, name: string)
  {
    && target in Load(d.config).contexts
    && Key(target, name) in d.secrets
    && exists b :: b in Load(d.config).contexts[target].secrets && LocalName(b) == Some(name)
  }

  /** The j-th recorded secret. */
  function SecretKey(i: Intent, j: nat): Key
    requires j < |i.secrets|
  {
    Key(i.context, i.secrets[j].name)
  }

  predicate Records(i: Intent, name: string)
  {
    exists j :: 0 <= j < |i.secrets| && i.secrets[j].name == name
  }

  predicate OwnerKept(b: Secret, s: Secret) { s.backend == b.backend || b.backend == Unrecorded }

  /** The value is untouched; timestamps may move and a missing owner may have been recorded. */
  predicate Intact(b: Secret, s: Secret) { s.value == b.value && OwnerKept(b, s) }

  ghost predicate SecretIntact(before: Durable, d: Durable, k: Key)
  {
    && (k in d.secrets <==> k in before.secrets)
    && (k in d.secrets ==> Intact(before.secrets[k], d.secrets[k]))
  }

  /** A managed secret mid-deletion: gone, or still held by its recorded owner. */
  ghost predicate SecretHeld(before: Durable, i: Intent, d: Durable, k: Key)
  {
    k in d.secrets ==>
      && k in before.secrets
      && d.secrets[k].value in {before.secrets[k].value, None}
      && forall j :: 0 <= j < |i.secrets| && i.secrets[j].name == k.name ==> d.secrets[k].backend == i.secrets[j].backend
  }

  predicate Managed(i: Intent, k: Key) { k.context == i.context && Records(i, k.name) }

  ghost predicate OthersIntact(before: Durable, i: Intent, d: Durable)
  {
    forall k :: !Managed(i, k) ==> SecretIntact(before, d, k)
  }

  ghost function EnvsCleared(before: Durable, target: string): map<Key, EnvValue>
  {
    map k | k in before.envs && k.context != target :: before.envs[k]
  }

  ghost function ConfigWithout(before: Durable, target: string): Config
  {
    Persisted(Unregister(Load(before.config), target))
  }

  /** Nothing the deletion manages has changed, and nothing else has either. */
  ghost predicate AllOriginal(before: Durable, d: Durable)
  {
    && d.config == before.config
    && d.dirs == before.dirs
    && d.envs == before.envs
    && forall k :: SecretIntact(before, d, k)
  }

  /** The context is unregistered, its managed values and its directory are gone, nothing else. */
  ghost predicate AllGone(before: Durable, i: Intent, d: Durable)
  {
    && d.config == ConfigWithout(before, i.context)
    && d.dirs == before.dirs - {i.context}
    && d.envs == EnvsCleared(before, i.context)
    && (forall k :: Managed(i, k) ==> k !in d.secrets)
    && OthersIntact(before, i, d)
  }

  /** Between those two: only reachable while the intent is durable. */
  ghost predicate Between(before: Durable, i: Intent, d: Durable)
  {
    && (d.config == before.config || d.config == ConfigWithout(before, i.context))
    && (d.envs == before.envs || d.envs == EnvsCleared(before, i.context))
    && d.dirs - {i.context} == before.dirs - {i.context}
    && (i.context in d.dirs ==> i.context in before.dirs && d.dirs[i.context] <= before.dirs[i.context])
    && (forall k :: Managed(i, k) ==> SecretHeld(before, i, d, k))
    && OthersIntact(before, i, d)
  }

  /** The intent names exactly what the deletion manages in `before`. */
  ghost predicate IntentFor(before: Durable, i: Intent)
  {
    && i.context != DEFAULT_CONTEXT && i.context != ""
    && i.context in Load(before.config).contexts
    && i.fingerprint == Load(before.config).contexts[i.context]
    && (forall n :: Records(i, n) <==> Owned(before, i.context, n))
    && (forall a, b :: 0 <= a < b < |i.secrets| ==> i.secrets[a].name != i.secrets[b].name)
    && (forall k :: k in before.envs && k.context == i.context ==> k.name in i.envNames)
    && (forall j :: 0 <= j < |i.envNames| ==> Key(i.context, i.envNames[j]) in before.envs)
  }

  /** The write-ahead property of one durable state. */
  ghost predicate CrashSafe(before: Durable, i: Intent, d: Durable)
  {
    match d.intent
    case None => AllOriginal(before, d) || (IntentFor(before, i) && AllGone(before, i, d))
    case Some(pending) => pending == i && IntentFor(before, i) && OwnersKnown(i) && Between(before, i, d)
  }

  ghost predicate AllSafe(before: Durable, i: Intent, states: seq<Durable>)
  {
    forall n :: 0 <= n < |states| ==> CrashSafe(before, i, states[n])
  }

  // ----- What recovery has left to do -----

  datatype Item = SecretItem(name: string) | EnvItem(name: string) | Registration | Directory | Marker

  ghost function Remaining(i: Intent, d: Durable): set<Item>
  {
    (set j | 0 <= j < |i.secrets| && SecretKey(i, j) in d.secrets :: SecretItem(i.secrets[j].name))
    + (set j | 0 <= j < |i.envNames| && Key(i.context, i.envNames[j]) in d.envs :: EnvItem(i.envNames[j]))
    + (if i.context in Load(d.config).contexts then {Registration} else {})
    + (if i.context in d.dirs then {Directory} else {})
    + (if d.intent.Some? then {Marker} else {})
  }

  // ----- Facts about one durable state -----

  lemma UnregisterForgets(c: Config, target: string)
    requires target != DEFAULT_CONTEXT
    ensures target !in Load(Persisted(Unregister(c, target))).contexts
  {
  }

  /** None of these depend on whether the intent file exists. */
  lemma MarkerIrrelevant(before: Durable, i: Intent, d: Durable, intent: Option<Intent>)
    ensures AllOriginal(before, d) ==> AllOriginal(before, d.(intent := intent))
    ensures AllGone(before, i, d) ==> AllGone(before, i, d.(intent := intent))
    ensures Between(before, i, d) ==> Between(before, i, d.(intent := intent))
  {
    forall k ensures SecretIntact(before, d, k) <==> SecretIntact(before, d.(intent := intent), k) { }
    forall k ensures SecretHeld(before, i, d, k) <==> SecretHeld(before, i, d.(intent := intent), k) { }
  }

  /** An untouched state in which an intent has just become durable is recoverable. */
  lemma OriginalIsBetween(before: Durable, i: Intent, d: Durable)
    requires AllOriginal(before, d)
    requires forall j :: 0 <= j < |i.secrets| && SecretKey(i, j) in d.secrets ==>
               d.secrets[SecretKey(i, j)].backend == i.secrets[j].backend
    ensures Between(before, i, d)
  {
    forall k | Managed(i, k) ensures SecretHeld(before, i, d, k) {
      assert SecretIntact(before, d, k);
      assert forall j :: 0 <= j < |i.secrets| && i.secrets[j].name == k.name ==> SecretKey(i, j) == k;
    }
  }

  /** Once everything is back, whatever path led here, the state is the original one. */
  lemma RestoredIsOriginal(before: Durable, i: Intent, d: Durable)
    requires Between(before, i, d)
    requires d.config == before.config && d.dirs == before.dirs && d.envs == before.envs
    requires forall j :: 0 <= j < |i.secrets| ==> SecretIntact(before, d, SecretKey(i, j))
    ensures AllOriginal(before, d)
  {
    forall k ensures SecretIntact(before, d, k) {
      if Managed(i, k) {
        var j :| 0 <= j < |i.secrets| && i.secrets[j].name == k.name;
        assert k == SecretKey(i, j);
      }
    }
  }

  lemma EmptiedIsGone(before: Durable, i: Intent, d: Durable)
    requires Between(before, i, d)
    requires d.config == ConfigWithout(before, i.context)
    requires d.envs == EnvsCleared(before, i.context)
    requires i.context !in d.dirs
    requires forall j :: 0 <= j < |i.secrets| ==> SecretKey(i, j) !in d.secrets
    ensures AllGone(before, i, d)
  {
    assert d.dirs == d.dirs - {i.context};
    forall k | Managed(i, k) ensures k !in d.secrets {
      var j :| 0 <= j < |i.secrets| && i.secrets[j].name == k.name;
      assert k == SecretKey(i, j);
    }
  }

  /** Nothing recorded remains exactly when the context is completely gone. */
  lemma GoneIffNothingRemains(before: Durable, i: Intent, d: Durable)
    requires IntentFor(before, i) && CrashSafe(before, i, d)
    ensures d.intent == None && AllGone(before, i, d) <==> Remaining(i, d) == {}
  {
    if d.intent == None && AllGone(before, i, d) {
      UnregisterForgets(Load(before.config), i.context);
      assert forall j :: 0 <= j < |i.secrets| ==> Managed(i, SecretKey(i, j));
    }
    assert i.context in Load(d.config).contexts ==> Registration in Remaining(i, d);
    assert d.intent.Some? ==> Marker in Remaining(i, d);
  }
}
