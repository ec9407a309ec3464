/** The commands that bind and set environment values and secrets, and all their runs. */
module Bindings {
  import opened Basics
  import opened SecretRefs
  import opened ContextStores
  import opened ValueStores
  import opened SecretConversion
  import opened BindingInvariants
  import Spec = ContextDeletionSpec

  // ----- Commands -----

  function Context(c: Config): ContextConfig
    requires c.defaultContext in c.contexts
  {
    c.contexts[c.defaultContext]
  }

  function WithContext(c: Config, cfg: ContextConfig): Config
  {
    c.(contexts := c.contexts[c.defaultContext := cfg])
  }

  /** Whether `name` is bound as a local secret, canonically or in the legacy spelling. */
  method AttachedLocalSecret(cfg: ContextConfig, name: string) returns (r: bool)
    ensures r == Attached(cfg, name)
  {
    for i := 0 to |cfg.secrets|
      invariant forall k | 0 <= k < i :: !Denotes(cfg.secrets[k], name)
    {
      DenotesWhat(cfg.secrets[i], name);
      if cfg.secrets[i] == LOCAL_SOURCE + "/" + name {
        return true;
      }
      var ref := ParseRef(cfg.secrets[i]);
      if ref.Some? && ref.value.source == LOCAL_SOURCE && ref.value.name == name {
        return true;
      }
    }
    return false;
  }

  lemma DenotesWhat(binding: string, name: string)
    ensures Denotes(binding, name) <==>
              binding == LOCAL_SOURCE + "/" + name
              || (ParseRef(binding).Some? && ParseRef(binding).value.source == LOCAL_SOURCE && ParseRef(binding).value.name == name)
  {
  }

  /**
   The two files load to the same selection and the same contexts, but for the list of one kind in the
   selected context, which was `was` and is `now`.
   */
  ghost predicate ListChanged(file: Config, saved: Config, contextFlag: string, kind: Kind, was: seq<string>, now: seq<string>)
  {
    var a, b := LoadWith(file, contextFlag), LoadWith(saved, contextFlag);
    var c := a.defaultContext;
    && b.defaultContext == c && b.contexts.Keys == a.contexts.Keys && c in a.contexts
    && (forall x | x in a.contexts && x != c :: b.contexts[x] == a.contexts[x])
    && b.contexts[c].settings == a.contexts[c].settings
    && match kind
       case EnvBinding => a.contexts[c].envVars == was && b.contexts[c].envVars == now && b.contexts[c].secrets == a.contexts[c].secrets
       case SecretBinding => a.contexts[c].secrets == was && b.contexts[c].secrets == now && b.contexts[c].envVars == a.contexts[c].envVars
  }

  /** A binding that is already there is not repeated. */
  ghost predicate Appended(file: Config, saved: Config, contextFlag: string, kind: Kind, binding: string)
  {
    exists was, now :: ListChanged(file, saved, contextFlag, kind, was, now) && now == if binding in was then was else was + [binding]
  }

  /** The first occurrence goes. */
  ghost predicate Removed(file: Config, saved: Config, contextFlag: string, kind: Kind, binding: string)
  {
    exists was, now :: ListChanged(file, saved, contextFlag, kind, was, now) && WithoutFirst(was, now, binding)
  }

  ghost predicate WithoutFirst(was: seq<string>, now: seq<string>, x: string)
  {
    if x !in was then now == was
    else exists i :: 0 <= i < |was| && was[i] == x && x !in was[..i] && now == was[..i] + was[i + 1..]
  }

  lemma SavedList(file: Config, contextFlag: string, kind: Kind, now: seq<string>)
    ensures var loaded := LoadWith(file, contextFlag);
            ListChanged(file, Persisted(WithContext(loaded, WithBindings(Context(loaded), kind, now))), contextFlag, kind,
                        BindingsFor(Context(loaded), kind), now)
    ensures ListChanged(file, file, contextFlag, kind, BindingsFor(Context(LoadWith(file, contextFlag)), kind),
                        BindingsFor(Context(LoadWith(file, contextFlag)), kind))
  {
  }

  lemma UnboundIsRemoved(file: Config, contextFlag: string, kind: Kind, name: string)
    ensures Removed(file, ConfigUnbound(file, LoadWith(file, contextFlag), kind, name), contextFlag, kind, name)
  {
    var loaded := LoadWith(file, contextFlag);
    var was, now := BindingsFor(Context(loaded), kind), Remaining(loaded, kind, name);
    SavedList(file, contextFlag, kind, now);
    if name in was {
      var i := IndexOf(was, name);
      assert now == was[..i] + was[i + 1..];
    }
    assert WithoutFirst(was, now, name);
  }

  lemma AttachedIsAppended(file: Config, contextFlag: string, kind: Kind, binding: string, saved: Config)
    requires var loaded := LoadWith(file, contextFlag);
             var was := BindingsFor(Context(loaded), kind);
             saved == if binding in was then file else Persisted(WithContext(loaded, WithBindings(Context(loaded), kind, was + [binding])))
    ensures Appended(file, saved, contextFlag, kind, binding)
  {
    var was := BindingsFor(Context(LoadWith(file, contextFlag)), kind);
    SavedList(file, contextFlag, kind, was + [binding]);
  }

  /** A variable can be bound when it has a value and no local secret is bound under its name. */
  predicate EnvAttachable(d: Vault, loaded: Config, name: string)
    requires loaded.defaultContext in loaded.contexts
  {
    ValidName(name) && !Attached(Context(loaded), name) && Key(loaded.defaultContext, name) in d.envs
  }

  /** A reference to the local source needs a catalog entry, and the type of the local source. */
  predicate Verifiable(d: Vault, loaded: Config, ref: Ref)
  {
    ref.source == LOCAL_SOURCE ==> ref.typeName in {"", LOCAL_SOURCE} && Key(loaded.defaultContext, ref.name) in d.secrets
  }

  /** A secret can be bound when it can be verified and no variable is bound under its local name. */
  predicate SecretAttachable(d: Vault, loaded: Config, text: string)
    requires loaded.defaultContext in loaded.contexts
  {
    && ParseRef(text).Some?
    && Verifiable(d, loaded, ParseRef(text).value)
    && (ParseRef(text).value.source == LOCAL_SOURCE ==> ParseRef(text).value.name !in Context(loaded).envVars)
  }

  predicate EnvSettable(loaded: Config, assignment: Option<(string, string)>)
    requires loaded.defaultContext in loaded.contexts
  {
    assignment.Some? && !Attached(Context(loaded), assignment.value.0)
  }

  method EnvAttach(v: Values, contextFlag: string, name: string) returns (ok: bool)
    modifies v
    ensures v.Switched()
    ensures ok ==> EnvAttachable(old(v.at), LoadWith(old(v.at).config, contextFlag), name) && v.at == EnvAttached(old(v.at), contextFlag, name)
    ensures ok ==> v.at.secrets == old(v.at).secrets && v.at.envs == old(v.at).envs
                   && Appended(old(v.at).config, v.at.config, contextFlag, EnvBinding, name)
    ensures !ok ==> v.at == old(v.at)
    ensures v.faults >= old(v.faults)
    ensures v.faults == old(v.faults) ==> (ok <==> EnvAttachable(old(v.at), LoadWith(old(v.at).config, contextFlag), name))
  {
    if !ValidName(name) {
      return false;
    }
    var loaded := v.LoadConfig(contextFlag);
    if loaded.Err? {
      return false;
    }
    var cfg := Context(loaded.value);
    var conflict := AttachedLocalSecret(cfg, name);
    if conflict {
      return false;
    }
    var present := v.EnvMeta(Key(loaded.value.defaultContext, name));
    if present.Err? || !present.value {
      return false;
    }
    ghost var before := v.at;
    if name in cfg.envVars {
      ok := true;
    } else {
      var more := cfg.(envVars := cfg.envVars + [name]);
      ok := v.SaveConfig(WithContext(loaded.value, more));
    }
    if ok { AttachedIsAppended(before.config, contextFlag, EnvBinding, name, v.at.config); }
  }

  /** The state after `name` was attached; what is attached already stays as it is. */
  function EnvAttached(d: Vault, contextFlag: string, name: string): Vault
  {
    var loaded := LoadWith(d.config, contextFlag);
    if name in Context(loaded).envVars then d
    else d.(config := Persisted(WithContext(loaded, Context(loaded).(envVars := Context(loaded).envVars + [name]))))
  }

  lemma AttachedEnvIsFine(d: Vault, contextFlag: string, name: string, g: Grade)
    requires Fine(d, g) && EnvAttachable(d, LoadWith(d.config, contextFlag), name)
    ensures Fine(EnvAttached(d, contextFlag, name), g)
  {
    var loaded := LoadWith(d.config, contextFlag);
    var cfg := Context(loaded);
    if name !in cfg.envVars {
      LoadedIsFine(d, contextFlag, g);
      BindingEnvIsFine(d, loaded.defaultContext, cfg, name, g.valued);
      SaveKeepsFine(d, contextFlag, cfg.(envVars := cfg.envVars + [name]), g);
    }
  }

  /**
   The entry of the secret may have lost its value, and the command then binds a name without one.
   Otherwise every bound name keeps its value.
   */
  method SecretAttach(v: Values, contextFlag: string, text: string) returns (ok: bool)
    modifies v
    ensures v.Switched()
    ensures ok && Valued(old(v.at)) ==> (Valued(v.at) <==> !HollowAttach(old(v.at), contextFlag, text))
    ensures ok ==> SecretAttachable(old(v.at), LoadWith(old(v.at).config, contextFlag), text)
                   && v.at == SecretAttached(old(v.at), contextFlag, text)
    ensures ok ==> v.at.secrets == old(v.at).secrets && v.at.envs == old(v.at).envs
                   && Appended(old(v.at).config, v.at.config, contextFlag, SecretBinding, RefString(ParseRef(text).value))
    ensures !ok ==> v.at == old(v.at)
    ensures v.faults >= old(v.faults)
    ensures v.faults == old(v.faults) ==> (ok <==> SecretAttachable(old(v.at), LoadWith(old(v.at).config, contextFlag), text))
  {
    ghost var before := v.at;
    var parsed := ParseRef(text);
    if parsed.None? {
      return false;
    }
    var ref := parsed.value;
    var loaded := v.LoadConfig(contextFlag);
    if loaded.Err? {
      return false;
    }
    var cfg := Context(loaded.value);
    if ref.source == LOCAL_SOURCE && ref.name in cfg.envVars {
      return false;
    }
    var verified := VerifySecretReference(v, loaded.value, ref);
    if !verified {
      return false;
    }
    if RefString(ref) in cfg.secrets {
      ok := true;
    } else {
      ok := v.SaveConfig(WithContext(loaded.value, cfg.(secrets := cfg.secrets + [RefString(ref)])));
    }
    AttachingKeepsValues(before, v.at, contextFlag, text, ok);
    if ok { AttachedIsAppended(before.config, contextFlag, SecretBinding, RefString(ref), v.at.config); }
  }

  lemma AttachingKeepsValues(before: Vault, after: Vault, contextFlag: string, text: string, ok: bool)
    requires SecretAttachable(before, LoadWith(before.config, contextFlag), text)
    requires ok ==> after == SecretAttached(before, contextFlag, text)
    ensures ok && Valued(before) ==> (Valued(after) <==> !HollowAttach(before, contextFlag, text))
  {
    if ok && Valued(before) { AttachedSecretIsValuedIff(before, contextFlag, text); }
  }

  /** `text` can be attached, but names a local secret whose entry has lost its value. */
  predicate HollowAttach(d: Vault, contextFlag: string, text: string)
  {
    var loaded := LoadWith(d.config, contextFlag);
    && SecretAttachable(d, loaded, text)
    && ParseRef(text).value.source == LOCAL_SOURCE
    && !HasEntry(d, Key(loaded.defaultContext, ParseRef(text).value.name), true)
  }

  /** The state after `text` was attached; what is attached already stays as it is. */
  function SecretAttached(d: Vault, contextFlag: string, text: string): Vault
    requires ParseRef(text).Some?
  {
    var loaded, canonical := LoadWith(d.config, contextFlag), RefString(ParseRef(text).value);
    if canonical in Context(loaded).secrets then d
    else d.(config := Persisted(WithContext(loaded, Context(loaded).(secrets := Context(loaded).secrets + [canonical]))))
  }

  lemma AttachedSecretIsFine(d: Vault, contextFlag: string, text: string, g: Grade)
    requires SecretAttachable(d, LoadWith(d.config, contextFlag), text)
    ensures Fine(d, g) && (g.valued ==> !HollowAttach(d, contextFlag, text)) ==> Fine(SecretAttached(d, contextFlag, text), g)
  {
    var loaded := LoadWith(d.config, contextFlag);
    var cfg, canonical := Context(loaded), RefString(ParseRef(text).value);
    if Fine(d, g) && (g.valued ==> !HollowAttach(d, contextFlag, text)) && canonical !in cfg.secrets {
      LoadedIsFine(d, contextFlag, g);
      BindingSecretIsFine(d, loaded.defaultContext, cfg, text, g.valued);
      SaveKeepsFine(d, contextFlag, cfg.(secrets := cfg.secrets + [canonical]), g);
    }
  }

  /** Attaching keeps every bound name valued exactly when the entry still has its value. */
  lemma AttachedSecretIsValuedIff(d: Vault, contextFlag: string, text: string)
    requires SecretAttachable(d, LoadWith(d.config, contextFlag), text) && Valued(d)
    ensures Valued(SecretAttached(d, contextFlag, text)) <==> !HollowAttach(d, contextFlag, text)
  {
    AttachedSecretIsFine(d, contextFlag, text, Grade(false, true));
    if HollowAttach(d, contextFlag, text) {
      var context := LoadWith(d.config, contextFlag).defaultContext;
      var after := SecretAttached(d, contextFlag, text);
      BindingHollowIsNotValued(after, context, after.config.contexts[context], text);
    }
  }

  /** A secret whose entry has lost its value can still be attached, and then is bound without one. */
  lemma HollowCanBeAttached(d: Vault, contextFlag: string, name: string)
    requires Valued(d) && ValidName(name)
    requires var loaded := LoadWith(d.config, contextFlag);
             && name !in Context(loaded).envVars
             && Key(loaded.defaultContext, name) in d.secrets && d.secrets[Key(loaded.defaultContext, name)].None?
    ensures SecretAttachable(d, LoadWith(d.config, contextFlag), name) && !Valued(SecretAttached(d, contextFlag, name))
  {
    PlainName(name);
    AttachedSecretIsValuedIff(d, contextFlag, name);
  }

  /** An indeterminate deletion of an unbound secret leads there. */
  lemma HollowSecretCanBeAttached(name: string)
    requires ValidName(name)
    ensures var key, config := Key(DEFAULT_CONTEXT, name), Config(map[DEFAULT_CONTEXT := EMPTY_CONTEXT], DEFAULT_CONTEXT, "");
            var whole, hollow := Vault(map[key := Some("v")], map[], config), Vault(map[key := None], map[], config);
            && RemoveEffect(whole, key, Some(Indeterminate), hollow)
            && Valued(hollow) && SecretAttachable(hollow, LoadWith(config, ""), name)
            && !Valued(SecretAttached(hollow, "", name))
  {
    var key, config := Key(DEFAULT_CONTEXT, name), Config(map[DEFAULT_CONTEXT := EMPTY_CONTEXT], DEFAULT_CONTEXT, "");
    var whole, hollow := Vault(map[key := Some("v")], map[], config), Vault(map[key := None], map[], config);
    assert whole.secrets[key := None] == hollow.secrets;
    HollowCanBeAttached(hollow, "", name);
  }

  /** The local source is registered with its own type only, so another type never resolves to it. */
  method VerifySecretReference(v: Values, c: Config, ref: Ref) returns (ok: bool)
    modifies v
    ensures v.at == old(v.at) && old(v.history) <= v.history
    ensures forall n | |old(v.history)| <= n < |v.history| :: v.history[n] == v.at
    ensures ok ==> Verifiable(v.at, c, ref)
    ensures v.faults >= old(v.faults) && (v.faults == old(v.faults) ==> (ok <==> Verifiable(v.at, c, ref)))
  {
    if ref.source == LOCAL_SOURCE && (ref.typeName == "" || ref.typeName == LOCAL_SOURCE) {
      var present := v.SecretMeta(Key(c.defaultContext, ref.name));
      return present.Ok? && present.value;
    }
    var resolved: bool := *;
    ok := resolved && ref.source != LOCAL_SOURCE;
    v.faults := v.faults + if ok then 0 else 1;
  }

  datatype Kind = EnvBinding | SecretBinding

  function BindingsFor(cfg: ContextConfig, kind: Kind): seq<string>
  {
    match kind case EnvBinding => cfg.envVars case SecretBinding => cfg.secrets
  }

  function WithBindings(cfg: ContextConfig, kind: Kind, bindings: seq<string>): ContextConfig
  {
    match kind case EnvBinding => cfg.(envVars := bindings) case SecretBinding => cfg.(secrets := bindings)
  }

  predicate Unreferenced(cfg: ContextConfig, kind: Kind, name: string)
  {
    match kind case EnvBinding => name !in cfg.envVars case SecretBinding => !Refers(cfg.secrets, name)
  }

  /** The configuration without the first binding spelled exactly `name`. */
  function ConfigUnbound(file: Config, loaded: Config, kind: Kind, name: string): Config
    requires loaded.defaultContext in loaded.contexts
  {
    var bindings := BindingsFor(Context(loaded), kind);
    if name !in bindings then file
    else Persisted(WithContext(loaded, WithBindings(Context(loaded), kind, RemoveAt(bindings, IndexOf(bindings, name)))))
  }

  method EnvDetach(v: Values, contextFlag: string, name: string) returns (ok: bool)
    modifies v
    ensures v.Switched()
    ensures v.at == if ok then old(v.at).(config := ConfigUnbound(old(v.at).config, LoadWith(old(v.at).config, contextFlag), EnvBinding, name))
                    else old(v.at)
    ensures ok ==> Removed(old(v.at).config, v.at.config, contextFlag, EnvBinding, name)
    ensures v.faults >= old(v.faults) && (v.faults == old(v.faults) ==> (ok <==> ValidName(name)))
  {
    UnboundIsRemoved(v.at.config, contextFlag, EnvBinding, name);
    if !ValidName(name) {
      return false;
    }
    var loaded := v.LoadConfig(contextFlag);
    if loaded.Err? {
      return false;
    }
    var cfg := Context(loaded.value);
    var index := IndexOf(cfg.envVars, name);
    if index == |cfg.envVars| {
      return true;
    }
    var less := cfg.(envVars := RemoveAt(cfg.envVars, index));
    ok := v.SaveConfig(WithContext(loaded.value, less));
  }

  method SecretDetach(v: Values, contextFlag: string, text: string) returns (ok: bool)
    modifies v
    ensures v.Switched()
    ensures ok ==> ParseRef(text).Some?
                   && v.at == old(v.at).(config := ConfigUnbound(old(v.at).config, LoadWith(old(v.at).config, contextFlag),
                                                                 SecretBinding, RefString(ParseRef(text).value)))
                   && Removed(old(v.at).config, v.at.config, contextFlag, SecretBinding, RefString(ParseRef(text).value))
    ensures !ok ==> v.at == old(v.at)
    ensures v.faults >= old(v.faults) && (v.faults == old(v.faults) ==> (ok <==> ParseRef(text).Some?))
  {
    var parsed := ParseRef(text);
    if parsed.None? {
      return false;
    }
    UnboundIsRemoved(v.at.config, contextFlag, SecretBinding, RefString(parsed.value));
    var loaded := v.LoadConfig(contextFlag);
    if loaded.Err? {
      return false;
    }
    var cfg := Context(loaded.value);
    var index := IndexOf(cfg.secrets, RefString(parsed.value));
    if index == |cfg.secrets| {
      return true;
    }
    var less := cfg.(secrets := RemoveAt(cfg.secrets, index));
    ok := v.SaveConfig(WithContext(loaded.value, less));
  }

  /** The lists of `less` hold nothing new and no new duplicates. */
  ghost predicate Shrunk(cfg: ContextConfig, less: ContextConfig)
  {
    && (forall x | x in less.secrets :: x in cfg.secrets) && (forall x | x in less.envVars :: x in cfg.envVars)
    && (Distinct(cfg.secrets) ==> Distinct(less.secrets)) && (Distinct(cfg.envVars) ==> Distinct(less.envVars))
  }

  /** Saving the selected context with fewer bindings. */
  lemma DetachIsFine(d: Vault, contextFlag: string, less: ContextConfig, g: Grade)
    requires Fine(d, g) && Shrunk(Context(LoadWith(d.config, contextFlag)), less)
    ensures Fine(d.(config := Persisted(WithContext(LoadWith(d.config, contextFlag), less))), g)
  {
    var loaded := LoadWith(d.config, contextFlag);
    LoadedIsFine(d, contextFlag, g);
    ShrinkingIsFine(d, loaded.defaultContext, Context(loaded), less, g.valued);
    SaveKeepsFine(d, contextFlag, less, g);
  }

  /** NAME=VALUE, or NAME with a separate value. */
  function ParseEnvAssignment(arg: string, value: string, valueSet: bool): Option<(string, string)>
  {
    var i := IndexOf(arg, '=');
    if i < |arg| && valueSet then None
    else
      var (n, x) := if i < |arg| then (arg[..i], arg[i + 1..]) else (arg, value);
      if ValidName(n) then Some((n, x)) else None
  }

  /** The value is all that follows the first `=`, which no name contains. */
  lemma AssignmentsParse(name: string, value: string, valueSet: bool)
    requires '=' !in name
    ensures ParseEnvAssignment(name, value, valueSet) == if ValidName(name) then Some((name, value)) else None
    ensures ParseEnvAssignment(name + "=" + value, "", false) == if ValidName(name) then Some((name, value)) else None
    ensures ParseEnvAssignment(name + "=" + value, "", true) == None
  {
    var arg := name + "=" + value;
    assert arg[..|name|] == name && arg[|name|] == '=' && arg[|name| + 1..] == value;
    IndexIsFirst(arg, '=', |name|);
    assert arg[IndexOf(arg, '=')] == '=';
  }

  /** No binding, in either spelling, is the local secret of that name. */
  predicate NoSecretNamed(bindings: seq<string>, name: string)
  {
    forall b | b in bindings ::
      b != "local/" + name && (ParseRef(b).None? || ParseRef(b).value.source != "local" || ParseRef(b).value.name != name)
  }

  lemma SettableIsNoSecret(loaded: Config, assignment: Option<(string, string)>)
    requires loaded.defaultContext in loaded.contexts && EnvSettable(loaded, assignment)
    ensures NoSecretNamed(Context(loaded).secrets, assignment.value.0)
  {
    forall b | b in Context(loaded).secrets
      ensures !Denotes(b, assignment.value.0)
    {
      DenotesWhat(b, assignment.value.0);
    }
  }

  method EnvSet(v: Values, contextFlag: string, arg: string, value: string, valueSet: bool) returns (ok: bool)
    modifies v
    ensures v.Switched()
    ensures var loaded := LoadWith(old(v.at).config, contextFlag);
            ok ==> EnvSettable(loaded, ParseEnvAssignment(arg, value, valueSet))
                   && var (n, x) := ParseEnvAssignment(arg, value, valueSet).value;
                   v.at == old(v.at).(envs := old(v.at).envs[Key(loaded.defaultContext, n) := x])
                   && NoSecretNamed(Context(loaded).secrets, n)
    ensures !ok ==> v.at == old(v.at)
    ensures v.faults >= old(v.faults)
    ensures v.faults == old(v.faults) ==> (ok <==> EnvSettable(LoadWith(old(v.at).config, contextFlag), ParseEnvAssignment(arg, value, valueSet)))
  {
    var parsed := ParseEnvAssignment(arg, value, valueSet);
    if parsed.None? {
      return false;
    }
    var (n, x) := parsed.value;
    var loaded := v.LoadConfig(contextFlag);
    if loaded.Err? {
      return false;
    }
    var conflict := AttachedLocalSecret(Context(loaded.value), n);
    if conflict {
      return false;
    }
    SettableIsNoSecret(loaded.value, parsed);
    var key := Key(loaded.value.defaultContext, n);
    ok := v.SetEnv(key, x);
  }

  lemma ConversionKeepsFine(before: Vault, key: Key, value: string, d: Vault, g: Grade)
    requires Fine(before, g) && NothingLost(before, key, value, d)
    requires key.context in before.config.contexts ==> key.name !in before.config.contexts[key.context].envVars
    ensures Fine(d, g)
  {
    forall k | k in before.secrets && k != key
      ensures k in d.secrets && d.secrets[k] == before.secrets[k]
    {
      assert (before.secrets - {key})[k] == before.secrets[k] && (d.secrets - {key})[k] == d.secrets[k];
    }
    forall k | k in before.envs && k != key
      ensures k in d.envs
    {
      assert k in before.envs - {key};
    }
    ValuesKeepFine(before, key, d, g);
  }

  /** A state that writing a secret passes through: nothing is lost, and a bound variable is not touched. */
  ghost predicate Converts(before: Vault, contextFlag: string, name: string, value: string, d: Vault)
  {
    var loaded := LoadWith(before.config, contextFlag);
    d == before || (name !in Context(loaded).envVars && NothingLost(before, Key(loaded.defaultContext, name), value, d))
  }

  method SecretSet(v: Values, contextFlag: string, name: string, value: string) returns (ok: bool)
    modifies v
    ensures v.Went()
    ensures forall n | |old(v.history)| <= n < |v.history| ::
              Converts(old(v.at), contextFlag, name, value, v.history[n])
    ensures var loaded := LoadWith(old(v.at).config, contextFlag);
            var key := Key(loaded.defaultContext, name);
            && NothingLost(old(v.at), key, value, v.at)
            && (ok ==> ValidName(name) && name !in Context(loaded).envVars
                       && v.at == old(v.at).(secrets := old(v.at).secrets[key := Some(value)], envs := old(v.at).envs - {key}))
            && (v.faults == old(v.faults) ==> (ok <==> ValidName(name) && name !in Context(loaded).envVars && Convertible(old(v.at), key)))
            && (v.faults == old(v.faults) && !ok ==> v.at == old(v.at))
    ensures v.faults >= old(v.faults)
  {
    ghost var before := v.at;
    ghost var selected := Key(LoadWith(before.config, contextFlag).defaultContext, name);
    SetLosesNothing(before, selected, value, false, before);
    if !ValidName(name) {
      return false;
    }
    var loaded := v.LoadConfig(contextFlag);
    if loaded.Err? || name in Context(loaded.value).envVars {
      return false;
    }
    var r := SetSecretValue(v, Key(loaded.value.defaultContext, name), value);
    return r.Done?;
  }

  // ----- Deleting a value together with its binding -----

  datatype Deletion =
    | Deleted
    | Kept            // an error; the value is untouched and so is its binding
    | Unknown         // the store lost track of the value, which stays detached
    | StillDetached   // the value was kept, but its binding could not be put back

  /** How many operations have failed: only a binding that could not be put back takes two. */
  function Failures(r: Deletion): nat
  {
    match r case Deleted => 0 case Kept => 1 case Unknown => 1 case StillDetached => 2
  }

  function Restored(bindings: seq<string>, name: string, index: nat): seq<string>
  {
    if name in bindings then bindings
    else
      var i := if index < |bindings| then index else |bindings|;
      bindings[..i] + [name] + bindings[i..]
  }

  /** Putting a binding back undoes its removal exactly when it was bound only once. */
  lemma RestoredUndoesRemovalIff(s: seq<string>, i: nat)
    requires i < |s|
    ensures Restored(RemoveAt(s, i), s[i], i) == s <==> s[i] !in RemoveAt(s, i)
  {
    if s[i] in RemoveAt(s, i) {
      assert |RemoveAt(s, i)| == |s| - 1;
    } else {
      assert s == s[..i] + [s[i]] + s[i + 1..];
    }
  }

  /** The values of `kind` after deleting `key`. */
  predicate ValueDeleted(d: Vault, kind: Kind, key: Key, failure: Option<Failure>, d': Vault)
  {
    match kind
    case SecretBinding => RemoveEffect(d, key, failure, d')
    case EnvBinding => d' == if failure.None? then d.(envs := d.envs - {key}) else d
  }

  /** Once the first binding spelled `name` is removed nothing refers to the value. */
  predicate SoleBinding(loaded: Config, kind: Kind, name: string)
    requires loaded.defaultContext in loaded.contexts
  {
    Unreferenced(WithBindings(Context(loaded), kind, Remaining(loaded, kind, name)), kind, name)
  }

  /** The bindings without the first one spelled exactly `name`. */
  function Remaining(loaded: Config, kind: Kind, name: string): seq<string>
    requires loaded.defaultContext in loaded.contexts
  {
    var bindings := BindingsFor(Context(loaded), kind);
    if name in bindings then RemoveAt(bindings, IndexOf(bindings, name)) else bindings
  }

  /** In a tidy configuration every binding is the only one. */
  lemma TidyIsSole(d: Vault, contextFlag: string, kind: Kind, name: string)
    requires Tidy(d)
    ensures SoleBinding(LoadWith(d.config, contextFlag), kind, name)
  {
    var loaded := LoadWith(d.config, contextFlag);
    var bindings := BindingsFor(Context(loaded), kind);
    assert ContextTidy(Context(loaded)) by {
      if loaded.defaultContext in d.config.contexts { assert ContextTidy(d.config.contexts[loaded.defaultContext]); }
    }
    if name in bindings { RemoveAtShrinks(bindings, IndexOf(bindings, name)); }
  }

  lemma UnboundIsFine(before: Vault, contextFlag: string, loaded: Config, kind: Kind, name: string, g: Grade)
    requires Fine(before, g) && loaded == LoadWith(before.config, contextFlag)
    ensures Fine(before.(config := ConfigUnbound(before.config, loaded, kind, name)), g)
  {
    var cfg := Context(loaded);
    var bindings := BindingsFor(cfg, kind);
    if name in bindings {
      var i := IndexOf(bindings, name);
      RemoveAtShrinks(bindings, i);
      DetachIsFine(before, contextFlag, WithBindings(cfg, kind, RemoveAt(bindings, i)), g);
    }
  }

  lemma ValueDeletedIsFine(before: Vault, contextFlag: string, loaded: Config, kind: Kind, name: string, failure: Option<Failure>, d': Vault, g: Grade)
    requires Fine(before, g) && loaded == LoadWith(before.config, contextFlag) && SoleBinding(loaded, kind, name)
    requires ValueDeleted(before.(config := ConfigUnbound(before.config, loaded, kind, name)), kind, Key(loaded.defaultContext, name), failure, d')
    ensures Fine(d', g)
  {
    var unbound := before.(config := ConfigUnbound(before.config, loaded, kind, name));
    var context := loaded.defaultContext;
    UnboundIsFine(before, contextFlag, loaded, kind, name, g);
    assert context in unbound.config.contexts ==> BindingsFor(unbound.config.contexts[context], kind) == Remaining(loaded, kind, name);
    ValuesKeepFine(unbound, Key(context, name), d', g);
  }

  method DeleteStored(v: Values, kind: Kind, key: Key) returns (failure: Option<Failure>)
    modifies v
    ensures v.Ended(failure.Some?, failure == Some(Indeterminate)) && ValueDeleted(old(v.at), kind, key, failure, v.at)
    ensures kind.EnvBinding? ==> failure != Some(Indeterminate)
  {
    if kind.SecretBinding? {
      failure := v.DeleteSecret(key);
    } else {
      var ok := v.DeleteEnv(key);
      failure := if ok then None else Some(Plain);
    }
  }

  method PersistDetachedBinding(v: Values, loaded: Config, kind: Kind, name: string)
    returns (saved: bool)
    requires loaded.defaultContext in loaded.contexts
    modifies v
    ensures v.Went()
    ensures forall n | |old(v.history)| <= n < |v.history| :: v.history[n] == v.at
    ensures v.at == if saved then old(v.at).(config := ConfigUnbound(old(v.at).config, loaded, kind, name)) else old(v.at)
    ensures v.faults == old(v.faults) + (if saved then 0 else 1) && v.losses == old(v.losses)
  {
    var bindings := BindingsFor(Context(loaded), kind);
    var index := IndexOf(bindings, name);
    if index == |bindings| {
      return true;
    }
    saved := v.SaveConfig(WithContext(loaded, WithBindings(Context(loaded), kind, RemoveAt(bindings, index))));
  }

  lemma RestoredConfig(loaded: Config, kind: Kind, i: nat)
    requires loaded.defaultContext in loaded.contexts
    requires var bindings := BindingsFor(Context(loaded), kind); i < |bindings| && bindings[i] !in RemoveAt(bindings, i)
    ensures var bindings := BindingsFor(Context(loaded), kind);
            WithContext(loaded, WithBindings(Context(loaded), kind, Restored(RemoveAt(bindings, i), bindings[i], i))) == loaded
  {
    var bindings := BindingsFor(Context(loaded), kind);
    RestoredUndoesRemovalIff(bindings, i);
    assert WithBindings(Context(loaded), kind, bindings) == Context(loaded);
    assert loaded.contexts[loaded.defaultContext := Context(loaded)] == loaded.contexts;
  }

  /** The configuration once the first binding spelled `name` was put back. */
  function ConfigRebound(loaded: Config, kind: Kind, name: string): Config
    requires loaded.defaultContext in loaded.contexts && name in BindingsFor(Context(loaded), kind)
  {
    var bindings := BindingsFor(Context(loaded), kind);
    var i := IndexOf(bindings, name);
    Persisted(WithContext(loaded, WithBindings(Context(loaded), kind, Restored(RemoveAt(bindings, i), name, i))))
  }

  /** A binding that was there only once is back exactly as it was; of several, one is dropped. */
  lemma ReboundIsLoaded(loaded: Config, kind: Kind, name: string)
    requires loaded.defaultContext in loaded.contexts && name in BindingsFor(Context(loaded), kind)
    ensures name !in Remaining(loaded, kind, name) ==> ConfigRebound(loaded, kind, name) == Persisted(loaded)
  {
    var bindings := BindingsFor(Context(loaded), kind);
    var i := IndexOf(bindings, name);
    if name !in RemoveAt(bindings, i) { RestoredConfig(loaded, kind, i); }
  }

  lemma ReboundIsFine(before: Vault, contextFlag: string, loaded: Config, kind: Kind, name: string, g: Grade)
    requires Fine(before, g) && loaded == LoadWith(before.config, contextFlag) && name in BindingsFor(Context(loaded), kind)
    ensures Fine(before.(config := ConfigRebound(loaded, kind, name)), g)
  {
    var bindings := BindingsFor(Context(loaded), kind);
    var i := IndexOf(bindings, name);
    RemoveAtShrinks(bindings, i);
    if name !in RemoveAt(bindings, i) {
      RestoredUndoesRemovalIff(bindings, i);
      DetachIsFine(before, contextFlag, WithBindings(Context(loaded), kind, bindings), g);
    } else {
      DetachIsFine(before, contextFlag, WithBindings(Context(loaded), kind, RemoveAt(bindings, i)), g);
    }
  }

  /** After a plain store error the binding goes back where it was. */
  method PersistRestoredBinding(v: Values, loaded: Config, kind: Kind, name: string) returns (saved: bool)
    requires loaded.defaultContext in loaded.contexts && name in BindingsFor(Context(loaded), kind)
    modifies v
    ensures v.Moved(!saved) && v.at == if saved then old(v.at).(config := ConfigRebound(loaded, kind, name)) else old(v.at)
  {
    var bindings := BindingsFor(Context(loaded), kind);
    var index := IndexOf(bindings, name);
    var restored := Restored(RemoveAt(bindings, index), name, index);
    saved := v.SaveConfig(WithContext(loaded, WithBindings(Context(loaded), kind, restored)));
  }

  /** What each outcome of a deletion leaves. */
  ghost predicate DeletionOk(before: Vault, after: Vault, loaded: Config, kind: Kind, name: string, r: Deletion)
    requires loaded.defaultContext in loaded.contexts
  {
    var key := Key(loaded.defaultContext, name);
    var unbound := before.(config := ConfigUnbound(before.config, loaded, kind, name));
    match r
    case Deleted => ValueDeleted(unbound, kind, key, None, after)
    case Unknown => ValueDeleted(unbound, kind, key, Some(Indeterminate), after) && kind.SecretBinding?
    case StillDetached => after == unbound
    case Kept =>
      && after == before.(config := after.config)
      && (name !in Remaining(loaded, kind, name) ==> after.config in {before.config, Persisted(loaded)})
  }

  /** Attaches the value again when the store kept it; a binding of a lost value stays away. */
  method CompensateAttachment(v: Values, loaded: Config, kind: Kind, name: string, failure: Failure) returns (r: Deletion)
    requires loaded.defaultContext in loaded.contexts
    modifies v
    ensures r in {Kept, Unknown, StillDetached} && v.losses == old(v.losses)
    ensures v.faults == old(v.faults) + (if r.StillDetached? then 1 else 0)
    ensures (v.at == old(v.at) && v.history == old(v.history)) || v.history == old(v.history) + [v.at]
    ensures r.Unknown? <==> failure.Indeterminate?
    ensures r.Kept? && name in BindingsFor(Context(loaded), kind) ==> v.at == old(v.at).(config := ConfigRebound(loaded, kind, name))
    ensures r.Kept? && name !in BindingsFor(Context(loaded), kind) ==> v.at == old(v.at)
    ensures !r.Kept? ==> v.at == old(v.at)
  {
    if failure.Indeterminate? {
      return Unknown;
    }
    if name !in BindingsFor(Context(loaded), kind) {
      return Kept;
    }
    var restored := PersistRestoredBinding(v, loaded, kind, name);
    return if restored then Kept else StillDetached;
  }

  /** What the store leaves, whether it succeeds or how it fails. */
  predicate PartlyDeleted(unbound: Vault, kind: Kind, key: Key, d: Vault)
  {
    || ValueDeleted(unbound, kind, key, None, d)
    || ValueDeleted(unbound, kind, key, Some(Plain), d)
    || ValueDeleted(unbound, kind, key, Some(Indeterminate), d)
  }

  /** A state that a deletion passes through. */
  ghost predicate Deletes(before: Vault, loaded: Config, kind: Kind, name: string, d: Vault)
    requires loaded.defaultContext in loaded.contexts
  {
    var unbound := before.(config := ConfigUnbound(before.config, loaded, kind, name));
    || d == before
    || PartlyDeleted(unbound, kind, Key(loaded.defaultContext, name), d)
    || (name in BindingsFor(Context(loaded), kind) && d == before.(config := ConfigRebound(loaded, kind, name)))
  }

  /** Deletes a value after detaching it, and attaches it again when the store kept the value. */
  method DeleteManaged(v: Values, loaded: Config, kind: Kind, name: string) returns (r: Deletion)
    requires loaded.defaultContext in loaded.contexts
    modifies v
    ensures v.Went()
    ensures forall n | |old(v.history)| <= n < |v.history| :: Deletes(old(v.at), loaded, kind, name, v.history[n])
    ensures DeletionOk(old(v.at), v.at, loaded, kind, name, r)
    ensures v.faults == old(v.faults) + Failures(r) && v.losses == old(v.losses) + (if r.Unknown? then 1 else 0)
  {
    ghost var before := v.at;
    var saved := PersistDetachedBinding(v, loaded, kind, name);
    if !saved {
      return Kept;
    }
    UnboundDeletes(before, loaded, kind, name);
    r := DeleteDetached(v, loaded, kind, name, before);
  }

  /** The rest of a deletion, once the binding is gone from the configuration. */
  method DeleteDetached(v: Values, loaded: Config, kind: Kind, name: string, ghost before: Vault) returns (r: Deletion)
    requires loaded.defaultContext in loaded.contexts
    requires v.at == before.(config := ConfigUnbound(before.config, loaded, kind, name))
    modifies v
    ensures v.Went()
    ensures forall n | |old(v.history)| <= n < |v.history| :: Deletes(before, loaded, kind, name, v.history[n])
    ensures DeletionOk(before, v.at, loaded, kind, name, r)
    ensures v.faults == old(v.faults) + Failures(r) && v.losses == old(v.losses) + (if r.Unknown? then 1 else 0)
  {
    ghost var unbound := v.at;
    var failure := DeleteStored(v, kind, Key(loaded.defaultContext, name));
    assert Deletes(before, loaded, kind, name, v.at) by {
      assert ValueDeleted(unbound, kind, Key(loaded.defaultContext, name), failure, v.at);
    }
    if failure.None? {
      return Deleted;
    }
    if name in BindingsFor(Context(loaded), kind) { ReboundIsLoaded(loaded, kind, name); }
    r := CompensateAttachment(v, loaded, kind, name, failure.value);
  }

  lemma UnboundDeletes(before: Vault, loaded: Config, kind: Kind, name: string)
    requires loaded.defaultContext in loaded.contexts
    ensures Deletes(before, loaded, kind, name, before.(config := ConfigUnbound(before.config, loaded, kind, name)))
  {
    var unbound := before.(config := ConfigUnbound(before.config, loaded, kind, name));
    assert ValueDeleted(unbound, kind, Key(loaded.defaultContext, name), Some(Plain), unbound);
  }

  ghost predicate DeletesSince(before: Vault, contextFlag: string, kind: Kind, name: string, history: seq<Vault>, from: nat)
  {
    forall n {:trigger Deletes(before, LoadWith(before.config, contextFlag), kind, name, history[n])} | from <= n < |history| ::
      Deletes(before, LoadWith(before.config, contextFlag), kind, name, history[n])
  }

  /** If no other binding refers to the value, every state that its deletion passes through is in order. */
  lemma DeletesKeepFine(before: Vault, contextFlag: string, kind: Kind, name: string, d: Vault, g: Grade)
    requires Fine(before, g) && Deletes(before, LoadWith(before.config, contextFlag), kind, name, d)
    requires SoleBinding(LoadWith(before.config, contextFlag), kind, name)
    ensures Fine(d, g)
  {
    var loaded := LoadWith(before.config, contextFlag);
    var unbound := before.(config := ConfigUnbound(before.config, loaded, kind, name));
    var key := Key(loaded.defaultContext, name);
    if PartlyDeleted(unbound, kind, key, d) {
      var f := if ValueDeleted(unbound, kind, key, None, d) then None
               else if ValueDeleted(unbound, kind, key, Some(Plain), d) then Some(Plain) else Some(Indeterminate);
      ValueDeletedIsFine(before, contextFlag, loaded, kind, name, f, d, g);
    } else if d != before {
      ReboundIsFine(before, contextFlag, loaded, kind, name, g);
    }
  }

  /**
   A successful deletion leaves no binding dangling exactly when no other binding refers to the secret,
   whether or not one is spelled like its name.
   */
  lemma DeletedIsBoundIff(d: Vault, contextFlag: string, name: string)
    requires Bound(d)
    ensures var loaded := LoadWith(d.config, contextFlag);
            (Bound(d.(secrets := d.secrets - {Key(loaded.defaultContext, name)},
                      config := ConfigUnbound(d.config, loaded, SecretBinding, name)))
             <==> !Refers(Remaining(loaded, SecretBinding, name), name))
  {
    var loaded := LoadWith(d.config, contextFlag);
    var context, rest := loaded.defaultContext, Remaining(loaded, SecretBinding, name);
    var after := d.(secrets := d.secrets - {Key(context, name)}, config := ConfigUnbound(d.config, loaded, SecretBinding, name));
    if Refers(rest, name) {
      var b :| b in rest && Spec.LocalName(b) == Some(name);
      assert context in after.config.contexts && after.config.contexts[context].secrets == rest;
      assert !ContextBound(after, context, after.config.contexts[context], false) by {
        assert !HasEntry(after, Key(context, Spec.LocalName(b).value), false);
      }
    } else {
      ValueDeletedIsFine(d, contextFlag, loaded, SecretBinding, name, None, after, Grade(false, false));
    }
  }

  /** Two such configurations: another spelling beside the name, and another spelling alone. */
  lemma SpacedBindingDangles(name: string, secrets: seq<string>)
    requires ValidName(name) && secrets in {[name, " " + name], [" " + name]}
    ensures var config := Config(map[DEFAULT_CONTEXT := ContextConfig(secrets, [], map[])], DEFAULT_CONTEXT, "");
            var d := Vault(map[Key(DEFAULT_CONTEXT, name) := Some("v")], map[], config);
            && Bound(d)
            && !Bound(d.(secrets := d.secrets - {Key(DEFAULT_CONTEXT, name)}, config := ConfigUnbound(config, LoadWith(config, ""), SecretBinding, name)))
  {
    var spaced := " " + name;
    PlainName(name);
    assert spaced[1..] == name && TrimLeft(spaced) == TrimLeft(name);
    assert Spec.LocalName(spaced) == Some(name) == Spec.LocalName(name);
    var config := Config(map[DEFAULT_CONTEXT := ContextConfig(secrets, [], map[])], DEFAULT_CONTEXT, "");
    var d := Vault(map[Key(DEFAULT_CONTEXT, name) := Some("v")], map[], config);
    assert ContextBound(d, DEFAULT_CONTEXT, config.contexts[DEFAULT_CONTEXT], false);
    assert spaced != name by { assert |spaced| != |name|; }
    assert spaced in Remaining(LoadWith(config, ""), SecretBinding, name);
    DeletedIsBoundIff(d, "", name);
  }

  /** If every bound secret was in the catalog, that is still so exactly when none of the remaining bindings refers to `name`. */
  ghost predicate DanglesUnlessSole(before: Vault, after: Vault, contextFlag: string, name: string)
  {
    Bound(before) ==> (Bound(after) <==> !Refers(Remaining(LoadWith(before.config, contextFlag), SecretBinding, name), name))
  }

  lemma DeletedIsSound(d: Vault, contextFlag: string, name: string)
    ensures var loaded := LoadWith(d.config, contextFlag);
            DanglesUnlessSole(d, d.(secrets := d.secrets - {Key(loaded.defaultContext, name)},
                                    config := ConfigUnbound(d.config, loaded, SecretBinding, name)), contextFlag, name)
  {
    if Bound(d) { DeletedIsBoundIff(d, contextFlag, name); }
  }

  /** A value that could not be deleted stays bound: the same lists are loaded, if it was bound only once. */
  ghost predicate StaysBound(before: Vault, after: Vault, contextFlag: string, kind: Kind, name: string)
  {
    var a, b := LoadWith(before.config, contextFlag), LoadWith(after.config, contextFlag);
    name !in Remaining(a, kind, name) ==> b.defaultContext == a.defaultContext && b.contexts == a.contexts
  }

  lemma DeletionReported(before: Vault, after: Vault, contextFlag: string, kind: Kind, name: string, r: Deletion)
    requires DeletionOk(before, after, LoadWith(before.config, contextFlag), kind, name, r)
    ensures r.Deleted? ==> Removed(before.config, after.config, contextFlag, kind, name)
    ensures r.Kept? ==> StaysBound(before, after, contextFlag, kind, name)
  {
    UnboundIsRemoved(before.config, contextFlag, kind, name);
  }

  method SecretDelete(v: Values, contextFlag: string, name: string) returns (ok: bool)
    modifies v
    ensures v.Went()
    ensures DeletesSince(old(v.at), contextFlag, SecretBinding, name, v.history, |old(v.history)|)
    ensures ok ==> DanglesUnlessSole(old(v.at), v.at, contextFlag, name)
    ensures v.at.envs == old(v.at).envs
    ensures var loaded := LoadWith(old(v.at).config, contextFlag);
            ok ==> v.at.secrets == old(v.at).secrets - {Key(loaded.defaultContext, name)}
                   && v.at.config == ConfigUnbound(old(v.at).config, loaded, SecretBinding, name)
    ensures ok ==> Removed(old(v.at).config, v.at.config, contextFlag, SecretBinding, name)
    ensures !ok && v.faults == old(v.faults) ==> v.at == old(v.at)
    ensures !ok && v.faults <= old(v.faults) + 1 && v.losses == old(v.losses) ==> StaysBound(old(v.at), v.at, contextFlag, SecretBinding, name)
    ensures v.faults >= old(v.faults)
    ensures v.faults == old(v.faults) ==> (ok <==> Key(LoadWith(old(v.at).config, contextFlag).defaultContext, name) in old(v.at).secrets)
  {
    var loaded := v.LoadConfig(contextFlag);
    if loaded.Err? {
      return false;
    }
    var present := v.SecretMeta(Key(loaded.value.defaultContext, name));
    if present.Err? || !present.value {
      return false;
    }
    ghost var before := v.at;
    var r := DeleteManaged(v, loaded.value, SecretBinding, name);
    if r.Deleted? { DeletedIsSound(before, contextFlag, name); }
    DeletionReported(before, v.at, contextFlag, SecretBinding, name, r);
    return r.Deleted?;
  }

  /** Deleting a variable detaches it first, and puts the binding back when the value stays. */
  method EnvDelete(v: Values, contextFlag: string, name: string) returns (ok: bool)
    modifies v
    ensures v.Went()
    ensures DeletesSince(old(v.at), contextFlag, EnvBinding, name, v.history, |old(v.history)|)
    ensures var loaded := LoadWith(old(v.at).config, contextFlag);
            && v.at.secrets == old(v.at).secrets
            && (ok ==> v.at.envs == old(v.at).envs - {Key(loaded.defaultContext, name)}
                       && v.at.config == ConfigUnbound(old(v.at).config, loaded, EnvBinding, name))
            && (!ok ==> v.at.envs == old(v.at).envs)
            && (v.faults == old(v.faults) ==> (ok <==> ValidName(name) && Key(loaded.defaultContext, name) in old(v.at).envs))
    ensures ok ==> Removed(old(v.at).config, v.at.config, contextFlag, EnvBinding, name)
    ensures !ok && v.faults == old(v.faults) ==> v.at == old(v.at)
    ensures !ok && v.faults <= old(v.faults) + 1 ==> StaysBound(old(v.at), v.at, contextFlag, EnvBinding, name)
    ensures v.faults >= old(v.faults)
  {
    if !ValidName(name) {
      return false;
    }
    ghost var before := v.at;
    var loaded := v.LoadConfig(contextFlag);
    if loaded.Err? {
      return false;
    }
    var key := Key(loaded.value.defaultContext, name);
    var present := v.EnvMeta(key);
    if present.Err? || !present.value {
      return false;
    }
    var r := DeleteManaged(v, loaded.value, EnvBinding, name);
    DeletionReported(before, v.at, contextFlag, EnvBinding, name, r);
    return r.Deleted?;
  }

  // ----- Runs -----

  datatype Command =
    | AttachEnv(name: string)
    | DetachEnv(name: string)
    | WriteEnv(arg: string, value: string, valueSet: bool)
    | DropEnv(name: string)
    | AttachSecret(text: string)
    | DetachSecret(text: string)
    | WriteSecret(name: string, value: string)
    | DropSecret(name: string)

  /** The command binds a secret whose entry has lost its value. */
  predicate BindsHollow(d: Vault, contextFlag: string, c: Command)
  {
    c.AttachSecret? && HollowAttach(d, contextFlag, c.text)
  }

  /** The effect of a command in which no operation fails: it does what it is for, or is refused and changes nothing. */
  ghost predicate Performed(before: Vault, after: Vault, contextFlag: string, c: Command)
  {
    var loaded := LoadWith(before.config, contextFlag);
    match c
    case AttachEnv(name) =>
      if EnvAttachable(before, loaded, name) then Rebinds(before, after) && Appended(before.config, after.config, contextFlag, EnvBinding, name)
      else after == before
    case DetachEnv(name) =>
      if ValidName(name) then Rebinds(before, after) && Removed(before.config, after.config, contextFlag, EnvBinding, name) else after == before
    case WriteEnv(arg, value, valueSet) =>
      var parsed := ParseEnvAssignment(arg, value, valueSet);
      if EnvSettable(loaded, parsed) then after == before.(envs := before.envs[Key(loaded.defaultContext, parsed.value.0) := parsed.value.1])
      else after == before
    case DropEnv(name) =>
      var key := Key(loaded.defaultContext, name);
      if ValidName(name) && key in before.envs
      then after.secrets == before.secrets && after.envs == before.envs - {key} && Removed(before.config, after.config, contextFlag, EnvBinding, name)
      else after == before
    case AttachSecret(text) =>
      if SecretAttachable(before, loaded, text)
      then Rebinds(before, after) && Appended(before.config, after.config, contextFlag, SecretBinding, RefString(ParseRef(text).value))
      else after == before
    case DetachSecret(text) =>
      if ParseRef(text).Some?
      then Rebinds(before, after) && Removed(before.config, after.config, contextFlag, SecretBinding, RefString(ParseRef(text).value))
      else after == before
    case WriteSecret(name, value) =>
      var key := Key(loaded.defaultContext, name);
      if ValidName(name) && name !in Context(loaded).envVars && Convertible(before, key)
      then after == before.(secrets := before.secrets[key := Some(value)], envs := before.envs - {key})
      else after == before
    case DropSecret(name) =>
      var key := Key(loaded.defaultContext, name);
      if key in before.secrets
      then after.secrets == before.secrets - {key} && after.envs == before.envs && Removed(before.config, after.config, contextFlag, SecretBinding, name)
      else after == before
  }

  predicate Rebinds(before: Vault, after: Vault) { after.secrets == before.secrets && after.envs == before.envs }

  ghost predicate AllPerformed(passed: seq<Vault>, commands: seq<(string, Command)>, n: nat)
  {
    n < |passed| && n <= |commands| && forall i | 0 <= i < n :: Performed(passed[i], passed[i + 1], commands[i].0, commands[i].1)
  }

  lemma AllPerformedGrows(passed: seq<Vault>, last: Vault, commands: seq<(string, Command)>, n: nat)
    requires |passed| == n + 1 && n < |commands| && AllPerformed(passed, commands, n)
    requires Performed(passed[n], last, commands[n].0, commands[n].1)
    ensures AllPerformed(passed + [last], commands, n + 1)
  {
    var more := passed + [last];
    forall i | 0 <= i < n + 1
      ensures Performed(more[i], more[i + 1], commands[i].0, commands[i].1)
    {
      if i < n { assert Performed(passed[i], passed[i + 1], commands[i].0, commands[i].1); }
    }
  }

  /** `passed` are the states between the first `n` commands, all of which were durable. */
  ghost predicate Between(passed: seq<Vault>, first: Vault, history: seq<Vault>, last: Vault, n: nat)
  {
    && |passed| == n + 1 && passed[0] == first && passed[n] == last
    && forall i | 0 < i <= n :: passed[i] == passed[i - 1] || passed[i] in history
  }

  lemma BetweenGrows(passed: seq<Vault>, first: Vault, history: seq<Vault>, last: Vault, n: nat, history': seq<Vault>, last': Vault)
    requires Between(passed, first, history, last, n) && history <= history'
    requires last' == if |history'| == |history| then last else history'[|history'| - 1]
    ensures Between(passed + [last'], first, history', last', n + 1)
  {
    var more := passed + [last'];
    forall i | 0 < i <= n + 1
      ensures more[i] == more[i - 1] || more[i] in history'
    {
      if i <= n { assert more[i] == passed[i] && more[i - 1] == passed[i - 1]; }
    }
  }

  /** None of the first `n` commands binds a secret without its value. */
  ghost predicate NeverHollow(passed: seq<Vault>, commands: seq<(string, Command)>, n: nat)
    requires |passed| >= n && |commands| >= n
  {
    forall i | 0 <= i < n :: !BindsHollow(passed[i], commands[i].0, commands[i].1)
  }

  lemma NeverHollowGrows(passed: seq<Vault>, last: Vault, commands: seq<(string, Command)>, n: nat)
    requires |passed| == n + 1 && |commands| > n
    ensures NeverHollow(passed + [last], commands, n + 1) <==>
              NeverHollow(passed, commands, n) && !BindsHollow(passed[n], commands[n].0, commands[n].1)
  {
    var more := passed + [last];
    assert forall i | 0 <= i <= n :: more[i] == passed[i];
    assert NeverHollow(more, commands, n + 1) ==> !BindsHollow(more[n], commands[n].0, commands[n].1);
    if NeverHollow(more, commands, n + 1) {
      forall i | 0 <= i < n
        ensures !BindsHollow(passed[i], commands[i].0, commands[i].1)
      {
        assert !BindsHollow(more[i], commands[i].0, commands[i].1);
      }
    }
  }

  /**
   The config lock lets commands run one after the other, each for a context of its choice. Whatever
   their order and their failures, no state that a crash could leave binds a name both ways, binds a
   variable without a value or binds a secret that is not in the catalog; and unless a command binds a
   secret whose value is lost, every bound secret has its value too. Configurations with untidy bindings
   keep this unless a value is deleted.
   */
  method RunAll(v: Values, commands: seq<(string, Command)>, ghost g: Grade) returns (ghost passed: seq<Vault>)
    requires Fine(v.at, g)
    requires g.tidy || forall c | c in commands :: !c.1.DropEnv? && !c.1.DropSecret?
    modifies v
    ensures v.Went() && Between(passed, old(v.at), v.history, v.at, |commands|)
    ensures FineFrom(v.history, |old(v.history)|, v.at, g.(valued := false))
    ensures NeverHollow(passed, commands, |commands|) ==> FineFrom(v.history, |old(v.history)|, v.at, g)
    ensures v.faults == old(v.faults) ==> AllPerformed(passed, commands, |commands|)
  {
    ghost var first, from := v.at, |v.history|;
    passed := [v.at];
    WeakerSince(v.history, from, v.at, g);
    for i := 0 to |commands|
      invariant v.Went() && RunSoFar(passed, first, v.history, from, v.at, commands, i, g)
      invariant v.faults >= old(v.faults) && (v.faults == old(v.faults) ==> AllPerformed(passed, commands, i))
    {
      passed := RunNext(v, passed, first, from, commands, i, g);
    }
  }

  /** What holds after the first `n` commands. */
  ghost predicate RunSoFar(passed: seq<Vault>, first: Vault, history: seq<Vault>, from: nat, last: Vault,
                           commands: seq<(string, Command)>, n: nat, g: Grade)
  {
    && n <= |commands| && Between(passed, first, history, last, n)
    && FineFrom(history, from, last, g.(valued := false))
    && (NeverHollow(passed, commands, n) ==> FineFrom(history, from, last, g))
  }

  method RunNext(v: Values, ghost passed: seq<Vault>, ghost first: Vault, ghost from: nat, commands: seq<(string, Command)>, i: nat, ghost g: Grade)
    returns (ghost passed': seq<Vault>)
    requires i < |commands| && from <= |v.history| && RunSoFar(passed, first, v.history, from, v.at, commands, i, g)
    requires g.tidy || (!commands[i].1.DropEnv? && !commands[i].1.DropSecret?)
    modifies v
    ensures v.Went() && RunSoFar(passed', first, v.history, from, v.at, commands, i + 1, g)
    ensures v.faults >= old(v.faults)
    ensures v.faults == old(v.faults) && AllPerformed(passed, commands, i) ==> AllPerformed(passed', commands, i + 1)
  {
    ghost var history, last := v.history, v.at;
    ghost var whole := NeverHollow(passed, commands, i) && !BindsHollow(v.at, commands[i].0, commands[i].1);
    ExecuteNext(v, commands[i].0, commands[i].1, if whole then g else g.(valued := false), from);
    if whole { WeakerSince(v.history, from, v.at, g); }
    BetweenGrows(passed, first, history, last, i, v.history, v.at);
    NeverHollowGrows(passed, v.at, commands, i);
    passed' := passed + [v.at];
    if v.faults == old(v.faults) && AllPerformed(passed, commands, i) { AllPerformedGrows(passed, v.at, commands, i); }
  }

  ghost predicate FineFrom(history: seq<Vault>, from: nat, last: Vault, g: Grade)
  {
    Fine(last, g) && FineSince(history, from, g)
  }

  /** One more command behind those since `from`. */
  method ExecuteNext(v: Values, contextFlag: string, c: Command, ghost g: Grade, ghost from: nat)
    requires from <= |v.history| && FineFrom(v.history, from, v.at, g)
    requires (g.tidy || (!c.DropEnv? && !c.DropSecret?)) && (g.valued ==> !BindsHollow(v.at, contextFlag, c))
    modifies v
    ensures v.Went() && FineFrom(v.history, from, v.at, g)
    ensures v.faults >= old(v.faults) && (v.faults == old(v.faults) ==> Performed(old(v.at), v.at, contextFlag, c))
  {
    Execute(v, contextFlag, c, g);
  }

  lemma WeakerIsFine(d: Vault, g: Grade)
    requires Fine(d, g)
    ensures Fine(d, g.(valued := false))
  {
    forall c | c in d.config.contexts
      ensures ContextBound(d, c, d.config.contexts[c], false)
    {
      assert ContextBound(d, c, d.config.contexts[c], g.valued);
    }
  }

  lemma WeakerSince(history: seq<Vault>, from: nat, d: Vault, g: Grade)
    requires FineFrom(history, from, d, g)
    ensures FineFrom(history, from, d, g.(valued := false))
  {
    WeakerIsFine(d, g);
    forall n | from <= n < |history|
      ensures Fine(history[n], g.(valued := false))
    {
      WeakerIsFine(history[n], g);
    }
  }

  lemma DeletionsAreFine(history: seq<Vault>, from: nat, before: Vault, after: Vault, contextFlag: string, kind: Kind, name: string, g: Grade)
    requires Fine(before, g) && g.tidy && from <= |history| && after == if from == |history| then before else history[|history| - 1]
    requires DeletesSince(before, contextFlag, kind, name, history, from)
    ensures Fine(after, g) && FineSince(history, from, g)
  {
    TidyIsSole(before, contextFlag, kind, name);
    forall n | from <= n < |history|
      ensures Fine(history[n], g)
    {
      DeletesKeepFine(before, contextFlag, kind, name, history[n], g);
    }
  }

  lemma ConversionsAreFine(history: seq<Vault>, from: nat, before: Vault, after: Vault, contextFlag: string, name: string, value: string, g: Grade)
    requires Fine(before, g) && from <= |history| && after == if from == |history| then before else history[|history| - 1]
    requires forall n | from <= n < |history| :: Converts(before, contextFlag, name, value, history[n])
    ensures Fine(after, g) && FineSince(history, from, g)
  {
    forall n | from <= n < |history|
      ensures Fine(history[n], g)
    {
      if history[n] != before {
        var loaded := LoadWith(before.config, contextFlag);
        ConversionKeepsFine(before, Key(loaded.defaultContext, name), value, history[n], g);
      }
    }
  }

  /** One command from a state in order leaves only such states, whatever fails. */
  method Execute(v: Values, contextFlag: string, c: Command, ghost g: Grade)
    requires Fine(v.at, g) && (g.tidy || (!c.DropEnv? && !c.DropSecret?)) && (g.valued ==> !BindsHollow(v.at, contextFlag, c))
    modifies v
    ensures v.Went()
    ensures Fine(v.at, g) && FineSince(v.history, |old(v.history)|, g)
    ensures v.faults >= old(v.faults) && (v.faults == old(v.faults) ==> Performed(old(v.at), v.at, contextFlag, c))
  {
    if c.AttachEnv? || c.DetachEnv? || c.WriteEnv? || c.DropEnv? {
      ExecuteEnv(v, contextFlag, c, g);
    } else {
      ExecuteSecret(v, contextFlag, c, g);
    }
  }

  method ExecuteEnv(v: Values, contextFlag: string, c: Command, ghost g: Grade)
    requires c.AttachEnv? || c.DetachEnv? || c.WriteEnv? || c.DropEnv?
    requires Fine(v.at, g) && (c.DropEnv? ==> g.tidy)
    modifies v
    ensures v.Went()
    ensures Fine(v.at, g) && FineSince(v.history, |old(v.history)|, g)
    ensures v.faults >= old(v.faults) && (v.faults == old(v.faults) ==> Performed(old(v.at), v.at, contextFlag, c))
  {
    ghost var before, from, loaded := v.at, |v.history|, LoadWith(v.at.config, contextFlag);
    match c
    case AttachEnv(name) =>
      var ok := EnvAttach(v, contextFlag, name);
      if ok { AttachedEnvIsFine(before, contextFlag, name, g); }
    case DetachEnv(name) =>
      var _ := EnvDetach(v, contextFlag, name);
      UnboundIsFine(before, contextFlag, loaded, EnvBinding, name, g);
    case WriteEnv(arg, value, valueSet) =>
      var ok := EnvSet(v, contextFlag, arg, value, valueSet);
      if ok { ValuesKeepFine(before, Key(loaded.defaultContext, ParseEnvAssignment(arg, value, valueSet).value.0), v.at, g); }
    case DropEnv(name) =>
      var _ := EnvDelete(v, contextFlag, name);
      DeletionsAreFine(v.history, from, before, v.at, contextFlag, EnvBinding, name, g);
  }

  method ExecuteSecret(v: Values, contextFlag: string, c: Command, ghost g: Grade)
    requires c.AttachSecret? || c.DetachSecret? || c.WriteSecret? || c.DropSecret?
    requires Fine(v.at, g) && (c.DropSecret? ==> g.tidy) && (g.valued ==> !BindsHollow(v.at, contextFlag, c))
    modifies v
    ensures v.Went()
    ensures Fine(v.at, g) && FineSince(v.history, |old(v.history)|, g)
    ensures v.faults >= old(v.faults) && (v.faults == old(v.faults) ==> Performed(old(v.at), v.at, contextFlag, c))
  {
    match c
    case AttachSecret(text) => ExecuteAttach(v, contextFlag, text, g);
    case DetachSecret(text) => ExecuteDetach(v, contextFlag, text, g);
    case WriteSecret(name, value) => ExecuteWrite(v, contextFlag, name, value, g);
    case DropSecret(name) => ExecuteDrop(v, contextFlag, name, g);
  }

  method ExecuteAttach(v: Values, contextFlag: string, text: string, ghost g: Grade)
    requires Fine(v.at, g) && (g.valued ==> !HollowAttach(v.at, contextFlag, text))
    modifies v
    ensures v.Went()
    ensures Fine(v.at, g) && FineSince(v.history, |old(v.history)|, g)
    ensures v.faults >= old(v.faults) && (v.faults == old(v.faults) ==> Performed(old(v.at), v.at, contextFlag, AttachSecret(text)))
  {
    ghost var before := v.at;
    var ok := SecretAttach(v, contextFlag, text);
    if ok { AttachedSecretIsFine(before, contextFlag, text, g); }
  }

  method ExecuteDetach(v: Values, contextFlag: string, text: string, ghost g: Grade)
    requires Fine(v.at, g)
    modifies v
    ensures v.Went()
    ensures Fine(v.at, g) && FineSince(v.history, |old(v.history)|, g)
    ensures v.faults >= old(v.faults) && (v.faults == old(v.faults) ==> Performed(old(v.at), v.at, contextFlag, DetachSecret(text)))
  {
    ghost var before := v.at;
    var ok := SecretDetach(v, contextFlag, text);
    if ok { UnboundIsFine(before, contextFlag, LoadWith(before.config, contextFlag), SecretBinding, RefString(ParseRef(text).value), g); }
  }

  method ExecuteWrite(v: Values, contextFlag: string, name: string, value: string, ghost g: Grade)
    requires Fine(v.at, g)
    modifies v
    ensures v.Went()
    ensures Fine(v.at, g) && FineSince(v.history, |old(v.history)|, g)
    ensures v.faults >= old(v.faults) && (v.faults == old(v.faults) ==> Performed(old(v.at), v.at, contextFlag, WriteSecret(name, value)))
  {
    ghost var before, from := v.at, |v.history|;
    var _ := SecretSet(v, contextFlag, name, value);
    ConversionsAreFine(v.history, from, before, v.at, contextFlag, name, value, g);
  }

  method ExecuteDrop(v: Values, contextFlag: string, name: string, ghost g: Grade)
    requires Fine(v.at, g) && g.tidy
    modifies v
    ensures v.Went()
    ensures Fine(v.at, g) && FineSince(v.history, |old(v.history)|, g)
    ensures v.faults >= old(v.faults) && (v.faults == old(v.faults) ==> Performed(old(v.at), v.at, contextFlag, DropSecret(name)))
  {
    ghost var before, from := v.at, |v.history|;
    DropSecretValue(v, contextFlag, name);
    DeletionsAreFine(v.history, from, before, v.at, contextFlag, SecretBinding, name, g);
  }

  /** Of a deletion, only which states it passes through. */
  method DropSecretValue(v: Values, contextFlag: string, name: string)
    modifies v
    ensures v.Went() && DeletesSince(old(v.at), contextFlag, SecretBinding, name, v.history, |old(v.history)|)
    ensures v.faults >= old(v.faults) && (v.faults == old(v.faults) ==> Performed(old(v.at), v.at, contextFlag, DropSecret(name)))
  {
    var _ := SecretDelete(v, contextFlag, name);
  }
}
