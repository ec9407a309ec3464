/** Environment and secret bindings of a context, and the steps that keep them in order. */
module BindingInvariants {
  import opened Basics
  import opened SecretRefs
  import opened ContextStores
  import opened ValueStores
  import Spec = ContextDeletionSpec

  // ----- What holds of every durable state -----

  /** The binding counts as the local secret `name`; the legacy spelling is not a reference any more. */
  predicate Denotes(binding: string, name: string)
  {
    binding == LOCAL_SOURCE + "/" + name || Spec.LocalName(binding) == Some(name)
  }

  /** Some binding is a reference to the local secret `name`. */
  predicate Refers(secrets: seq<string>, name: string)
  {
    exists b | b in secrets :: Spec.LocalName(b) == Some(name)
  }

  predicate Attached(cfg: ContextConfig, name: string)
  {
    exists b | b in cfg.secrets :: Denotes(b, name)
  }

  /** A catalog entry, which has lost its value unless it is `valued`. */
  predicate HasEntry(d: Vault, key: Key, valued: bool)
  {
    key in d.secrets && (valued ==> d.secrets[key].Some?)
  }

  /**
   No name is bound both ways. Every bound variable has a value, and every bound local secret a catalog
   entry, with its value if `valued`.
   */
  ghost predicate ContextBound(d: Vault, context: string, cfg: ContextConfig, valued: bool)
  {
    && (forall n | n in cfg.envVars :: ValidName(n) && !Attached(cfg, n) && Key(context, n) in d.envs)
    && forall b | b in cfg.secrets && Spec.LocalName(b).Some? :: HasEntry(d, Key(context, Spec.LocalName(b).value), valued)
  }

  ghost predicate Distinct(s: seq<string>)
  {
    forall i, j | 0 <= i < j < |s| :: s[i] != s[j]
  }

  /** As the commands write them: no duplicates, and local secrets by their plain name. */
  ghost predicate ContextTidy(cfg: ContextConfig)
  {
    && Distinct(cfg.envVars) && Distinct(cfg.secrets)
    && forall b | b in cfg.secrets && Spec.LocalName(b).Some? :: Spec.LocalName(b).value == b
  }

  ghost predicate BoundAs(d: Vault, valued: bool)
  {
    forall c | c in d.config.contexts :: ContextBound(d, c, d.config.contexts[c], valued)
  }

  /** Every bound secret is in the catalog. */
  ghost predicate Bound(d: Vault) { BoundAs(d, false) }

  /** Every bound name has its value in its own store. */
  ghost predicate Valued(d: Vault) { BoundAs(d, true) }

  ghost predicate Tidy(d: Vault)
  {
    forall c | c in d.config.contexts :: ContextTidy(d.config.contexts[c])
  }

  /** Which of the stronger properties are claimed. */
  datatype Grade = Grade(tidy: bool, valued: bool)

  ghost predicate Fine(d: Vault, g: Grade) { BoundAs(d, g.valued) && (g.tidy ==> Tidy(d)) }

  ghost predicate FineSince(history: seq<Vault>, from: nat, g: Grade)
  {
    forall n {:trigger Fine(history[n], g)} | from <= n < |history| :: Fine(history[n], g)
  }

  // ----- Steps that keep it -----

  /** `d'` has every value of `d` except those of `key`. */
  ghost predicate ValuesKept(d: Vault, key: Key, d': Vault)
  {
    && d'.config == d.config
    && (forall k | k in d.secrets && k != key :: k in d'.secrets && d'.secrets[k] == d.secrets[k])
    && (forall k | k in d.envs && k != key :: k in d'.envs)
  }

  lemma ValuesKeepFine(d: Vault, key: Key, d': Vault, g: Grade)
    requires Fine(d, g) && ValuesKept(d, key, d')
    requires key in d.envs && key !in d'.envs && key.context in d.config.contexts ==> key.name !in d.config.contexts[key.context].envVars
    requires HasEntry(d, key, g.valued) && !HasEntry(d', key, g.valued) && key.context in d.config.contexts ==>
               !Refers(d.config.contexts[key.context].secrets, key.name)
    ensures Fine(d', g)
  {
    forall c | c in d'.config.contexts
      ensures ContextBound(d', c, d'.config.contexts[c], g.valued)
    {
      var cfg := d.config.contexts[c];
      assert ContextBound(d, c, cfg, g.valued);
    }
  }

  /** Saving a changed list for the selected context. */
  lemma SaveKeepsFine(d: Vault, contextFlag: string, cfg: ContextConfig, g: Grade)
    requires Fine(d, g)
    requires var loaded := LoadWith(d.config, contextFlag); ContextBound(d, loaded.defaultContext, cfg, g.valued)
    requires g.tidy ==> ContextTidy(cfg)
    ensures var loaded := LoadWith(d.config, contextFlag);
            Fine(d.(config := Persisted(loaded.(contexts := loaded.contexts[loaded.defaultContext := cfg]))), g)
  {
    var loaded := LoadWith(d.config, contextFlag);
    var d' := d.(config := Persisted(loaded.(contexts := loaded.contexts[loaded.defaultContext := cfg])));
    forall c | c in d'.config.contexts
      ensures ContextBound(d', c, d'.config.contexts[c], g.valued) && (g.tidy ==> ContextTidy(d'.config.contexts[c]))
    {
      if c != loaded.defaultContext {
        assert c in d.config.contexts && d.config.contexts[c] == d'.config.contexts[c];
        assert ContextBound(d, c, d.config.contexts[c], g.valued);
      } else {
        assert ContextBound(d, c, cfg, g.valued);
      }
    }
  }

  /** The loaded context is bound and tidy like the saved ones. */
  lemma LoadedIsFine(d: Vault, contextFlag: string, g: Grade)
    requires Fine(d, g)
    ensures var loaded := LoadWith(d.config, contextFlag);
            && loaded.defaultContext in loaded.contexts
            && ContextBound(d, loaded.defaultContext, loaded.contexts[loaded.defaultContext], g.valued)
            && (g.tidy ==> ContextTidy(loaded.contexts[loaded.defaultContext]))
  {
    var loaded := LoadWith(d.config, contextFlag);
    if loaded.defaultContext in d.config.contexts {
      assert ContextBound(d, loaded.defaultContext, d.config.contexts[loaded.defaultContext], g.valued);
    }
  }

  function RemoveAt(s: seq<string>, i: nat): seq<string>
    requires i < |s|
  {
    s[..i] + s[i + 1..]
  }

  lemma RemoveAtShrinks(s: seq<string>, i: nat)
    requires i < |s|
    ensures forall x | x in RemoveAt(s, i) :: x in s
    ensures Distinct(s) ==> Distinct(RemoveAt(s, i)) && s[i] !in RemoveAt(s, i)
  {
    forall k | 0 <= k < |s| - 1
      ensures RemoveAt(s, i)[k] == s[if k < i then k else k + 1]
    {
    }
  }

  lemma ShrinkingIsFine(d: Vault, context: string, cfg: ContextConfig, less: ContextConfig, valued: bool)
    requires ContextBound(d, context, cfg, valued)
    requires (forall x | x in less.secrets :: x in cfg.secrets) && (forall x | x in less.envVars :: x in cfg.envVars)
    ensures ContextBound(d, context, less, valued)
    ensures ContextTidy(cfg) && Distinct(less.secrets) && Distinct(less.envVars) ==> ContextTidy(less)
  {
    forall n | n in less.envVars
      ensures !Attached(less, n)
    {
      assert !Attached(cfg, n);
    }
  }

  /** A new environment binding is safe when no secret binding has its name and it has a value. */
  lemma BindingEnvIsFine(d: Vault, context: string, cfg: ContextConfig, name: string, valued: bool)
    requires ContextBound(d, context, cfg, valued) && ValidName(name) && !Attached(cfg, name) && Key(context, name) in d.envs && name !in cfg.envVars
    ensures var more := cfg.(envVars := cfg.envVars + [name]);
            ContextBound(d, context, more, valued) && (ContextTidy(cfg) ==> ContextTidy(more))
  {
    var more := cfg.(envVars := cfg.envVars + [name]);
    assert more.secrets == cfg.secrets;
    assert forall n :: Attached(more, n) == Attached(cfg, n);
  }

  /** The legacy spelling never parses. */
  lemma LegacyIsNoReference(name: string)
    requires ValidName(name)
    ensures ParseRef(LOCAL_SOURCE + "/" + name) == None
  {
    var b := LOCAL_SOURCE + "/" + name;
    assert Trim(b) == b by {
      assert b[0] == 'l' && b[|b| - 1] == name[|name| - 1];
      Untrimmed(b);
    }
    PlainName(name);
    assert ':' !in LOCAL_SOURCE + "/" && ':' !in b;
    assert !ValidName(b) by { assert b[5] == '/'; }
  }

  /** What attaching `ref` makes the context refer to. */
  lemma CanonicalDenotes(text: string, name: string)
    requires ParseRef(text).Some? && ValidName(name)
    ensures var ref := ParseRef(text).value;
            Denotes(RefString(ref), name) <==> ref.source == LOCAL_SOURCE && ref.name == name
  {
    ParseRefInvertsRefString(text);
    LegacyIsNoReference(name);
  }

  /** What `ref` needs to be bound: a local name that no variable has, and an entry for it. */
  predicate Bindable(d: Vault, context: string, cfg: ContextConfig, ref: Ref, valued: bool)
  {
    ref.source == LOCAL_SOURCE ==>
      ref.typeName in {"", LOCAL_SOURCE} && ref.name !in cfg.envVars && HasEntry(d, Key(context, ref.name), valued)
  }

  /** A new secret binding is safe when it is no local name bound as a variable, and has an entry. */
  lemma BindingSecretIsFine(d: Vault, context: string, cfg: ContextConfig, text: string, valued: bool)
    requires ContextBound(d, context, cfg, valued) && ParseRef(text).Some?
    requires Bindable(d, context, cfg, ParseRef(text).value, valued)
    requires RefString(ParseRef(text).value) !in cfg.secrets
    ensures var more := cfg.(secrets := cfg.secrets + [RefString(ParseRef(text).value)]);
            ContextBound(d, context, more, valued) && (ContextTidy(cfg) ==> ContextTidy(more))
  {
    var ref := ParseRef(text).value;
    var canonical := RefString(ref);
    var more := cfg.(secrets := cfg.secrets + [canonical]);
    ParseRefInvertsRefString(text);
    forall n | n in more.envVars
      ensures !Attached(more, n)
    {
      assert !Attached(cfg, n);
      CanonicalDenotes(text, n);
    }
  }

  /** A bound secret whose entry has lost its value breaks the stronger invariant. */
  lemma BindingHollowIsNotValued(d: Vault, context: string, cfg: ContextConfig, text: string)
    requires ParseRef(text).Some? && RefString(ParseRef(text).value) in cfg.secrets
    requires ParseRef(text).value.source == LOCAL_SOURCE && !HasEntry(d, Key(context, ParseRef(text).value.name), true)
    ensures !ContextBound(d, context, cfg, true)
  {
    ParseRefInvertsRefString(text);
    assert Spec.LocalName(RefString(ParseRef(text).value)) == Some(ParseRef(text).value.name);
  }
}
