/** Renaming a provider: a chain of independent writes with compensation in reverse. */
module ProviderRename {
  import opened Basics
  import opened OptionPaths
  import opened ProviderLookup

  /** A workspace or machine record: the provider it names, and everything else in it. */
  datatype Record = Record(provider: string, rest: string)

  /** A provider's stored options; values may embed the provider's directory path. */
  datatype Provider = Provider(options: map<string, string>)

  /** `dirs` holds, for each provider directory, the name that its provider.json gives. */
  datatype State = State(
    dirs: map<string, string>,
    providers: map<string, Provider>,
    workspaces: map<string, Record>,
    machines: map<string, Record>,
    defaultProvider: string)

  type ParentPath = s: string | s != "" && s[|s| - 1] == '/' witness "/"

  /** The directory that holds the provider directories, whatever it is. */
  const PROVIDERS_DIR: ParentPath

  function Dir(name: string): (path: string)
    ensures path != ""
  {
    PROVIDERS_DIR + name
  }

  function Rewrite(p: Provider, oldName: string, newName: string): Provider
  {
    Provider(map o | o in p.options :: ReplaceAll(p.options[o], Dir(oldName), Dir(newName)))
  }

  /** No option mentions the directory of the new name outside its mentions of the provider's own. */
  predicate PathsClear(p: Provider, oldName: string, newName: string)
  {
    forall o | o in p.options :: ClearOf(p.options[o], Dir(oldName), Dir(newName))
  }

  /** The provider moved from one name to another, its option paths rewritten. */
  function Moved(s: State, oldName: string, newName: string): State
    requires oldName in s.providers
  {
    s.(providers := (s.providers - {oldName})[newName := Rewrite(s.providers[oldName], oldName, newName)],
       dirs := (s.dirs - {oldName})[newName := newName])
  }

  /** The records named in `ids` point at `name`; all other records are as they were. */
  function Applied(m: map<string, Record>, ids: seq<string>, name: string): map<string, Record>
  {
    map id | id in m :: if id in ids then m[id].(provider := name) else m[id]
  }

  /** What a complete rename makes of the state. */
  function Renamed(s: State, oldName: string, newName: string): State
    requires oldName in s.providers
  {
    var moved := Moved(s, oldName, newName);
    moved.(workspaces := Redirected(s.workspaces, oldName, newName),
           machines := Redirected(s.machines, oldName, newName),
           defaultProvider := if s.defaultProvider == oldName then newName else s.defaultProvider)
  }

  function Redirected(m: map<string, Record>, oldName: string, newName: string): map<string, Record>
  {
    map id | id in m :: if m[id].provider == oldName then m[id].(provider := newName) else m[id]
  }

  /** `ids` are different records that name `provider`. */
  predicate Naming(m: map<string, Record>, provider: string, ids: seq<string>)
  {
    && (forall k :: 0 <= k < |ids| ==> ids[k] in m && m[ids[k]].provider == provider)
    && (forall a, b :: 0 <= a < b < |ids| ==> ids[a] != ids[b])
  }

  /** They are all of them. */
  predicate Lists(m: map<string, Record>, provider: string, ids: seq<string>)
  {
    Naming(m, provider, ids) && forall id :: id in m && m[id].provider == provider ==> id in ids
  }

  /** The configuration as it was loaded: the names of its providers and its default provider. */
  datatype Config = Config(providers: set<string>, defaultProvider: string)

  /** What has been written so far, so that it can be undone. */
  datatype RenameState = RenameState(
    config: Config, oldName: string, newName: string,
    workspaces: seq<string>, machines: seq<string>, defaultChanged: bool)

  /** Records that name the new provider. */
  datatype Records = Records(workspaces: seq<string>, machines: seq<string>)

  datatype Outcome =
    | Success
    | Refused          // nothing was written
    | MoveFailed
    | ReloadFailed     // the provider has moved and nothing is rolled back
    | RolledBack(clean: bool, undone: RenameState)  // `clean`: the rollback itself reported no error

  /** The state, and how many failures there have been. */
  datatype Moment = Moment(state: State, faults: nat, torn: nat)

  /**
   The stores a rename writes to. Every operation may fail, which `faults` counts. `torn` counts the
   failures that leave something behind: a write that fails after it has replaced the file, because
   syncing the directory can fail too, and a compensating write or rename that does not take effect
   and whose error is dropped. `began` is the moment at which the last rollback began.
   */
  class Stores {
    var state: State
    ghost var faults: nat
    ghost var torn: nat
    ghost var began: Moment

    ghost function Now(): Moment
      reads this
    {
      Moment(state, faults, torn)
    }

    twostate predicate Counted(ok: bool)
      reads this
    {
      faults == old(faults) + (if ok then 0 else 1)
    }

    method Count(ok: bool)
      modifies this`faults
      ensures Counted(ok)
    {
      faults := faults + (if ok then 0 else 1);
    }

    ghost method Tear(left: bool)
      modifies this`torn
      ensures torn == old(torn) + (if left then 1 else 0)
    {
      torn := torn + (if left then 1 else 0);
    }

    /** Writes one file. A success has replaced it, and so may a failure. */
    method WriteFile() returns (ok: bool, replaced: bool)
      modifies this`faults
      ensures Counted(ok) && (ok ==> replaced)
    {
      ok, replaced := *, *;
      replaced := replaced || ok;
      Count(ok);
    }

    method SaveWorkspace(id: string, r: Record) returns (ok: bool, replaced: bool)
      modifies this`state, this`faults
      ensures Counted(ok) && (ok ==> replaced)
      ensures state == if replaced then old(state).(workspaces := old(state).workspaces[id := r]) else old(state)
    {
      ok, replaced := WriteFile();
      if replaced { state := state.(workspaces := state.workspaces[id := r]); }
    }

    method SaveMachine(id: string, r: Record) returns (ok: bool)
      requires id in state.machines
      modifies this`state, this`faults, this`torn
      ensures Counted(ok) && old(torn) <= torn <= old(torn) + (if ok then 0 else 1)
      ensures state == if ok || torn > old(torn) then old(state).(machines := old(state).machines[id := r]) else old(state)
    {
      var replaced;
      ok, replaced := WriteFile();
      if replaced { state := state.(machines := state.machines[id := r]); }
      Tear(!ok && replaced);
    }

    /** Renames a provider directory; nothing may be at the new name. */
    method RenameDir(from: string, to: string) returns (ok: bool)
      modifies this`state, this`faults
      ensures ok ==> from in old(state).dirs && to !in old(state).dirs
      ensures state == if ok then old(state).(dirs := (old(state).dirs - {from})[to := old(state).dirs[from]]) else old(state)
      ensures Counted(ok || from !in old(state).dirs || to in old(state).dirs)
    {
      ok := *;
      var possible := from in state.dirs && to !in state.dirs;
      Count(ok || !possible);
      ok := ok && possible;
      if ok { state := state.(dirs := (state.dirs - {from})[to := state.dirs[from]]); }
    }

    /** Rewrites the name in the provider.json of one directory. */
    method WriteName(dir: string, name: string) returns (ok: bool, replaced: bool)
      requires dir in state.dirs
      modifies this`state, this`faults
      ensures Counted(ok) && (ok ==> replaced)
      ensures state == if replaced then old(state).(dirs := old(state).dirs[dir := name]) else old(state)
    {
      ok, replaced := WriteFile();
      if replaced { state := state.(dirs := state.dirs[dir := name]); }
    }

    /** One atomic update of the configuration; an entry that does not exist is no error. */
    method MigrateState(oldName: string, newName: string) returns (ok: bool)
      modifies this`state, this`faults
      ensures Counted(ok)
      ensures state == if ok && oldName in old(state).providers then
                         old(state).(providers := (old(state).providers - {oldName})[newName :=
                           Rewrite(old(state).providers[oldName], oldName, newName)])
                       else old(state)
    {
      ok := *;
      Count(ok);
      if ok && oldName in state.providers {
        state := state.(providers := (state.providers - {oldName})[newName := Rewrite(state.providers[oldName], oldName, newName)]);
      }
    }

    /**
     Renames the directory, the name inside it and the configuration entry. A failure undoes the steps
     before it, but drops the errors of doing so: only if none was torn is everything as before.
     */
    method MoveProvider(oldName: string, newName: string) returns (ok: bool)
      requires oldName != newName
      requires oldName in state.dirs ==> oldName in state.providers
      modifies this`state, this`faults, this`torn
      ensures ok ==> oldName in old(state).dirs && oldName in old(state).providers && newName !in old(state).dirs && state == Moved(old(state), oldName, newName)
      ensures ok ==> torn == old(torn)
      ensures !ok ==> state == old(state).(dirs := state.dirs) && DirsTouched(old(state).dirs, state.dirs, oldName, newName)
      ensures !ok && (oldName in old(state).dirs ==> old(state).dirs[oldName] == oldName) ==>
                (state == old(state) <==> torn == old(torn))
      ensures faults >= old(faults) && torn >= old(torn)
      ensures faults == old(faults) ==> (ok <==> oldName in old(state).dirs && newName !in old(state).dirs) && (ok || state == old(state))
    {
      ghost var was := state;
      ok := RenameDir(oldName, newName);
      if ok {
        ok := NameMoved(oldName, newName, was);
      }
    }

    /** The directory has moved; the name inside it and the configuration entry follow. */
    method NameMoved(oldName: string, newName: string, ghost was: State) returns (ok: bool)
      requires oldName != newName && oldName in was.dirs && oldName in was.providers && newName !in was.dirs
      requires state == was.(dirs := (was.dirs - {oldName})[newName := was.dirs[oldName]])
      modifies this`state, this`faults, this`torn
      ensures ok ==> state == Moved(was, oldName, newName) && torn == old(torn)
      ensures !ok ==> state == was.(dirs := state.dirs) && DirsTouched(was.dirs, state.dirs, oldName, newName)
      ensures !ok && was.dirs[oldName] == oldName ==> (state == was <==> torn == old(torn))
      ensures faults >= old(faults) && torn >= old(torn) && (ok <==> faults == old(faults))
    {
      var named, replaced := WriteName(newName, newName);
      if !named {
        Tear(replaced);
        MoveDirBack(oldName, newName);
        return false;
      }
      ok := MigrateState(oldName, newName);
      if !ok {
        var _, reverted := WriteName(newName, oldName);
        Tear(!reverted);
        MoveDirBack(oldName, newName);
      }
    }

    method MoveDirBack(oldName: string, newName: string)
      requires oldName !in state.dirs && newName in state.dirs && oldName != newName
      modifies this`state, this`faults, this`torn
      ensures faults >= old(faults) && old(torn) <= torn <= old(torn) + 1
      ensures state == if torn == old(torn) then old(state).(dirs := (old(state).dirs - {newName})[oldName := old(state).dirs[newName]]) else old(state)
    {
      var back := RenameDir(newName, oldName);
      Tear(!back);
    }

    /** One atomic read-modify-write of the default provider; `changed` also when only the save failed. */
    method UpdateDefault(oldName: string, newName: string) returns (ok: bool, changed: bool)
      modifies this`state, this`faults
      ensures Counted(ok)
      ensures state == if ok && old(state).defaultProvider == oldName then old(state).(defaultProvider := newName) else old(state)
      ensures changed ==> old(state).defaultProvider == oldName
      ensures ok ==> (changed <==> old(state).defaultProvider == oldName)
    {
      ok, changed := *, *;
      changed := (ok || changed) && state.defaultProvider == oldName;
      if ok && changed { state := state.(defaultProvider := newName); }
      Count(ok);
    }

    method LoadConfig() returns (ok: bool, config: Config)
      modifies this`faults
      ensures Counted(ok)
      ensures ok ==> config == Config(state.providers.Keys, state.defaultProvider)
    {
      ok, config := *, Config(state.providers.Keys, state.defaultProvider);
      Count(ok);
    }

    method ListRecords(m: map<string, Record>, provider: string) returns (ok: bool, ids: seq<string>)
      modifies this`faults
      ensures Counted(ok)
      ensures ok ==> Lists(m, provider, ids)
    {
      ok, ids := *, *;
      ok := ok && Lists(m, provider, ids);
      Count(ok);
    }

    /** Loads the configured providers; one that cannot be loaded is passed over. */
    method LoadConfigured(configured: set<string>) returns (known: set<string>)
      modifies this`faults
      ensures known <= configured * state.dirs.Keys && faults >= old(faults)
      ensures faults == old(faults) ==> known == configured * state.dirs.Keys
    {
      known := {};
      var rest := configured;
      while rest != {}
        invariant rest <= configured && known <= (configured - rest) * state.dirs.Keys && faults >= old(faults)
        invariant faults == old(faults) ==> known == (configured - rest) * state.dirs.Keys
      {
        var name :| name in rest;
        rest := rest - {name};
        if name in state.dirs {
          var ok := *;
          Count(ok);
          if ok { known := known + {name}; }
        }
      }
    }

    method ReadDir() returns (ok: bool, entries: seq<string>)
      modifies this`faults
      ensures Counted(ok)
      ensures ok ==> Listing(entries, state.dirs)
    {
      ok, entries := *, *;
      ok := ok && Listing(entries, state.dirs);
      Count(ok);
    }

    /** Opens every directory that is not known yet, and gives up at the first that cannot be loaded. */
    method LoadUnconfigured(configured: set<string>) returns (ok: bool, known: set<string>, ghost entries: seq<string>)
      modifies this`faults
      ensures Counted(ok)
      ensures ok ==> Listing(entries, state.dirs) && known == Known(configured, state.dirs, entries)
    {
      known := configured;
      var listed;
      ok, listed := ReadDir();
      entries := listed;
      if !ok { return; }
      for n := 0 to |listed|
        invariant ok && faults == old(faults) && known == Known(configured, state.dirs, listed[..n])
      {
        assert listed[..n + 1][..n] == listed[..n] && listed[n] in state.dirs;
        if !Skipped(listed[n], known) {
          ok := *;
          Count(ok);
          if !ok { return; }
          known := known + {state.dirs[listed[n]]};
        }
      }
      assert listed[..|listed|] == listed;
    }

    method FindProvider(configured: set<string>, name: string) returns (found: bool)
      modifies this`faults
      ensures faults >= old(faults)
      ensures found ==> Findable(configured, state.dirs, name)
      ensures faults == old(faults) ==> (found <==> Found(configured, state.dirs, name))
      ensures faults == old(faults) && name in configured && name in state.dirs ==> found
    {
      var known := LoadConfigured(configured);
      ghost var entries;
      found, known, entries := LoadUnconfigured(known);
      if found { FoundByListing(configured, state.dirs, name, entries); }
      found := found && name in known;
    }

    /**
     Persists the new name, then looks up the provider of that name and locks and stops the workspace.
     If any of that fails the old record is written back, but an error of that write is dropped. A torn
     failure leaves the record naming the new provider, any other leaves it as it was.
     */
    method SwitchProvider(configured: set<string>, id: string, name: string) returns (ok: bool)
      requires id in state.workspaces
      modifies this`state, this`faults, this`torn
      ensures old(torn) <= torn <= old(torn) + (if ok then 0 else 1)
      ensures state == if ok || torn > old(torn) then old(SwitchedTo(state, id, name)) else old(state)
      ensures faults >= old(faults) && (torn > old(torn) ==> faults > old(faults))
      ensures ok ==> Findable(configured, state.dirs, name)
      ensures faults == old(faults) ==> (ok <==> Found(configured, state.dirs, name))
      ensures faults == old(faults) && name in configured && name in state.dirs ==> ok
    {
      var record := state.workspaces[id];
      ghost var before := state;
      var saved, replaced := SaveWorkspace(id, record.(provider := name));
      if !saved {
        Tear(replaced);
        return false;
      }
      ok := FindProvider(configured, name);
      if ok {
        ok := *;
        Count(ok);
      }
      if !ok {
        var _, reverted := SaveWorkspace(id, record);
        Tear(!reverted);
        assert before.workspaces[id := record.(provider := name)][id := record] == before.workspaces;
      }
    }

    /** Stops at the first failure and reports how many were switched before it. */
    method SwitchWorkspaces(configured: set<string>, ids: seq<string>, name: string) returns (ok: bool, switched: nat)
      requires forall k :: 0 <= k < |ids| ==> ids[k] in state.workspaces
      requires forall a, b :: 0 <= a < b < |ids| ==> ids[a] != ids[b]
      modifies this`state, this`faults, this`torn
      ensures old(torn) <= torn <= old(torn) + (if ok then 0 else 1)
      ensures if ok then switched == |ids| else switched < |ids|
      ensures state == old(state).(workspaces := Applied(old(state).workspaces, ids[..switched + (torn - old(torn))], name))
      ensures faults >= old(faults) && (torn > old(torn) ==> faults > old(faults))
      ensures switched > 0 ==> Findable(configured, state.dirs, name)
      ensures faults == old(faults) ==> (ok <==> ids == [] || Found(configured, state.dirs, name)) && (ok || switched == 0)
      ensures faults == old(faults) && name in configured && name in state.dirs ==> ok
    {
      switched := 0;
      ghost var w := state.workspaces;
      assert Applied(w, ids[..0], name) == w;
      while switched < |ids|
        invariant switched <= |ids| && torn == old(torn) && faults >= old(faults)
        invariant state == old(state).(workspaces := Applied(w, ids[..switched], name))
        invariant switched > 0 ==> Findable(configured, state.dirs, name)
        invariant switched > 0 && faults == old(faults) ==> Found(configured, state.dirs, name)
      {
        AppliedNext(w, ids, switched, name);
        ok := SwitchProvider(configured, ids[switched], name);
        if !ok { return; }
        switched := switched + 1;
      }
      ok := true;
    }

    /** As for workspaces, but a machine record is a single write. */
    method SwitchMachines(ids: seq<string>, name: string) returns (ok: bool, switched: nat)
      requires forall k :: 0 <= k < |ids| ==> ids[k] in state.machines
      requires forall a, b :: 0 <= a < b < |ids| ==> ids[a] != ids[b]
      modifies this`state, this`faults, this`torn
      ensures old(torn) <= torn <= old(torn) + (if ok then 0 else 1)
      ensures if ok then switched == |ids| else switched < |ids|
      ensures state == old(state).(machines := Applied(old(state).machines, ids[..switched + (torn - old(torn))], name))
      ensures faults >= old(faults) && (!ok ==> faults > old(faults))
    {
      switched := 0;
      ghost var m := state.machines;
      assert Applied(m, ids[..0], name) == m;
      while switched < |ids|
        invariant switched <= |ids| && torn == old(torn) && faults >= old(faults)
        invariant state == old(state).(machines := Applied(m, ids[..switched], name))
      {
        AppliedNext(m, ids, switched, name);
        ok := SaveMachine(ids[switched], state.machines[ids[switched]].(provider := name));
        if !ok { return; }
        switched := switched + 1;
      }
      ok := true;
    }
  }

  function SwitchedTo(s: State, id: string, name: string): State
    requires id in s.workspaces
  {
    s.(workspaces := s.workspaces[id := s.workspaces[id].(provider := name)])
  }

  /** Only the two provider directories differ. */
  predicate DirsTouched(before: map<string, string>, after: map<string, string>, oldName: string, newName: string)
  {
    after - {oldName, newName} == before - {oldName, newName}
  }

  /** Only records that named the old provider differ, and only in naming the new one. */
  predicate RecordsTouched(before: map<string, Record>, after: map<string, Record>, oldName: string, newName: string)
  {
    && after.Keys == before.Keys
    && forall id | id in before ::
         after[id] == before[id] || (before[id].provider == oldName && after[id] == before[id].(provider := newName))
  }

  /** Nothing differs but what belongs to the renamed provider. */
  predicate OnlyTouched(s: State, t: State, oldName: string, newName: string)
  {
    && RecordsTouched(s.workspaces, t.workspaces, oldName, newName)
    && RecordsTouched(s.machines, t.machines, oldName, newName)
    && (t.defaultProvider == s.defaultProvider || (s.defaultProvider == oldName && t.defaultProvider == newName))
    && t.providers - {oldName, newName} == s.providers - {oldName, newName}
    && DirsTouched(s.dirs, t.dirs, oldName, newName)
  }

  lemma AppliedTouches(before: map<string, Record>, now: map<string, Record>, ids: seq<string>, name: string, oldName: string, newName: string)
    requires RecordsTouched(before, now, oldName, newName) && name in {oldName, newName}
    requires forall k | 0 <= k < |ids| :: ids[k] in before && before[ids[k]].provider == oldName
    ensures RecordsTouched(before, Applied(now, ids, name), oldName, newName)
  {
  }

  lemma MoveTouches(s: State, t: State, from: string, to: string, oldName: string, newName: string)
    requires OnlyTouched(s, t, oldName, newName) && from in t.providers && {from, to} == {oldName, newName}
    ensures OnlyTouched(s, Moved(t, from, to), oldName, newName)
  {
    assert from in {oldName, newName} && to in {oldName, newName};
  }

  lemma AppliedNext(m: map<string, Record>, ids: seq<string>, k: nat, name: string)
    requires k < |ids| && ids[k] in m
    requires forall a, b :: 0 <= a < b < |ids| ==> ids[a] != ids[b]
    ensures ids[k] in Applied(m, ids[..k], name) && Applied(m, ids[..k], name)[ids[k]] == m[ids[k]]
    ensures Applied(m, ids[..k + 1], name) == Applied(m, ids[..k], name)[ids[k] := m[ids[k]].(provider := name)]
  {
    assert ids[..k + 1] == ids[..k] + [ids[k]];
  }

  // ----- Rollback -----

  lemma NamingParts(m: map<string, Record>, provider: string, a: seq<string>, b: seq<string>)
    requires Naming(m, provider, a + b)
    ensures Naming(m, provider, a) && Naming(m, provider, b)
    ensures forall k, j :: 0 <= k < |a| && 0 <= j < |b| ==> a[k] != b[j]
  {
    assert forall k :: 0 <= k < |a| ==> (a + b)[k] == a[k];
    assert forall k :: 0 <= k < |b| ==> (a + b)[|a| + k] == b[k];
  }

  /** With the records `a` and `b` switched and `a` switched back, exactly `b` name the other provider. */
  lemma AppliedPartlyBack(m: map<string, Record>, provider: string, a: seq<string>, b: seq<string>, name: string)
    requires Naming(m, provider, a + b)
    ensures Applied(Applied(m, a + b, name), a, provider) == Applied(m, b, name)
  {
    NamingParts(m, provider, a, b);
    assert forall id | id in a :: id in m && m[id].provider == provider && id !in b;
  }

  /** Switching every listed record redirects the provider. */
  lemma AppliedAll(m: map<string, Record>, provider: string, ids: seq<string>, name: string)
    requires Lists(m, provider, ids)
    ensures Applied(m, ids, name) == Redirected(m, provider, name)
  {
    forall id | id in m ensures id in ids <==> m[id].provider == provider {
      if id in ids { var k :| 0 <= k < |ids| && ids[k] == id; }
    }
  }

  /** The options come back exactly when they are clear of the new directory. */
  lemma OptionsReverseIffClear(p: Provider, oldName: string, newName: string)
    requires '/' !in newName
    ensures Rewrite(Rewrite(p, oldName, newName), newName, oldName) == p <==> PathsClear(p, oldName, newName)
  {
    var back := Rewrite(Rewrite(p, oldName, newName), newName, oldName);
    var a, b := Dir(oldName), Dir(newName);
    assert Siblings(PROVIDERS_DIR, a, b) by {
      assert a[..|PROVIDERS_DIR|] == PROVIDERS_DIR && b[..|PROVIDERS_DIR|] == PROVIDERS_DIR && b[|PROVIDERS_DIR|..] == newName;
    }
    forall o | o in p.options
      ensures back.options[o] == p.options[o] <==> ClearOf(p.options[o], a, b)
    {
      ReversesIffClear(PROVIDERS_DIR, a, b, p.options[o]);
    }
    if PathsClear(p, oldName, newName) { assert back.options == p.options; }
  }

  /** Options that never mention the new directory come back. */
  lemma UnmentionedPathsReverse(p: Provider, oldName: string, newName: string)
    requires '/' !in newName && forall o | o in p.options :: !Mentions(p.options[o], Dir(newName))
    ensures Rewrite(Rewrite(p, oldName, newName), newName, oldName) == p
  {
    forall o | o in p.options
      ensures ClearOf(p.options[o], Dir(oldName), Dir(newName))
    {
      UnmentionedIsClear(p.options[o], Dir(oldName), Dir(newName));
    }
    OptionsReverseIffClear(p, oldName, newName);
  }

  /** An option that already points into the new directory is redirected by a clean rollback. */
  lemma PathsNeedNotReverse()
    ensures var p := Provider(map["KEY" := Dir("b")]); Rewrite(Rewrite(p, "a", "b"), "b", "a") != p
  {
    var p := Provider(map["KEY" := Dir("b")]);
    var n := |PROVIDERS_DIR|;
    assert Dir("b")[n] == 'b' && Dir("a")[n] == 'a';
    DiffersFrom(Dir("b"), Dir("a"), n);
    assert Dir("b")[..|Dir("b")|] == Dir("b");
    assert "KEY" in p.options && !ClearOf(p.options["KEY"], Dir("a"), Dir("b"));
    OptionsReverseIffClear(p, "a", "b");
  }

  // ----- The command -----

  /** Every recorded record named the old provider in the initial state. */
  predicate Recorded(r: RenameState, initial: State)
  {
    && Naming(initial.workspaces, r.oldName, r.workspaces)
    && Naming(initial.machines, r.oldName, r.machines)
    && (r.defaultChanged ==> initial.defaultProvider == r.oldName)
  }

  /** The steps of a rollback in which an operation failed. */
  datatype FailedSteps = FailedSteps(default: bool, workspaces: bool, machines: bool, move: bool) {
    function Count(): nat
    {
      (if default then 1 else 0) + (if workspaces then 1 else 0) + (if machines then 1 else 0) + (if move then 1 else 0)
    }
  }

  /** Every step of a rollback but the failed ones has had its effect, whatever happened to the others. */
  ghost predicate StepsUndone(before: State, after: State, r: RenameState, failed: FailedSteps)
  {
    && (failed.default || DefaultUndone(before, after, r))
    && (failed.workspaces || WorkspacesUndone(before, after, r))
    && (failed.machines || after.machines == Applied(before.machines, r.machines, r.oldName))
    && (failed.move || MoveUndone(before, after, r))
  }

  predicate DefaultUndone(before: State, after: State, r: RenameState)
  {
    after.defaultProvider == if r.defaultChanged && before.defaultProvider == r.newName then r.oldName else before.defaultProvider
  }

  ghost predicate WorkspacesUndone(before: State, after: State, r: RenameState)
  {
    after.workspaces == if Found(r.config.providers, before.dirs, r.oldName) then Applied(before.workspaces, r.workspaces, r.oldName)
                        else before.workspaces
  }

  /** The provider is back, unless its directory is missing or there is one in the way. */
  predicate MoveUndone(before: State, after: State, r: RenameState)
  {
    r.newName in before.providers && r.newName in before.dirs && r.oldName !in before.dirs ==>
      && after.providers == Moved(before, r.newName, r.oldName).providers
      && after.dirs == Moved(before, r.newName, r.oldName).dirs
  }

  /**
   Reverts the recorded mutations: default, workspaces, machines, and last the provider itself. The
   workspaces are switched back before a provider of the old name exists again, so that their lookup
   finds it only if another directory gives that name.
   */
  method RestoreProviderState(s: Stores, r: RenameState, ghost initial: State) returns (clean: bool, ghost failed: FailedSteps)
    requires OnlyTouched(initial, s.state, r.oldName, r.newName) && Recorded(r, initial)
    requires r.oldName != r.newName && (r.newName in s.state.dirs ==> r.newName in s.state.providers)
    modifies s`state, s`faults, s`torn
    ensures clean ==> r.newName in old(s.state).providers && s.state == Undone(old(s.state), r) && s.torn == old(s.torn)
    ensures clean ==> r.workspaces == [] || Findable(r.config.providers, old(s.state).dirs, r.oldName)
    ensures OnlyTouched(initial, s.state, r.oldName, r.newName)
    ensures s.faults >= old(s.faults) && s.torn >= old(s.torn)
    ensures s.faults == old(s.faults) && r.newName in old(s.state).dirs && r.oldName !in old(s.state).dirs ==>
              && (clean <==> r.workspaces == [] || Found(r.config.providers, old(s.state).dirs, r.oldName))
              && s.state == Undone(old(s.state), if clean then r else r.(workspaces := []))
    ensures StepsUndone(old(s.state), s.state, r, failed) && failed.Count() <= s.faults - old(s.faults)
  {
    var recordsOk;
    recordsOk, failed := RestoreRecords(s, r, initial);
    ghost var faults := s.faults;
    var moveOk := RestoreMove(s, r, initial);
    failed := failed.(move := s.faults > faults);
    clean := recordsOk && moveOk;
  }

  method RestoreMove(s: Stores, r: RenameState, ghost initial: State) returns (ok: bool)
    requires OnlyTouched(initial, s.state, r.oldName, r.newName) && r.oldName != r.newName
    requires r.newName in s.state.dirs ==> r.newName in s.state.providers
    modifies s`state, s`faults, s`torn
    ensures s.state == old(s.state).(dirs := s.state.dirs, providers := s.state.providers)
    ensures ok ==> r.newName in old(s.state).providers && s.state == Moved(old(s.state), r.newName, r.oldName) && s.torn == old(s.torn)
    ensures OnlyTouched(initial, s.state, r.oldName, r.newName)
    ensures s.faults >= old(s.faults) && s.torn >= old(s.torn)
    ensures s.faults == old(s.faults) ==> MoveUndone(old(s.state), s.state, r) && (ok <==> r.newName in old(s.state).dirs && r.oldName !in old(s.state).dirs)
  {
    ghost var now := s.state;
    ok := s.MoveProvider(r.newName, r.oldName);
    if ok {
      MoveTouches(initial, now, r.newName, r.oldName, r.oldName, r.newName);
    } else {
      FailedMoveTouches(initial, now, s.state, r.oldName, r.newName);
    }
  }

  method RestoreRecords(s: Stores, r: RenameState, ghost initial: State) returns (ok: bool, ghost failed: FailedSteps)
    requires OnlyTouched(initial, s.state, r.oldName, r.newName) && Recorded(r, initial)
    modifies s`state, s`faults, s`torn
    ensures ok ==> s.state == RecordsUndone(old(s.state), r) && s.torn == old(s.torn)
    ensures ok ==> r.workspaces == [] || Findable(r.config.providers, s.state.dirs, r.oldName)
    ensures s.state.dirs == old(s.state).dirs && s.state.providers == old(s.state).providers
    ensures OnlyTouched(initial, s.state, r.oldName, r.newName)
    ensures s.faults >= old(s.faults) && s.torn >= old(s.torn)
    ensures s.faults == old(s.faults) ==>
              && (ok <==> r.workspaces == [] || Found(r.config.providers, s.state.dirs, r.oldName))
              && s.state == RecordsUndone(old(s.state), if ok then r else r.(workspaces := []))
    ensures StepsUndone(old(s.state), s.state, r, failed) && failed.move && failed.Count() - 1 <= s.faults - old(s.faults)
  {
    ghost var faults := s.faults;
    var defaultOk := RestoreDefault(s, r, initial);
    failed := FailedSteps(s.faults > faults, false, false, true);
    faults := s.faults;
    var workspacesOk := RestoreWorkspaces(s, r, initial);
    failed := failed.(workspaces := s.faults > faults);
    faults := s.faults;
    var machinesOk := RestoreMachines(s, r, initial);
    failed := failed.(machines := s.faults > faults);
    ok := defaultOk && workspacesOk && machinesOk;
  }

  method RestoreDefault(s: Stores, r: RenameState, ghost initial: State) returns (ok: bool)
    requires OnlyTouched(initial, s.state, r.oldName, r.newName) && Recorded(r, initial)
    modifies s`state, s`faults, s`torn
    ensures s.state == old(s.state).(defaultProvider := s.state.defaultProvider) && s.torn == old(s.torn)
    ensures ok ==> DefaultUndone(old(s.state), s.state, r)
    ensures OnlyTouched(initial, s.state, r.oldName, r.newName)
    ensures s.faults >= old(s.faults) && (ok <==> s.faults == old(s.faults))
  {
    ok := true;
    if r.defaultChanged {
      var again;
      ok, again := s.UpdateDefault(r.newName, r.oldName);
    }
  }

  method RestoreWorkspaces(s: Stores, r: RenameState, ghost initial: State) returns (ok: bool)
    requires OnlyTouched(initial, s.state, r.oldName, r.newName) && Recorded(r, initial)
    modifies s`state, s`faults, s`torn
    ensures s.state == old(s.state).(workspaces := s.state.workspaces)
    ensures ok ==> s.state.workspaces == Applied(old(s.state).workspaces, r.workspaces, r.oldName) && s.torn == old(s.torn)
    ensures ok ==> r.workspaces == [] || Findable(r.config.providers, s.state.dirs, r.oldName)
    ensures OnlyTouched(initial, s.state, r.oldName, r.newName)
    ensures s.faults >= old(s.faults) && s.torn >= old(s.torn)
    ensures s.faults == old(s.faults) ==>
              && (ok <==> r.workspaces == [] || Found(r.config.providers, s.state.dirs, r.oldName))
              && (!ok ==> s.state.workspaces == Applied(old(s.state).workspaces, [], r.oldName))
              && WorkspacesUndone(old(s.state), s.state, r)
  {
    ghost var now, torn := s.state.workspaces, s.torn;
    var w;
    ok, w := s.SwitchWorkspaces(r.config.providers, r.workspaces, r.oldName);
    AppliedTouches(initial.workspaces, now, r.workspaces[..w + (s.torn - torn)], r.oldName, r.oldName, r.newName);
    assert r.workspaces[..|r.workspaces|] == r.workspaces && r.workspaces[..0] == [] && Applied(now, [], r.oldName) == now;
  }

  method RestoreMachines(s: Stores, r: RenameState, ghost initial: State) returns (ok: bool)
    requires OnlyTouched(initial, s.state, r.oldName, r.newName) && Recorded(r, initial)
    modifies s`state, s`faults, s`torn
    ensures s.state == old(s.state).(machines := s.state.machines)
    ensures ok ==> s.state.machines == Applied(old(s.state).machines, r.machines, r.oldName) && s.torn == old(s.torn)
    ensures OnlyTouched(initial, s.state, r.oldName, r.newName)
    ensures s.faults >= old(s.faults) && s.torn >= old(s.torn) && (s.faults == old(s.faults) ==> ok)
  {
    ghost var now, torn := s.state.machines, s.torn;
    var m;
    ok, m := s.SwitchMachines(r.machines, r.oldName);
    AppliedTouches(initial.machines, now, r.machines[..m + (s.torn - torn)], r.oldName, r.oldName, r.newName);
    assert r.machines[..|r.machines|] == r.machines;
  }

  function RecordsUndone(s: State, r: RenameState): State
  {
    s.(defaultProvider := if r.defaultChanged && s.defaultProvider == r.newName then r.oldName else s.defaultProvider,
       workspaces := Applied(s.workspaces, r.workspaces, r.oldName),
       machines := Applied(s.machines, r.machines, r.oldName))
  }

  lemma FailedMoveTouches(initial: State, now: State, after: State, oldName: string, newName: string)
    requires OnlyTouched(initial, now, oldName, newName)
    requires after == now.(dirs := after.dirs) && DirsTouched(now.dirs, after.dirs, newName, oldName)
    ensures OnlyTouched(initial, after, oldName, newName)
  {
    assert {newName, oldName} == {oldName, newName};
  }

  /** What undoing everything in `r` makes of the state. */
  function Undone(s: State, r: RenameState): State
    requires r.newName in s.providers
  {
    Moved(RecordsUndone(s, r), r.newName, r.oldName)
  }

  /** The provider has moved, and the recorded records and the torn ones name the new provider. */
  function Partial(s: State, r: RenameState, torn: Records): State
    requires r.oldName in s.providers
  {
    Moved(s, r.oldName, r.newName).(
      workspaces := Applied(s.workspaces, r.workspaces + torn.workspaces, r.newName),
      machines := Applied(s.machines, r.machines + torn.machines, r.newName))
  }

  /** The initial state, but for the records left behind and for the option paths going forth and back. */
  function ReturnedTo(s: State, left: Records, oldName: string, newName: string): State
    requires oldName in s.providers
  {
    s.(providers := s.providers[oldName := Rewrite(Rewrite(s.providers[oldName], oldName, newName), newName, oldName)],
       dirs := s.dirs[oldName := oldName],
       workspaces := Applied(s.workspaces, left.workspaces, newName),
       machines := Applied(s.machines, left.machines, newName))
  }

  /** That is the initial state exactly when no record is left, and the paths and the stored name are in order. */
  lemma ReturnedIffNothingLeft(s: State, left: Records, oldName: string, newName: string)
    requires oldName in s.providers && oldName in s.dirs && oldName != newName && '/' !in newName
    requires Naming(s.workspaces, oldName, left.workspaces) && Naming(s.machines, oldName, left.machines)
    ensures ReturnedTo(s, left, oldName, newName) == s <==>
              left == Records([], []) && s.dirs[oldName] == oldName && PathsClear(s.providers[oldName], oldName, newName)
  {
    OptionsReverseIffClear(s.providers[oldName], oldName, newName);
    var t := ReturnedTo(s, left, oldName, newName);
    assert t.providers[oldName] == Rewrite(Rewrite(s.providers[oldName], oldName, newName), newName, oldName);
    assert t.dirs[oldName] == oldName;
    if left.workspaces != [] { assert t.workspaces[left.workspaces[0]].provider == newName; }
    if left.machines != [] { assert t.machines[left.machines[0]].provider == newName; }
    if PathsClear(s.providers[oldName], oldName, newName) { assert t.providers == s.providers; }
    if s.dirs[oldName] == oldName { assert t.dirs == s.dirs; }
  }

  /** Moving the provider there and back touches only its own entry and directory. */
  lemma MovedBack(s: State, oldName: string, newName: string)
    requires oldName in s.providers && oldName in s.dirs && newName !in s.providers && newName !in s.dirs
    ensures var back := Moved(Moved(s, oldName, newName), newName, oldName);
            var returned := ReturnedTo(s, Records([], []), oldName, newName);
            back.providers == returned.providers && back.dirs == returned.dirs
  {
  }

  /** What holds when a rollback of `r` begins; `torn` has the record whose failed switch was torn, if any. */
  ghost predicate Interrupted(initial: State, now: State, r: RenameState, torn: Records)
  {
    && r.oldName in initial.providers && r.oldName in initial.dirs && r.newName !in initial.providers && r.newName !in initial.dirs
    && r.oldName != r.newName && '/' !in r.newName
    && Naming(initial.workspaces, r.oldName, r.workspaces + torn.workspaces)
    && Naming(initial.machines, r.oldName, r.machines + torn.machines)
    && (r.defaultChanged ==> initial.defaultProvider == r.oldName)
    && r.config == Config(Moved(initial, r.oldName, r.newName).providers.Keys, initial.defaultProvider)
    && now == Partial(initial, r, torn)
  }

  /** Undoing leaves the torn record, and leaves the switched workspaces too if they are not switched back. */
  lemma UndoneLeaves(s: State, now: State, r: RenameState, torn: Records)
    requires Interrupted(s, now, r, torn)
    ensures Undone(now, r) == ReturnedTo(s, torn, r.oldName, r.newName)
    ensures Undone(now, r.(workspaces := [])) == ReturnedTo(s, Behind(r, torn), r.oldName, r.newName)
  {
    MovedBack(s, r.oldName, r.newName);
    AppliedPartlyBack(s.workspaces, r.oldName, r.workspaces, torn.workspaces, r.newName);
    AppliedPartlyBack(s.machines, r.oldName, r.machines, torn.machines, r.newName);
    AppliedPartlyBack(s.workspaces, r.oldName, [], r.workspaces + torn.workspaces, r.newName);
    assert [] + (r.workspaces + torn.workspaces) == r.workspaces + torn.workspaces;
  }

  /** The records that a rollback leaves which does not switch the workspaces back. */
  function Behind(r: RenameState, torn: Records): Records
  {
    torn.(workspaces := r.workspaces + torn.workspaces)
  }

  lemma InterruptedTouches(s: State, now: State, r: RenameState, torn: Records)
    requires Interrupted(s, now, r, torn)
    ensures OnlyTouched(s, now, r.oldName, r.newName) && Recorded(r, s)
    ensures Naming(s.workspaces, r.oldName, torn.workspaces) && Naming(s.machines, r.oldName, torn.machines)
  {
    MoveTouches(s, s, r.oldName, r.newName, r.oldName, r.newName);
    AppliedTouches(s.workspaces, s.workspaces, r.workspaces + torn.workspaces, r.newName, r.oldName, r.newName);
    AppliedTouches(s.machines, s.machines, r.machines + torn.machines, r.newName, r.oldName, r.newName);
    NamingParts(s.workspaces, r.oldName, r.workspaces, torn.workspaces);
    NamingParts(s.machines, r.oldName, r.machines, torn.machines);
  }

  // ----- Looking up the old name during the rollback -----

  /** With the provider moved away, a lookup still finds its old name. */
  ghost predicate FoundElsewhere(s: State, oldName: string, newName: string)
    requires oldName in s.providers
  {
    var moved := Moved(s, oldName, newName);
    Found(moved.providers.Keys, moved.dirs, oldName)
  }

  /** Another directory gives the name in its provider.json. */
  predicate NamedElsewhere(dirs: map<string, string>, name: string)
  {
    exists e | e in dirs :: e != name && dirs[e] == name
  }

  lemma FoundOnlyElsewhere(s: State, oldName: string, newName: string)
    requires oldName in s.providers && oldName != newName
    ensures var moved := Moved(s, oldName, newName);
            Findable(moved.providers.Keys, moved.dirs, oldName) ==> NamedElsewhere(s.dirs, oldName)
    ensures FoundElsewhere(s, oldName, newName) ==> NamedElsewhere(s.dirs, oldName)
  {
    var moved := Moved(s, oldName, newName);
    if Findable(moved.providers.Keys, moved.dirs, oldName) {
      var e :| e in moved.dirs && moved.dirs[e] == oldName;
      assert e in s.dirs && e != oldName && s.dirs[e] == oldName;
    }
    if FoundElsewhere(s, oldName, newName) {
      FoundIsFindable(moved.providers.Keys, moved.dirs, oldName);
    }
  }

  // ----- What a rename promises -----

  /** Success, record by record: whatever named the old provider names the new one, and nothing else differs. */
  ghost predicate NamesMoved(initial: State, final: State, oldName: string, newName: string)
    requires oldName in initial.providers
  {
    && final.defaultProvider == (if initial.defaultProvider == oldName then newName else initial.defaultProvider)
    && RecordsMoved(initial.workspaces, final.workspaces, oldName, newName)
    && RecordsMoved(initial.machines, final.machines, oldName, newName)
    && oldName !in final.providers && oldName !in final.dirs
    && newName in final.providers && newName in final.dirs && final.dirs[newName] == newName
    && final.providers[newName].options.Keys == initial.providers[oldName].options.Keys
    && (forall o | o in initial.providers[oldName].options ::
          final.providers[newName].options[o] == ReplaceAll(initial.providers[oldName].options[o], Dir(oldName), Dir(newName)))
  }

  ghost predicate RecordsMoved(before: map<string, Record>, after: map<string, Record>, oldName: string, newName: string)
  {
    && after.Keys == before.Keys
    && forall id | id in before ::
         && after[id].rest == before[id].rest
         && after[id].provider == if before[id].provider == oldName then newName else before[id].provider
  }

  lemma RenamedMovesNames(s: State, oldName: string, newName: string)
    requires oldName in s.providers && oldName != newName
    ensures NamesMoved(s, Renamed(s, oldName, newName), oldName, newName)
  {
  }

  /**
   A rollback that reports no error leaves the torn record alone. Without a failure of its own it
   reports none if and only if no workspace had been switched, or the old name is found elsewhere;
   otherwise it leaves exactly the switched workspaces and the torn record naming the new provider.
   */
  ghost predicate RollbackOk(initial: State, began: Moment, end: Moment, clean: bool, r: RenameState, torn: Records)
    requires r.oldName in initial.providers && r.oldName in initial.dirs
  {
    && began.faults <= end.faults && began.torn <= end.torn
    && (exists failed: FailedSteps :: failed.Count() <= end.faults - began.faults && StepsUndone(began.state, end.state, r, failed))
    && (clean ==> end.torn == began.torn && (r.workspaces == [] || NamedElsewhere(initial.dirs, r.oldName)))
    && (end.faults == began.faults ==> (clean <==> r.workspaces == [] || FoundElsewhere(initial, r.oldName, r.newName)))
    && (clean || end.faults == began.faults ==>
          && end.state == ReturnedTo(initial, if clean then torn else Behind(r, torn), r.oldName, r.newName)
          && (end.state == initial <==>
                clean && torn == Records([], []) && initial.dirs[r.oldName] == r.oldName
                && PathsClear(initial.providers[r.oldName], r.oldName, r.newName)))
  }

  /** What a rename promises of the state it ends in, and of the one in which a rollback began. */
  ghost predicate RenameOk(start: Moment, began: Moment, end: Moment, o: Outcome, torn: Records, oldName: string, newName: string)
    requires oldName in start.state.providers
  {
    var initial, final := start.state, end.state;
    && OnlyTouched(initial, final, oldName, newName)
    && start.faults <= end.faults
    && match o
       case Success =>
         && oldName in initial.dirs && newName !in initial.dirs && end.torn == start.torn
         && NamesMoved(initial, final, oldName, newName)
       case Refused => final == initial
       case MoveFailed =>
         && final == initial.(dirs := final.dirs)
         && ((oldName in initial.dirs ==> initial.dirs[oldName] == oldName) ==> (final == initial <==> end.torn == start.torn))
         && (end.faults == start.faults ==> final == initial && (oldName !in initial.dirs || newName in initial.dirs))
       case ReloadFailed => start.faults < end.faults && final == Moved(initial, oldName, newName)
       case RolledBack(clean, r) =>
         && r.oldName == oldName && r.newName == newName
         && start.faults < began.faults
         && Interrupted(initial, began.state, r, torn)
         && |torn.workspaces| + |torn.machines| == began.torn - start.torn <= 1
         && RollbackOk(initial, began, end, clean, r, torn)
  }

  method RollBack(s: Stores, r: RenameState, ghost initial: State, ghost torn: Records) returns (clean: bool)
    requires Interrupted(initial, s.state, r, torn)
    modifies s
    ensures s.began == old(s.Now())
    ensures OnlyTouched(initial, s.state, r.oldName, r.newName)
    ensures RollbackOk(initial, s.began, s.Now(), clean, r, torn)
  {
    s.began := s.Now();
    InterruptedTouches(initial, s.state, r, torn);
    UndoneLeaves(initial, s.state, r, torn);
    FoundOnlyElsewhere(initial, r.oldName, r.newName);
    ReturnedIffNothingLeft(initial, torn, r.oldName, r.newName);
    ReturnedIffNothingLeft(initial, Behind(r, torn), r.oldName, r.newName);
    ghost var failed;
    clean, failed := RestoreProviderState(s, r, initial);
  }

  /** What the command checks of its arguments and of the configuration. */
  predicate ValidName(name: string)
  {
    0 < |name| <= 32 && forall c | c in name :: 'a' <= c <= 'z' || '0' <= c <= '9' || c == '-'
  }

  ghost predicate Renamable(s: State, oldName: string, newName: string, platform: bool)
  {
    && oldName != newName && ValidName(newName) && !platform
    && Found(s.providers.Keys, s.dirs, oldName)
    && oldName in s.providers && newName !in s.providers
  }

  /** `platform`: the old provider is a platform provider or backs a platform instance. */
  method Run(s: Stores, oldName: string, newName: string, platform: bool) returns (o: Outcome, ghost torn: Records)
    modifies s
    ensures o.Refused? ==> s.state == old(s.state)
    ensures !o.Refused? ==> oldName in old(s.state).providers && RenameOk(old(s.Now()), s.began, s.Now(), o, torn, oldName, newName)
    ensures s.faults == old(s.faults) ==>
              o == if !Renamable(old(s.state), oldName, newName, platform) then Refused
                   else if oldName in old(s.state).dirs && newName !in old(s.state).dirs then Success
                   else MoveFailed
  {
    torn := Records([], []);
    if oldName == newName || !ValidName(newName) { return Refused, torn; }
    var ok, config := s.LoadConfig();
    if !ok { return Refused, torn; }
    ok := s.FindProvider(config.providers, oldName);
    if !ok || platform || oldName !in config.providers || newName in config.providers { return Refused, torn; }
    o, torn := RenameProvider(s, oldName, newName);
  }

  /**
   Success moves exactly the records and the default that named the old provider. A rollback that
   reports no error leaves at most one record naming the new provider, and restores the initial state
   if and only if nothing was torn and no option mentions the new directory outside its own.
   A rollback after a switched workspace reports an error, unless another directory gives the old name.
   Whatever happens, nothing that does not belong to the provider changes.
   */
  method RenameProvider(s: Stores, oldName: string, newName: string) returns (o: Outcome, ghost torn: Records)
    requires oldName in s.state.providers && newName !in s.state.providers
    requires oldName != newName && '/' !in newName
    modifies s
    ensures RenameOk(old(s.Now()), s.began, s.Now(), o, torn, oldName, newName)
    ensures o.Refused? ==> s.faults > old(s.faults)
    ensures s.faults == old(s.faults) ==>
              o == if oldName in old(s.state).dirs && newName !in old(s.state).dirs then Success else MoveFailed
  {
    torn := Records([], []);
    ghost var start := s.Now();
    var listed, wids := s.ListRecords(s.state.workspaces, oldName);
    if !listed { return Refused, torn; }
    var mids;
    listed, mids := s.ListRecords(s.state.machines, oldName);
    if !listed { return Refused, torn; }
    var moved := s.MoveProvider(oldName, newName);
    if !moved { return MoveFailed, torn; }
    MoveTouches(start.state, start.state, oldName, newName, oldName, newName);
    var loaded, config := s.LoadConfig();
    if !loaded { return ReloadFailed, torn; }
    var r := RenameState(config, oldName, newName, [], [], false);
    assert Partial(start.state, r, torn).workspaces == start.state.workspaces;
    assert Partial(start.state, r, torn).machines == start.state.machines;
    o, torn := SwitchAll(s, r, wids, mids, start);
  }

  /** A step has failed: rolls back what was done. */
  method Abandon(s: Stores, r: RenameState, ghost start: Moment, ghost torn: Records) returns (o: Outcome)
    requires Interrupted(start.state, s.state, r, torn)
    requires start.faults < s.faults && |torn.workspaces| + |torn.machines| == s.torn - start.torn <= 1
    modifies s
    ensures o.RolledBack? && RenameOk(start, s.began, s.Now(), o, torn, r.oldName, r.newName)
  {
    var clean := RollBack(s, r, start.state, torn);
    o := RolledBack(clean, r);
  }

  /** The rename is under way with `r` done; nothing has been torn. */
  ghost predicate Underway(s: Stores, r: RenameState, wids: seq<string>, mids: seq<string>, start: Moment)
    reads s
  {
    && Interrupted(start.state, s.state, r, Records([], []))
    && Lists(start.state.workspaces, r.oldName, wids) && Lists(start.state.machines, r.oldName, mids)
    && !r.defaultChanged && start.faults <= s.faults && start.torn == s.torn
  }

  /** Everything between the reload and the result, with its rollback. */
  method SwitchAll(s: Stores, r: RenameState, wids: seq<string>, mids: seq<string>, ghost start: Moment)
    returns (o: Outcome, ghost torn: Records)
    requires Underway(s, r, wids, mids, start) && r.workspaces == [] && r.machines == []
    modifies s
    ensures RenameOk(start, s.began, s.Now(), o, torn, r.oldName, r.newName)
    ensures o.Success? || o.RolledBack?
  {
    var ok, now;
    ok, now, torn := MoveWorkspaces(s, r, wids, start);
    if !ok {
      o := Abandon(s, now, start, torn);
      return;
    }
    ok, now, torn := MoveMachines(s, now, mids, start);
    if !ok {
      o := Abandon(s, now, start, torn);
      return;
    }
    o, torn := SetDefault(s, now, wids, mids, start);
  }

  method MoveWorkspaces(s: Stores, r: RenameState, ids: seq<string>, ghost start: Moment)
    returns (ok: bool, now: RenameState, ghost torn: Records)
    requires Interrupted(start.state, s.state, r, Records([], [])) && r.workspaces == []
    requires Lists(start.state.workspaces, r.oldName, ids) && start.faults <= s.faults && start.torn == s.torn
    modifies s`state, s`faults, s`torn
    ensures Interrupted(start.state, s.state, now, torn) && torn.machines == [] && |torn.workspaces| == s.torn - start.torn <= 1
    ensures now == r.(workspaces := now.workspaces) && (ok ==> now.workspaces == ids && torn == Records([], []))
    ensures start.faults <= s.faults && (!ok ==> start.faults < s.faults)
  {
    ghost var before := s.state;
    var w;
    ok, w := s.SwitchWorkspaces(r.config.providers, ids, r.newName);
    ghost var touched := w + (s.torn - start.torn);
    WorkspacesSwitched(start.state, before, s.state, r, ids, w, touched);
    now, torn := r.(workspaces := ids[..w]), Records(ids[w..touched], []);
  }

  method MoveMachines(s: Stores, r: RenameState, ids: seq<string>, ghost start: Moment)
    returns (ok: bool, now: RenameState, ghost torn: Records)
    requires Interrupted(start.state, s.state, r, Records([], [])) && r.machines == []
    requires Lists(start.state.machines, r.oldName, ids) && start.faults <= s.faults && start.torn == s.torn
    modifies s`state, s`faults, s`torn
    ensures Interrupted(start.state, s.state, now, torn) && torn.workspaces == [] && |torn.machines| == s.torn - start.torn <= 1
    ensures now == r.(machines := now.machines) && (ok ==> now.machines == ids && torn == Records([], []))
    ensures start.faults <= s.faults && (!ok ==> start.faults < s.faults)
  {
    ghost var before := s.state;
    var m;
    ok, m := s.SwitchMachines(ids, r.newName);
    ghost var touched := m + (s.torn - start.torn);
    MachinesSwitched(start.state, before, s.state, r, ids, m, touched);
    now, torn := r.(machines := ids[..m]), Records([], ids[m..touched]);
  }

  /** The first `m` workspaces are switched, and those after the first `n` are torn. */
  lemma WorkspacesSwitched(initial: State, before: State, now: State, r: RenameState, ids: seq<string>, n: nat, m: nat)
    requires Interrupted(initial, before, r, Records([], [])) && r.workspaces == [] && Naming(initial.workspaces, r.oldName, ids)
    requires n <= m <= |ids| && now == before.(workspaces := Applied(before.workspaces, ids[..m], r.newName))
    ensures Interrupted(initial, now, r.(workspaces := ids[..n]), Records(ids[n..m], []))
  {
    assert ids[..n] + ids[n..m] == ids[..m] && before.workspaces == initial.workspaces;
  }

  lemma MachinesSwitched(initial: State, before: State, now: State, r: RenameState, ids: seq<string>, n: nat, m: nat)
    requires Interrupted(initial, before, r, Records([], [])) && r.machines == [] && Naming(initial.machines, r.oldName, ids)
    requires n <= m <= |ids| && now == before.(machines := Applied(before.machines, ids[..m], r.newName))
    ensures Interrupted(initial, now, r.(machines := ids[..n]), Records([], ids[n..m]))
  {
    assert ids[..n] + ids[n..m] == ids[..m] && before.machines == initial.machines;
  }

  method SetDefault(s: Stores, r: RenameState, wids: seq<string>, mids: seq<string>, ghost start: Moment)
    returns (o: Outcome, ghost torn: Records)
    requires Underway(s, r, wids, mids, start) && r.workspaces == wids && r.machines == mids
    modifies s
    ensures RenameOk(start, s.began, s.Now(), o, torn, r.oldName, r.newName)
    ensures o.Success? || o.RolledBack?
  {
    torn := Records([], []);
    InterruptedTouches(start.state, s.state, r, torn);
    if r.config.defaultProvider == r.oldName {
      var ok, changed := s.UpdateDefault(r.oldName, r.newName);
      if !ok {
        o := Abandon(s, r.(defaultChanged := changed), start, torn);
        return;
      }
    }
    assert wids + [] == wids && mids + [] == mids;
    AppliedAll(start.state.workspaces, r.oldName, wids, r.newName);
    AppliedAll(start.state.machines, r.oldName, mids, r.newName);
    RenamedMovesNames(start.state, r.oldName, r.newName);
    assert s.state == Renamed(start.state, r.oldName, r.newName);
    o := Success;
  }

  // ----- What can be left behind -----

  /**
   When no other directory gives the old name, a rollback reports an error exactly after a workspace was
   switched, and then every switched workspace names a provider that does not exist.
   */
  lemma SwitchedWorkspacesAreStranded(initial: State, began: Moment, end: Moment, clean: bool, r: RenameState, torn: Records)
    requires Interrupted(initial, began.state, r, torn) && RollbackOk(initial, began, end, clean, r, torn)
    requires end.faults == began.faults && !NamedElsewhere(initial.dirs, r.oldName)
    ensures clean <==> r.workspaces == []
    ensures forall id :: id in r.workspaces ==> id in end.state.workspaces && end.state.workspaces[id].provider == r.newName
    ensures r.newName !in end.state.providers && r.newName !in end.state.dirs
  {
    FoundOnlyElsewhere(initial, r.oldName, r.newName);
    forall id | id in r.workspaces
      ensures id in end.state.workspaces && end.state.workspaces[id].provider == r.newName
    {
      var k :| 0 <= k < |r.workspaces| && r.workspaces[k] == id;
      assert (r.workspaces + torn.workspaces)[k] == id;
    }
  }

  /** Of two workspaces the second cannot be stopped: the rollback strands the first. */
  lemma FirstOfTwoIsStranded()
    ensures var s := State(map["a" := "a"], map["a" := Provider(map[])], map["v" := Record("a", ""), "w" := Record("a", "")], map[], "a");
            var r := RenameState(Config({"b"}, "a"), "a", "b", ["v"], [], false);
            var now := Partial(s, r, Records([], []));
            && Interrupted(s, now, r, Records([], [])) && !Found(r.config.providers, now.dirs, "a")
            && Undone(now, r.(workspaces := [])) == s.(workspaces := map["v" := Record("b", ""), "w" := Record("a", "")])
  {
    var s := State(map["a" := "a"], map["a" := Provider(map[])], map["v" := Record("a", ""), "w" := Record("a", "")], map[], "a");
    var r := RenameState(Config({"b"}, "a"), "a", "b", ["v"], [], false);
    var now := Partial(s, r, Records([], []));
    assert Moved(s, "a", "b").providers.Keys == {"b"};
    UndoneLeaves(s, now, r, Records([], []));
    FoundOnlyElsewhere(s, "a", "b");
    ReturnedIffNothingLeft(s, Records([], []), "a", "b");
    assert ReturnedTo(s, Records([], []), "a", "b") == s;
  }

  /** An unconfigured directory that gives the old name lets the lookup of the rollback succeed. */
  lemma StrayDirectoryIsFound()
    ensures var s := State(map["a" := "a", "x" := "a"], map["a" := Provider(map[])], map[], map[], "a");
            FoundElsewhere(s, "a", "b")
  {
    var s := State(map["a" := "a", "x" := "a"], map["a" := Provider(map[])], map[], map[], "a");
    var moved := Moved(s, "a", "b");
    var entries := ["b", "x"];
    assert moved.dirs == map["b" := "b", "x" := "a"] && moved.providers.Keys == {"b"};
    assert Listing(entries, moved.dirs);
    assert entries[..1] == ["b"] && ["b"][..0] == [] && !HasPrefix("x", ".DS_Store");
    assert Known({"b"}, moved.dirs, ["b"]) == {"b"};
    assert {"b"} * moved.dirs.Keys == {"b"};
    assert "a" in Known({"b"}, moved.dirs, entries);
  }

  /** The first workspace's failed switch, if it was torn, survives a clean rollback. */
  lemma StrayWorkspaceStays()
    ensures var s := State(map["a" := "a"], map["a" := Provider(map[])], map["w" := Record("a", "")], map[], "a");
            var r := RenameState(Config({"b"}, "a"), "a", "b", [], [], false);
            var now := Partial(s, r, Records(["w"], []));
            && PathsClear(s.providers["a"], "a", "b") && Interrupted(s, now, r, Records(["w"], []))
            && Undone(now, r) == s.(workspaces := map["w" := Record("b", "")])
  {
    var s := State(map["a" := "a"], map["a" := Provider(map[])], map["w" := Record("a", "")], map[], "a");
    var r := RenameState(Config({"b"}, "a"), "a", "b", [], [], false);
    var now := Partial(s, r, Records(["w"], []));
    assert Moved(s, "a", "b").providers.Keys == {"b"};
    UndoneLeaves(s, now, r, Records(["w"], []));
    ReturnedIffNothingLeft(s, Records([], []), "a", "b");
    assert ReturnedTo(s, Records([], []), "a", "b") == s;
  }
}
