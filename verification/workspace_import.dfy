/** Importing a workspace: a staged tree moved over the local one, its record last. */
module WorkspaceImport {
  import opened Basics

  type Path = seq<string>

  const RECORD: Path := ["workspace.json"]

  datatype Record = Record(id: string, context: string, machine: string, provider: string, uid: string,
                           displayName: string, sshHostAlias: string, sshConfigPath: string, sshIncludePath: string, source: string, settings: string)

  datatype Content = Bytes(bytes: string) | Json(record: Record)

  datatype Node = Dir | File(content: Content)

  type Tree = map<Path, Node>

  function At(t: Tree, p: Path): Option<Node>
  {
    if p in t then Some(t[p]) else None
  }

  /** The directory a path lies in is there. The top directory has no path of its own. */
  predicate InDir(t: Tree, p: Path)
  {
    p != [] && (|p| == 1 || At(t, p[..|p| - 1]) == Some(Dir))
  }

  ghost predicate WellFormed(t: Tree)
  {
    forall p | p in t :: InDir(t, p)
  }

  /** A directory and a file cannot replace one another. */
  predicate Compatible(local: Tree, stage: Tree)
  {
    forall p | p in local && p in stage :: local[p].Dir? == stage[p].Dir?
  }

  /** The local tree with the staged paths in `done` moved over it. */
  function Overlay(local: Tree, stage: Tree, done: set<Path>): Tree
  {
    local + map p | p in stage && p in done :: stage[p]
  }

  /** Every path is still local or already staged; the record and what is not staged are local. */
  ghost predicate Uncommitted(local: Tree, stage: Tree, t: Tree)
  {
    && (forall p | p !in stage || p == RECORD :: At(t, p) == At(local, p))
    && forall p | p in stage :: At(t, p) in {At(local, p), Some(stage[p])}
  }

  /** The workspace directory an interruption can leave: uncommitted, or entirely overridden by the stage. */
  ghost predicate Safe(local: Option<Tree>, stage: Tree, now: Option<Tree>)
  {
    match local
    case None => now in {None, Some(stage)}
    case Some(t) => now.Some? && (now.value == t + stage || Uncommitted(t, stage, now.value))
  }

  ghost predicate SafeSince(local: Option<Tree>, stage: Tree, history: seq<Option<Tree>>, from: nat)
  {
    forall n | from <= n < |history| :: Safe(local, stage, history[n])
  }

  lemma OverlayIsUncommitted(local: Tree, stage: Tree, done: set<Path>)
    requires RECORD !in done
    ensures Uncommitted(local, stage, Overlay(local, stage, done))
  {
  }

  lemma OverlayGrows(local: Tree, stage: Tree, done: set<Path>, p: Path)
    requires p in stage
    ensures Overlay(local, stage, done + {p}) == Overlay(local, stage, done)[p := stage[p]]
  {
  }

  /** A staged path whose parent was moved has a directory to go to. */
  lemma ParentIsThere(local: Tree, stage: Tree, done: set<Path>, p: Path)
    requires InDir(stage, p) && (|p| > 1 ==> p[..|p| - 1] in done)
    ensures InDir(Overlay(local, stage, done), p)
  {
  }

  /** The two directories. `faults` counts the operations that failed without being blocked by what is there. */
  class Folders {
    var stage: Tree
    var dir: Option<Tree>
    ghost var history: seq<Option<Tree>>
    ghost var faults: nat

    twostate predicate Logged(fault: bool)
      reads this
    {
      history == old(history) + [dir] && faults == old(faults) + (if fault then 1 else 0)
    }

    method Finish(ghost fault: bool)
      modifies this`history, this`faults
      ensures Logged(fault)
    {
      history := history + [dir];
      faults := faults + (if fault then 1 else 0);
    }

    method Chmod() returns (ok: bool)
      modifies this`history, this`faults
      ensures Logged(!ok)
    {
      ok := *;
      Finish(!ok);
    }

    /** Renames the stage to the workspace directory, which must not exist. */
    method RenameStage() returns (ok: bool)
      modifies this
      ensures Logged(!ok && old(dir).None?)
      ensures old(dir).Some? ==> !ok
      ensures if ok then dir == Some(old(stage)) else dir == old(dir) && stage == old(stage)
    {
      var able: bool := *;
      ok := able && dir.None?;
      ghost var fault := !ok && dir.None?;
      if ok {
        dir, stage := Some(stage), map[];
      }
      Finish(fault);
    }

    /** Stat of the workspace directory. */
    method Exists() returns (r: bool)
      modifies this`history, this`faults
      ensures Logged(!r && dir.Some?) && (r ==> dir.Some?)
    {
      var able: bool := *;
      r := able && dir.Some?;
      Finish(!r && dir.Some?);
    }

    /** The parent exists, so at most one directory is made. */
    method MkdirAll(p: Path) returns (ok: bool)
      requires dir.Some? && InDir(dir.value, p)
      modifies this`dir, this`history, this`faults
      ensures Logged(!ok && (p in old(dir).value ==> old(dir).value[p].Dir?))
      ensures ok ==> p in old(dir).value ==> old(dir).value[p].Dir?
      ensures dir == if ok then Some(old(dir).value[p := Dir]) else old(dir)
    {
      var able: bool := *;
      var blocked := p in dir.value && !dir.value[p].Dir?;
      ok := able && !blocked;
      if ok {
        dir := Some(dir.value[p := Dir]);
      }
      Finish(!ok && !blocked);
    }

    /** Moves one staged file over the local one. A directory in its place blocks it. */
    method Rename(p: Path) returns (ok: bool)
      requires dir.Some? && InDir(dir.value, p) && p in stage && stage[p].File?
      modifies this
      ensures Logged(!ok && (p in old(dir).value ==> old(dir).value[p].File?))
      ensures ok ==> p in old(dir).value ==> old(dir).value[p].File?
      ensures dir == if ok then Some(old(dir).value[p := old(stage)[p]]) else old(dir)
      ensures stage == if ok then old(stage) - {p} else old(stage)
    {
      var able: bool := *;
      var blocked := p in dir.value && !dir.value[p].File?;
      ok := able && !blocked;
      if ok {
        dir := Some(dir.value[p := stage[p]]);
        stage := stage - {p};
      }
      Finish(!ok && !blocked);
    }

    method WriteStaged(r: Record) returns (ok: bool)
      modifies this`stage, this`history, this`faults
      ensures Logged(!ok) && stage == if ok then old(stage)[RECORD := File(Json(r))] else old(stage)
    {
      ok := *;
      if ok {
        stage := stage[RECORD := File(Json(r))];
      }
      Finish(!ok);
    }
  }

  // ----- The merge -----

  datatype Entry = Entry(rel: Path, isDir: bool)

  function Rels(entries: seq<Entry>): set<Path>
  {
    set e | e in entries :: e.rel
  }

  /** The next entry is new, is staged and not the record, and its directory was listed before it. */
  ghost predicate Follows(done: set<Path>, e: Entry, stage: Tree)
  {
    && e.rel in stage && e.rel != RECORD && e.rel !in done && e.isDir == stage[e.rel].Dir?
    && (|e.rel| > 1 ==> e.rel[..|e.rel| - 1] in done)
  }

  ghost predicate Listed(entries: seq<Entry>, stage: Tree)
  {
    forall i | 0 <= i < |entries| :: Follows(Rels(entries[..i]), entries[i], stage)
  }

  lemma ListedGrows(entries: seq<Entry>, stage: Tree, e: Entry)
    requires Listed(entries, stage) && Follows(Rels(entries), e, stage)
    ensures Listed(entries + [e], stage) && Rels(entries + [e]) == Rels(entries) + {e.rel}
  {
    var more := entries + [e];
    forall i | 0 <= i < |more|
      ensures Follows(Rels(more[..i]), more[i], stage)
    {
      assert i < |entries| ==> more[..i] == entries[..i] && Follows(Rels(entries[..i]), entries[i], stage);
      assert i == |entries| ==> more[..i] == entries;
    }
  }

  /** All staged paths but the record. A directory comes before what it holds; the order is arbitrary otherwise. */
  method ListStagedEntries(stage: Tree) returns (entries: seq<Entry>)
    requires WellFormed(stage) && RECORD in stage && stage[RECORD].File?
    ensures Listed(entries, stage) && Rels(entries) == stage.Keys - {RECORD}
  {
    entries := [];
    var rest := stage.Keys - {RECORD};
    while rest != {}
      invariant Listed(entries, stage) && rest <= stage.Keys - {RECORD} && Rels(entries) == stage.Keys - {RECORD} - rest
      decreases |rest|
    {
      var p :| p in rest;
      while |p| > 1 && p[..|p| - 1] in rest
        invariant p in rest
        decreases |p|
      {
        p := p[..|p| - 1];
      }
      assert InDir(stage, p);
      ListedGrows(entries, stage, Entry(p, stage[p].Dir?));
      entries, rest := entries + [Entry(p, stage[p].Dir?)], rest - {p};
    }
  }

  /** The state after the paths in `done` were moved. */
  ghost predicate Merging(local: Tree, staged: Tree, done: set<Path>, dir: Option<Tree>, stage: Tree)
  {
    && done <= staged.Keys && RECORD !in done
    && dir == Some(Overlay(local, staged, done))
    && (forall p | p in staged && (p !in done || staged[p].Dir?) :: At(stage, p) == Some(staged[p]))
    && forall p | p in done && p in local :: local[p].Dir? == staged[p].Dir?
  }

  lemma MergingReady(local: Tree, staged: Tree, done: set<Path>, dir: Option<Tree>, stage: Tree, p: Path)
    requires Merging(local, staged, done, dir, stage) && p in staged && p !in done
    requires InDir(staged, p) && (|p| > 1 ==> p[..|p| - 1] in done)
    ensures InDir(dir.value, p) && At(dir.value, p) == At(local, p) && At(stage, p) == Some(staged[p])
    ensures Uncommitted(local, staged, dir.value)
  {
    ParentIsThere(local, staged, done, p);
    OverlayIsUncommitted(local, staged, done);
  }

  lemma MergingStep(local: Tree, staged: Tree, done: set<Path>, dir: Option<Tree>, stage: Tree, p: Path, dir': Option<Tree>, stage': Tree)
    requires Merging(local, staged, done, dir, stage) && p in staged && p != RECORD
    requires dir' == Some(dir.value[p := staged[p]])
    requires stage' == if staged[p].Dir? then stage else stage - {p}
    requires p in local ==> local[p].Dir? == staged[p].Dir?
    ensures Merging(local, staged, done + {p}, dir', stage') && Uncommitted(local, staged, dir'.value)
  {
    OverlayGrows(local, staged, done, p);
    OverlayIsUncommitted(local, staged, done + {p});
  }

  lemma MergingDone(local: Tree, staged: Tree, dir: Option<Tree>, stage: Tree)
    requires Merging(local, staged, staged.Keys - {RECORD}, dir, stage) && RECORD in staged
    ensures dir.value[RECORD := staged[RECORD]] == local + staged
    ensures At(dir.value, RECORD) == At(local, RECORD) && At(stage, RECORD) == Some(staged[RECORD])
    ensures Uncommitted(local, staged, dir.value)
    ensures (RECORD in local ==> local[RECORD].Dir? == staged[RECORD].Dir?) <==> Compatible(local, staged)
  {
    OverlayGrows(local, staged, staged.Keys - {RECORD}, RECORD);
    OverlayIsUncommitted(local, staged, staged.Keys - {RECORD});
    assert staged.Keys - {RECORD} + {RECORD} == staged.Keys;
    assert Overlay(local, staged, staged.Keys) == local + staged;
  }

  lemma SafeAgain(local: Tree, staged: Tree, history: seq<Option<Tree>>, from: nat, dir: Option<Tree>)
    requires from <= |history| && SafeSince(Some(local), staged, history, from)
    requires dir.Some? && (Uncommitted(local, staged, dir.value) || dir.value == local + staged)
    ensures SafeSince(Some(local), staged, history + [dir], from)
  {
  }

  /** Moves one staged path over the local one. */
  method MoveEntry(f: Folders, entry: Entry, ghost local: Tree, ghost staged: Tree, ghost done: set<Path>) returns (ok: bool)
    requires Merging(local, staged, done, f.dir, f.stage) && Follows(done, entry, staged) && InDir(staged, entry.rel)
    modifies f
    ensures f.history == old(f.history) + [f.dir] && f.dir.Some? && Uncommitted(local, staged, f.dir.value)
    ensures ok ==> Merging(local, staged, done + {entry.rel}, f.dir, f.stage) && f.faults == old(f.faults)
    ensures !ok ==> (entry.rel in local && local[entry.rel].Dir? != entry.isDir) || f.faults > old(f.faults)
    ensures f.faults >= old(f.faults)
  {
    ghost var dir, stage := f.dir, f.stage;
    MergingReady(local, staged, done, dir, stage, entry.rel);
    if entry.isDir {
      ok := f.MkdirAll(entry.rel);
    } else {
      ok := f.Rename(entry.rel);
    }
    if ok {
      MergingStep(local, staged, done, dir, stage, entry.rel, f.dir, f.stage);
    }
  }

  lemma RelsGrow(entries: seq<Entry>, i: nat)
    requires i < |entries|
    ensures Rels(entries[..i + 1]) == Rels(entries[..i]) + {entries[i].rel}
  {
    assert entries[..i + 1] == entries[..i] + [entries[i]];
  }

  method MergeEntries(f: Folders, entries: seq<Entry>, ghost local: Tree, ghost staged: Tree) returns (ok: bool)
    requires f.dir == Some(local) && f.stage == staged && WellFormed(staged)
    requires Listed(entries, staged)
    modifies f
    ensures old(f.history) <= f.history && SafeSince(Some(local), staged, f.history, |old(f.history)|)
    ensures f.dir.Some? && Uncommitted(local, staged, f.dir.value) && f.faults >= old(f.faults)
    ensures ok ==> Merging(local, staged, Rels(entries), f.dir, f.stage) && f.faults == old(f.faults)
    ensures !ok ==> !Compatible(local, staged) || f.faults > old(f.faults)
  {
    ghost var from := |f.history|;
    assert Overlay(local, staged, {}) == local;
    for i := 0 to |entries|
      invariant Merging(local, staged, Rels(entries[..i]), f.dir, f.stage) && Uncommitted(local, staged, f.dir.value)
      invariant f.faults == old(f.faults)
      invariant old(f.history) <= f.history && SafeSince(Some(local), staged, f.history, from)
    {
      ghost var done, history := Rels(entries[..i]), f.history;
      assert Follows(done, entries[i], staged);
      ok := MoveEntry(f, entries[i], local, staged, done);
      SafeAgain(local, staged, history, from, f.dir);
      if !ok {
        return;
      }
      RelsGrow(entries, i);
    }
    assert entries[..|entries|] == entries;
    ok := true;
  }

  method MergeStagedWorkspace(f: Folders, ghost local: Tree, ghost staged: Tree) returns (ok: bool)
    requires f.dir == Some(local) && f.stage == staged && WellFormed(staged)
    requires RECORD in staged && staged[RECORD].File?
    modifies f
    ensures old(f.history) <= f.history && SafeSince(Some(local), staged, f.history, |old(f.history)|)
    ensures ok ==> f.dir == Some(local + staged) && Compatible(local, staged)
    ensures !ok ==> f.dir.Some? && Uncommitted(local, staged, f.dir.value)
    ensures f.faults == old(f.faults) && Compatible(local, staged) ==> ok
  {
    ghost var from := |f.history|;
    var entries := ListStagedEntries(f.stage);
    ok := MergeEntries(f, entries, local, staged);
    if !ok {
      return;
    }
    ghost var history := f.history;
    MergingDone(local, staged, f.dir, f.stage);
    ok := f.Rename(RECORD);
    SafeAgain(local, staged, history, from, f.dir);
  }

  /** A new workspace appears in one step; an existing one is merged, and its record is replaced last. */
  method CommitStagedWorkspace(f: Folders) returns (ok: bool)
    requires WellFormed(f.stage) && RECORD in f.stage && f.stage[RECORD].File? && (f.dir.Some? ==> WellFormed(f.dir.value))
    modifies f
    ensures old(f.history) <= f.history && SafeSince(old(f.dir), old(f.stage), f.history, |old(f.history)|)
    ensures ok ==> f.dir == Some(if old(f.dir).Some? then old(f.dir).value + old(f.stage) else old(f.stage))
    ensures !ok ==> (if old(f.dir).Some? then f.dir.Some? && Uncommitted(old(f.dir).value, old(f.stage), f.dir.value) else f.dir.None?)
    ensures ok && old(f.dir).Some? ==> Compatible(old(f.dir).value, old(f.stage))
    ensures f.faults == old(f.faults) && (old(f.dir).Some? ==> Compatible(old(f.dir).value, old(f.stage))) ==> ok
  {
    if f.dir.Some? { assert Uncommitted(f.dir.value, f.stage, f.dir.value); }
    ok := f.Chmod();
    if !ok {
      return;
    }
    ok := f.RenameStage();
    if ok {
      return;
    }
    var exists' := f.Exists();
    if !exists' {
      return;
    }
    ok := MergeStagedWorkspace(f, f.dir.value, f.stage);
  }

  // ----- Ownership -----

  /** Where the workspace goes, and which of the imported labels are acceptable there. */
  datatype Destination = Destination(id: string, context: string, machine: string, provider: string, displayName: Option<string>, sshHostAlias: Option<string>)

  /** An export may refer to a snapshot, from which the source of the workspace is composed. */
  datatype Snapshot = NoSnapshot | Unusable | Composed(source: string)

  function Sourced(r: Record, snapshot: Snapshot): Record
  {
    if snapshot.Composed? then r.(source := snapshot.source) else r
  }

  function Owned(local: Option<Record>, imported: Record, d: Destination): Record
  {
    var r := imported.(id := d.id, context := d.context, machine := d.machine, provider := d.provider);
    if local.Some? && local.value.uid == imported.uid then
      r.(displayName := local.value.displayName, sshHostAlias := local.value.sshHostAlias,
         sshConfigPath := local.value.sshConfigPath, sshIncludePath := local.value.sshIncludePath)
    else
      r.(displayName := if d.displayName.Some? then d.displayName.value else "",
         sshHostAlias := if d.sshHostAlias.Some? then d.sshHostAlias.value else "",
         sshConfigPath := "", sshIncludePath := "")
  }

  predicate Readable(t: Tree) { RECORD in t ==> t[RECORD].File? && t[RECORD].content.Json? }

  function LocalRecord(local: Option<Tree>): Option<Record>
    requires local.Some? ==> Readable(local.value)
  {
    if local.Some? && RECORD in local.value then Some(local.value[RECORD].content.record) else None
  }

  /** The stage with the record as the destination will own it. */
  function Prepared(local: Option<Tree>, stage: Tree, d: Destination, snapshot: Snapshot): Tree
    requires local.Some? ==> Readable(local.value)
    requires RECORD in stage && Readable(stage)
  {
    stage[RECORD := File(Json(Sourced(Owned(LocalRecord(local), stage[RECORD].content.record, d), snapshot)))]
  }

  /** What a successful import makes of the workspace directory. */
  function Imported(local: Option<Tree>, stage: Tree, d: Destination, snapshot: Snapshot): Tree
    requires local.Some? ==> Readable(local.value)
    requires RECORD in stage && Readable(stage)
  {
    (if local.Some? then local.value else map[]) + Prepared(local, stage, d, snapshot)
  }

  /** The local directory is that of the imported workspace. */
  predicate SameWorkspace(local: Option<Tree>, imported: Record)
  {
    && local.Some? && RECORD in local.value && local.value[RECORD].File? && local.value[RECORD].content.Json?
    && local.value[RECORD].content.record.uid == imported.uid
  }

  /**
   The record of an imported workspace: it lies where the destination says, and is what was exported
   otherwise, with the source of a snapshot. The same workspace keeps its own labels and SSH config
   locations; another gets those labels that are acceptable, and no SSH config locations.
   */
  predicate OwnedByDestination(local: Option<Tree>, imported: Record, d: Destination, snapshot: Snapshot, r: Record)
  {
    && r.id == d.id && r.context == d.context && r.machine == d.machine && r.provider == d.provider
    && r.uid == imported.uid && r.settings == imported.settings
    && r.source == (if snapshot.Composed? then snapshot.source else imported.source)
    && if SameWorkspace(local, imported) then
         var own := local.value[RECORD].content.record;
         && r.displayName == own.displayName && r.sshHostAlias == own.sshHostAlias
         && r.sshConfigPath == own.sshConfigPath && r.sshIncludePath == own.sshIncludePath
       else
         && r.displayName == (match d.displayName case None => "" case Some(n) => n)
         && r.sshHostAlias == (match d.sshHostAlias case None => "" case Some(n) => n)
         && r.sshConfigPath == "" && r.sshIncludePath == ""
  }

  /** After an import everything staged is there, the record as owned, and what was not staged is as it was. */
  ghost predicate ImportOk(local: Option<Tree>, stage: Tree, d: Destination, snapshot: Snapshot, now: Tree)
    requires RECORD in stage && Readable(stage)
  {
    && (forall p | p != RECORD :: At(now, p) == if p in stage then Some(stage[p]) else if local.Some? then At(local.value, p) else None)
    && RECORD in now && now[RECORD].File? && now[RECORD].content.Json?
    && OwnedByDestination(local, stage[RECORD].content.record, d, snapshot, now[RECORD].content.record)
  }

  lemma ImportedIsOwned(local: Option<Tree>, stage: Tree, d: Destination, snapshot: Snapshot)
    requires local.Some? ==> Readable(local.value)
    requires RECORD in stage && Readable(stage)
    ensures ImportOk(local, stage, d, snapshot, Imported(local, stage, d, snapshot))
    ensures SameWorkspace(local, stage[RECORD].content.record) <==>
              LocalRecord(local).Some? && LocalRecord(local).value.uid == stage[RECORD].content.record.uid
  {
  }

  /** The workspace then is the destination's, and importing the same data again changes nothing. */
  lemma ImportTwice(local: Option<Tree>, stage: Tree, d: Destination, snapshot: Snapshot)
    requires local.Some? ==> Readable(local.value)
    requires RECORD in stage && Readable(stage)
    ensures var once := Imported(local, stage, d, snapshot);
            && RECORD in once && Readable(once)
            && Imported(Some(once), stage, d, snapshot) == once
            && once[RECORD].content.record.(displayName := "", sshHostAlias := "", sshConfigPath := "", sshIncludePath := "")
               == Sourced(stage[RECORD].content.record, snapshot).(id := d.id, context := d.context, machine := d.machine, provider := d.provider,
                                                displayName := "", sshHostAlias := "", sshConfigPath := "", sshIncludePath := "")
  {
    var once := Imported(local, stage, d, snapshot);
    assert once[RECORD] == Prepared(local, stage, d, snapshot)[RECORD];
    assert LocalRecord(Some(once)).value.uid == stage[RECORD].content.record.uid;
  }

  /**
   Nothing in the workspace directory changes before the imported record has been validated. The staged
   record is then replaced by the one that the destination owns, which is committed last.
   */
  method CommitImportedWorkspace(f: Folders, d: Destination, snapshot: Snapshot, newIdIsFree: bool) returns (ok: bool, ghost staged: Tree)
    requires WellFormed(f.stage) && (f.dir.Some? ==> WellFormed(f.dir.value))
    modifies f
    ensures old(f.history) <= f.history
    ensures !ok ==> (if old(f.dir).Some? then f.dir.Some? && Uncommitted(old(f.dir).value, staged, f.dir.value) else f.dir.None?)
    ensures ok ==> (old(f.dir).Some? ==> Readable(old(f.dir).value)) && RECORD in old(f.stage) && Readable(old(f.stage))
                   && staged == Prepared(old(f.dir), old(f.stage), d, snapshot)
                   && f.dir == Some(Imported(old(f.dir), old(f.stage), d, snapshot))
                   && ImportOk(old(f.dir), old(f.stage), d, snapshot, f.dir.value)
                   && (newIdIsFree || SameWorkspace(old(f.dir), old(f.stage)[RECORD].content.record))
    ensures f.faults == old(f.faults) && (old(f.dir).Some? ==> Readable(old(f.dir).value)) && RECORD in old(f.stage) && Readable(old(f.stage)) ==>
              (ok <==> snapshot != Unusable && (newIdIsFree || SameWorkspace(old(f.dir), old(f.stage)[RECORD].content.record))
                       && (old(f.dir).Some? ==> Compatible(old(f.dir).value, old(f.stage))))
    ensures SafeSince(old(f.dir), staged, f.history, |old(f.history)|) && staged - {RECORD} == old(f.stage) - {RECORD}
  {
    ghost var before, stage := f.dir, f.stage;
    staged := stage;
    if f.dir.Some? && !Readable(f.dir.value) {
      return false, stage;
    }
    var local := LocalRecord(f.dir);
    if RECORD !in f.stage || !Readable(f.stage) {
      return false, stage;
    }
    var imported := f.stage[RECORD].content.record;
    ImportedIsOwned(before, stage, d, snapshot);
    if snapshot.Unusable? {
      return false, stage;
    }
    var record := Sourced(Owned(local, imported, d), snapshot);
    if !newIdIsFree && !(local.Some? && local.value.uid == record.uid) {
      return false, stage;
    }
    ok, staged := CommitRecord(f, record);
    assert map[] + staged == staged;
  }

  /** Writes the record to the stage and commits it. */
  method CommitRecord(f: Folders, record: Record) returns (ok: bool, ghost staged: Tree)
    requires WellFormed(f.stage) && RECORD in f.stage && f.stage[RECORD].File? && (f.dir.Some? ==> WellFormed(f.dir.value))
    modifies f
    ensures old(f.history) <= f.history && SafeSince(old(f.dir), staged, f.history, |old(f.history)|)
    ensures staged == old(f.stage)[RECORD := File(Json(record))]
    ensures ok ==> f.dir == Some(if old(f.dir).Some? then old(f.dir).value + staged else staged)
    ensures !ok ==> (if old(f.dir).Some? then f.dir.Some? && Uncommitted(old(f.dir).value, staged, f.dir.value) else f.dir.None?)
    ensures ok && old(f.dir).Some? ==> Compatible(old(f.dir).value, staged)
    ensures f.faults == old(f.faults) && (old(f.dir).Some? ==> Compatible(old(f.dir).value, staged)) ==> ok
  {
    ghost var before := f.dir;
    staged := f.stage[RECORD := File(Json(record))];
    RewrittenIsWellFormed(f.stage, record);
    ok := f.WriteStaged(record);
    assert before.Some? ==> Uncommitted(before.value, staged, before.value);
    if ok {
      ok := CommitStagedWorkspace(f);
    }
  }

  lemma RewrittenIsWellFormed(stage: Tree, r: Record)
    requires WellFormed(stage) && RECORD in stage && stage[RECORD].File?
    ensures WellFormed(stage[RECORD := File(Json(r))])
  {
    var rewritten := stage[RECORD := File(Json(r))];
    forall p | p in rewritten
      ensures InDir(rewritten, p)
    {
      assert InDir(stage, p);
    }
  }
}
