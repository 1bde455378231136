/** From an accepted archive to the entry list, and what installing or undoing that list means for the installation. */
module RestorePlan {
  import opened Wrappers
  import opened Disk
  import opened FileNames
  import opened RestoreSpec
  import opened BackupFormat

  function AfterUndo(e: RestoreEntry, ok: bool): RestoreEntry {
    if e.installed && ok then e.(installed := false, rollback := None) else e
  }

  function StagedFiles(entries: seq<RestoreEntry>): set<Path> {
    set i | 0 <= i < |entries| :: entries[i].staged
  }

  /** No snapshot shares a file with staged bytes, so cleaning up the one spares the other. */
  ghost predicate SnapshotsApart(entries: seq<RestoreEntry>) {
    forall i :: 0 <= i < |entries| && entries[i].rollback.Some? ==> entries[i].rollback.value !in StagedFiles(entries)
  }

  lemma ScratchIgnoresMarks(a: seq<RestoreEntry>, b: seq<RestoreEntry>, s0: nat)
    requires SamePlan(a, b) && forall i :: 0 <= i < |a| ==> IsScratch(a[i], s0)
    ensures forall i :: 0 <= i < |b| ==> IsScratch(b[i], s0)
  {
    forall i | 0 <= i < |b| ensures IsScratch(b[i], s0) {
      assert a[i].(installed := false) == b[i].(installed := false) && IsScratch(a[i], s0);
    }
  }

  /** The size limit of the snapshot of an existing target. */
  function SnapshotLimit(site: Site, destination: Path): nat {
    if destination == site.auditFile then MAX_AUDIT_BYTES else MAX_CONFIG_FILE_BYTES
  }

  predicate Small(files: Files, p: Path, maximum: nat) {
    p in files ==> |files[p]| <= maximum
  }

  predicate TargetsSmall(site: Site, files: Files, entries: seq<RestoreEntry>) {
    forall i :: 0 <= i < |entries| ==> Small(files, entries[i].destination, SnapshotLimit(site, entries[i].destination))
  }

  /** The files about to be replaced are within the limits of their snapshots. */
  ghost predicate SitesSmall(site: Site, files: Files, c: Contents) {
    && Small(files, site.auditFile, MAX_AUDIT_BYTES)
    && forall n :: n in c.config ==> Small(files, Entry(site.directory, n), MAX_CONFIG_FILE_BYTES)
  }

  /** The archive passes every check of restore_backup. */
  ghost predicate Accepted(f: Formats, site: Site, members: seq<Member>) {
    && ReadAll(members).Some?
    && Acceptable(f, site, ReadAll(members).value)
    && NoOverlap(site, ReadAll(members).value)
  }

  lemma SnapshotsCompose(a: seq<RestoreEntry>, b: seq<RestoreEntry>, c: seq<RestoreEntry>)
    requires SameButSnapshots(a, b) && SameButSnapshots(b, c)
    ensures SameButSnapshots(a, c)
  {
    forall i | 0 <= i < |a| ensures a[i].(rollback := None) == c[i].(rollback := None) {
      assert a[i].(rollback := None) == b[i].(rollback := None);
    }
  }

  predicate IsScratch(e: RestoreEntry, s0: nat) {
    && e.destination.Entry?
    && e.staged.Temporary? && e.staged.serial >= s0
    && (e.rollback.Some? ==> e.rollback.value.Temporary? && e.rollback.value.serial >= s0)
  }

  /** Same entries; only snapshots may have been added. */
  predicate SameButSnapshots(a: seq<RestoreEntry>, b: seq<RestoreEntry>) {
    |a| == |b| && forall i :: 0 <= i < |a| ==> a[i].(rollback := None) == b[i].(rollback := None)
  }

  /** The entry will install `content` at `destination`. */
  predicate Holds(files: Files, e: RestoreEntry, destination: Path, content: Bytes) {
    e.destination == destination && e.staged in files && files[e.staged] == content
  }

  /** The entries in the order of the source: the configuration files but the main one, the database, the main one. */
  ghost predicate PlanOf(site: Site, c: Contents, names: seq<string>, files: Files, entries: seq<RestoreEntry>)
    requires c.audit.Some? && site.mainName in c.config && forall i :: 0 <= i < |names| ==> names[i] in c.config
  {
    var n := |names|;
    && |entries| == n + 2
    && (forall i :: 0 <= i < n ==> Holds(files, entries[i], Entry(site.directory, names[i]), c.config[names[i]]))
    && Holds(files, entries[n], site.auditFile, c.audit.value)
    && Holds(files, entries[n + 1], Entry(site.directory, site.mainName), c.config[site.mainName])
  }

  /** Names of the configuration files but the main one, each once. */
  ghost predicate OtherNames(names: seq<string>, c: Contents, mainName: string) {
    && (forall i :: 0 <= i < |names| ==> names[i] in c.config && names[i] != mainName)
    && (forall n :: n in c.config && n != mainName ==> n in names)
    && (forall i, j :: 0 <= i < j < |names| ==> names[i] != names[j])
  }

  /** The facts about the plan that hold from the moment every snapshot is taken. */
  ghost predicate Ready(site: Site, c: Contents, names: seq<string>, before: Files, s0: nat, start: Files,
                        entries: seq<RestoreEntry>)
  {
    && c.audit.Some? && site.mainName in c.config && site.auditFile.Entry?
    && OtherNames(names, c, site.mainName) && NoOverlap(site, c)
    && PlanOf(site, c, names, start, entries)
    && Prepared(start, entries)
    && OnlyScratch(before, start, s0)
  }

  lemma PlanTargetsDiffer(site: Site, c: Contents, names: seq<string>, files: Files, entries: seq<RestoreEntry>)
    requires c.audit.Some? && site.mainName in c.config && site.auditFile.Entry?
    requires OtherNames(names, c, site.mainName) && NoOverlap(site, c)
    requires PlanOf(site, c, names, files, entries)
    ensures forall i, j :: 0 <= i < j < |entries| ==> entries[i].destination != entries[j].destination
  {
    var n := |names|;
    forall i, j | 0 <= i < j < |entries| ensures entries[i].destination != entries[j].destination {
      assert i < n ==> Holds(files, entries[i], Entry(site.directory, names[i]), c.config[names[i]]);
      assert j < n ==> Holds(files, entries[j], Entry(site.directory, names[j]), c.config[names[j]]);
    }
  }

  lemma PlanSurvivesSnapshots(site: Site, c: Contents, names: seq<string>, files: Files, after: Files,
                              entries: seq<RestoreEntry>, snapped: seq<RestoreEntry>, s1: nat)
    requires c.audit.Some? && site.mainName in c.config && forall i :: 0 <= i < |names| ==> names[i] in c.config
    requires PlanOf(site, c, names, files, entries) && SameButSnapshots(entries, snapped)
    requires OnlyScratch(files, after, s1)
    requires forall i :: 0 <= i < |snapped| ==> snapped[i].staged.Temporary? && snapped[i].staged.serial < s1
    ensures PlanOf(site, c, names, after, snapped)
  {
    var n := |names|;
    forall i | 0 <= i < |snapped|
      ensures snapped[i].destination == entries[i].destination
      ensures Same(files, after, snapped[i].staged) && snapped[i].staged == entries[i].staged
    {
      assert entries[i].(rollback := None) == snapped[i].(rollback := None);
    }
    forall i | 0 <= i < n ensures Holds(after, snapped[i], Entry(site.directory, names[i]), c.config[names[i]]) {
      assert Holds(files, entries[i], Entry(site.directory, names[i]), c.config[names[i]]);
    }
  }

  /** Which entry has a given target, and what it installs there. */
  lemma TargetOfEntry(site: Site, c: Contents, names: seq<string>, before: Files, s0: nat, start: Files,
                      entries: seq<RestoreEntry>, p: Path)
    requires Ready(site, c, names, before, s0, start, entries) && p.Entry?
    ensures
      || (exists i :: 0 <= i < |entries| && entries[i].destination == p && entries[i].staged in start
                      && Target(before, site, c, p) == Some(start[entries[i].staged]))
      || (!IsTarget(entries, p) && Target(before, site, c, p) == if p in before then Some(before[p]) else None)
  {
    var n := |names|;
    if p == site.auditFile {
      assert entries[n].destination == p;
    } else if p.directory == site.directory && p.name in c.config {
      if p.name == site.mainName {
        assert entries[n + 1].destination == p;
      } else {
        var i :| 0 <= i < n && names[i] == p.name;
        assert Holds(start, entries[i], Entry(site.directory, names[i]), c.config[names[i]]);
      }
    } else {
      forall i | 0 <= i < |entries| ensures entries[i].destination != p {
        assert i < n ==> Holds(start, entries[i], Entry(site.directory, names[i]), c.config[names[i]]);
      }
    }
  }

  /** With every entry new and nothing else changed, each path has exactly its target bytes. */
  lemma AllNewIsTarget(site: Site, c: Contents, names: seq<string>, before: Files, s0: nat, start: Files,
                       entries: seq<RestoreEntry>, files: Files, p: Path)
    requires Ready(site, c, names, before, s0, start, entries) && p.Entry?
    requires forall i :: 0 <= i < |entries| ==> entries[i].staged in start && IsNew(start, files, entries[i])
    requires OthersSame(start, files, entries)
    ensures Target(before, site, c, p) == if p in files then Some(files[p]) else None
  {
    TargetOfEntry(site, c, names, before, s0, start, entries, p);
    if i :| 0 <= i < |entries| && entries[i].destination == p && entries[i].staged in start
            && Target(before, site, c, p) == Some(start[entries[i].staged]) {
      assert IsNew(start, files, entries[i]);
    } else {
      assert Same(start, files, p) && Same(before, start, p);
    }
  }

  /**
    After a crash in this state the main configuration is still the old one, or every archived file is in place (but
    for managed secrets that nothing refers to).
  */
  ghost predicate CrashSafe(f: Formats, site: Site, read: Option<Contents>, before: Files, state: Files) {
    || Same(before, state, Entry(site.directory, site.mainName))
    || (read.Some? && Acceptable(f, site, read.value) && RestoredTo(f, site, read.value, before, state))
  }

  lemma CommitPointIsCrashSafe(f: Formats, site: Site, c: Contents, names: seq<string>, before: Files, s0: nat,
                               start: Files, entries: seq<RestoreEntry>, state: Files)
    requires Ready(site, c, names, before, s0, start, entries) && Acceptable(f, site, c)
    requires ReferencedNames(f, site.directory, c.config[site.mainName]).Some?
    requires forall i :: 0 <= i < |entries| ==> entries[i].staged in start
    requires CommitPointHolds(start, state, entries) && OthersSame(start, state, entries)
    ensures CrashSafe(f, site, Some(c), before, state)
  {
    var main := Entry(site.directory, site.mainName);
    assert entries[|entries| - 1].destination == main;
    if Same(start, state, main) {
      assert Same(before, start, main);
    } else {
      forall p: Path | p.Entry?
        ensures if p in state then Target(before, site, c, p) == Some(state[p]) else Target(before, site, c, p) == None
      {
        AllNewIsTarget(site, c, names, before, s0, start, entries, state, p);
      }
    }
  }

  /** Every state of the install loop is crash-safe, and after the last replacement the restore is complete. */
  lemma InstallIsCrashSafe(f: Formats, site: Site, c: Contents, names: seq<string>, before: Files, s0: nat,
                           start: Files, entries: seq<RestoreEntry>, k: nat)
    requires Ready(site, c, names, before, s0, start, entries) && Acceptable(f, site, c) && k <= |entries|
    requires ReferencedNames(f, site.directory, c.config[site.mainName]).Some?
    ensures CrashSafe(f, site, Some(c), before, Install(start, entries, k))
    ensures k == |entries| ==> RestoredTo(f, site, c, before, Install(start, entries, k))
  {
    InstallKeepsCommitPoint(start, entries, k);
    InstalledPrefix(start, entries, k);
    forall i | 0 <= i < |entries| ensures entries[i].staged in start {
      assert Staged(start, entries[i]);
    }
    CommitPointIsCrashSafe(f, site, c, names, before, s0, start, entries, Install(start, entries, k));
    if k == |entries| {
      forall i | 0 <= i < |entries| ensures IsNew(start, Install(start, entries, k), entries[i]) {
        assert InstallState(start, Install(start, entries, k), entries[i], true);
      }
      forall p: Path | p.Entry?
        ensures var state := Install(start, entries, k);
                if p in state then Target(before, site, c, p) == Some(state[p]) else Target(before, site, c, p) == None
      {
        AllNewIsTarget(site, c, names, before, s0, start, entries, Install(start, entries, k), p);
      }
    }
  }

  /** So is every state of a rollback none of whose calls fails. */
  lemma RollbackIsCrashSafe(f: Formats, site: Site, c: Contents, names: seq<string>, before: Files, s0: nat,
                            start: Files, entries: seq<RestoreEntry>, k: nat, ok: seq<bool>, state: Files)
    requires Ready(site, c, names, before, s0, start, entries) && Acceptable(f, site, c)
    requires ReferencedNames(f, site.directory, c.config[site.mainName]).Some?
    requires k <= |entries| && Marked(entries, k) && |ok| == |entries| && forall i :: 0 <= i < k ==> ok[i]
    requires IsUndoState(Install(start, entries, k), entries, ok, state)
    ensures CrashSafe(f, site, Some(c), before, state)
  {
    var m :| 0 <= m <= |ok| && state == Undo(Install(start, entries, k), entries, ok[m..]);
    forall i | 0 <= i < |entries| ensures entries[i].staged in start {
      assert Staged(start, entries[i]);
    }
    RollbackCommitPointIff(start, entries, k, ok[m..]);
    UndoneSuffix(start, entries, k, ok[m..]);
    CommitPointIsCrashSafe(f, site, c, names, before, s0, start, entries, state);
  }

  lemma ReadyIgnoresMarks(site: Site, c: Contents, names: seq<string>, before: Files, s0: nat, start: Files,
                          a: seq<RestoreEntry>, b: seq<RestoreEntry>)
    requires Ready(site, c, names, before, s0, start, a) && SamePlan(a, b)
    ensures Ready(site, c, names, before, s0, start, b)
  {
    PreparedIgnoresMarks(start, a, b);
    forall i | 0 <= i < |b| ensures b[i].destination == a[i].destination && b[i].staged == a[i].staged {
      assert a[i].(installed := false) == b[i].(installed := false);
    }
    forall i | 0 <= i < |names| ensures Holds(start, b[i], Entry(site.directory, names[i]), c.config[names[i]]) {
      assert Holds(start, a[i], Entry(site.directory, names[i]), c.config[names[i]]);
    }
  }

  /** Nothing an application would open has changed. */
  ghost predicate EntriesSame(before: Files, after: Files) {
    forall p: Path :: p.Entry? ==> Same(before, after, p)
  }

  /**
    The path is untouched, or its entry is still marked as installed and the preserved rollback file holds its
    original.
  */
  ghost predicate Recoverable(before: Files, after: Files, entries: seq<RestoreEntry>, p: Path) {
    || Same(before, after, p)
    || exists i :: 0 <= i < |entries| && StillMarked(before, after, entries[i], p)
  }

  predicate StillMarked(before: Files, after: Files, e: RestoreEntry, p: Path) {
    e.destination == p && e.installed && Preserved(before, after, e)
  }

  predicate Preserved(before: Files, after: Files, e: RestoreEntry) {
    e.destination in before ==>
      e.rollback.Some? && e.rollback.value in after && after[e.rollback.value] == before[e.destination]
  }

  /** However a rollback turns out, every file is either as it was or recoverable from a snapshot. */
  lemma RollbackIsRecoverable(before: Files, s0: nat, start: Files, entries: seq<RestoreEntry>, k: nat, ok: seq<bool>,
                              after: seq<RestoreEntry>, p: Path)
    requires Prepared(start, entries) && Marked(entries, k) && k <= |entries| && |ok| == |entries| == |after|
    requires OnlyScratch(before, start, s0) && p.Entry?
    requires forall i :: 0 <= i < |after| ==> after[i] == AfterUndo(entries[i], ok[i])
    ensures Recoverable(before, Undo(Install(start, entries, k), entries, ok), after, p)
  {
    UndoneSuffix(start, entries, k, ok);
    var files := Undo(Install(start, entries, k), entries, ok);
    assert Same(before, start, p);
    if IsTarget(entries, p) {
      var i :| 0 <= i < |entries| && entries[i].destination == p;
      assert EntryState(start, files, entries[i], StillNew(i, k, |entries|, ok));
      assert SnapshotTaken(start, entries[i]) && Staged(start, entries[i]);
      if StillNew(i, k, |entries|, ok) {
        assert after[i] == entries[i] && StillMarked(before, files, after[i], p);
      }
    }
  }

  lemma ScratchKeepsRestored(f: Formats, site: Site, c: Contents, before: Files, files: Files, after: Files)
    requires Acceptable(f, site, c) && RestoredTo(f, site, c, before, files) && EntriesSame(files, after)
    ensures RestoredTo(f, site, c, before, after)
  {
    var referenced := ReferencedNames(f, site.directory, c.config[site.mainName]).value;
    forall p: Path | p.Entry?
      ensures (if p in after then Target(before, site, c, p) == Some(after[p]) else Target(before, site, c, p) == None)
              || (p !in after && Prunable(site.directory, referenced, p))
    {
      assert Same(files, after, p);
    }
  }

  lemma PruneKeepsRestored(f: Formats, site: Site, c: Contents, before: Files, files: Files, after: Files)
    requires Acceptable(f, site, c) && RestoredTo(f, site, c, before, files)
    requires PrunedTo(files, after, site.directory, ReferencedNames(f, site.directory, c.config[site.mainName]).value)
    ensures RestoredTo(f, site, c, before, after)
  {
    var referenced := ReferencedNames(f, site.directory, c.config[site.mainName]).value;
    forall p: Path | p.Entry?
      ensures (if p in after then Target(before, site, c, p) == Some(after[p]) else Target(before, site, c, p) == None)
              || (p !in after && Prunable(site.directory, referenced, p))
    {
      assert Same(files, after, p) || (p !in after && Prunable(site.directory, referenced, p));
    }
  }

  lemma CompleteRollback(before: Files, s0: nat, start: Files, entries: seq<RestoreEntry>, k: nat, ok: seq<bool>)
    requires Prepared(start, entries) && Marked(entries, k) && k <= |entries| && |ok| == |entries|
    requires OnlyScratch(before, start, s0) && forall i :: 0 <= i < k ==> ok[i]
    ensures EntriesSame(before, Undo(Install(start, entries, k), entries, ok))
  {
    RollbackUndoesInstall(start, entries, k, ok);
    var files := Undo(Install(start, entries, k), entries, ok);
    forall p: Path | p.Entry? ensures Same(before, files, p) {
      assert Same(before, start, p) && Same(start, files, p);
    }
  }

  lemma UndoneIsScratch(entries: seq<RestoreEntry>, ok: seq<bool>, after: seq<RestoreEntry>, s0: nat)
    requires |ok| == |entries| == |after| && forall i :: 0 <= i < |after| ==> after[i] == AfterUndo(entries[i], ok[i])
    requires forall i :: 0 <= i < |entries| ==> IsScratch(entries[i], s0)
    ensures forall i :: 0 <= i < |after| ==> IsScratch(after[i], s0)
  {
    forall i | 0 <= i < |after| ensures IsScratch(after[i], s0) {
      assert IsScratch(entries[i], s0);
    }
  }

  lemma UndoneSnapshotsApart(start: Files, entries: seq<RestoreEntry>, ok: seq<bool>, after: seq<RestoreEntry>)
    requires Prepared(start, entries) && |ok| == |entries| == |after|
    requires forall i :: 0 <= i < |after| ==> after[i] == AfterUndo(entries[i], ok[i])
    ensures SnapshotsApart(after)
  {
    forall i, j | 0 <= i < |after| && 0 <= j < |after| ensures after[j].rollback != Some(after[i].staged) {
      assert entries[j].rollback != Some(entries[i].staged);
    }
  }

  lemma StagedUntilInstalled(start: Files, entries: seq<RestoreEntry>, k: nat)
    requires Prepared(start, entries) && k < |entries|
    ensures entries[k].staged in Install(start, entries, k)
  {
    InstalledPrefix(start, entries, k);
    assert Staged(start, entries[k]) && InstallState(start, Install(start, entries, k), entries[k], false);
  }

  ghost predicate NothingPrunable(files: Files, directory: string, referenced: set<string>) {
    forall p :: p in files ==> !Prunable(directory, referenced, p)
  }

  /**
    After a fault-free prune the main configuration is missing exactly when its own name is an unreferenced managed
    name.
  */
  lemma MainConfigurationPrunedIff(f: Formats, site: Site, c: Contents, before: Files, after: Files)
    requires Acceptable(f, site, c) && RestoredTo(f, site, c, before, after) && NoOverlap(site, c)
    requires NothingPrunable(after, site.directory, ReferencedNames(f, site.directory, c.config[site.mainName]).value)
    ensures var main := Entry(site.directory, site.mainName);
            var referenced := ReferencedNames(f, site.directory, c.config[site.mainName]).value;
            main !in after <==> ManagedSecretName(site.mainName) && site.mainName !in referenced
  {
    var main := Entry(site.directory, site.mainName);
    assert main != site.auditFile;
    assert Target(before, site, c, main) == Some(c.config[site.mainName]);
  }

  /**
    That happens: here the main configuration of an accepted archive is called like a managed secret but refers to
    another one.
  */
  lemma MainConfigurationCanBePruned()
    returns (f: Formats, site: Site, members: seq<Member>, before: Files, after: Files)
    ensures Accepted(f, site, members)
    ensures var c := ReadAll(members).value;
            && RestoredTo(f, site, c, before, after)
            && NothingPrunable(after, site.directory, ReferencedNames(f, site.directory, c.config[site.mainName]).value)
    ensures Entry(site.directory, site.mainName) in before && Entry(site.directory, site.mainName) !in after
  {
    var name, secret := "bambu-web-password", "bambu-web-password-v1-0123456789abcdef";
    SecretNamesDiffer(name, secret);
    f, site, members, before, after := PrunedExample(name, secret);
  }

  lemma PrunedExample(name: string, secret: string)
    returns (f: Formats, site: Site, members: seq<Member>, before: Files, after: Files)
    requires name != secret && ManagedSecretName(name) && SafeFileName(name) && SafeFileName(secret)
    ensures Accepted(f, site, members)
    ensures var c := ReadAll(members).value;
            && RestoredTo(f, site, c, before, after)
            && NothingPrunable(after, site.directory, ReferencedNames(f, site.directory, c.config[site.mainName]).value)
    ensures Entry(site.directory, site.mainName) in before && Entry(site.directory, site.mainName) !in after
  {
    var kept, audit := Entry("/config", secret), Entry("/data", "audit.sqlite3");
    f, site, members := SmallSite(name, secret);
    after := map[kept := [2], audit := [3]];
    before := after[Entry("/config", name) := [1]];
    LosesMain(f, site, ReadAll(members).value, name, secret, before, after);
  }

  /** An accepted archive of a main configuration, the secret it refers to, and a database. */
  lemma SmallSite(name: string, secret: string) returns (f: Formats, site: Site, members: seq<Member>)
    requires name != secret && SafeFileName(name) && SafeFileName(secret)
    ensures site == Site("/config", name, Entry("/data", "audit.sqlite3")) && Accepted(f, site, members)
    ensures ReadAll(members).value.config == map[name := [1], secret := [2]]
    ensures ReadAll(members).value.audit == Some([3])
    ensures ReferencedNames(f, site.directory, [1]) == Some({secret})
  {
    var kept, audit := Entry("/config", secret), Entry("/data", "audit.sqlite3");
    f := Formats(_ => Some(Manifest(1, name, {name, secret})), _ => [],
                 _ => Some(ConfigRefs(Some(audit), [Some(kept)])),
                 _ => true, b => b, (_, _) => true);
    site := Site("/config", name, audit);
    var config: map<string, Bytes> := map[name := [1], secret := [2]];
    members := ArchiveOf(f, site, [name, secret], config, [3]);
    SmallArchiveReads(f, site, name, secret, config);
    OneReference(f, site, secret, config[name]);
    assert config.Keys == {name, secret};
  }

  lemma OneReference(f: Formats, site: Site, secret: string, content: Bytes)
    requires SafeFileName(secret)
    requires f.readDocument(content) == Some(ConfigRefs(Some(site.auditFile), [Some(Entry(site.directory, secret))]))
    ensures ReferencedNames(f, site.directory, content) == Some({secret})
  {
    var secrets := f.readDocument(content).value.secrets;
    assert ReferencedName(site.directory, secrets[0]) == Some(secret);
    assert (set i | 0 <= i < |secrets| :: secrets[i].value.name) == {secret};
  }

  lemma LosesMain(f: Formats, site: Site, c: Contents, name: string, secret: string, before: Files, after: Files)
    requires Acceptable(f, site, c) && name != secret && site.mainName == name && ManagedSecretName(name)
    requires site.auditFile.Entry? && site.auditFile.directory != site.directory
    requires c.config == map[name := [1], secret := [2]] && c.audit == Some([3])
    requires ReferencedNames(f, site.directory, [1]) == Some({secret})
    requires after == map[Entry(site.directory, secret) := [2], site.auditFile := [3]]
    requires before == after[Entry(site.directory, name) := [1]]
    ensures RestoredTo(f, site, c, before, after) && NothingPrunable(after, site.directory, {secret})
  {
  }

  lemma SecretNamesDiffer(name: string, secret: string)
    requires name == "bambu-web-password" && secret == name + "-v1-0123456789abcdef"
    ensures name != secret && ManagedSecretName(name) && ManagedSecretName(secret)
    ensures SafeFileName(name) && SafeFileName(secret)
  {
    assert ManagedStem(secret[..|secret| - 20]) && VersionSuffix(secret[|secret| - 20..]);
    ManagedIsSafe(name);
    ManagedIsSafe(secret);
  }

  lemma SmallArchiveReads(f: Formats, site: Site, name: string, secret: string, config: map<string, Bytes>)
    requires name != secret && SafeFileName(name) && SafeFileName(secret) && site.mainName == name
    requires config == map[name := [1], secret := [2]] && f.writeManifest(Manifest(1, name, config.Keys)) == []
    ensures var read := ReadAll(ArchiveOf(f, site, [name, secret], config, [3]));
            read.Some? && read.value.config == config && read.value.audit == Some([3]) &&
            read.value.manifest == Some([])
  {
    var source := map[Entry(site.directory, name) := [1], Entry(site.directory, secret) := [2]];
    var names := [name, secret];
    assert Enumerates(names, config);
    assert IsConfigSet(source, site, {secret}, config);
    assert TotalSize(names, config) == 2 by {
      assert [name][..0] == [] && TotalSize([name], config) == 1;
      assert names[..1] == [name];
    }
    ArchiveReadable(f, site, source, {secret}, names, config, [3]);
    ReadsArchive(f, site, names, config, [3]);
  }

  /** No prune ever removes what the restored configuration refers to: each such secret has its archived bytes. */
  lemma PruneSparesSecrets(f: Formats, site: Site, members: seq<Member>, before: Files, files: Files, after: Files,
                           name: string)
    requires Accepted(f, site, members) && RestoredTo(f, site, ReadAll(members).value, before, files)
    requires PrunedTo(files, after, site.directory,
                      ReferencedNames(f, site.directory, ReadAll(members).value.config[site.mainName]).value)
    requires name in ReferencedNames(f, site.directory, ReadAll(members).value.config[site.mainName]).value
    ensures var c := ReadAll(members).value;
            && name in c.config
            && Entry(site.directory, name) in after && after[Entry(site.directory, name)] == c.config[name]
  {
    var c := ReadAll(members).value;
    ReadNamesAreSafe(members);
    AcceptedSecretsArchived(f, site, c);
    PruneKeepsRestored(f, site, c, before, files, after);
    assert Entry(site.directory, name) != site.auditFile;
    assert Target(before, site, c, Entry(site.directory, name)) == Some(c.config[name]);
  }

  /**
    A rollback with failing calls need not be: here an archive of one secret and the main configuration was accepted and
    installed, the main configuration's own undo is the call that fails, and it is left beside the old secret.
  */
  lemma CommitPointCanBeLost()
    returns (f: Formats, site: Site, members: seq<Member>, before: Files, start: Files, entries: seq<RestoreEntry>)
    ensures Accepted(f, site, members) && |entries| == 3 && Marked(entries, 3)
    ensures Ready(site, ReadAll(members).value, ["bambu-web-password"], before, 0, start, entries)
    ensures !CrashSafe(f, site, ReadAll(members), before,
                       Undo(Install(start, entries, 3), entries, [true, true, false]))
  {
    var name, secret := "printers.yml", "bambu-web-password";
    assert name[0] == 'p' && SafeFileName(name) && ManagedSecretName(secret);
    ManagedIsSafe(secret);
    f, site, members := SmallSite(name, secret);
    var c := ReadAll(members).value;
    var targets := [Entry("/config", secret), site.auditFile, Entry("/config", name)];
    before := map[targets[0] := [7], targets[1] := [8], targets[2] := [9]];
    start, entries := StuckRestore(before, targets, [[2], [3], [1]]);
    PrintersReady(site, c, name, secret, before, start, entries, targets);
    StuckIsNotCrashSafe(f, site, c, before, start, entries);
  }

  function Stuck(targets: seq<Path>): seq<RestoreEntry>
    requires |targets| == 3
  {
    seq(3, i requires 0 <= i < 3 => RestoreEntry(targets[i], Temporary("/", i), Some(Temporary("/", i + 3)), true))
  }

  lemma StuckDistinct(targets: seq<Path>)
    requires |targets| == 3 && forall i, j :: 0 <= i < j < 3 ==> targets[i] != targets[j]
    ensures DistinctFiles(Stuck(targets))
  {
  }

  /** Three files staged and snapshot, each with an original. */
  lemma StuckRestore(before: Files, targets: seq<Path>, archived: seq<Bytes>)
    returns (start: Files, entries: seq<RestoreEntry>)
    requires |targets| == |archived| && |targets| == 3
    requires forall i :: 0 <= i < 3 ==> targets[i].Entry? && targets[i] in before
    requires (forall p :: p in before ==> p.Entry?) && forall i, j :: 0 <= i < j < 3 ==> targets[i] != targets[j]
    ensures |entries| == 3 && Marked(entries, 3) && Prepared(start, entries) && OnlyScratch(before, start, 0)
    ensures forall i :: 0 <= i < 3 ==> Holds(start, entries[i], targets[i], archived[i])
  {
    var scratch := map i: nat | i < 6 :: Temporary("/", i);
    start := map p | p in before.Keys + scratch.Values ::
      if p.Entry? then before[p] else if p.serial < 3 then archived[p.serial] else before[targets[p.serial - 3]];
    entries := Stuck(targets);
    forall i | 0 <= i < 3
      ensures Staged(start, entries[i]) && SnapshotTaken(start, entries[i])
      ensures Holds(start, entries[i], targets[i], archived[i])
    {
      assert entries[i].staged == scratch[i] && entries[i].rollback == Some(scratch[i + 3]);
    }
    StuckDistinct(targets);
  }

  lemma PrintersReady(site: Site, c: Contents, name: string, secret: string, before: Files, start: Files,
                      entries: seq<RestoreEntry>, targets: seq<Path>)
    requires site == Site("/config", name, Entry("/data", "audit.sqlite3")) && name != secret
    requires c.config == map[name := [1], secret := [2]] && c.audit == Some([3])
    requires targets == [Entry("/config", secret), site.auditFile, Entry("/config", name)]
    requires |entries| == 3 && Prepared(start, entries) && OnlyScratch(before, start, 0)
    requires forall i :: 0 <= i < 3 ==> Holds(start, entries[i], targets[i], [[2], [3], [1]][i])
    ensures Ready(site, c, [secret], before, 0, start, entries)
  {
    assert Holds(start, entries[0], targets[0], [2]);
    assert Holds(start, entries[1], targets[1], [3]);
    assert Holds(start, entries[2], targets[2], [1]);
  }

  /** The main configuration is new, a file it belongs with is old. */
  lemma StuckIsNotCrashSafe(f: Formats, site: Site, c: Contents, before: Files, start: Files,
                            entries: seq<RestoreEntry>)
    requires |entries| == 3 && Marked(entries, 3) && Prepared(start, entries) && OnlyScratch(before, start, 0)
    requires entries[2].destination == Entry(site.directory, site.mainName) && entries[2].staged in start
    requires c.audit.Some? && entries[2].destination in before
    requires before[entries[2].destination] != start[entries[2].staged]
    requires var p := entries[0].destination;
             p.Entry? && p in before && Target(before, site, c, p) != Some(before[p])
    ensures !CrashSafe(f, site, Some(c), before, Undo(Install(start, entries, 3), entries, [true, true, false]))
  {
    var state := Undo(Install(start, entries, 3), entries, [true, true, false]);
    var p, main := entries[0].destination, entries[2].destination;
    UndoneAt(start, entries, 3, [true, true, false], 0);
    UndoneAt(start, entries, 3, [true, true, false], 2);
    assert Same(before, start, p) && Same(before, start, main);
  }

  ghost predicate AllRecoverable(before: Files, after: Files, entries: seq<RestoreEntry>) {
    forall p: Path :: p.Entry? ==> Recoverable(before, after, entries, p)
  }

  /** The bytes a path had are still there, or in some temporary file. */
  ghost predicate Held(before: Files, state: Files, p: Path) {
    p in before ==>
      || (p in state && state[p] == before[p])
      || exists t: Path :: t.Temporary? && t in state && state[t] == before[p]
  }

  /** No file an application would open has lost its original bytes. */
  ghost predicate NothingLost(before: Files, state: Files) {
    forall p: Path :: p.Entry? ==> Held(before, state, p)
  }

  /** Each file is as it was or as archived. */
  ghost predicate Between(site: Site, read: Option<Contents>, before: Files, state: Files) {
    forall p: Path :: p.Entry? ==> OldOrNew(site, read, before, state, p)
  }

  predicate OldOrNew(site: Site, read: Option<Contents>, before: Files, state: Files, p: Path) {
    || Same(before, state, p)
    || (p in state && read.Some? && read.value.audit.Some? && Target(before, site, read.value, p) == Some(state[p]))
  }

  /**
    What is guaranteed of every state a restore passes through.  Either each file is the old or the archived one, and
    each original still somewhere, or the restore is complete; and unless a rollback stays incomplete (`strict`), the
    main configuration is the old one until the restore is complete.
  */
  ghost predicate GoodState(f: Formats, site: Site, read: Option<Contents>, before: Files, state: Files, strict: bool) {
    && (|| (NothingLost(before, state) && Between(site, read, before, state))
        || (read.Some? && Acceptable(f, site, read.value) && RestoredTo(f, site, read.value, before, state)))
    && (strict ==> CrashSafe(f, site, read, before, state))
  }

  /** Every state recorded from `from` on is good. */
  ghost predicate GoodTrace(f: Formats, site: Site, read: Option<Contents>, before: Files, trace: seq<Files>,
                            from: nat, strict: bool)
  {
    forall t :: from <= t < |trace| ==> GoodState(f, site, read, before, trace[t], strict)
  }

  lemma UnchangedIsGood(f: Formats, site: Site, read: Option<Contents>, before: Files, state: Files, strict: bool)
    requires EntriesSame(before, state)
    ensures GoodState(f, site, read, before, state, strict)
  {
    forall p: Path | p.Entry? ensures Held(before, state, p) && OldOrNew(site, read, before, state, p) {
      assert Same(before, state, p);
    }
    assert Same(before, state, Entry(site.directory, site.mainName));
  }

  lemma BetweenStays(site: Site, read: Option<Contents>, before: Files, state: Files, after: Files)
    requires Between(site, read, before, state) && EntriesSame(state, after)
    ensures Between(site, read, before, after)
  {
    forall p: Path | p.Entry? ensures OldOrNew(site, read, before, after, p) {
      assert OldOrNew(site, read, before, state, p) && Same(state, after, p);
    }
  }

  /**
    In any such state the restore is complete, or the old configuration is there with every file it had, secrets too.
  */
  lemma OldConfigurationIsWhole(f: Formats, site: Site, read: Option<Contents>, before: Files, state: Files)
    requires GoodState(f, site, read, before, state, true)
    requires Entry(site.directory, site.mainName) in before
    ensures
      || (read.Some? && Acceptable(f, site, read.value) && RestoredTo(f, site, read.value, before, state))
      || (var main := Entry(site.directory, site.mainName);
          && main in state && state[main] == before[main]
          && forall p: Path :: p.Entry? && p in before ==> p in state)
  {
    forall p: Path | p.Entry? && p in before && Between(site, read, before, state) ensures p in state {
      assert OldOrNew(site, read, before, state, p);
    }
  }

  lemma RestoredIsGood(f: Formats, site: Site, c: Contents, before: Files, state: Files, strict: bool)
    requires Acceptable(f, site, c) && RestoredTo(f, site, c, before, state)
    ensures GoodState(f, site, Some(c), before, state, strict)
  {
  }

  lemma RecoverableIsHeld(before: Files, state: Files, entries: seq<RestoreEntry>, s0: nat)
    requires AllRecoverable(before, state, entries)
    requires forall i :: 0 <= i < |entries| ==> IsScratch(entries[i], s0)
    ensures NothingLost(before, state)
  {
    forall p: Path | p.Entry? ensures Held(before, state, p) {
      assert Recoverable(before, state, entries, p);
      if !Same(before, state, p) && p in before {
        var i :| 0 <= i < |entries| && StillMarked(before, state, entries[i], p);
        assert IsScratch(entries[i], s0);
      }
    }
  }

  lemma ScratchIsGood(f: Formats, site: Site, read: Option<Contents>, before: Files, trace: seq<Files>,
                      startTrace: seq<Files>, s0: nat, strict: bool)
    requires Extends(startTrace, trace, before, s0)
    ensures GoodTrace(f, site, read, before, trace, |startTrace|, strict)
  {
    forall t | |startTrace| <= t < |trace| ensures GoodState(f, site, read, before, trace[t], strict) {
      assert OnlyScratch(before, trace[t], s0);
      UnchangedIsGood(f, site, read, before, trace[t], strict);
    }
  }

  /** Every state of the install loop is good. */
  lemma InstallIsGood(f: Formats, site: Site, c: Contents, names: seq<string>, before: Files, s0: nat,
                      start: Files, entries: seq<RestoreEntry>, k: nat, strict: bool)
    requires Ready(site, c, names, before, s0, start, entries) && Acceptable(f, site, c) && k <= |entries|
    requires ReferencedNames(f, site.directory, c.config[site.mainName]).Some?
    requires forall i :: 0 <= i < |entries| ==> IsScratch(entries[i], s0)
    ensures GoodState(f, site, Some(c), before, Install(start, entries, k), strict)
  {
    InstallIsCrashSafe(f, site, c, names, before, s0, start, entries, k);
    var marked := seq(|entries|, i requires 0 <= i < |entries| => entries[i].(installed := i < k));
    InstallIgnoresMarks(start, entries, marked, k);
    PreparedIgnoresMarks(start, entries, marked);
    forall i | 0 <= i < |marked| ensures IsScratch(marked[i], s0) { assert IsScratch(entries[i], s0); }
    RollbackLosesNothing(before, s0, start, marked, k, []);
    ReadyIgnoresMarks(site, c, names, before, s0, start, entries, marked);
    RollbackIsBetween(site, c, names, before, s0, start, marked, k, []);
  }

  /** And every state of a rollback, whichever of its calls fail. */
  lemma RollbackLosesNothing(before: Files, s0: nat, start: Files, entries: seq<RestoreEntry>, k: nat, ok: seq<bool>)
    requires Prepared(start, entries) && Marked(entries, k) && k <= |entries| && |ok| <= |entries|
    requires OnlyScratch(before, start, s0) && forall i :: 0 <= i < |entries| ==> IsScratch(entries[i], s0)
    ensures NothingLost(before, Undo(Install(start, entries, k), entries, ok))
  {
    var files := Undo(Install(start, entries, k), entries, ok);
    NoOriginalLost(start, entries, k, ok);
    UndoneSuffix(start, entries, k, ok);
    forall p: Path | p.Entry? ensures Held(before, files, p) {
      assert Same(before, start, p);
      if IsTarget(entries, p) {
        var i :| 0 <= i < |entries| && entries[i].destination == p;
        assert OriginalKept(start, files, entries[i]) && IsScratch(entries[i], s0);
      } else {
        assert Same(start, files, p);
      }
    }
  }

  lemma RollbackIsBetween(site: Site, c: Contents, names: seq<string>, before: Files, s0: nat, start: Files,
                          entries: seq<RestoreEntry>, k: nat, ok: seq<bool>)
    requires Ready(site, c, names, before, s0, start, entries) && Marked(entries, k)
    requires k <= |entries| && |ok| <= |entries|
    ensures Between(site, Some(c), before, Undo(Install(start, entries, k), entries, ok))
  {
    var files := Undo(Install(start, entries, k), entries, ok);
    UndoneSuffix(start, entries, k, ok);
    forall p: Path | p.Entry? ensures OldOrNew(site, Some(c), before, files, p) {
      assert Same(before, start, p);
      TargetOfEntry(site, c, names, before, s0, start, entries, p);
      if i :| 0 <= i < |entries| && entries[i].destination == p && entries[i].staged in start
              && Target(before, site, c, p) == Some(start[entries[i].staged]) {
        assert EntryState(start, files, entries[i], StillNew(i, k, |entries|, ok));
      } else {
        assert Same(start, files, p);
      }
    }
  }

  /** What is left of a rollback some of whose calls have failed. */
  lemma IncompleteRollback(site: Site, c: Contents, names: seq<string>, before: Files, s0: nat, start: Files,
                           entries: seq<RestoreEntry>, k: nat, ok: seq<bool>, after: seq<RestoreEntry>)
    requires Ready(site, c, names, before, s0, start, entries) && Marked(entries, k) && k <= |entries|
    requires |ok| == |entries| == |after| && forall i :: 0 <= i < |after| ==> after[i] == AfterUndo(entries[i], ok[i])
    ensures var files := Undo(Install(start, entries, k), entries, ok);
            AllRecoverable(before, files, after) && Between(site, Some(c), before, files) && SnapshotsApart(after)
  {
    var files := Undo(Install(start, entries, k), entries, ok);
    forall p: Path | p.Entry? ensures Recoverable(before, files, after, p) {
      RollbackIsRecoverable(before, s0, start, entries, k, ok, after, p);
    }
    UndoneSnapshotsApart(start, entries, ok, after);
    RollbackIsBetween(site, c, names, before, s0, start, entries, k, ok);
  }

  lemma RollbackIsGood(f: Formats, site: Site, c: Contents, names: seq<string>, before: Files, s0: nat,
                       start: Files, entries: seq<RestoreEntry>, k: nat, ok: seq<bool>, state: Files, strict: bool)
    requires Ready(site, c, names, before, s0, start, entries) && Acceptable(f, site, c)
    requires ReferencedNames(f, site.directory, c.config[site.mainName]).Some?
    requires forall i :: 0 <= i < |entries| ==> IsScratch(entries[i], s0)
    requires k <= |entries| && Marked(entries, k) && |ok| == |entries|
    requires IsUndoState(Install(start, entries, k), entries, ok, state)
    requires strict ==> forall i :: 0 <= i < k ==> ok[i]
    ensures GoodState(f, site, Some(c), before, state, strict)
  {
    var m :| 0 <= m <= |ok| && state == Undo(Install(start, entries, k), entries, ok[m..]);
    RollbackLosesNothing(before, s0, start, entries, k, ok[m..]);
    RollbackIsBetween(site, c, names, before, s0, start, entries, k, ok[m..]);
    if strict { RollbackIsCrashSafe(f, site, c, names, before, s0, start, entries, k, ok, state); }
  }

  lemma GoodTraceExtends(f: Formats, site: Site, read: Option<Contents>, before: Files, a: seq<Files>, b: seq<Files>,
                         from: nat, strict: bool)
    requires from <= |a| && a <= b
    requires GoodTrace(f, site, read, before, a, from, strict) && GoodTrace(f, site, read, before, b, |a|, strict)
    ensures GoodTrace(f, site, read, before, b, from, strict)
  {
    forall t | from <= t < |b| ensures GoodState(f, site, read, before, b[t], strict) {
      if t < |a| { assert a[t] == b[t]; }
    }
  }

  /** A strictly good past is a good one for either kind of future. */
  lemma GoodTraceGoesOn(f: Formats, site: Site, read: Option<Contents>, before: Files, a: seq<Files>, b: seq<Files>,
                        from: nat, strict: bool)
    requires from <= |a| && a <= b
    requires GoodTrace(f, site, read, before, a, from, true) && GoodTrace(f, site, read, before, b, |a|, strict)
    ensures GoodTrace(f, site, read, before, b, from, strict)
  {
    forall t | from <= t < |a| ensures GoodState(f, site, read, before, a[t], strict) {
      assert GoodState(f, site, read, before, a[t], true);
    }
    GoodTraceExtends(f, site, read, before, a, b, from, strict);
  }

  // ------------------------------------------------------- temporary files

  predicate Uses(e: RestoreEntry, p: Path) {
    e.staged == p || e.rollback == Some(p)
  }

  ghost predicate Owned(entries: seq<RestoreEntry>, audit: Option<Path>, p: Path) {
    audit == Some(p) || exists i :: 0 <= i < |entries| && Uses(entries[i], p)
  }

  /** Every temporary file that has appeared since `start` is one the restore still knows of. */
  ghost predicate AllOwned(files: Files, start: Files, entries: seq<RestoreEntry>, audit: Option<Path>) {
    forall p: Path :: p in files && p.Temporary? && p !in start ==> Owned(entries, audit, p)
  }

  ghost predicate NoNewTemporaries(start: Files, files: Files) {
    forall p: Path :: p in files && p.Temporary? ==> p in start
  }

  lemma OwnedAudit(files: Files, after: Files, start: Files, entries: seq<RestoreEntry>, audit: Path)
    requires AllOwned(files, start, entries, None)
    requires forall p: Path :: p in after && p.Temporary? ==> p in files || p == audit
    ensures AllOwned(after, start, entries, Some(audit))
  {
    forall p: Path | p in after && p.Temporary? && p !in start ensures Owned(entries, Some(audit), p) {
      assert p in files ==> Owned(entries, None, p);
    }
  }

  lemma OwnedAppended(files: Files, after: Files, start: Files, entries: seq<RestoreEntry>, e: RestoreEntry,
                      audit: Option<Path>, auditAfter: Option<Path>)
    requires AllOwned(files, start, entries, audit)
    requires forall p: Path :: p in after && p.Temporary? ==> p in files || p == e.staged
    requires auditAfter == audit || audit == Some(e.staged)
    ensures AllOwned(after, start, entries + [e], auditAfter)
  {
    var more := entries + [e];
    forall p: Path | p in after && p.Temporary? && p !in start ensures Owned(more, auditAfter, p) {
      if p == e.staged {
        assert Uses(more[|entries|], p);
      } else if i :| 0 <= i < |entries| && Uses(entries[i], p) {
        assert Uses(more[i], p);
      }
    }
  }

  lemma OwnedSnapshot(files: Files, after: Files, start: Files, entries: seq<RestoreEntry>, k: nat, taken: Option<Path>,
                      audit: Option<Path>)
    requires AllOwned(files, start, entries, audit) && k < |entries| && entries[k].rollback.None?
    requires forall p: Path :: p in after ==> p in files || taken == Some(p)
    ensures AllOwned(after, start, entries[k := entries[k].(rollback := taken)], audit)
  {
    var more := entries[k := entries[k].(rollback := taken)];
    forall p: Path | p in after && p.Temporary? && p !in start ensures Owned(more, audit, p) {
      if taken == Some(p) {
        assert Uses(more[k], p);
      } else if i :| 0 <= i < |entries| && Uses(entries[i], p) {
        assert Uses(more[i], p);
      }
    }
  }

  /** A rollback file may be forgotten once it is gone. */
  lemma OwnedDropped(files: Files, after: Files, start: Files, entries: seq<RestoreEntry>, k: nat, audit: Option<Path>)
    requires AllOwned(files, start, entries, audit) && k < |entries|
    requires forall p: Path :: p in after ==> p in files && entries[k].rollback != Some(p)
    ensures AllOwned(after, start, entries[k := entries[k].(rollback := None)], audit)
  {
    var fewer := entries[k := entries[k].(rollback := None)];
    forall p: Path | p in after && p.Temporary? && p !in start ensures Owned(fewer, audit, p) {
      if i :| 0 <= i < |entries| && Uses(entries[i], p) {
        assert Uses(fewer[i], p);
      }
    }
  }

  /** Replacements into place leave no new temporary file behind. */
  lemma {:induction false} InstallCreatesNone(files: Files, entries: seq<RestoreEntry>, k: nat)
    requires k <= |entries| && forall i :: 0 <= i < |entries| ==> entries[i].destination.Entry?
    ensures forall p: Path :: p in Install(files, entries, k) && p.Temporary? ==> p in files
  {
    if k == 0 {
    } else {
      InstallCreatesNone(files, entries, k - 1);
    }
  }

  lemma OwnedInstalled(files: Files, start: Files, plan: seq<RestoreEntry>, k: nat, now: seq<RestoreEntry>)
    requires AllOwned(files, start, plan, None) && k <= |plan| && SamePlan(plan, now)
    requires forall i :: 0 <= i < |plan| ==> plan[i].destination.Entry?
    ensures AllOwned(Install(files, plan, k), start, now, None)
  {
    InstallCreatesNone(files, plan, k);
    var after := Install(files, plan, k);
    forall p: Path | p in after && p.Temporary? && p !in start ensures Owned(now, None, p) {
      var i :| 0 <= i < |plan| && Uses(plan[i], p);
      assert plan[i].(installed := false) == now[i].(installed := false);
      assert Uses(now[i], p);
    }
  }

  /** Nor do undos, and each uses up its rollback file. */
  lemma {:induction false} UndoConsumes(files: Files, plan: seq<RestoreEntry>, ok: seq<bool>)
    requires |ok| <= |plan| && forall i :: 0 <= i < |plan| ==> plan[i].destination.Entry?
    ensures forall p: Path :: p in Undo(files, plan, ok) && p.Temporary? ==> p in files
    ensures forall j :: 0 <= j < |ok| ==> UsedUp(Undo(files, plan, ok), plan[|plan| - |ok| + j], ok[j])
  {
    if ok == [] {
    } else {
      UndoConsumes(files, plan, ok[1..]);
      var later := Undo(files, plan, ok[1..]);
      forall j | 0 <= j < |ok| ensures UsedUp(Undo(files, plan, ok), plan[|plan| - |ok| + j], ok[j]) {
        if j > 0 { assert UsedUp(later, plan[|plan| - |ok[1..]| + (j - 1)], ok[1..][j - 1]); }
      }
    }
  }

  predicate UsedUp(files: Files, e: RestoreEntry, ok: bool) {
    e.installed && ok && e.rollback.Some? && e.rollback.value.Temporary? ==> e.rollback.value !in files
  }

  lemma OwnedUndone(files: Files, start: Files, plan: seq<RestoreEntry>, ok: seq<bool>, now: seq<RestoreEntry>)
    requires AllOwned(files, start, plan, None) && |ok| == |plan| == |now|
    requires forall i :: 0 <= i < |plan| ==> plan[i].destination.Entry? && now[i] == AfterUndo(plan[i], ok[i])
    ensures AllOwned(Undo(files, plan, ok), start, now, None)
  {
    UndoConsumes(files, plan, ok);
    var after := Undo(files, plan, ok);
    forall p: Path | p in after && p.Temporary? && p !in start ensures Owned(now, None, p) {
      var i :| 0 <= i < |plan| && Uses(plan[i], p);
      assert UsedUp(after, plan[|plan| - |ok| + i], ok[i]);
      assert Uses(now[i], p);
    }
  }

  /** Only staged files have disappeared, and if rollback files are not to be preserved, perhaps those. */
  ghost predicate Tidied(before: Files, after: Files, staged: set<Path>, preserve: bool) {
    EntriesSame(before, after) && (preserve ==> SameBut(before, after, staged))
  }

  ghost predicate SameBut(before: Files, after: Files, but: set<Path>) {
    forall p: Path :: p !in but ==> Same(before, after, p)
  }

  lemma TidiedTwice(before: Files, middle: Files, after: Files, staged: set<Path>, preserve: bool)
    requires Tidied(before, middle, staged, preserve) && Tidied(middle, after, staged, preserve)
    ensures Tidied(before, after, staged, preserve)
  {
    forall p: Path | p.Entry? ensures Same(before, after, p) {
      assert Same(before, middle, p) && Same(middle, after, p);
    }
    if preserve {
      forall p: Path | p !in staged ensures Same(before, after, p) {
        assert Same(before, middle, p) && Same(middle, after, p);
      }
    }
  }

  lemma CleanupKeepsRecoverable(before: Files, files: Files, after: Files, entries: seq<RestoreEntry>)
    requires AllRecoverable(before, files, entries) && SnapshotsApart(entries)
    requires Tidied(files, after, StagedFiles(entries), true)
    ensures AllRecoverable(before, after, entries)
  {
    forall p: Path | p.Entry? ensures Recoverable(before, after, entries, p) {
      assert Same(files, after, p) && Recoverable(before, files, entries, p);
      if !Same(before, files, p) {
        var i :| 0 <= i < |entries| && StillMarked(before, files, entries[i], p);
        assert entries[i].rollback.Some? ==> Same(files, after, entries[i].rollback.value);
        assert StillMarked(before, after, entries[i], p);
      }
    }
  }

  lemma PlanTargetsSmall(site: Site, c: Contents, names: seq<string>, before: Files, s0: nat, files: Files,
                         entries: seq<RestoreEntry>)
    requires c.audit.Some? && site.mainName in c.config && site.auditFile.Entry?
    requires (forall i :: 0 <= i < |names| ==> names[i] in c.config) && NoOverlap(site, c)
    requires PlanOf(site, c, names, files, entries) && OnlyScratch(before, files, s0) && SitesSmall(site, before, c)
    ensures TargetsSmall(site, files, entries)
  {
    var n := |names|;
    forall i | 0 <= i < |entries|
      ensures Small(files, entries[i].destination, SnapshotLimit(site, entries[i].destination))
    {
      assert i < n ==> Holds(files, entries[i], Entry(site.directory, names[i]), c.config[names[i]]);
      assert Same(before, files, entries[i].destination);
    }
  }
}
