/**
  restore_backup and create_backup of app/backup.py in their own form, over a Disk any of whose calls may fail.
*/
module BackupRun {
  import opened Wrappers
  import opened FileNames
  import opened Disk
  import opened RestoreSpec
  import opened BackupFormat
  import opened RestorePlan
  import opened ArchiveRules

  /** How restore_backup ends: it returns, raises BackupError, or raises BackupRollbackIncomplete. */
  datatype RestoreOutcome = Restored | Failed | RollbackIncomplete

  /** `_copy_limited`: reads may be short, `sizes` says how short; None is its BackupError. */
  method CopyLimited(source: Bytes, maximum: nat, sizes: nat -> nat) returns (copied: Option<Bytes>)
    ensures copied == if |source| <= maximum then Some(source) else None
  {
    var remaining := maximum + 1;
    var destination: Bytes := [];
    while remaining > 0
      invariant |destination| + remaining == maximum + 1
      invariant |destination| <= |source| && destination == source[..|destination|]
      decreases remaining
    {
      var limit := if remaining < 1024 * 1024 then remaining else 1024 * 1024;
      var left := |source| - |destination|;
      if left == 0 {
        assert source[..|source|] == source;
        return Some(destination);
      }
      var wanted := if sizes(remaining) == 0 then 1 else sizes(remaining);
      var most := if limit < left then limit else left;
      var size := if wanted < most then wanted else most;
      destination := destination + source[|destination|..|destination| + size];
      remaining := remaining - size;
    }
    copied := None;
  }

  class RestoreTransaction {
    const disk: Disk
    const formats: Formats
    const site: Site
    var entries: seq<RestoreEntry>
    var auditTemporary: Option<Path>

    constructor (disk: Disk, formats: Formats, site: Site)
      ensures this.disk == disk && this.formats == formats && this.site == site
      ensures entries == [] && auditTemporary == None
    {
      this.disk, this.formats, this.site, entries, auditTemporary := disk, formats, site, [], None;
    }

    ghost predicate Valid()
      reads this, disk
    {
      && disk.Valid()
      && (forall i :: 0 <= i < |entries| ==> entries[i].destination.Entry?)
    }

    /** Only scratch files numbered from s0 on have been created or changed since `start`, at every moment. */
    ghost predicate Harmless(start: Files, s0: nat, startTrace: seq<Files>)
      reads this, disk
    {
      && disk.Valid() && disk.serial >= s0
      && OnlyScratch(start, disk.files, s0)
      && Extends(startTrace, disk.trace, start, s0)
    }

    /** No temporary file of this run has been lost track of; that takes a fault in removing one after another fault. */
    ghost predicate Tidy(start: Files)
      reads this, disk
    {
      AllOwned(disk.files, start, entries, auditTemporary)
    }

    // --------------------------------------------------------------- staging

    /** The temporary file holds the audit database that was read. */
    ghost predicate AuditStaged(audit: Option<Bytes>, s0: nat)
      reads this, disk
    {
      && (audit.Some? <==> auditTemporary.Some?)
      && (audit.Some? ==>
            && auditTemporary.value.Temporary?
            && s0 <= auditTemporary.value.serial < disk.serial
            && auditTemporary.value in disk.files
            && disk.files[auditTemporary.value] == audit.value)
    }

    ghost predicate AuditTemporaryIsScratch(s0: nat)
      reads this
    {
      auditTemporary.Some? ==> auditTemporary.value.Temporary? && auditTemporary.value.serial >= s0
    }

    /** One turn of the loop over the archive members; the audit database goes straight to a temporary file. */
    method ReadMember(c: Contents, m: Member, ghost start: Files, ghost s0: nat, ghost startTrace: seq<Files>)
      returns (next: Option<Contents>)
      requires Harmless(start, s0, startTrace) && AuditStaged(c.audit, s0)
      requires c.audit.Some? ==> AUDIT_MEMBER in c.seen
      modifies this`auditTemporary, disk
      ensures disk.faults >= old(disk.faults)
      ensures Harmless(start, s0, startTrace) && AuditTemporaryIsScratch(s0)
      ensures next.Some? ==> next == Absorb(c, m) && AuditStaged(next.value.audit, s0)
      ensures disk.OneFault() && old(Tidy(start)) ==> Tidy(start)
      ensures disk.NoFaults() && Absorb(c, m).Some? ==> next.Some?
    {
      var ok := disk.Consult();
      if !ok { return None; }
      next := Absorb(c, m);
      if next.None? { return; }
      AbsorbsAudit(c, m);
      if m.name == AUDIT_MEMBER {
        ok := StageAudit(m.content, start, s0, startTrace);
        if !ok { next := None; }
      }
    }

    method StageAudit(content: Bytes, ghost start: Files, ghost s0: nat, ghost startTrace: seq<Files>)
      returns (ok: bool)
      requires Harmless(start, s0, startTrace) && auditTemporary == None
      modifies this`auditTemporary, disk
      ensures disk.faults >= old(disk.faults) && (disk.NoFaults() ==> ok)
      ensures Harmless(start, s0, startTrace)
      ensures if ok then AuditStaged(Some(content), s0) else auditTemporary == None
      ensures disk.OneFault() && old(Tidy(start)) ==> Tidy(start)
    {
      auditTemporary := disk.CreateTemporary(site.auditFile.directory, content);
      ok := auditTemporary.Some?;
      if ok && old(Tidy(start)) { OwnedAudit(old(disk.files), disk.files, start, entries, auditTemporary.value); }
    }

    method ReadArchive(members: seq<Member>) returns (read: Option<Contents>)
      requires disk.Valid() && auditTemporary == None
      modifies this`auditTemporary, disk
      ensures disk.faults >= old(disk.faults)
      ensures Harmless(old(disk.files), old(disk.serial), old(disk.trace)) && AuditTemporaryIsScratch(old(disk.serial))
      ensures read.Some? ==> read == ReadAll(members) && AuditStaged(read.value.audit, old(disk.serial))
      ensures disk.OneFault() ==> Tidy(old(disk.files))
      ensures disk.NoFaults() && ReadAll(members).Some? ==> read.Some?
    {
      var c := NOTHING;
      var i := 0;
      while i < |members|
        invariant i <= |members|
        invariant Harmless(old(disk.files), old(disk.serial), old(disk.trace))
        invariant ReadAll(members[..i]) == Some(c)
        invariant AuditStaged(c.audit, old(disk.serial))
        invariant disk.OneFault() ==> Tidy(old(disk.files))
        invariant disk.faults >= old(disk.faults)
      {
        assert members[..i + 1][..i] == members[..i];
        AuditSeen(members[..i]);
        var next := ReadMember(c, members[i], old(disk.files), old(disk.serial), old(disk.trace));
        if next.None? {
          if ReadAll(members).Some? { ReadAllPrefix(members, i + 1); }
          return None;
        }
        c := next.value;
        i := i + 1;
      }
      assert members[..i] == members;
      read := Some(c);
    }

    /** Every entry is built from temporary files of this run. */
    ghost predicate ScratchEntries(s0: nat)
      reads this
    {
      forall i :: 0 <= i < |entries| ==> IsScratch(entries[i], s0)
    }

    /** Staged files and snapshots exist, each under a name of its own. */
    ghost predicate StagedApart()
      reads this, disk
    {
      && (forall i :: 0 <= i < |entries| ==> entries[i].staged in disk.files && !entries[i].installed)
      && (forall i, j :: 0 <= i < j < |entries| ==> entries[i].staged != entries[j].staged)
      && (auditTemporary.Some? ==> forall i :: 0 <= i < |entries| ==> entries[i].staged != auditTemporary.value)
    }

    ghost predicate NoSnapshots()
      reads this
    {
      forall i :: 0 <= i < |entries| ==> entries[i].rollback == None
    }

    /** Append an entry for `destination` whose new bytes are already in `staged`. */
    method AddEntry(destination: Path, staged: Path, ghost s0: nat)
      requires disk.Valid() && ScratchEntries(s0) && StagedApart()
      requires destination.Entry? && staged.Temporary? && s0 <= staged.serial < disk.serial && staged in disk.files
      requires auditTemporary != Some(staged)
      requires forall i :: 0 <= i < |entries| ==> entries[i].staged != staged
      modifies this`entries
      ensures ScratchEntries(s0) && StagedApart()
      ensures entries == old(entries) + [RestoreEntry(destination, staged, None, false)]
    {
      entries := entries + [RestoreEntry(destination, staged, None, false)];
    }

    /** `_stage_bytes` and the entry for it. */
    method StageEntry(destination: Path, content: Bytes, ghost start: Files, ghost s0: nat,
                      ghost startTrace: seq<Files>)
      returns (ok: bool)
      requires Harmless(start, s0, startTrace) && ScratchEntries(s0) && StagedApart() && NoSnapshots()
      requires destination.Entry?
      requires auditTemporary.Some? ==> auditTemporary.value.Temporary? && auditTemporary.value.serial < disk.serial
      modifies this`entries, disk
      ensures disk.faults >= old(disk.faults)
      ensures Harmless(start, s0, startTrace) && ScratchEntries(s0) && StagedApart() && NoSnapshots()
      ensures OnlyScratch(old(disk.files), disk.files, old(disk.serial)) && disk.serial >= old(disk.serial)
      ensures if ok then |entries| == |old(entries)| + 1 && entries[..|old(entries)|] == old(entries)
                         && Holds(disk.files, entries[|old(entries)|], destination, content)
              else entries == old(entries)
      ensures disk.OneFault() && old(Tidy(start)) ==> Tidy(start)
      ensures disk.NoFaults() ==> ok
    {
      var staged := disk.CreateTemporary(destination.directory, content);
      ok := staged.Some?;
      if ok {
        var e := RestoreEntry(destination, staged.value, None, false);
        if old(Tidy(start)) {
          OwnedAppended(old(disk.files), disk.files, start, entries, e, auditTemporary, auditTemporary);
        }
        AddEntry(destination, staged.value, s0);
      }
    }

    method StageConfigFiles(names: seq<string>, c: Contents, ghost start: Files, ghost s0: nat,
                            ghost startTrace: seq<Files>)
      returns (ok: bool)
      requires Harmless(start, s0, startTrace) && entries == [] && AuditStaged(c.audit, s0)
      requires forall i :: 0 <= i < |names| ==> names[i] in c.config
      modifies this`entries, disk
      ensures disk.faults >= old(disk.faults)
      ensures Harmless(start, s0, startTrace) && ScratchEntries(s0) && StagedApart() && NoSnapshots()
      ensures AuditStaged(c.audit, s0)
      ensures disk.OneFault() && old(Tidy(start)) ==> Tidy(start)
      ensures disk.NoFaults() ==> ok
      ensures ok ==> |entries| == |names|
      ensures ok ==> forall i :: 0 <= i < |names| ==>
                Holds(disk.files, entries[i], Entry(site.directory, names[i]), c.config[names[i]])
    {
      ok := true;
      while |entries| < |names|
        invariant |entries| <= |names|
        invariant Harmless(start, s0, startTrace) && ScratchEntries(s0) && StagedApart() && NoSnapshots()
        invariant AuditStaged(c.audit, s0)
        invariant disk.OneFault() && old(Tidy(start)) ==> Tidy(start)
        invariant disk.NoFaults() ==> ok
        invariant forall i :: 0 <= i < |entries| ==>
                    Holds(disk.files, entries[i], Entry(site.directory, names[i]), c.config[names[i]])
        invariant disk.faults >= old(disk.faults)
        decreases |names| - |entries|
      {
        var name := names[|entries|];
        ghost var before := entries;
        ok := StageEntry(Entry(site.directory, name), c.config[name], start, s0, startTrace);
        if !ok { return; }
        assert forall i :: 0 <= i < |before| ==> entries[i] == entries[..|before|][i];
      }
    }

    /** The database becomes an entry like the others. */
    method AdoptAudit(ghost start: Files, ghost s0: nat)
      requires disk.Valid() && ScratchEntries(s0) && StagedApart() && NoSnapshots()
      requires site.auditFile.Entry? && auditTemporary.Some? && auditTemporary.value in disk.files
      requires auditTemporary.value.Temporary? && s0 <= auditTemporary.value.serial < disk.serial
      modifies this`entries, this`auditTemporary
      ensures ScratchEntries(s0) && StagedApart() && NoSnapshots() && auditTemporary == None
      ensures entries == old(entries) + [RestoreEntry(site.auditFile, old(auditTemporary).value, None, false)]
      ensures old(Tidy(start)) ==> Tidy(start)
    {
      var e := RestoreEntry(site.auditFile, auditTemporary.value, None, false);
      if Tidy(start) { OwnedAppended(disk.files, disk.files, start, entries, e, auditTemporary, None); }
      auditTemporary := None;
      AddEntry(site.auditFile, e.staged, s0);
    }

    method StageAll(names: seq<string>, c: Contents, ghost start: Files, ghost s0: nat, ghost startTrace: seq<Files>)
      returns (ok: bool)
      requires Harmless(start, s0, startTrace) && entries == [] && AuditStaged(c.audit, s0) && c.audit.Some?
      requires site.auditFile.Entry? && site.mainName in c.config
      requires forall i :: 0 <= i < |names| ==> names[i] in c.config
      modifies this, disk
      ensures disk.faults >= old(disk.faults)
      ensures Harmless(start, s0, startTrace) && ScratchEntries(s0) && StagedApart() && NoSnapshots()
      ensures AuditTemporaryIsScratch(s0)
      ensures ok ==> auditTemporary == None && PlanOf(site, c, names, disk.files, entries)
      ensures disk.OneFault() && old(Tidy(start)) ==> Tidy(start)
      ensures disk.NoFaults() ==> ok
    {
      ok := StageConfigFiles(names, c, start, s0, startTrace);
      if !ok { return; }
      AdoptAudit(start, s0);
      ok := StageMain(names, c, start, s0, startTrace);
    }

    /** All entries but the last. */
    ghost predicate AllButMain(names: seq<string>, c: Contents)
      reads this, disk
      requires c.audit.Some? && forall i :: 0 <= i < |names| ==> names[i] in c.config
    {
      && |entries| == |names| + 1
      && (forall i :: 0 <= i < |names| ==>
            Holds(disk.files, entries[i], Entry(site.directory, names[i]), c.config[names[i]]))
      && Holds(disk.files, entries[|names|], site.auditFile, c.audit.value)
    }

    method StageMain(names: seq<string>, c: Contents, ghost start: Files, ghost s0: nat, ghost startTrace: seq<Files>)
      returns (ok: bool)
      requires Harmless(start, s0, startTrace) && ScratchEntries(s0) && StagedApart() && NoSnapshots()
      requires auditTemporary == None && c.audit.Some? && site.mainName in c.config
      requires forall i :: 0 <= i < |names| ==> names[i] in c.config
      requires AllButMain(names, c)
      modifies this`entries, disk
      ensures disk.faults >= old(disk.faults)
      ensures Harmless(start, s0, startTrace) && ScratchEntries(s0) && StagedApart() && NoSnapshots()
      ensures ok ==> PlanOf(site, c, names, disk.files, entries)
      ensures disk.OneFault() && old(Tidy(start)) ==> Tidy(start)
      ensures disk.NoFaults() ==> ok
    {
      ghost var before := entries;
      ok := StageEntry(Entry(site.directory, site.mainName), c.config[site.mainName], start, s0, startTrace);
      assert forall i :: 0 <= i < |before| ==> entries[i] == entries[..|before|][i];
    }

    // -------------------------------------------------------------- snapshots

    /** Snapshots exist for the first k entries, in files numbered from s1 on; the staged files are older. */
    ghost predicate SnapshotsTaken(k: nat, s1: nat)
      reads this, disk
    {
      SnapshotsTakenIn(disk.files, entries, k, s1)
    }

    static ghost predicate SnapshotsTakenIn(files: Files, plan: seq<RestoreEntry>, k: nat, s1: nat) {
      && k <= |plan|
      && (forall i :: 0 <= i < |plan| ==> plan[i].staged.Temporary? && plan[i].staged.serial < s1)
      && (forall i :: 0 <= i < k ==> SnapshotTaken(files, plan[i]))
      && (forall i :: 0 <= i < k && plan[i].rollback.Some? ==> plan[i].rollback.value.serial >= s1)
      && (forall i, j :: 0 <= i < j < k ==> plan[i].rollback.None? || plan[i].rollback != plan[j].rollback)
      && (forall i :: k <= i < |plan| ==> plan[i].rollback == None)
    }

    /** `_snapshot_existing`. */
    method SnapshotExisting(destination: Path, maximum: nat) returns (taken: Result<Option<Path>, ()>)
      requires disk.Valid()
      modifies disk
      ensures disk.faults >= old(disk.faults)
      ensures disk.Valid() && disk.serial >= old(disk.serial)
      ensures OnlyScratch(old(disk.files), disk.files, old(disk.serial))
      ensures Extends(old(disk.trace), disk.trace, old(disk.files), old(disk.serial))
      ensures taken.Ok? && taken.value.None? ==> destination !in old(disk.files) && disk.files == old(disk.files)
      ensures taken.Err? && disk.OneFault() ==> disk.files == old(disk.files)
      ensures taken.Ok? && taken.value.Some? ==>
        && destination in old(disk.files)
        && taken.value.value == Temporary(destination.directory, old(disk.serial))
        && disk.files == old(disk.files)[taken.value.value := old(disk.files)[destination]]
        && disk.serial == old(disk.serial) + 1
      ensures disk.NoFaults() && Small(old(disk.files), destination, maximum) ==> taken.Ok?
    {
      var ok := disk.Consult();
      if !ok { return Err(()); }
      if destination !in disk.files { return Ok(None); }
      var content := disk.files[destination];
      if |content| > maximum { return Err(()); }
      var copied := CopyLimited(content, maximum, n => n);
      var created := disk.CreateTemporary(destination.directory, copied.value);
      taken := if created.None? then Err(()) else Ok(created);
    }

    method SnapshotOne(k: nat, maximum: nat, ghost s1: nat, ghost start: Files, ghost s0: nat,
                       ghost startTrace: seq<Files>)
      returns (ok: bool)
      requires Harmless(start, s0, startTrace) && ScratchEntries(s0) && StagedApart() && s0 <= s1 <= disk.serial
      requires k < |entries| && SnapshotsTaken(k, s1)
      modifies this`entries, disk
      ensures disk.faults >= old(disk.faults)
      ensures Harmless(start, s0, startTrace) && ScratchEntries(s0) && StagedApart()
      ensures OnlyScratch(old(disk.files), disk.files, old(disk.serial)) && disk.serial >= old(disk.serial)
      ensures SameButSnapshots(old(entries), entries)
      ensures ok ==> SnapshotsTaken(k + 1, s1)
      ensures disk.OneFault() && old(Tidy(start)) ==> Tidy(start)
      ensures disk.NoFaults() && Small(old(disk.files), old(entries)[k].destination, maximum) ==> ok
    {
      var taken := SnapshotExisting(entries[k].destination, maximum);
      ok := taken.Ok?;
      if ok {
        OneMoreSnapshot(entries, old(disk.files), disk.files, old(disk.serial), k, s1, taken.value);
        KeepSnapshot(k, taken.value, s0, start, old(disk.files));
      }
    }

    method KeepSnapshot(k: nat, taken: Option<Path>, ghost s0: nat, ghost start: Files, ghost files: Files)
      requires k < |entries| && ScratchEntries(s0) && StagedApart() && entries[k].rollback.None?
      requires forall p :: p in disk.files ==> p in files || taken == Some(p)
      requires taken.Some? ==> taken.value.Temporary? && taken.value.serial >= s0
      modifies this`entries
      ensures entries == old(entries)[k := old(entries)[k].(rollback := taken)]
      ensures ScratchEntries(s0) && StagedApart() && SameButSnapshots(old(entries), entries)
      ensures AllOwned(files, start, old(entries), auditTemporary) ==> Tidy(start)
    {
      if AllOwned(files, start, entries, auditTemporary) {
        OwnedSnapshot(files, disk.files, start, entries, k, taken, auditTemporary);
      }
      entries := entries[k := entries[k].(rollback := taken)];
    }

    /** Entry k may take over the snapshot just made of its destination. */
    lemma OneMoreSnapshot(plan: seq<RestoreEntry>, before: Files, after: Files, serial: nat, k: nat, s1: nat,
                          taken: Option<Path>)
      requires SnapshotsTakenIn(before, plan, k, s1) && k < |plan| && s1 <= serial
      requires OnlyScratch(before, after, serial) && forall p: Path :: p in before && p.Temporary? ==> p.serial < serial
      requires forall i :: 0 <= i < |plan| ==> plan[i].destination.Entry?
      requires SnapshotTaken(after, plan[k].(rollback := taken)) && (taken.Some? ==> taken.value.serial == serial)
      ensures SnapshotsTakenIn(after, plan[k := plan[k].(rollback := taken)], k + 1, s1)
    {
      forall i | 0 <= i < k ensures SnapshotTaken(after, plan[i]) {
        SnapshotStays(before, after, serial, plan[i]);
      }
      forall i | 0 <= i < k && taken.Some? ensures plan[i].rollback != taken {
        assert SnapshotTaken(before, plan[i]);
      }
    }

    lemma SnapshotStays(before: Files, after: Files, serial: nat, e: RestoreEntry)
      requires SnapshotTaken(before, e) && OnlyScratch(before, after, serial) && e.destination.Entry?
      requires forall p: Path :: p in before && p.Temporary? ==> p.serial < serial
      ensures SnapshotTaken(after, e)
    {
      assert Same(before, after, e.destination);
      assert e.rollback.Some? ==> Same(before, after, e.rollback.value);
    }

    method SnapshotAll(ghost start: Files, ghost s0: nat, ghost startTrace: seq<Files>) returns (ok: bool)
      requires Harmless(start, s0, startTrace) && ScratchEntries(s0) && StagedApart()
      requires SnapshotsTaken(0, disk.serial)
      modifies this`entries, disk
      ensures disk.faults >= old(disk.faults)
      ensures Harmless(start, s0, startTrace) && ScratchEntries(s0) && StagedApart()
      ensures OnlyScratch(old(disk.files), disk.files, old(disk.serial)) && disk.serial >= old(disk.serial)
      ensures SameButSnapshots(old(entries), entries)
      ensures ok ==> SnapshotsTaken(|entries|, old(disk.serial))
      ensures disk.OneFault() && old(Tidy(start)) ==> Tidy(start)
      ensures disk.NoFaults() && TargetsSmall(site, old(disk.files), old(entries)) ==> ok
    {
      ok := true;
      var k := 0;
      while k < |entries|
        invariant k <= |entries| && SameButSnapshots(old(entries), entries)
        invariant Harmless(start, s0, startTrace) && ScratchEntries(s0) && StagedApart()
        invariant OnlyScratch(old(disk.files), disk.files, old(disk.serial)) && disk.serial >= old(disk.serial)
        invariant SnapshotsTaken(k, old(disk.serial))
        invariant disk.OneFault() && old(Tidy(start)) ==> Tidy(start)
        invariant disk.NoFaults() && TargetsSmall(site, old(disk.files), old(entries)) ==> ok
        invariant disk.faults >= old(disk.faults)
      {
        ghost var before := entries;
        var maximum := SnapshotLimit(site, entries[k].destination);
        assert entries[k].(rollback := None) == old(entries)[k].(rollback := None);
        ok := SnapshotOne(k, maximum, old(disk.serial), start, s0, startTrace);
        SnapshotsCompose(old(entries), before, entries);
        if !ok { return; }
        k := k + 1;
      }
    }

    // ---------------------------------------------------- install and rollback

    /**
      The install loop.  It stops at the first failing call after `done` replacements; every state it passes
      through is the original one with a prefix of the entries installed.
    */
    method InstallAll() returns (ok: bool, done: nat)
      requires Valid() && Marked(entries, 0)
      modifies this`entries, disk
      ensures disk.faults >= old(disk.faults)
      ensures Valid() && SamePlan(old(entries), entries)
      ensures done <= |entries| && Marked(entries, done) && (ok ==> done == |entries|)
      ensures disk.files == Install(old(disk.files), old(entries), done) && disk.serial == old(disk.serial)
      ensures disk.NoFaults() && Prepared(old(disk.files), old(entries)) ==> ok
      ensures old(disk.trace) <= disk.trace
      ensures InstallTrace(disk.trace, |old(disk.trace)|, old(disk.files), old(entries))
    {
      ghost var plan, start := entries, disk.files;
      done := 0;
      ok := true;
      while done < |entries| && ok
        invariant disk.serial == old(disk.serial) && old(disk.trace) <= disk.trace
        invariant Installing(plan, start, |old(disk.trace)|, done)
        invariant disk.NoFaults() && Prepared(start, plan) ==> ok
        invariant disk.faults >= old(disk.faults)
        decreases |entries| - done, ok
      {
        var replaced;
        replaced, ok := InstallTurn(done, plan, start, |old(disk.trace)|);
        if replaced { done := done + 1; }
      }
    }

    /** The install loop after `done` replacements. */
    ghost predicate Installing(plan: seq<RestoreEntry>, start: Files, from: nat, done: nat)
      reads this, disk
    {
      && Valid()
      && done <= |entries|
      && SamePlan(plan, entries)
      && Marked(entries, done)
      && disk.files == Install(start, plan, done)
      && from <= |disk.trace|
      && InstallTrace(disk.trace, from, start, plan)
    }

    ghost predicate InstallTrace(trace: seq<Files>, from: nat, start: Files, plan: seq<RestoreEntry>) {
      forall t :: from <= t < |trace| ==> IsPrefixState(start, plan, trace[t])
    }

    lemma InstallTraceExtends(before: seq<Files>, after: seq<Files>, from: nat, start: Files,
                              plan: seq<RestoreEntry>, done: nat)
      requires done <= |plan| && before <= after && InstallTrace(before, from, start, plan)
      requires forall t :: |before| <= t < |after| ==> after[t] == Install(start, plan, done)
      ensures InstallTrace(after, from, start, plan)
    {
      forall t | from <= t < |after| ensures IsPrefixState(start, plan, after[t]) {
        assert t < |before| ==> after[t] == before[t];
      }
    }

    lemma MarkedOneMore(plan: seq<RestoreEntry>, now: seq<RestoreEntry>, k: nat)
      requires SamePlan(plan, now) && Marked(now, k) && k < |now|
      ensures SamePlan(plan, now[k := now[k].(installed := true)])
      ensures Marked(now[k := now[k].(installed := true)], k + 1)
    {
      assert plan[k].(installed := false) == now[k].(installed := false);
    }

    method InstallTurn(k: nat, ghost plan: seq<RestoreEntry>, ghost start: Files, ghost from: nat)
      returns (replaced: bool, ok: bool)
      requires Installing(plan, start, from, k) && k < |entries|
      modifies this`entries, disk
      ensures disk.faults >= old(disk.faults)
      ensures disk.serial == old(disk.serial) && old(disk.trace) <= disk.trace && (ok ==> replaced)
      ensures Installing(plan, start, from, if replaced then k + 1 else k)
      ensures disk.NoFaults() && Prepared(start, plan) ==> ok
    {
      if Prepared(start, plan) { StagedUntilInstalled(start, plan, k); }
      assert plan[k].(installed := false) == entries[k].(installed := false);
      replaced, ok := InstallNext(k);
      if replaced { MarkedOneMore(plan, old(entries), k); }
      InstallTraceExtends(old(disk.trace), disk.trace, from, start, plan, if replaced then k + 1 else k);
    }

    /** One turn: the replacement, and the fsync of the directory once it has taken effect. */
    method InstallNext(k: nat) returns (replaced: bool, ok: bool)
      requires Valid() && k < |entries|
      modifies this`entries, disk
      ensures disk.faults >= old(disk.faults)
      ensures Valid() && disk.serial == old(disk.serial)
      ensures ok ==> replaced
      ensures disk.NoFaults() && old(entries)[k].staged in old(disk.files) ==> ok
      ensures entries == if replaced then old(entries)[k := old(entries)[k].(installed := true)] else old(entries)
      ensures disk.files == if replaced then Moved(old(disk.files), old(entries)[k].staged, old(entries)[k].destination)
                            else old(disk.files)
      ensures old(disk.trace) <= disk.trace
      ensures forall t :: |old(disk.trace)| <= t < |disk.trace| ==> disk.trace[t] == disk.files
    {
      replaced := disk.Replace(entries[k].staged, entries[k].destination);
      ok := replaced;
      if replaced {
        entries := entries[k := entries[k].(installed := true)];
        ok := disk.Consult();
      }
    }

    /**
      `_rollback_restore`, wherever the install loop stopped: undoes the installed entries last one first, whatever
      happens to the others.  Each entry not given back has cost a failing call, and the rollback is complete, that is,
      BackupRollbackIncomplete is not raised, exactly when no call has failed.
    */
    method RollbackRestore(ghost start: Files, ghost k: nat) returns (complete: bool, undone: seq<bool>)
      requires Valid() && Prepared(start, entries) && k <= |entries| && Marked(entries, k)
      requires disk.files == Install(start, entries, k)
      modifies this`entries, disk
      ensures disk.faults >= old(disk.faults)
      ensures Valid() && disk.serial == old(disk.serial)
      ensures |undone| == |old(entries)| && disk.files == Undo(old(disk.files), old(entries), undone)
      ensures complete <==> disk.NoFaults()
      ensures Missed(old(entries), undone) <= disk.faults - old(disk.faults)
      ensures complete ==> forall i :: 0 <= i < |undone| && old(entries)[i].installed ==> undone[i]
      ensures |entries| == |old(entries)|
      ensures forall i :: 0 <= i < |entries| ==> entries[i] == AfterUndo(old(entries)[i], undone[i])
      ensures old(disk.trace) <= disk.trace
      ensures UndoTrace(disk.trace, |old(disk.trace)|, old(disk.files), old(entries), undone)
    {
      ghost var plan, installed := entries, disk.files;
      var failed, touched;
      failed, undone, touched := UndoInstalled(start, k);
      ghost var trace := disk.trace;
      var synced := FsyncParents(touched);
      UndoTraceRests(trace, disk.trace, |old(disk.trace)|, installed, plan, undone);
      complete := !failed && synced;
    }

    /** The loop; `touched` are the directories to be synced. */
    method UndoInstalled(ghost start: Files, ghost k: nat)
      returns (failed: bool, undone: seq<bool>, touched: set<string>)
      requires Valid() && Prepared(start, entries) && k <= |entries| && Marked(entries, k)
      requires disk.files == Install(start, entries, k)
      modifies this`entries, disk
      ensures disk.faults >= old(disk.faults)
      ensures disk.serial == old(disk.serial) && old(disk.trace) <= disk.trace
      ensures Undoing(old(entries), old(disk.files), |old(disk.trace)|, old(disk.faults), undone, 0, failed)
    {
      ghost var plan, installed := entries, disk.files;
      failed, undone, touched := false, [], {};
      var i := |entries|;
      while i > 0
        invariant 0 <= i && disk.serial == old(disk.serial) && old(disk.trace) <= disk.trace
        invariant Undoing(plan, installed, |old(disk.trace)|, old(disk.faults), undone, i, failed)
        invariant disk.faults >= old(disk.faults)
      {
        i := i - 1;
        if entries[i].installed { touched := touched + {entries[i].destination.directory}; }
        var ok := UndoTurn(i, plan, start, k, |old(disk.trace)|, old(disk.faults), undone, failed);
        failed := failed || !ok;
        undone := [ok] + undone;
      }
    }

    /** How many installed entries among the last |undone| have not been given back. */
    ghost function Missed(plan: seq<RestoreEntry>, undone: seq<bool>): nat
      requires |undone| <= |plan|
    {
      if undone == [] then 0
      else Missed(plan, undone[1..]) + if plan[|plan| - |undone|].installed && !undone[0] then 1 else 0
    }

    lemma MissedStep(plan: seq<RestoreEntry>, undone: seq<bool>, ok: bool)
      requires |undone| < |plan|
      ensures Missed(plan, [ok] + undone) <= Missed(plan, undone) + if ok then 0 else 1
    {
      assert ([ok] + undone)[1..] == undone;
    }

    /** The rollback loop before the turn of entry i - 1. */
    ghost predicate Undoing(plan: seq<RestoreEntry>, installed: Files, from: nat, faults: nat,
                            undone: seq<bool>, i: nat, failed: bool)
      reads this, disk
    {
      && Valid()
      && UndoneFrom(plan, entries, undone, i, failed)
      && faults + Missed(plan, undone) <= disk.faults
      && (failed <==> disk.faults != faults)
      && disk.files == Undo(installed, plan, undone)
      && from <= |disk.trace|
      && UndoTrace(disk.trace, from, installed, plan, undone)
    }

    method UndoTurn(i: nat, ghost plan: seq<RestoreEntry>, ghost start: Files, ghost k: nat, ghost from: nat,
                    ghost faults: nat, ghost undone: seq<bool>, ghost failed: bool)
      returns (ok: bool)
      requires Prepared(start, plan) && k <= |plan| && Marked(plan, k)
      requires i < |plan| && Undoing(plan, Install(start, plan, k), from, faults, undone, i + 1, failed)
      modifies this`entries, disk
      ensures disk.faults >= old(disk.faults)
      ensures disk.serial == old(disk.serial) && old(disk.trace) <= disk.trace
      ensures Undoing(plan, Install(start, plan, k), from, faults, [ok] + undone, i, failed || !ok)
    {
      CanBeUndone(start, plan, k, undone, disk.files);
      ok := UndoTurnOf(i, plan, Install(start, plan, k), from, faults, undone, failed);
    }

    method UndoTurnOf(i: nat, ghost plan: seq<RestoreEntry>, ghost installed: Files, ghost from: nat,
                      ghost faults: nat, ghost undone: seq<bool>, ghost failed: bool)
      returns (ok: bool)
      requires i < |plan| && Undoing(plan, installed, from, faults, undone, i + 1, failed)
      requires plan[i].installed ==> Undoable(disk.files, plan[i])
      modifies this`entries, disk
      ensures disk.faults >= old(disk.faults)
      ensures disk.serial == old(disk.serial) && old(disk.trace) <= disk.trace
      ensures Undoing(plan, installed, from, faults, [ok] + undone, i, failed || !ok)
    {
      ok := UndoNext(i);
      MissedStep(plan, undone, ok);
      UndoneOneMore(plan, old(entries), undone, i + 1, failed, ok);
      UndoStep(installed, plan, undone, ok, old(disk.files));
      UndoTraceExtends(old(disk.trace), disk.trace, from, installed, plan, undone, ok);
    }

    /** The entry whose turn it is has its rollback file, or its destination to remove. */
    lemma CanBeUndone(start: Files, plan: seq<RestoreEntry>, k: nat, undone: seq<bool>, files: Files)
      requires Prepared(start, plan) && k <= |plan| && Marked(plan, k) && |undone| < |plan|
      requires files == Undo(Install(start, plan, k), plan, undone)
      ensures var e := plan[|plan| - |undone| - 1]; e.installed ==> Undoable(files, e)
    {
      var i := |plan| - |undone| - 1;
      UndoneAt(start, plan, k, undone, i);
      assert SnapshotTaken(start, plan[i]);
    }

    static predicate Undoable(files: Files, e: RestoreEntry) {
      match e.rollback
      case Some(r) => r in files
      case None => e.destination in files
    }

    /** What one more turn does to the files. */
    lemma UndoStep(installed: Files, plan: seq<RestoreEntry>, undone: seq<bool>, ok: bool, files: Files)
      requires |undone| < |plan| && files == Undo(installed, plan, undone)
      ensures var e := plan[|plan| - |undone| - 1];
              Undo(installed, plan, [ok] + undone) == if e.installed && ok then UndoOne(files, e) else files
    {
      assert ([ok] + undone)[1..] == undone;
    }

    /** Entries from i on have been dealt with, as `undone` tells; the others are as planned. */
    ghost predicate UndoneFrom(plan: seq<RestoreEntry>, now: seq<RestoreEntry>, undone: seq<bool>, i: nat, failed: bool)
    {
      && i + |undone| == |plan| == |now|
      && (!failed ==> forall j :: i <= j < |plan| && plan[j].installed ==> undone[j - i])
      && (forall j :: 0 <= j < i ==> now[j] == plan[j])
      && (forall j :: i <= j < |plan| ==> now[j] == AfterUndo(plan[j], undone[j - i]))
    }

    lemma UndoneOneMore(plan: seq<RestoreEntry>, now: seq<RestoreEntry>, undone: seq<bool>, i: nat, failed: bool,
                        ok: bool)
      requires i > 0 && UndoneFrom(plan, now, undone, i, failed)
      ensures UndoneFrom(plan, now[i - 1 := AfterUndo(now[i - 1], ok)], [ok] + undone, i - 1, failed || !ok)
    {
    }

    ghost predicate UndoTrace(trace: seq<Files>, from: nat, installed: Files, plan: seq<RestoreEntry>, ok: seq<bool>)
      requires |ok| <= |plan|
    {
      forall t :: from <= t < |trace| ==> IsUndoState(installed, plan, ok, trace[t])
    }

    lemma UndoTraceExtends(before: seq<Files>, after: seq<Files>, from: nat, installed: Files,
                           plan: seq<RestoreEntry>, undone: seq<bool>, ok: bool)
      requires |undone| < |plan| && before <= after && UndoTrace(before, from, installed, plan, undone)
      requires forall t :: |before| <= t < |after| ==>
                 after[t] == Undo(installed, plan, undone) || after[t] == Undo(installed, plan, [ok] + undone)
      ensures UndoTrace(after, from, installed, plan, [ok] + undone)
    {
      var more := [ok] + undone;
      forall t | from <= t < |after| ensures IsUndoState(installed, plan, more, after[t]) {
        assert more[1..] == undone && undone[0..] == undone;
        assert t < |before| ==> after[t] == before[t];
        UndoStateExtends(installed, plan, more, after[t]);
      }
    }

    lemma UndoTraceRests(before: seq<Files>, after: seq<Files>, from: nat, installed: Files,
                         plan: seq<RestoreEntry>, undone: seq<bool>)
      requires |undone| <= |plan| && before <= after && UndoTrace(before, from, installed, plan, undone)
      requires forall t :: |before| <= t < |after| ==> after[t] == Undo(installed, plan, undone)
      ensures UndoTrace(after, from, installed, plan, undone)
    {
      assert undone[0..] == undone;
      forall t | from <= t < |after| ensures IsUndoState(installed, plan, undone, after[t]) {
        assert t < |before| ==> after[t] == before[t];
      }
    }

    /** The loop body: nothing to do for an entry not installed. */
    method UndoNext(i: nat) returns (ok: bool)
      requires Valid() && i < |entries| && (entries[i].installed ==> Undoable(disk.files, entries[i]))
      modifies this`entries, disk
      ensures disk.faults >= old(disk.faults) && (ok <==> disk.NoFaults())
      ensures Valid() && disk.serial == old(disk.serial)
      ensures entries == old(entries)[i := AfterUndo(old(entries)[i], ok)]
      ensures disk.files == if old(entries)[i].installed && ok then UndoOne(old(disk.files), old(entries)[i])
                            else old(disk.files)
      ensures old(disk.trace) <= disk.trace
      ensures forall t :: |old(disk.trace)| <= t < |disk.trace| ==>
                disk.trace[t] == old(disk.files) || disk.trace[t] == disk.files
    {
      var e := entries[i];
      ok := true;
      if e.installed { ok := UndoEntry(e); }
      if ok { entries := entries[i := AfterUndo(e, true)]; }
    }

    method FsyncParents(parents: set<string>) returns (ok: bool)
      requires disk.Valid()
      modifies disk
      ensures disk.faults >= old(disk.faults) && (ok <==> disk.NoFaults())
      ensures disk.Valid() && disk.serial == old(disk.serial) && disk.files == old(disk.files)
      ensures old(disk.trace) <= disk.trace
      ensures forall t :: |old(disk.trace)| <= t < |disk.trace| ==> disk.trace[t] == disk.files
    {
      ok := true;
      var rest := parents;
      while rest != {}
        invariant disk.Valid() && disk.serial == old(disk.serial) && disk.files == old(disk.files)
        invariant old(disk.trace) <= disk.trace
        invariant forall t :: |old(disk.trace)| <= t < |disk.trace| ==> disk.trace[t] == disk.files
        invariant disk.faults >= old(disk.faults) && (ok <==> disk.NoFaults())
        decreases rest
      {
        var parent :| parent in rest;
        rest := rest - {parent};
        var synced := disk.Consult();
        ok := ok && synced;
      }
    }

    method UndoEntry(e: RestoreEntry) returns (ok: bool)
      requires disk.Valid() && e.destination.Entry? && Undoable(disk.files, e)
      modifies disk
      ensures disk.faults >= old(disk.faults) && (ok <==> disk.NoFaults())
      ensures disk.Valid() && disk.serial == old(disk.serial)
      ensures disk.files == if ok then UndoOne(old(disk.files), e) else old(disk.files)
      ensures old(disk.trace) <= disk.trace
      ensures forall t :: |old(disk.trace)| <= t < |disk.trace| ==>
                disk.trace[t] == old(disk.files) || disk.trace[t] == disk.files
    {
      match e.rollback
      case Some(r) =>
        ok := disk.Replace(r, e.destination);
      case None =>
        ok := disk.Consult();
        if ok { ok := disk.Unlink(e.destination, false); }
    }

    // ------------------------------------------------------ after the commit

    /** Unlink a file of this run; the caller does not care whether that works. */
    method Discard(path: Path) returns (ok: bool)
      requires disk.Valid() && path.Temporary?
      modifies disk
      ensures disk.faults >= old(disk.faults)
      ensures disk.Valid() && SameBut(old(disk.files), disk.files, {path})
      ensures forall p :: p in disk.files ==> p in old(disk.files)
      ensures disk.NoFaults() ==> ok && path !in disk.files
      ensures disk.trace == old(disk.trace) + [disk.files]
    {
      ok := disk.Unlink(path, true);
    }

    method DiscardRollbacks(ghost s0: nat, ghost start: Files)
      requires disk.Valid() && ScratchEntries(s0)
      modifies this`entries, disk
      ensures disk.faults >= old(disk.faults)
      ensures disk.Valid() && ScratchEntries(s0) && EntriesSame(old(disk.files), disk.files)
      ensures old(Tidy(start)) ==> Tidy(start)
      ensures old(disk.trace) <= disk.trace
      ensures forall t :: |old(disk.trace)| <= t < |disk.trace| ==> EntriesSame(old(disk.files), disk.trace[t])
    {
      var parents: set<string> := {};
      var i := 0;
      while i < |entries|
        invariant i <= |entries| && disk.Valid() && ScratchEntries(s0) && EntriesSame(old(disk.files), disk.files)
        invariant old(Tidy(start)) ==> Tidy(start)
        invariant old(disk.trace) <= disk.trace
        invariant forall t :: |old(disk.trace)| <= t < |disk.trace| ==> EntriesSame(old(disk.files), disk.trace[t])
        invariant disk.faults >= old(disk.faults)
      {
        var e := entries[i];
        assert IsScratch(e, s0);
        parents := parents + {e.destination.directory};
        if e.rollback.Some? {
          ghost var files := disk.files;
          var ok := disk.Unlink(e.rollback.value, true);
          if ok {
            if AllOwned(files, start, entries, auditTemporary) {
              OwnedDropped(files, disk.files, start, entries, i, auditTemporary);
            }
            entries := entries[i := e.(rollback := None)];
          }
        }
        i := i + 1;
      }
      var synced := FsyncParents(parents);
    }

    /** Neither the staged file nor, unless it is to be preserved, the rollback file is left. */
    ghost predicate Gone(files: Files, e: RestoreEntry, preserveRollbacks: bool) {
      e.staged !in files && (e.rollback.Some? && !preserveRollbacks ==> e.rollback.value !in files)
    }

    lemma StaysGone(before: Files, after: Files, plan: seq<RestoreEntry>, n: nat, preserveRollbacks: bool)
      requires n <= |plan| && forall p :: p in after ==> p in before
      requires forall i :: 0 <= i < n ==> Gone(before, plan[i], preserveRollbacks)
      ensures forall i :: 0 <= i < n ==> Gone(after, plan[i], preserveRollbacks)
    {
    }

    /** Since `from`, only tidying has been going on. */
    ghost predicate TidyTrace(start: Files, from: nat, staged: set<Path>, preserve: bool)
      reads disk
    {
      forall t :: from <= t < |disk.trace| ==> Tidied(start, disk.trace[t], staged, preserve)
    }

    /** `_cleanup_restore_entries`: best effort, and only on files of this run. */
    method CleanupRestoreEntries(preserveRollbacks: bool, ghost s0: nat)
      requires disk.Valid() && ScratchEntries(s0)
      modifies this`entries, disk
      ensures disk.faults >= old(disk.faults)
      ensures disk.Valid() && Tidied(old(disk.files), disk.files, StagedFiles(old(entries)), preserveRollbacks)
      ensures preserveRollbacks ==> entries == old(entries)
      ensures forall p :: p in disk.files ==> p in old(disk.files)
      ensures disk.NoFaults() ==> forall i :: 0 <= i < |old(entries)| ==>
                Gone(disk.files, old(entries)[i], preserveRollbacks)
      ensures old(disk.trace) <= disk.trace
      ensures TidyTrace(old(disk.files), |old(disk.trace)|, StagedFiles(old(entries)), preserveRollbacks)
    {
      ghost var plan, start := entries, disk.files;
      var i := 0;
      while i < |entries|
        invariant i <= |entries| == |plan| && disk.Valid() && ScratchEntries(s0)
        invariant Tidied(start, disk.files, StagedFiles(plan), preserveRollbacks)
        invariant preserveRollbacks ==> entries == plan
        invariant forall p :: p in disk.files ==> p in old(disk.files)
        invariant forall j :: i <= j < |plan| ==> entries[j] == plan[j]
        invariant disk.NoFaults() ==> forall j :: 0 <= j < i ==> Gone(disk.files, plan[j], preserveRollbacks)
        invariant old(disk.trace) <= disk.trace
        invariant TidyTrace(start, |old(disk.trace)|, StagedFiles(plan), preserveRollbacks)
        invariant disk.faults >= old(disk.faults)
      {
        assert IsScratch(entries[i], s0) && entries[i] == plan[i];
        ghost var middle, trace := disk.files, disk.trace;
        CleanupEntry(i, preserveRollbacks, StagedFiles(plan));
        if disk.NoFaults() { StaysGone(middle, disk.files, plan, i, preserveRollbacks); }
        TidiedTwice(start, middle, disk.files, StagedFiles(plan), preserveRollbacks);
        forall t | |old(disk.trace)| <= t < |disk.trace|
          ensures Tidied(start, disk.trace[t], StagedFiles(plan), preserveRollbacks)
        {
          if t < |trace| {
            assert disk.trace[t] == trace[t];
          } else {
            TidiedTwice(start, middle, disk.trace[t], StagedFiles(plan), preserveRollbacks);
          }
        }
        i := i + 1;
      }
    }

    /** The loop body. */
    method CleanupEntry(i: nat, preserveRollbacks: bool, ghost staged: set<Path>)
      requires disk.Valid() && i < |entries| && entries[i].staged.Temporary? && entries[i].staged in staged
      requires entries[i].rollback.Some? ==> entries[i].rollback.value.Temporary?
      modifies this`entries, disk
      ensures disk.faults >= old(disk.faults)
      ensures disk.Valid() && Tidied(old(disk.files), disk.files, staged, preserveRollbacks)
      ensures || entries == old(entries)
              || (!preserveRollbacks && entries == old(entries)[i := old(entries)[i].(rollback := None)])
      ensures forall p :: p in disk.files ==> p in old(disk.files)
      ensures disk.NoFaults() ==> Gone(disk.files, old(entries)[i], preserveRollbacks)
      ensures old(disk.trace) <= disk.trace
      ensures TidyTrace(old(disk.files), |old(disk.trace)|, staged, preserveRollbacks)
    {
      var e := entries[i];
      var ok := Discard(e.staged);
      if e.rollback.Some? && !preserveRollbacks {
        ghost var middle := disk.files;
        ok := Discard(e.rollback.value);
        TidiedTwice(old(disk.files), middle, disk.files, staged, false);
        if ok { entries := entries[i := e.(rollback := None)]; }
      }
    }

    method PruneOne(name: string) returns (removed: bool)
      requires disk.Valid()
      modifies disk
      ensures disk.faults >= old(disk.faults)
      ensures disk.Valid()
      ensures disk.files == if removed then Without(old(disk.files), Entry(site.directory, name)) else old(disk.files)
      ensures disk.NoFaults() ==> Entry(site.directory, name) !in disk.files
      ensures old(disk.trace) <= disk.trace
      ensures forall t :: |old(disk.trace)| <= t < |disk.trace| ==>
                disk.trace[t] == old(disk.files) || disk.trace[t] == disk.files
    {
      removed := disk.Consult();
      if removed { removed := disk.Unlink(Entry(site.directory, name), false); }
    }

    ghost predicate PrunedTrace(trace: seq<Files>, from: nat, start: Files, referenced: set<string>) {
      forall t :: from <= t < |trace| ==> PrunedTo(start, trace[t], site.directory, referenced)
    }

    lemma PrunedTraceExtends(before: seq<Files>, after: seq<Files>, from: nat, start: Files, referenced: set<string>)
      requires before <= after && PrunedTrace(before, from, start, referenced)
      requires forall t :: |before| <= t < |after| ==> PrunedTo(start, after[t], site.directory, referenced)
      ensures PrunedTrace(after, from, start, referenced)
    {
      forall t | from <= t < |after| ensures PrunedTo(start, after[t], site.directory, referenced) {
        assert t < |before| ==> after[t] == before[t];
      }
    }

    lemma PrunedOneMore(start: Files, before: Files, after: Files, referenced: set<string>, name: string)
      requires PrunedTo(start, before, site.directory, referenced)
      requires Prunable(site.directory, referenced, Entry(site.directory, name))
      requires after == before || after == Without(before, Entry(site.directory, name))
      ensures PrunedTo(start, after, site.directory, referenced)
    {
      forall p: Path ensures Same(start, after, p) || (p !in after && Prunable(site.directory, referenced, p)) {
        assert Same(start, before, p) || (p !in before && Prunable(site.directory, referenced, p));
      }
    }

    ghost predicate Pruning(start: Files, from: nat, referenced: set<string>)
      reads disk
    {
      && disk.Valid()
      && PrunedTo(start, disk.files, site.directory, referenced)
      && PrunedTrace(disk.trace, from, start, referenced)
    }

    /** With the names in `listed` still to come, nothing prunable has been missed. */
    ghost predicate PrunableListed(files: Files, referenced: set<string>, listed: set<string>) {
      forall p :: p in files && Prunable(site.directory, referenced, p) ==> p.name in listed
    }

    method PruneTurn(name: string, ghost start: Files, ghost from: nat, ghost referenced: set<string>,
                     ghost listed: set<string>)
      returns (removed: bool)
      requires Pruning(start, from, referenced)
      requires Prunable(site.directory, referenced, Entry(site.directory, name))
      modifies disk
      ensures disk.faults >= old(disk.faults)
      ensures Pruning(start, from, referenced) && old(disk.trace) <= disk.trace
      ensures old(PrunableListed(disk.files, referenced, listed + {name})) && disk.NoFaults() ==>
                PrunableListed(disk.files, referenced, listed)
    {
      removed := PruneOne(name);
      PrunedOneMore(start, old(disk.files), disk.files, referenced, name);
      PrunedTraceExtends(old(disk.trace), disk.trace, from, start, referenced);
    }

    /** `_prune_unreferenced_managed_secrets`. */
    method Prune(referenced: set<string>)
      requires disk.Valid()
      modifies disk
      ensures disk.faults >= old(disk.faults)
      ensures disk.Valid() && PrunedTo(old(disk.files), disk.files, site.directory, referenced)
      ensures disk.NoFaults() ==> NothingPrunable(disk.files, site.directory, referenced)
      ensures old(disk.trace) <= disk.trace
      ensures forall t :: |old(disk.trace)| <= t < |disk.trace| ==>
                PrunedTo(old(disk.files), disk.trace[t], site.directory, referenced)
    {
      var ok := disk.Consult();
      if !ok { return; }
      var listed := set p | p in disk.files && p.Entry? && p.directory == site.directory :: p.name;
      var changed := false;
      while listed != {}
        invariant old(disk.trace) <= disk.trace
        invariant Pruning(old(disk.files), |old(disk.trace)|, referenced)
        invariant disk.NoFaults() ==> PrunableListed(disk.files, referenced, listed)
        invariant disk.faults >= old(disk.faults)
        decreases listed
      {
        var name :| name in listed;
        listed := listed - {name};
        if name !in referenced && ManagedSecretName(name) {
          var removed := PruneTurn(name, old(disk.files), |old(disk.trace)|, referenced, listed);
          changed := changed || removed;
        }
      }
      if changed { ok := disk.Consult(); }
    }

    // ---------------------------------------------------------------- restore

    ghost predicate PrunedFor(c: Contents)
      reads disk
      requires site.mainName in c.config && ReferencedNames(formats, site.directory, c.config[site.mainName]).Some?
    {
      NothingPrunable(disk.files, site.directory,
                      ReferencedNames(formats, site.directory, c.config[site.mainName]).value)
    }

    /** What each outcome means for the files. */
    ghost predicate EndState(outcome: RestoreOutcome, c: Contents, before: Files)
      requires Acceptable(formats, site, c)
      requires site.mainName in c.config && ReferencedNames(formats, site.directory, c.config[site.mainName]).Some?
      reads this, disk
    {
      match outcome
      case Restored => RestoredTo(formats, site, c, before, disk.files)
      case Failed => EntriesSame(before, disk.files)
      case RollbackIncomplete =>
        && SnapshotsApart(entries) && AllRecoverable(before, disk.files, entries)
        && Between(site, Some(c), before, disk.files)
    }

    /** From complete staging to the end of restore_backup's try block, for an accepted archive. */
    method InstallOrRollBack(c: Contents, ghost names: seq<string>, ghost before: Files, ghost s0: nat)
      returns (outcome: RestoreOutcome)
      requires disk.Valid() && ScratchEntries(s0) && Marked(entries, 0)
      requires Ready(site, c, names, before, s0, disk.files, entries) && Acceptable(formats, site, c)
      requires ReferencedNames(formats, site.directory, c.config[site.mainName]).Some?
      modifies this`entries, disk
      ensures disk.faults >= old(disk.faults)
      ensures disk.Valid() && ScratchEntries(s0)
      ensures disk.NoFaults() ==> outcome == Restored && PrunedFor(c)
      ensures disk.OneFault() ==> outcome != RollbackIncomplete
      ensures auditTemporary == None && old(Tidy(before)) ==> Tidy(before)
      ensures EndState(outcome, c, before)
      ensures old(disk.trace) <= disk.trace
      ensures GoodTrace(formats, site, Some(c), before, disk.trace, |old(disk.trace)|, outcome != RollbackIncomplete)
    {
      ghost var start := disk.files;
      var ok, done := InstallPlan(c, names, before, s0);
      ghost var installing := disk.trace;
      if ok {
        Finish(c, before, s0);
        outcome := Restored;
      } else {
        outcome := RollBack(c, names, before, s0, start, done);
      }
      GoodTraceGoesOn(formats, site, Some(c), before, installing, disk.trace, |old(disk.trace)|,
                      outcome != RollbackIncomplete);
    }

    lemma InstallTraceIsGood(c: Contents, names: seq<string>, before: Files, s0: nat, start: Files,
                             plan: seq<RestoreEntry>, trace: seq<Files>, from: nat)
      requires Ready(site, c, names, before, s0, start, plan) && Acceptable(formats, site, c)
      requires ReferencedNames(formats, site.directory, c.config[site.mainName]).Some?
      requires forall i :: 0 <= i < |plan| ==> IsScratch(plan[i], s0)
      requires InstallTrace(trace, from, start, plan)
      ensures GoodTrace(formats, site, Some(c), before, trace, from, true)
    {
      forall t | from <= t < |trace| ensures GoodState(formats, site, Some(c), before, trace[t], true) {
        assert IsPrefixState(start, plan, trace[t]);
        var k :| 0 <= k <= |plan| && trace[t] == Install(start, plan, k);
        InstallIsGood(formats, site, c, names, before, s0, start, plan, k, true);
      }
    }

    lemma UndoTraceIsGood(c: Contents, names: seq<string>, before: Files, s0: nat, start: Files,
                          plan: seq<RestoreEntry>, k: nat, ok: seq<bool>, trace: seq<Files>, from: nat, strict: bool)
      requires Ready(site, c, names, before, s0, start, plan) && Acceptable(formats, site, c)
      requires ReferencedNames(formats, site.directory, c.config[site.mainName]).Some?
      requires forall i :: 0 <= i < |plan| ==> IsScratch(plan[i], s0)
      requires k <= |plan| && Marked(plan, k) && |ok| == |plan| && (strict ==> forall i :: 0 <= i < k ==> ok[i])
      requires UndoTrace(trace, from, Install(start, plan, k), plan, ok)
      ensures GoodTrace(formats, site, Some(c), before, trace, from, strict)
    {
      forall t | from <= t < |trace| ensures GoodState(formats, site, Some(c), before, trace[t], strict) {
        RollbackIsGood(formats, site, c, names, before, s0, start, plan, k, ok, trace[t], strict);
      }
    }

    method InstallPlan(c: Contents, ghost names: seq<string>, ghost before: Files, ghost s0: nat)
      returns (ok: bool, done: nat)
      requires disk.Valid() && ScratchEntries(s0) && Marked(entries, 0)
      requires Ready(site, c, names, before, s0, disk.files, entries) && Acceptable(formats, site, c)
      requires ReferencedNames(formats, site.directory, c.config[site.mainName]).Some?
      modifies this`entries, disk
      ensures disk.faults >= old(disk.faults) && (disk.NoFaults() ==> ok)
      ensures disk.Valid() && ScratchEntries(s0) && done <= |entries| && Marked(entries, done)
      ensures Ready(site, c, names, before, s0, old(disk.files), entries)
      ensures disk.files == Install(old(disk.files), entries, done)
      ensures ok ==> RestoredTo(formats, site, c, before, disk.files)
      ensures auditTemporary == None && old(Tidy(before)) ==> Tidy(before)
      ensures old(disk.trace) <= disk.trace
      ensures GoodTrace(formats, site, Some(c), before, disk.trace, |old(disk.trace)|, true)
    {
      ghost var start, plan := disk.files, entries;
      ok, done := InstallAll();
      InstallTraceIsGood(c, names, before, s0, start, plan, disk.trace, |old(disk.trace)|);
      ScratchIgnoresMarks(plan, entries, s0);
      ReadyIgnoresMarks(site, c, names, before, s0, start, plan, entries);
      InstallIgnoresMarks(start, plan, entries, done);
      if auditTemporary == None && old(Tidy(before)) { OwnedInstalled(start, before, plan, done, entries); }
      if ok { InstallIsCrashSafe(formats, site, c, names, before, s0, start, plan, done); }
    }

    method RollBack(c: Contents, ghost names: seq<string>, ghost before: Files, ghost s0: nat, ghost start: Files,
                    ghost done: nat)
      returns (outcome: RestoreOutcome)
      requires disk.Valid() && ScratchEntries(s0) && done <= |entries| && Marked(entries, done)
      requires Ready(site, c, names, before, s0, start, entries) && Acceptable(formats, site, c)
      requires ReferencedNames(formats, site.directory, c.config[site.mainName]).Some?
      requires disk.files == Install(start, entries, done)
      modifies this`entries, disk
      ensures disk.faults >= old(disk.faults)
      ensures disk.Valid() && ScratchEntries(s0) && outcome != Restored
      ensures outcome == Failed <==> disk.NoFaults()
      ensures auditTemporary == None && old(Tidy(before)) ==> Tidy(before)
      ensures EndState(outcome, c, before)
      ensures old(disk.trace) <= disk.trace
      ensures GoodTrace(formats, site, Some(c), before, disk.trace, |old(disk.trace)|, outcome == Failed)
    {
      ghost var marked := entries;
      var complete, undone := UndoPlan(c, names, before, s0, start, done);
      if complete {
        CompleteRollback(before, s0, start, marked, done, undone);
        outcome := Failed;
      } else {
        IncompleteRollback(site, c, names, before, s0, start, marked, done, undone, entries);
        outcome := RollbackIncomplete;
      }
    }

    method UndoPlan(c: Contents, ghost names: seq<string>, ghost before: Files, ghost s0: nat, ghost start: Files,
                    ghost done: nat)
      returns (complete: bool, undone: seq<bool>)
      requires disk.Valid() && ScratchEntries(s0) && done <= |entries| && Marked(entries, done)
      requires Ready(site, c, names, before, s0, start, entries) && Acceptable(formats, site, c)
      requires ReferencedNames(formats, site.directory, c.config[site.mainName]).Some?
      requires disk.files == Install(start, entries, done)
      modifies this`entries, disk
      ensures disk.faults >= old(disk.faults) && (complete <==> disk.NoFaults())
      ensures disk.Valid() && ScratchEntries(s0)
      ensures |undone| == |entries| == |old(entries)|
      ensures disk.files == Undo(Install(start, old(entries), done), old(entries), undone)
      ensures forall i :: 0 <= i < |entries| ==> entries[i] == AfterUndo(old(entries)[i], undone[i])
      ensures complete ==> forall i :: 0 <= i < done ==> undone[i]
      ensures auditTemporary == None && old(Tidy(before)) ==> Tidy(before)
      ensures old(disk.trace) <= disk.trace
      ensures GoodTrace(formats, site, Some(c), before, disk.trace, |old(disk.trace)|, complete)
    {
      ghost var marked, installed := entries, disk.files;
      complete, undone := RollbackRestore(start, done);
      if auditTemporary == None && old(Tidy(before)) { OwnedUndone(installed, before, marked, undone, entries); }
      UndoTraceIsGood(c, names, before, s0, start, marked, done, undone, disk.trace, |old(disk.trace)|, complete);
      UndoneIsScratch(marked, undone, entries, s0);
    }

    method Finish(c: Contents, ghost before: Files, ghost s0: nat)
      requires disk.Valid() && ScratchEntries(s0)
      requires Acceptable(formats, site, c) && RestoredTo(formats, site, c, before, disk.files)
      modifies this`entries, disk
      ensures disk.faults >= old(disk.faults)
      ensures disk.Valid() && ScratchEntries(s0)
      ensures RestoredTo(formats, site, c, before, disk.files)
      ensures old(Tidy(before)) ==> Tidy(before)
      ensures disk.NoFaults() ==> PrunedFor(c)
      ensures old(disk.trace) <= disk.trace
      ensures GoodTrace(formats, site, Some(c), before, disk.trace, |old(disk.trace)|, true)
    {
      ghost var installed := disk.files;
      DiscardRollbacks(s0, before);
      ghost var discarded, middle := disk.files, disk.trace;
      ScratchKeepsRestored(formats, site, c, before, installed, discarded);
      forall t | |old(disk.trace)| <= t < |middle| ensures GoodState(formats, site, Some(c), before, middle[t], true) {
        ScratchKeepsRestored(formats, site, c, before, installed, middle[t]);
        RestoredIsGood(formats, site, c, before, middle[t], true);
      }
      var referenced := ReferencedNames(formats, site.directory, c.config[site.mainName]);
      Prune(referenced.value);
      PruneKeepsRestored(formats, site, c, before, discarded, disk.files);
      forall t | |old(disk.trace)| <= t < |disk.trace|
        ensures GoodState(formats, site, Some(c), before, disk.trace[t], true)
      {
        if t < |middle| {
          assert disk.trace[t] == middle[t];
        } else {
          PruneKeepsRestored(formats, site, c, before, discarded, disk.trace[t]);
          RestoredIsGood(formats, site, c, before, disk.trace[t], true);
        }
      }
    }

    /** The order in which the files but the main configuration are staged: the source sorts, any order will do. */
    method NamesButMain(config: map<string, Bytes>) returns (names: seq<string>)
      ensures forall i :: 0 <= i < |names| ==> names[i] in config && names[i] != site.mainName
      ensures forall n :: n in config && n != site.mainName ==> n in names
      ensures forall i, j :: 0 <= i < j < |names| ==> names[i] != names[j]
    {
      names := [];
      var rest := config.Keys - {site.mainName};
      while rest != {}
        invariant rest <= config.Keys - {site.mainName}
        invariant forall i :: 0 <= i < |names| ==> names[i] in config && names[i] != site.mainName && names[i] !in rest
        invariant forall n :: n in config && n != site.mainName ==> n in names || n in rest
        invariant forall i, j :: 0 <= i < j < |names| ==> names[i] != names[j]
        decreases rest
      {
        var n :| n in rest;
        rest := rest - {n};
        names := names + [n];
      }
    }

    /** An accepted archive, none of whose existing targets is too large to be snapshot. */
    ghost predicate Restorable(members: seq<Member>, files: Files) {
      Accepted(formats, site, members) && SitesSmall(site, files, ReadAll(members).value)
    }

    /** Reading and checking the archive. */
    method ReadAccepted(members: seq<Member>) returns (accepted: Option<Contents>)
      requires disk.Valid() && auditTemporary == None && site.auditFile.Entry?
      modifies this`auditTemporary, disk
      ensures disk.faults >= old(disk.faults)
      ensures Harmless(old(disk.files), old(disk.serial), old(disk.trace)) && AuditTemporaryIsScratch(old(disk.serial))
      ensures accepted.Some? ==>
        && Accepted(formats, site, members)
        && accepted == ReadAll(members)
        && AuditStaged(accepted.value.audit, old(disk.serial))
        && ReferencedNames(formats, site.directory, accepted.value.config[site.mainName]).Some?
      ensures disk.OneFault() ==> Tidy(old(disk.files))
      ensures disk.NoFaults() && Accepted(formats, site, members) ==> accepted.Some?
    {
      var read := ReadArchive(members);
      if read.None? { return None; }
      var c := read.value;
      var ok := disk.Consult();
      if !ok || !Acceptable(formats, site, c) { return None; }
      ReadNamesAreSafe(members);
      AcceptedSecretsArchived(formats, site, c);
      if site.auditFile.directory == site.directory && site.auditFile.name in c.config {
        assert !NoOverlap(site, c) by { assert Entry(site.directory, site.auditFile.name) == site.auditFile; }
        return None;
      }
      accepted := read;
    }

    /** Everything up to the first replacement. */
    method PrepareRestore(members: seq<Member>) returns (prepared: Option<Contents>, ghost names: seq<string>)
      requires disk.Valid() && entries == [] && auditTemporary == None && site.auditFile.Entry?
      modifies this, disk
      ensures disk.faults >= old(disk.faults)
      ensures Harmless(old(disk.files), old(disk.serial), old(disk.trace))
      ensures ScratchEntries(old(disk.serial)) && AuditTemporaryIsScratch(old(disk.serial))
      ensures prepared.Some? ==>
        && Accepted(formats, site, members)
        && prepared == ReadAll(members)
        && auditTemporary == None
        && Marked(entries, 0)
        && Ready(site, prepared.value, names, old(disk.files), old(disk.serial), disk.files, entries)
        && ReferencedNames(formats, site.directory, prepared.value.config[site.mainName]).Some?
      ensures disk.OneFault() ==> Tidy(old(disk.files))
      ensures disk.NoFaults() && Restorable(members, old(disk.files)) ==> prepared.Some?
    {
      ghost var before, s0, startTrace := disk.files, disk.serial, disk.trace;
      prepared := ReadAccepted(members);
      if prepared.None? { return None, []; }
      var ok;
      ok, names := StageAndSnapshot(prepared.value, before, s0, startTrace);
      if !ok { prepared := None; }
    }

    method StageAndSnapshot(c: Contents, ghost before: Files, ghost s0: nat, ghost startTrace: seq<Files>)
      returns (ok: bool, ghost names: seq<string>)
      requires Harmless(before, s0, startTrace) && entries == [] && AuditStaged(c.audit, s0)
      requires c.audit.Some? && site.mainName in c.config && site.auditFile.Entry? && NoOverlap(site, c)
      modifies this, disk
      ensures disk.faults >= old(disk.faults)
      ensures Harmless(before, s0, startTrace) && ScratchEntries(s0) && AuditTemporaryIsScratch(s0)
      ensures ok ==>
                auditTemporary == None && Marked(entries, 0) && Ready(site, c, names, before, s0, disk.files, entries)
      ensures disk.OneFault() && old(Tidy(before)) ==> Tidy(before)
      ensures disk.NoFaults() && SitesSmall(site, before, c) ==> ok
    {
      var others := NamesButMain(c.config);
      names := others;
      ok := StageAll(others, c, before, s0, startTrace);
      if !ok { return; }
      ok := SnapshotPlan(c, names, before, s0, startTrace);
    }

    method SnapshotPlan(c: Contents, ghost names: seq<string>, ghost before: Files, ghost s0: nat,
                        ghost startTrace: seq<Files>)
      returns (ok: bool)
      requires Harmless(before, s0, startTrace) && ScratchEntries(s0) && StagedApart() && SnapshotsTaken(0, disk.serial)
      requires c.audit.Some? && site.mainName in c.config && site.auditFile.Entry?
      requires OtherNames(names, c, site.mainName) && NoOverlap(site, c) && PlanOf(site, c, names, disk.files, entries)
      modifies this`entries, disk
      ensures disk.faults >= old(disk.faults)
      ensures Harmless(before, s0, startTrace) && ScratchEntries(s0)
      ensures ok ==> Marked(entries, 0) && Ready(site, c, names, before, s0, disk.files, entries)
      ensures disk.OneFault() && old(Tidy(before)) ==> Tidy(before)
      ensures disk.NoFaults() && SitesSmall(site, before, c) ==> ok
    {
      ghost var staged, plan, s1 := disk.files, entries, disk.serial;
      if SitesSmall(site, before, c) { PlanTargetsSmall(site, c, names, before, s0, staged, plan); }
      ok := SnapshotAll(before, s0, startTrace);
      if !ok { return; }
      PlanSurvivesSnapshots(site, c, names, staged, disk.files, plan, entries, s1);
      PlanTargetsDiffer(site, c, names, disk.files, entries);
      SnapshotsPrepared(s1, s0);
    }

    lemma SnapshotsPrepared(s1: nat, s0: nat)
      requires SnapshotsTaken(|entries|, s1) && StagedApart() && ScratchEntries(s0)
      requires forall i, j :: 0 <= i < j < |entries| ==> entries[i].destination != entries[j].destination
      ensures Prepared(disk.files, entries)
    {
      forall i | 0 <= i < |entries| ensures Staged(disk.files, entries[i]) && SnapshotTaken(disk.files, entries[i]) {
        assert IsScratch(entries[i], s0);
      }
    }

    /** No managed secret is left that the restored configuration does not refer to. */
    ghost predicate Pruned(members: seq<Member>)
      reads this, disk
      requires Accepted(formats, site, members)
    {
      var main := ReadAll(members).value.config[site.mainName];
      var referenced := ReferencedNames(formats, site.directory, main);
      referenced.Some? && NothingPrunable(disk.files, site.directory, referenced.value)
    }

    /** The try block of restore_backup. */
    method Attempt(members: seq<Member>) returns (outcome: RestoreOutcome)
      requires disk.Valid() && entries == [] && auditTemporary == None && site.auditFile.Entry?
      modifies this, disk
      ensures disk.faults >= old(disk.faults)
      ensures disk.Valid() && ScratchEntries(old(disk.serial)) && AuditTemporaryIsScratch(old(disk.serial))
      ensures outcome != Failed ==> Accepted(formats, site, members)
      ensures disk.OneFault() ==> outcome != RollbackIncomplete && Tidy(old(disk.files))
      ensures outcome == Restored ==> RestoredTo(formats, site, ReadAll(members).value, old(disk.files), disk.files)
      ensures outcome == Failed ==> EntriesSame(old(disk.files), disk.files)
      ensures outcome == RollbackIncomplete ==> SnapshotsApart(entries) && auditTemporary == None
      ensures outcome == RollbackIncomplete ==>
                && AllRecoverable(old(disk.files), disk.files, entries)
                && Between(site, ReadAll(members), old(disk.files), disk.files)
      ensures old(disk.trace) <= disk.trace
      ensures GoodTrace(formats, site, ReadAll(members), old(disk.files), disk.trace, |old(disk.trace)|,
                        outcome != RollbackIncomplete)
      ensures disk.NoFaults() && Restorable(members, old(disk.files)) ==> outcome == Restored && Pruned(members)
    {
      ghost var before, s0, startTrace := disk.files, disk.serial, disk.trace;
      ghost var names: seq<string>;
      var prepared;
      prepared, names := PrepareRestore(members);
      ScratchIsGood(formats, site, ReadAll(members), before, disk.trace, startTrace, s0, true);
      if prepared.None? { return Failed; }
      ghost var middle := disk.trace;
      outcome := InstallOrRollBack(prepared.value, names, before, s0);
      GoodTraceExtends(formats, site, ReadAll(members), before, middle, disk.trace, |startTrace|,
                       outcome != RollbackIncomplete);
    }

    /**
      How a restore of this archive may end: only a good one gets past the checks, one that is restored has all its
      files in place, and one that fails leaves every file alone.
    */
    ghost predicate Ends(outcome: RestoreOutcome, members: seq<Member>, before: Files, after: Files) {
      && (outcome != Failed ==> GoodArchive(formats, site, members))
      && (outcome == Restored ==> AllRestored(formats, site, members, before, after))
      && (outcome == Failed ==> EntriesSame(before, after))
    }

    lemma EndsWell(outcome: RestoreOutcome, members: seq<Member>, before: Files, after: Files)
      requires outcome != Failed ==> Accepted(formats, site, members)
      requires outcome == Restored ==> RestoredTo(formats, site, ReadAll(members).value, before, after)
      requires outcome == Failed ==> EntriesSame(before, after)
      ensures Ends(outcome, members, before, after)
    {
      AcceptedIff(formats, site, members);
      if outcome == Restored { RestoredIff(formats, site, members, before, after); }
    }

    /** A good archive whose targets can be kept for a rollback. */
    ghost predicate CanRestore(members: seq<Member>, files: Files) {
      GoodArchive(formats, site, members) && TargetsFit(site, members, files)
    }

    lemma CanRestoreIff(members: seq<Member>, files: Files)
      ensures Restorable(members, files) <==> CanRestore(members, files)
    {
      AcceptedIff(formats, site, members);
      if Accepted(formats, site, members) { TargetsFitIff(formats, site, members, files); }
    }

    lemma PrunedNone(members: seq<Member>)
      requires Accepted(formats, site, members) && Pruned(members)
      ensures NoneUnneeded(formats, site, members, disk.files)
    {
      NoneUnneededIff(formats, site, members, disk.files);
    }

    /** restore_backup as its caller sees it. */
    method RestoreBackup(members: seq<Member>) returns (outcome: RestoreOutcome)
      requires disk.Valid() && entries == [] && auditTemporary == None && site.auditFile.Entry?
      modifies this, disk
      ensures disk.faults >= old(disk.faults)
      ensures disk.Valid()
      ensures Ends(outcome, members, old(disk.files), disk.files)
      ensures disk.OneFault() ==> outcome != RollbackIncomplete
      ensures disk.NoFaults() || (disk.OneFault() && CanRestore(members, old(disk.files)) && outcome == Failed) ==>
                NoNewTemporaries(old(disk.files), disk.files)
      ensures outcome == RollbackIncomplete ==>
                && AllRecoverable(old(disk.files), disk.files, entries)
                && Between(site, ReadAll(members), old(disk.files), disk.files)
      ensures GoodTrace(formats, site, ReadAll(members), old(disk.files), disk.trace, |old(disk.trace)|,
                        outcome != RollbackIncomplete)
      ensures disk.NoFaults() && CanRestore(members, old(disk.files)) ==>
                outcome == Restored && NoneUnneeded(formats, site, members, disk.files)
    {
      ghost var before := disk.files;
      outcome := RestoreChecked(members);
      EndsWell(outcome, members, before, disk.files);
      CanRestoreIff(members, before);
      if disk.NoFaults() && CanRestore(members, before) { PrunedNone(members); }
    }

    /** The destination directories are checked before, and the scratch files removed after, the try block. */
    method RestoreChecked(members: seq<Member>) returns (outcome: RestoreOutcome)
      requires disk.Valid() && entries == [] && auditTemporary == None && site.auditFile.Entry?
      modifies this, disk
      ensures disk.faults >= old(disk.faults)
      ensures disk.Valid()
      ensures outcome != Failed ==> Accepted(formats, site, members)
      ensures disk.OneFault() ==> outcome != RollbackIncomplete
      ensures disk.NoFaults() || (disk.OneFault() && Restorable(members, old(disk.files)) && outcome == Failed) ==>
                NoNewTemporaries(old(disk.files), disk.files)
      ensures outcome == Restored ==> RestoredTo(formats, site, ReadAll(members).value, old(disk.files), disk.files)
      ensures outcome == Failed ==> EntriesSame(old(disk.files), disk.files)
      ensures outcome == RollbackIncomplete ==>
                && AllRecoverable(old(disk.files), disk.files, entries)
                && Between(site, ReadAll(members), old(disk.files), disk.files)
      ensures GoodTrace(formats, site, ReadAll(members), old(disk.files), disk.trace, |old(disk.trace)|,
                        outcome != RollbackIncomplete)
      ensures disk.NoFaults() && Restorable(members, old(disk.files)) ==> outcome == Restored && Pruned(members)
    {
      ghost var before, startTrace := disk.files, disk.trace;
      var ok := EnsureSafeDirectories();
      if !ok { return Failed; }
      ghost var s0 := disk.serial;
      outcome := Attempt(members);
      CleanUp(outcome, members, before, s0, |startTrace|);
    }

    /** `_ensure_safe_directory` for the two directories. */
    method EnsureSafeDirectories() returns (ok: bool)
      requires disk.Valid()
      modifies disk
      ensures disk.Valid() && disk.files == old(disk.files) && disk.serial == old(disk.serial)
      ensures old(disk.trace) <= disk.trace && disk.faults >= old(disk.faults) && (ok <==> disk.NoFaults())
      ensures forall t :: |old(disk.trace)| <= t < |disk.trace| ==> disk.trace[t] == disk.files
    {
      ok := disk.Consult();
      if ok { ok := disk.Consult(); }
    }

    /** The finally block. */
    method CleanUp(outcome: RestoreOutcome, ghost members: seq<Member>, ghost before: Files, ghost s0: nat,
                   ghost from: nat)
      requires disk.Valid() && ScratchEntries(s0) && AuditTemporaryIsScratch(s0)
      requires outcome == RollbackIncomplete ==>
                 && SnapshotsApart(entries) && auditTemporary == None && AllRecoverable(before, disk.files, entries)
                 && Between(site, ReadAll(members), before, disk.files)
      requires outcome == Failed ==> EntriesSame(before, disk.files)
      requires outcome == Restored ==>
                 Accepted(formats, site, members) &&
                 RestoredTo(formats, site, ReadAll(members).value, before, disk.files)
      requires from <= |disk.trace|
      requires GoodTrace(formats, site, ReadAll(members), before, disk.trace, from, outcome != RollbackIncomplete)
      modifies this`entries, disk
      ensures disk.faults >= old(disk.faults)
      ensures disk.Valid() && EntriesSame(old(disk.files), disk.files)
      ensures outcome == RollbackIncomplete ==>
                AllRecoverable(before, disk.files, entries) && Between(site, ReadAll(members), before, disk.files)
      ensures GoodTrace(formats, site, ReadAll(members), before, disk.trace, from, outcome != RollbackIncomplete)
      ensures disk.NoFaults() ==>
        && (forall i :: 0 <= i < |old(entries)| ==> Gone(disk.files, old(entries)[i], outcome == RollbackIncomplete))
        && (auditTemporary.Some? ==> auditTemporary.value !in disk.files)
      ensures disk.NoFaults() && outcome != RollbackIncomplete && old(Tidy(before)) ==>
                NoNewTemporaries(before, disk.files)
    {
      ghost var attempted, trace, plan := disk.files, disk.trace, entries;
      var preserve := outcome == RollbackIncomplete;
      CleanupRestoreEntries(preserve, s0);
      ghost var cleaned := disk.files;
      if auditTemporary.Some? {
        var ok := Discard(auditTemporary.value);
        TidiedTwice(attempted, cleaned, disk.files, StagedFiles(plan), preserve);
      }
      if disk.NoFaults() { StaysGone(cleaned, disk.files, plan, |plan|, preserve); }
      if disk.NoFaults() && !preserve && old(Tidy(before)) {
        AllGone(attempted, disk.files, before, plan, auditTemporary);
      }
      forall t | |trace| <= t < |disk.trace|
        ensures GoodState(formats, site, ReadAll(members), before, disk.trace[t], !preserve)
      {
        TidiedIsGood(outcome, members, before, attempted, disk.trace[t], plan, s0);
      }
      GoodTraceExtends(formats, site, ReadAll(members), before, trace, disk.trace, from, !preserve);
      if preserve {
        CleanupKeepsRecoverable(before, attempted, disk.files, entries);
        BetweenStays(site, ReadAll(members), before, attempted, disk.files);
      }
    }

    lemma AllGone(files: Files, after: Files, start: Files, plan: seq<RestoreEntry>, audit: Option<Path>)
      requires AllOwned(files, start, plan, audit) && forall p :: p in after ==> p in files
      requires forall i :: 0 <= i < |plan| ==> Gone(after, plan[i], false)
      requires audit.Some? ==> audit.value !in after
      ensures NoNewTemporaries(start, after)
    {
    }

    /** Tidying up changes neither how a restore has ended nor what it guarantees. */
    lemma TidiedIsGood(outcome: RestoreOutcome, members: seq<Member>, before: Files, files: Files, after: Files,
                       plan: seq<RestoreEntry>, s0: nat)
      requires Tidied(files, after, StagedFiles(plan), outcome == RollbackIncomplete)
      requires forall i :: 0 <= i < |plan| ==> IsScratch(plan[i], s0)
      requires outcome == Failed ==> EntriesSame(before, files)
      requires outcome == Restored ==>
                 Accepted(formats, site, members) && RestoredTo(formats, site, ReadAll(members).value, before, files)
      requires outcome == RollbackIncomplete ==>
                 SnapshotsApart(plan) && AllRecoverable(before, files, plan) &&
                 Between(site, ReadAll(members), before, files)
      ensures GoodState(formats, site, ReadAll(members), before, after, outcome != RollbackIncomplete)
    {
      match outcome
      case Restored =>
        ScratchKeepsRestored(formats, site, ReadAll(members).value, before, files, after);
        RestoredIsGood(formats, site, ReadAll(members).value, before, after, true);
      case Failed =>
        forall p: Path | p.Entry?
          ensures Same(before, after, p)
        {
          assert Same(before, files, p) && Same(files, after, p);
        }
        UnchangedIsGood(formats, site, ReadAll(members), before, after, true);
      case RollbackIncomplete =>
        CleanupKeepsRecoverable(before, files, after, plan);
        RecoverableIsHeld(before, after, plan, s0);
        BetweenStays(site, ReadAll(members), before, files, after);
    }
  }

  /** create_backup: the error result stands for each of its BackupErrors. */
  method CreateBackup(disk: Disk, f: Formats, site: Site)
    returns (archive: Option<seq<Member>>, ghost names: seq<string>, ghost config: map<string, Bytes>,
             ghost referenced: set<string>)
    requires disk.Valid()
    modifies disk
    ensures disk.faults >= old(disk.faults)
    ensures disk.Valid() && OnlyScratch(old(disk.files), disk.files, old(disk.serial))
    ensures archive.Some? ==>
      && Entry(site.directory, site.mainName) in old(disk.files)
      && site.auditFile in old(disk.files)
      && ReferencedNames(f, site.directory, old(disk.files)[Entry(site.directory, site.mainName)]) == Some(referenced)
      && IsConfigSet(old(disk.files), site, referenced, config)
      && Enumerates(names, config)
      && var audit := f.auditSnapshot(old(disk.files)[site.auditFile]);
         WithinLimits(names, config, audit) && archive == Some(ArchiveOf(f, site, names, config, audit))
    ensures archive.Some? ==> IsBackupOf(f, site, old(disk.files), archive.value)
    ensures disk.NoFaults() ==> disk.files == old(disk.files)
    ensures disk.NoFaults() && Archivable(f, site, old(disk.files)) ==> archive.Some?
  {
    var order, files, refs;
    names, config, referenced := [], map[], {};
    order, files, refs := CollectConfig(disk, f, site);
    if refs.None? { return None, [], map[], {}; }
    CollectedIsConfigSet(disk.files, site, refs.value, Listed(disk.files, site.directory), order, files);
    var audit := SnapshotAudit(disk, f, site);
    if audit.None? { return None, [], map[], {}; }
    ArchiveIsBackup(f, site, old(disk.files), refs.value, order, files);
    archive, names, config, referenced := Some(ArchiveOf(f, site, order, files, audit.value)), order, files, refs.value;
  }

  /** The database goes through a temporary file, which is removed again. */
  method SnapshotAudit(disk: Disk, f: Formats, site: Site) returns (audit: Option<Bytes>)
    requires disk.Valid()
    modifies disk
    ensures disk.faults >= old(disk.faults) && (disk.NoFaults() ==> disk.files == old(disk.files))
    ensures disk.Valid() && OnlyScratch(old(disk.files), disk.files, old(disk.serial))
    ensures audit.Some? ==>
      && site.auditFile in old(disk.files)
      && audit == Some(f.auditSnapshot(old(disk.files)[site.auditFile])) && |audit.value| <= MAX_AUDIT_BYTES
    ensures disk.NoFaults() && site.auditFile in old(disk.files) ==>
              |f.auditSnapshot(old(disk.files)[site.auditFile])| <= MAX_AUDIT_BYTES ==> audit.Some?
  {
    var ok := disk.Consult();
    if !ok || site.auditFile !in disk.files { return None; }
    var content := f.auditSnapshot(disk.files[site.auditFile]);
    var temporary := disk.CreateTemporary(site.auditFile.directory, content);
    if temporary.None? { return None; }
    ok := disk.Unlink(temporary.value, true);
    audit := if ok && |content| <= MAX_AUDIT_BYTES then Some(content) else None;
  }

  /** The main configuration and its references are read first; `referenced` is None for a BackupError. */
  method CollectConfig(disk: Disk, f: Formats, site: Site)
    returns (names: seq<string>, config: map<string, Bytes>, referenced: Option<set<string>>)
    requires disk.Valid()
    modifies disk
    ensures disk.faults >= old(disk.faults)
    ensures disk.Valid() && disk.files == old(disk.files) && disk.serial == old(disk.serial)
    ensures referenced.Some? ==>
      && Entry(site.directory, site.mainName) in disk.files
      && ReferencedNames(f, site.directory, disk.files[Entry(site.directory, site.mainName)]) == referenced
      && Collected(disk.files, site, referenced.value, Listed(disk.files, site.directory), names, config)
      && TotalSize(names, config) <= MAX_CONFIG_TOTAL_BYTES
    ensures disk.NoFaults() && Archivable(f, site, disk.files) ==> referenced.Some?
  {
    names, config, referenced := [], map[], None;
    var main := Entry(site.directory, site.mainName);
    var ok := disk.Consult();
    if !ok || main !in disk.files || |disk.files[main]| > MAX_CONFIG_FILE_BYTES { return; }
    var refs := ReferencedNames(f, site.directory, disk.files[main]);
    ok := disk.Consult();
    if !ok || refs.None? { return; }
    names, config := [site.mainName], map[site.mainName := disk.files[main]];
    CollectsMain(disk.files, site, refs.value);
    ok, names, config := CollectOthers(disk, site, refs.value, names, config, |disk.files[main]|);
    if ok { referenced := refs; }
  }

  function Listed(files: Files, directory: string): set<string> {
    set p | p in files && p.Entry? && p.directory == directory :: p.name
  }

  /** The loop over the configuration directory. */
  method CollectOthers(disk: Disk, site: Site, referenced: set<string>, main: seq<string>,
                       mainConfig: map<string, Bytes>, size: nat)
    returns (ok: bool, names: seq<string>, config: map<string, Bytes>)
    requires disk.Valid() && Collected(disk.files, site, referenced, {}, main, mainConfig)
    requires TotalSize(main, mainConfig) == size <= MAX_CONFIG_TOTAL_BYTES
    modifies disk
    ensures disk.faults >= old(disk.faults)
    ensures disk.Valid() && disk.files == old(disk.files) && disk.serial == old(disk.serial)
    ensures ok ==> Collected(disk.files, site, referenced, Listed(disk.files, site.directory), names, config)
    ensures ok ==> TotalSize(names, config) <= MAX_CONFIG_TOTAL_BYTES
    ensures disk.NoFaults() && FilesFit(disk.files, site, referenced) ==> ok
  {
    ok, names, config := true, main, mainConfig;
    var total := size;
    var rest := Listed(disk.files, site.directory);
    ghost var done: set<string> := {};
    while rest != {}
      invariant disk.Valid() && disk.files == old(disk.files) && disk.serial == old(disk.serial)
      invariant ok && done + rest == Listed(disk.files, site.directory) && done !! rest
      invariant Collected(disk.files, site, referenced, done, names, config)
      invariant total == TotalSize(names, config) <= MAX_CONFIG_TOTAL_BYTES
      invariant disk.faults >= old(disk.faults)
      decreases rest
    {
      var name :| name in rest;
      ok, names, config, total := CollectOne(disk, site, referenced, done, name, names, config, total);
      if !ok { return; }
      rest, done := rest - {name}, done + {name};
    }
    assert done == Listed(disk.files, site.directory);
  }

  /** One file of the directory: archived, or skipped, or one too many or too large. */
  method CollectOne(disk: Disk, site: Site, referenced: set<string>, ghost done: set<string>, name: string,
                    names: seq<string>, config: map<string, Bytes>, total: nat)
    returns (ok: bool, names': seq<string>, config': map<string, Bytes>, total': nat)
    requires disk.Valid() && Collected(disk.files, site, referenced, done, names, config) && name !in done
    requires Entry(site.directory, name) in disk.files && total == TotalSize(names, config) <= MAX_CONFIG_TOTAL_BYTES
    modifies disk
    ensures disk.faults >= old(disk.faults)
    ensures disk.Valid() && disk.files == old(disk.files) && disk.serial == old(disk.serial)
    ensures ok ==> Collected(disk.files, site, referenced, done + {name}, names', config')
    ensures ok ==> total' == TotalSize(names', config') <= MAX_CONFIG_TOTAL_BYTES
    ensures disk.NoFaults() && FilesFit(disk.files, site, referenced) ==> ok
  {
    ok, names', config', total' := true, names, config, total;
    if SafeFileName(name) && name != site.mainName && (ManagedSecretName(name) ==> name in referenced) {
      ok := disk.Consult();
      var content := disk.files[Entry(site.directory, name)];
      if total + |content| > MAX_CONFIG_TOTAL_BYTES {
        TooMuch(disk.files, site, referenced, done, names, config, name);
      }
      if !ok || |content| > MAX_CONFIG_FILE_BYTES || total + |content| > MAX_CONFIG_TOTAL_BYTES {
        return false, [], map[], 0;
      }
      CollectsOneMore(disk.files, site, referenced, done, names, config, name);
      TotalSizeOneMore(names, config, name, content);
      names', config', total' := names + [name], config[name := content], total + |content|;
    } else {
      CollectSkips(disk.files, site, referenced, done, names, config, name);
    }
  }

  /** The names visited so far have been archived or skipped as create_backup decides. */
  ghost predicate Collected(files: Files, site: Site, referenced: set<string>, done: set<string>,
                            names: seq<string>, config: map<string, Bytes>)
  {
    && Enumerates(names, config)
    && site.mainName in config
    && (forall n :: n in config ==>
          && (n == site.mainName || n in done)
          && Archived(files, site, referenced, n)
          && config[n] == files[Entry(site.directory, n)]
          && |config[n]| <= MAX_CONFIG_FILE_BYTES)
    && (forall n :: n in done && Archived(files, site, referenced, n) ==> n in config)
  }

  lemma TooMuch(files: Files, site: Site, referenced: set<string>, done: set<string>,
                names: seq<string>, config: map<string, Bytes>, name: string)
    requires Collected(files, site, referenced, done, names, config) && name !in done && name != site.mainName
    requires Archived(files, site, referenced, name)
    requires TotalSize(names, config) + |files[Entry(site.directory, name)]| > MAX_CONFIG_TOTAL_BYTES
    ensures !FilesFit(files, site, referenced)
  {
    var content := files[Entry(site.directory, name)];
    TotalSizeOneMore(names, config, name, content);
    assert SomeArchived(files, site, referenced, names + [name], config[name := content]);
  }

  lemma CollectsOneMore(files: Files, site: Site, referenced: set<string>, done: set<string>,
                        names: seq<string>, config: map<string, Bytes>, name: string)
    requires Collected(files, site, referenced, done, names, config) && name !in done && name != site.mainName
    requires Archived(files, site, referenced, name) && |files[Entry(site.directory, name)]| <= MAX_CONFIG_FILE_BYTES
    ensures name !in config
    ensures Collected(files, site, referenced, done + {name}, names + [name],
                      config[name := files[Entry(site.directory, name)]])
  {
  }

  lemma CollectSkips(files: Files, site: Site, referenced: set<string>, done: set<string>,
                     names: seq<string>, config: map<string, Bytes>, name: string)
    requires Collected(files, site, referenced, done, names, config)
    requires name == site.mainName || !Archived(files, site, referenced, name)
    ensures Collected(files, site, referenced, done + {name}, names, config)
  {
  }

  lemma CollectsMain(files: Files, site: Site, referenced: set<string>)
    requires Entry(site.directory, site.mainName) in files
    requires |files[Entry(site.directory, site.mainName)]| <= MAX_CONFIG_FILE_BYTES
    ensures var content := files[Entry(site.directory, site.mainName)];
            && Collected(files, site, referenced, {}, [site.mainName], map[site.mainName := content])
            && TotalSize([site.mainName], map[site.mainName := content]) == |content|
  {
    assert [site.mainName][..0] == [];
  }

  lemma CollectedIsConfigSet(files: Files, site: Site, referenced: set<string>, done: set<string>,
                             names: seq<string>, config: map<string, Bytes>)
    requires Collected(files, site, referenced, done, names, config)
    requires forall n :: Entry(site.directory, n) in files ==> n in done
    ensures IsConfigSet(files, site, referenced, config)
  {
  }
}
