/** Installing a backup and undoing it, as functions on the files, and what they guarantee together. */
module RestoreSpec {
  import opened Wrappers
  import opened Disk

  datatype RestoreEntry = RestoreEntry(destination: Path, staged: Path, rollback: Option<Path>, installed: bool)

  ghost predicate DistinctFiles(entries: seq<RestoreEntry>) {
    && (forall i, j :: 0 <= i < j < |entries| ==> entries[i].destination != entries[j].destination)
    && (forall i, j :: 0 <= i < j < |entries| ==> entries[i].staged != entries[j].staged)
    && (forall i, j :: 0 <= i < |entries| && 0 <= j < |entries| ==> entries[j].rollback != Some(entries[i].staged))
    && (forall i, j :: 0 <= i < j < |entries| ==>
          entries[i].rollback.None? || entries[i].rollback != entries[j].rollback)
  }

  /** The rollback file holds the bytes of the destination; without one the destination does not exist. */
  predicate SnapshotTaken(files: Files, e: RestoreEntry) {
    match e.rollback
    case Some(r) => r.Temporary? && r in files && e.destination in files && files[r] == files[e.destination]
    case None => e.destination !in files
  }

  predicate Staged(files: Files, e: RestoreEntry) {
    e.destination.Entry? && e.staged.Temporary? && e.staged in files
  }

  /** Everything is staged and every active target has its snapshot: the state just before the first replacement. */
  ghost predicate Prepared(files: Files, entries: seq<RestoreEntry>) {
    && DistinctFiles(entries)
    && forall i :: 0 <= i < |entries| ==> Staged(files, entries[i]) && SnapshotTaken(files, entries[i])
  }

  /** Exactly the first k entries are marked as installed. */
  predicate Marked(entries: seq<RestoreEntry>, k: nat) {
    forall i :: 0 <= i < |entries| ==> (entries[i].installed <==> i < k)
  }

  /** The files after the first k replacements of the install loop. */
  function Install(files: Files, entries: seq<RestoreEntry>, k: nat): Files
    requires k <= |entries|
  {
    if k == 0 then files
    else Moved(Install(files, entries, k - 1), entries[k - 1].staged, entries[k - 1].destination)
  }

  function UndoOne(files: Files, e: RestoreEntry): Files {
    match e.rollback
    case Some(r) => Moved(files, r, e.destination)
    case None => Without(files, e.destination)
  }

  /**
    The files after the rollback loop has visited the last |ok| entries, last one first; ok[j] tells whether the
    undo of the j-th of them succeeded.
  */
  function Undo(files: Files, entries: seq<RestoreEntry>, ok: seq<bool>): Files
    requires |ok| <= |entries|
  {
    if ok == [] then files
    else
      var later := Undo(files, entries, ok[1..]);
      var e := entries[|entries| - |ok|];
      if e.installed && ok[0] then UndoOne(later, e) else later
  }

  /** Entry i has its new bytes. */
  predicate IsNew(start: Files, files: Files, e: RestoreEntry)
    requires e.staged in start
  {
    e.destination in files && files[e.destination] == start[e.staged]
  }

  ghost predicate IsTarget(entries: seq<RestoreEntry>, p: Path) {
    exists i :: 0 <= i < |entries| && entries[i].destination == p
  }

  ghost predicate OthersSame(start: Files, files: Files, entries: seq<RestoreEntry>) {
    forall p: Path :: p.Entry? && !IsTarget(entries, p) ==> Same(start, files, p)
  }

  /** Before its turn an entry is untouched and still staged; afterwards it is new; its snapshot never changes. */
  predicate InstallState(start: Files, files: Files, e: RestoreEntry, done: bool)
    requires e.staged in start
  {
    && (if done then IsNew(start, files, e) else Same(start, files, e.destination) && Same(start, files, e.staged))
    && (e.rollback.Some? ==> Same(start, files, e.rollback.value))
  }

  lemma InstallFrame(start: Files, before: Files, entries: seq<RestoreEntry>, n: nat, i: nat, done: bool)
    requires Prepared(start, entries) && n < |entries| && i < |entries|
    requires InstallState(start, before, entries[n], false) && InstallState(start, before, entries[i], done)
    ensures InstallState(start, Moved(before, entries[n].staged, entries[n].destination), entries[i],
                         if i == n then true else done)
  {
    assert Staged(start, entries[i]) && Staged(start, entries[n]) && SnapshotTaken(start, entries[i]);
    assert entries[i].rollback != Some(entries[n].staged);
    assert i != n ==> entries[i].destination != entries[n].destination && entries[i].staged != entries[n].staged;
  }

  /** New on the first k entries, old on the rest; nothing else changed, and every snapshot is intact. */
  lemma {:induction false} InstalledPrefix(start: Files, entries: seq<RestoreEntry>, k: nat)
    requires Prepared(start, entries) && k <= |entries|
    ensures var files := Install(start, entries, k);
            && (forall i :: 0 <= i < |entries| ==> InstallState(start, files, entries[i], i < k))
            && OthersSame(start, files, entries)
  {
    if k == 0 {
    } else {
      InstalledPrefix(start, entries, k - 1);
      var before := Install(start, entries, k - 1);
      var e := entries[k - 1];
      forall i | 0 <= i < |entries| ensures InstallState(start, Install(start, entries, k), entries[i], i < k) {
        InstallFrame(start, before, entries, k - 1, i, i < k - 1);
      }
      assert Staged(start, e) && IsTarget(entries, e.destination);
      forall p: Path | p.Entry? && !IsTarget(entries, p) ensures Same(start, Install(start, entries, k), p) {
        assert Same(start, before, p);
      }
    }
  }

  /** Entry i is installed and not yet, or not successfully, undone. */
  predicate StillNew(i: nat, k: nat, n: nat, ok: seq<bool>)
    requires i < n && |ok| <= n
  {
    i < k && (i < n - |ok| || !ok[i - (n - |ok|)])
  }

  /** A new entry still has its snapshot; any other is as it was. */
  predicate EntryState(start: Files, files: Files, e: RestoreEntry, stillNew: bool)
    requires e.staged in start
  {
    if stillNew then IsNew(start, files, e) && (e.rollback.Some? ==> Same(start, files, e.rollback.value))
    else Same(start, files, e.destination)
  }

  lemma UndoneAt(start: Files, entries: seq<RestoreEntry>, k: nat, ok: seq<bool>, i: nat)
    requires Prepared(start, entries) && Marked(entries, k) && k <= |entries| && |ok| <= |entries| && i < |entries|
    ensures EntryState(start, Undo(Install(start, entries, k), entries, ok), entries[i], StillNew(i, k, |entries|, ok))
  {
    UndoneSuffix(start, entries, k, ok);
  }

  lemma UndoOneFrame(start: Files, later: Files, entries: seq<RestoreEntry>, n: nat, i: nat, stillNew: bool)
    requires Prepared(start, entries) && n < |entries| && i < |entries| && i != n
    requires EntryState(start, later, entries[i], stillNew)
    ensures EntryState(start, UndoOne(later, entries[n]), entries[i], stillNew)
  {
    assert Staged(start, entries[i]) && Staged(start, entries[n]);
    assert SnapshotTaken(start, entries[i]) && SnapshotTaken(start, entries[n]);
    assert entries[i].destination != entries[n].destination;
    assert entries[i].rollback.None? || entries[i].rollback != entries[n].rollback;
  }

  lemma UndoOneRestores(start: Files, later: Files, entries: seq<RestoreEntry>, n: nat)
    requires Prepared(start, entries) && n < |entries|
    requires EntryState(start, later, entries[n], true)
    requires OthersSame(start, later, entries)
    ensures Same(start, UndoOne(later, entries[n]), entries[n].destination)
    ensures OthersSame(start, UndoOne(later, entries[n]), entries)
  {
    var e := entries[n];
    assert Staged(start, e) && SnapshotTaken(start, e) && IsTarget(entries, e.destination);
    forall p: Path | p.Entry? && !IsTarget(entries, p) ensures Same(start, UndoOne(later, e), p) {
      assert Same(start, later, p);
    }
  }

  /** The rollback loop restores an entry exactly when its undo succeeds, and otherwise leaves its snapshot alone. */
  lemma {:induction false} UndoneSuffix(start: Files, entries: seq<RestoreEntry>, k: nat, ok: seq<bool>)
    requires Prepared(start, entries) && Marked(entries, k) && k <= |entries| && |ok| <= |entries|
    ensures var files := Undo(Install(start, entries, k), entries, ok);
            && (forall i :: 0 <= i < |entries| ==>
                  EntryState(start, files, entries[i], StillNew(i, k, |entries|, ok)))
            && OthersSame(start, files, entries)
  {
    if ok == [] {
      InstalledPrefix(start, entries, k);
      forall i | 0 <= i < |entries|
        ensures EntryState(start, Install(start, entries, k), entries[i], StillNew(i, k, |entries|, ok))
      {
        assert InstallState(start, Install(start, entries, k), entries[i], i < k);
      }
    } else {
      var rest := ok[1..];
      UndoneSuffix(start, entries, k, rest);
      var later := Undo(Install(start, entries, k), entries, rest);
      var files := Undo(Install(start, entries, k), entries, ok);
      var n := |entries| - |ok|;
      assert EntryState(start, later, entries[n], StillNew(n, k, |entries|, rest));
      forall i | 0 <= i < |entries|
        ensures EntryState(start, files, entries[i], StillNew(i, k, |entries|, ok))
      {
        assert EntryState(start, later, entries[i], StillNew(i, k, |entries|, rest));
        if entries[n].installed && ok[0] {
          if i == n {
            UndoOneRestores(start, later, entries, n);
          } else {
            UndoOneFrame(start, later, entries, n, i, StillNew(i, k, |entries|, rest));
          }
        }
      }
      if entries[n].installed && ok[0] {
        UndoOneRestores(start, later, entries, n);
      }
    }
  }

  /**
    All or nothing: wherever the install loop stopped, a rollback whose own calls succeed brings back every
    file, byte for byte, and removes every file that was not there.
  */
  lemma RollbackUndoesInstall(start: Files, entries: seq<RestoreEntry>, k: nat, ok: seq<bool>)
    requires Prepared(start, entries) && Marked(entries, k) && k <= |entries| && |ok| == |entries|
    requires forall i :: 0 <= i < k ==> ok[i]
    ensures forall p: Path :: p.Entry? ==> Same(start, Undo(Install(start, entries, k), entries, ok), p)
  {
    UndoneSuffix(start, entries, k, ok);
    var files := Undo(Install(start, entries, k), entries, ok);
    forall p: Path | p.Entry? ensures Same(start, files, p) {
      if IsTarget(entries, p) {
        var i :| 0 <= i < |entries| && entries[i].destination == p;
        assert EntryState(start, files, entries[i], StillNew(i, k, |entries|, ok));
      }
    }
  }

  /** The original bytes of an entry are at its destination, or else in its rollback file. */
  predicate OriginalKept(start: Files, files: Files, e: RestoreEntry) {
    e.destination in start ==>
      || (e.destination in files && files[e.destination] == start[e.destination])
      || (e.rollback.Some? && e.rollback.value in files && files[e.rollback.value] == start[e.destination])
  }

  /** No original is lost at any point of a rollback, whichever of its calls fail. */
  lemma NoOriginalLost(start: Files, entries: seq<RestoreEntry>, k: nat, ok: seq<bool>)
    requires Prepared(start, entries) && Marked(entries, k) && k <= |entries| && |ok| <= |entries|
    ensures forall i :: 0 <= i < |entries| ==>
              OriginalKept(start, Undo(Install(start, entries, k), entries, ok), entries[i])
  {
    UndoneSuffix(start, entries, k, ok);
    forall i | 0 <= i < |entries|
      ensures OriginalKept(start, Undo(Install(start, entries, k), entries, ok), entries[i])
    {
      assert SnapshotTaken(start, entries[i]);
      assert EntryState(start, Undo(Install(start, entries, k), entries, ok), entries[i],
                        StillNew(i, k, |entries|, ok));
    }
  }

  // ------------------------------------------------------------ commit point

  /** The last entry is the main configuration: if it has its new bytes, so has everything it may refer to. */
  ghost predicate CommitPointHolds(start: Files, files: Files, entries: seq<RestoreEntry>)
    requires |entries| > 0 && forall i :: 0 <= i < |entries| ==> entries[i].staged in start
  {
    || Same(start, files, entries[|entries| - 1].destination)
    || forall i :: 0 <= i < |entries| ==> IsNew(start, files, entries[i])
  }

  /** A crash between any two steps of the install loop leaves the old main configuration, or everything new. */
  lemma InstallKeepsCommitPoint(start: Files, entries: seq<RestoreEntry>, k: nat)
    requires Prepared(start, entries) && |entries| > 0 && k <= |entries|
    ensures CommitPointHolds(start, Install(start, entries, k), entries)
  {
    InstalledPrefix(start, entries, k);
    if k < |entries| {
      assert InstallState(start, Install(start, entries, k), entries[|entries| - 1], false);
    } else {
      forall i | 0 <= i < |entries| ensures IsNew(start, Install(start, entries, k), entries[i]) {
        assert InstallState(start, Install(start, entries, k), entries[i], true);
      }
    }
  }

  /** The undo of entry i would bring back other bytes, or no file, in place of the new ones. */
  predicate Changed(start: Files, e: RestoreEntry)
    requires e.staged in start
  {
    !IsNew(start, start, e)
  }

  /**
    The one way to lose the commit point in a rollback: everything was installed, the undo of a changed main
    configuration failed, and the undo of another changed entry succeeded.
  */
  ghost predicate MainStuckOthersUndone(start: Files, entries: seq<RestoreEntry>, k: nat, ok: seq<bool>)
    requires |ok| <= |entries| && forall i :: 0 <= i < |entries| ==> entries[i].staged in start
  {
    && k == |entries| && ok != [] && !ok[|ok| - 1]
    && Changed(start, entries[|entries| - 1])
    && exists i :: 0 <= i < |entries| && GivenBack(start, entries, ok, i)
  }

  /** The undo of a changed entry has succeeded. */
  predicate GivenBack(start: Files, entries: seq<RestoreEntry>, ok: seq<bool>, i: nat)
    requires i < |entries| && |ok| <= |entries| && entries[i].staged in start
  {
    var first := |entries| - |ok|;
    i >= first && ok[i - first] && Changed(start, entries[i])
  }

  /** During a rollback, whichever of its calls fail, the commit point is lost exactly in that case. */
  lemma RollbackCommitPointIff(start: Files, entries: seq<RestoreEntry>, k: nat, ok: seq<bool>)
    requires Prepared(start, entries) && Marked(entries, k) && 0 < |entries| && k <= |entries| && |ok| <= |entries|
    requires forall i :: 0 <= i < |entries| ==> entries[i].staged in start
    ensures CommitPointHolds(start, Undo(Install(start, entries, k), entries, ok), entries) <==>
            !MainStuckOthersUndone(start, entries, k, ok)
  {
    var n := |entries|;
    MainSameIff(start, entries, k, ok);
    assert StillNew(n - 1, k, n, ok) <==> k == n && (ok == [] || !ok[|ok| - 1]);
    if StillNew(n - 1, k, n, ok) { AllNewIff(start, entries, ok); }
  }

  /** After a complete install everything is new but for the changed entries whose undo succeeded. */
  lemma AllNewIff(start: Files, entries: seq<RestoreEntry>, ok: seq<bool>)
    requires Prepared(start, entries) && Marked(entries, |entries|) && |ok| <= |entries|
    requires forall i :: 0 <= i < |entries| ==> entries[i].staged in start
    ensures (forall i :: 0 <= i < |entries| ==>
              IsNew(start, Undo(Install(start, entries, |entries|), entries, ok), entries[i]))
            <==> !exists i :: 0 <= i < |entries| && GivenBack(start, entries, ok, i)
  {
    var files := Undo(Install(start, entries, |entries|), entries, ok);
    forall i | 0 <= i < |entries| ensures IsNew(start, files, entries[i]) <==> !GivenBack(start, entries, ok, i) {
      NewIff(start, entries, |entries|, ok, i);
    }
  }

  lemma NewIff(start: Files, entries: seq<RestoreEntry>, k: nat, ok: seq<bool>, i: nat)
    requires Prepared(start, entries) && Marked(entries, k) && k <= |entries| && |ok| <= |entries| && i < |entries|
    requires entries[i].staged in start
    ensures IsNew(start, Undo(Install(start, entries, k), entries, ok), entries[i]) <==>
            StillNew(i, k, |entries|, ok) || !Changed(start, entries[i])
  {
    UndoneAt(start, entries, k, ok, i);
  }

  lemma MainSameIff(start: Files, entries: seq<RestoreEntry>, k: nat, ok: seq<bool>)
    requires Prepared(start, entries) && Marked(entries, k) && 0 < |entries| && k <= |entries| && |ok| <= |entries|
    requires entries[|entries| - 1].staged in start
    ensures var main := entries[|entries| - 1];
            Same(start, Undo(Install(start, entries, k), entries, ok), main.destination) <==>
            !StillNew(|entries| - 1, k, |entries|, ok) || !Changed(start, main)
  {
    UndoneAt(start, entries, k, ok, |entries| - 1);
  }

  ghost predicate IsPrefixState(start: Files, entries: seq<RestoreEntry>, files: Files) {
    exists k :: 0 <= k <= |entries| && files == Install(start, entries, k)
  }

  /** One of the states the rollback loop passes through when its calls turn out as `ok` says. */
  ghost predicate IsUndoState(installed: Files, entries: seq<RestoreEntry>, ok: seq<bool>, files: Files)
    requires |ok| <= |entries|
  {
    exists m :: 0 <= m <= |ok| && files == Undo(installed, entries, ok[m..])
  }

  lemma UndoStateExtends(installed: Files, entries: seq<RestoreEntry>, ok: seq<bool>, files: Files)
    requires 0 < |ok| <= |entries|
    requires IsUndoState(installed, entries, ok[1..], files) || files == Undo(installed, entries, ok)
    ensures IsUndoState(installed, entries, ok, files)
  {
    if files == Undo(installed, entries, ok) {
      assert ok[0..] == ok;
    } else {
      var m :| 0 <= m <= |ok[1..]| && files == Undo(installed, entries, ok[1..][m..]);
      assert ok[m + 1..] == ok[1..][m..];
    }
  }

  // ------------------------------------------------- marks and rollback names

  /** Same destinations, staged files and snapshots; the installed flags may differ. */
  predicate SamePlan(a: seq<RestoreEntry>, b: seq<RestoreEntry>) {
    |a| == |b| && forall i :: 0 <= i < |a| ==> a[i].(installed := false) == b[i].(installed := false)
  }

  lemma {:induction false} InstallIgnoresMarks(files: Files, a: seq<RestoreEntry>, b: seq<RestoreEntry>, k: nat)
    requires SamePlan(a, b) && k <= |a|
    ensures Install(files, a, k) == Install(files, b, k)
  {
    if k == 0 {
    } else {
      InstallIgnoresMarks(files, a, b, k - 1);
      assert a[k - 1].(installed := false) == b[k - 1].(installed := false);
    }
  }

  lemma PreparedIgnoresMarks(files: Files, a: seq<RestoreEntry>, b: seq<RestoreEntry>)
    requires SamePlan(a, b) && Prepared(files, a)
    ensures Prepared(files, b)
  {
    forall i | 0 <= i < |b|
      ensures b[i].destination == a[i].destination && b[i].staged == a[i].staged && b[i].rollback == a[i].rollback
    {
      assert a[i].(installed := false) == b[i].(installed := false);
    }
    forall i | 0 <= i < |b| ensures Staged(files, b[i]) && SnapshotTaken(files, b[i]) {
      assert Staged(files, a[i]) && SnapshotTaken(files, a[i]);
    }
  }
}
