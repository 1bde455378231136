/**
  The two-phase configuration update of app/admin.py: prepare, commit, then finalize, rollback or abort, on a disk
  where every call may fail.  `since` marks the moment from which every state the disk goes through is watched.
*/
module AdminUpdate {
  import opened Wrappers
  import opened Disk
  import opened FileNames
  import opened AdminFormat

  datatype AdminError = Validation | Conflict | Persistence

  datatype CommitOutcome = Committed | CommitConflict | CommitFailed

  const MAX_CONFIG_BYTES := 1024 * 1024
  const ATTEMPTS := 16

  function DocumentOf(f: Format, content: Bytes): Document
    requires f.parse(content).Some?
  {
    f.parse(content).value
  }

  function Elements(paths: seq<Path>): set<Path> {
    set p | p in paths
  }

  class AdminConfigStore {
    const disk: Disk
    const f: Format
    const main: Path
    const tokens: nat -> string      // secrets.token_hex(8), draw by draw
    var drawn: nat

    constructor (disk: Disk, f: Format, main: Path, tokens: nat -> string)
      ensures this.disk == disk && this.f == f && this.main == main && this.tokens == tokens && drawn == 0
    {
      this.disk, this.f, this.main, this.tokens, drawn := disk, f, main, tokens, 0;
    }

    /** The disk is sound now, and no state since the mark left the configuration naming a missing secret. */
    ghost predicate Safe(since: nat)
      reads disk
    {
      && main.Entry? && (forall n :: HexToken(tokens(n)))
      && disk.Valid()
      && since < |disk.trace| && disk.trace[|disk.trace| - 1] == disk.files
      && AllIntact(disk.trace, since)
    }

    ghost predicate AllIntact(trace: seq<Files>, since: nat) {
      forall i :: since <= i < |trace| ==> Intact(f, trace[i], main)
    }

    function NameFor(prefix: string, n: nat): Path {
      Entry(main.directory, prefix + "-" + tokens(n))
    }

    /** The names of the draws up to `until` are neither taken nor drawn twice. */
    ghost predicate Lucky(until: nat)
      reads this, disk
    {
      && (forall prefix, n :: drawn <= n < until ==> NameFor(prefix, n) !in disk.files)
      && forall m, n :: drawn <= m < n < until ==> tokens(m) != tokens(n)
    }

    lemma NamesDiffer(prefix: string, m: nat, other: string, n: nat)
      requires HexToken(tokens(m)) && HexToken(tokens(n)) && tokens(m) != tokens(n)
      ensures NameFor(prefix, m) != NameFor(other, n)
    {
      var a, b := prefix + "-" + tokens(m), other + "-" + tokens(n);
      assert a[|a| - 16..] == tokens(m) && b[|b| - 16..] == tokens(n);
    }

    /** Drawing one name and creating that file leaves the later names free. */
    lemma StillLucky(before: Files, drawnBefore: nat, until: nat, prefix: string, content: Bytes)
      requires (forall n :: HexToken(tokens(n))) && drawn == drawnBefore + 1
      requires forall other, n :: drawnBefore <= n < until ==> NameFor(other, n) !in before
      requires forall m, n :: drawnBefore <= m < n < until ==> tokens(m) != tokens(n)
      requires disk.files == before[NameFor(prefix, drawnBefore) := content]
      ensures Lucky(until)
    {
      forall other, n | drawn <= n < until ensures NameFor(other, n) !in disk.files {
        NamesDiffer(prefix, drawnBefore, other, n);
      }
    }

    /** What appeared is a temporary file or carries a managed secret's name in the configuration's directory. */
    ghost predicate Ours(before: Files, after: Files) {
      main.Entry? && forall p :: p in after && p !in before ==> p.Temporary? || Managed(main.directory, p)
    }

    lemma StillIntact(trace: seq<Files>, since: nat, from: nat, before: Files)
      requires since <= from <= |trace| && AllIntact(trace[..from], since) && Intact(f, before, main)
      requires forall i :: from <= i < |trace| ==> Kept(before, trace[i], {})
      ensures AllIntact(trace, since)
    {
      forall i | since <= i < |trace| ensures Intact(f, trace[i], main) {
        if i < from {
          assert trace[i] == trace[..from][i];
        } else {
          IntactKept(f, before, trace[i], main);
        }
      }
    }

    /** `_stage_private_file`. */
    method Stage(content: Bytes, ghost since: nat) returns (staged: Option<Path>)
      requires Safe(since)
      modifies disk
      ensures disk.faults >= old(disk.faults)
      ensures Safe(since) && Kept(old(disk.files), disk.files, {}) && Ours(old(disk.files), disk.files)
      ensures staged.Some? ==>
        && staged.value.Temporary? && staged.value !in old(disk.files)
        && disk.files == old(disk.files)[staged.value := content]
      ensures staged.Some? <==> disk.NoFaults()
      ensures staged.None? && disk.OneFault() ==> disk.files == old(disk.files)
    {
      ghost var before, from := disk.files, |disk.trace|;
      staged := disk.CreateTemporary(main.directory, content);
      forall i | from <= i < |disk.trace| ensures Kept(before, disk.trace[i], {}) {
        assert OnlyScratch(before, disk.trace[i], old(disk.serial));
        forall p | p in before ensures p in disk.trace[i] && disk.trace[i][p] == before[p] {
          assert Same(before, disk.trace[i], p);
        }
      }
      assert disk.trace[..from] == old(disk.trace);
      StillIntact(disk.trace, since, from, before);
      forall p: Path | p.Entry? && p in disk.files ensures p in before {
        assert Same(before, disk.files, p);
      }
    }

    /** Unlinking with missing_ok, where a failure is swallowed. */
    method Remove(path: Path, ghost since: nat)
      requires Safe(since) && path != main
      requires f.parse(disk.files[main]).Some? ==> path !in Refs(f.parse(disk.files[main]).value)
      modifies disk
      ensures disk.faults >= old(disk.faults)
      ensures Safe(since)
      ensures disk.files == Without(old(disk.files), path) || disk.files == old(disk.files)
      ensures disk.NoFaults() ==> disk.files == Without(old(disk.files), path)
    {
      assert Intact(f, disk.files, main) by { assert disk.trace[|disk.trace| - 1] == disk.files; }
      ghost var before := disk.trace;
      var ok := disk.Unlink(path, true);
      forall i | since <= i < |disk.trace| ensures Intact(f, disk.trace[i], main) {
        if i < |before| { assert disk.trace[i] == before[i]; }
      }
    }

    method Consult(ghost since: nat) returns (ok: bool)
      requires Safe(since)
      modifies disk
      ensures disk.faults >= old(disk.faults)
      ensures Safe(since) && disk.files == old(disk.files) && disk.Called(ok)
    {
      ghost var before := disk.trace;
      ok := disk.Consult();
      assert Intact(f, disk.files, main) by { assert before[|before| - 1] == disk.files; }
      forall i | since <= i < |disk.trace| ensures Intact(f, disk.trace[i], main) {
        if i < |before| { assert disk.trace[i] == before[i]; }
      }
    }

    method Replace(source: Path, ghost content: Bytes, ghost since: nat) returns (ok: bool)
      requires Safe(since) && source.Temporary? && source in disk.files && disk.files[source] == content
      requires f.parse(content).Some? ==> Refs(DocumentOf(f, content)) <= disk.files.Keys - {source}
      modifies disk
      ensures disk.faults >= old(disk.faults)
      ensures Safe(since)
      ensures disk.files == if ok then Moved(old(disk.files), source, main) else old(disk.files)
      ensures disk.Called(ok)
    {
      ghost var before := disk.trace;
      assert Intact(f, disk.files, main) by { assert before[|before| - 1] == disk.files; }
      ok := disk.Replace(source, main);
      forall i | since <= i < |disk.trace| ensures Intact(f, disk.trace[i], main) {
        if i < |before| { assert disk.trace[i] == before[i]; }
      }
    }

    /** `_regular_private_config`. */
    method ReadConfig(ghost since: nat) returns (content: Option<Bytes>)
      requires Safe(since)
      modifies disk
      ensures disk.faults >= old(disk.faults)
      ensures Safe(since) && disk.files == old(disk.files) && main in disk.files
      ensures content.Some? ==> content.value == disk.files[main] && |content.value| <= MAX_CONFIG_BYTES
      ensures disk.NoFaults() ==> (content.None? <==> |disk.files[main]| > MAX_CONFIG_BYTES)
    {
      assert Intact(f, disk.files, main) by { assert disk.trace[|disk.trace| - 1] == disk.files; }
      var ok := Consult(since);
      content := if ok && |disk.files[main]| <= MAX_CONFIG_BYTES then Some(disk.files[main]) else None;
    }

    /** `load_config`, whose reads may fail as well. */
    method LoadConfig(path: Path, ghost since: nat) returns (config: Option<AppConfig>)
      requires Safe(since)
      modifies disk
      ensures disk.faults >= old(disk.faults)
      ensures Safe(since) && disk.files == old(disk.files)
      ensures config.Some? ==> config == Load(f, disk.files, path)
      ensures disk.NoFaults() ==> config == Load(f, disk.files, path)
    {
      var ok := Consult(since);
      config := if ok then Load(f, disk.files, path) else None;
    }

    ghost predicate NamesTaken(prefix: string, from: nat, to: nat, files: Files) {
      forall n :: from <= n < to ==> NameFor(prefix, n) in files
    }

    /** `_private_file_exclusive`: up to 16 random names, each created only if it is free. */
    method PrivateFileExclusive(prefix: string, content: Bytes, ghost until: nat, ghost since: nat)
      returns (created: Option<Path>)
      requires Safe(since) && SecretPrefix(prefix)
      modifies disk, this`drawn
      ensures disk.faults >= old(disk.faults)
      ensures Safe(since) && Kept(old(disk.files), disk.files, {}) && Ours(old(disk.files), disk.files)
      ensures created.Some? ==>
        && Managed(main.directory, created.value) && created.value !in old(disk.files)
        && disk.files == old(disk.files)[created.value := content]
      ensures created.Some? ==> disk.NoFaults()
      ensures created.None? && disk.OneFault() ==> disk.files == old(disk.files)
      ensures drawn <= old(drawn) + ATTEMPTS
      ensures created.None? && disk.NoFaults() ==>
        NamesTaken(prefix, old(drawn), old(drawn) + ATTEMPTS, disk.files)
      ensures old(Lucky(until)) && old(drawn) < until && disk.NoFaults() ==>
                created.Some? && Lucky(until) && drawn == old(drawn) + 1
    {
      ghost var lucky := Lucky(until) && drawn < until;
      var attempt := 0;
      while attempt < ATTEMPTS
        invariant attempt <= ATTEMPTS && drawn == old(drawn) + attempt && Safe(since)
        invariant disk.files == old(disk.files) && disk.NoFaults()
        invariant NamesTaken(prefix, old(drawn), drawn, disk.files)
        invariant lucky ==> attempt == 0 && Lucky(until) && drawn < until
        invariant disk.faults >= old(disk.faults)
      {
        var path, outcome := TryCreate(prefix, content, until, since);
        if outcome == Created { return Some(path); }
        if outcome == NotCreated { return None; }
        attempt := attempt + 1;
      }
      created := None;
    }

    method TryCreate(prefix: string, content: Bytes, ghost until: nat, ghost since: nat)
      returns (path: Path, outcome: Creation)
      requires Safe(since) && SecretPrefix(prefix)
      modifies disk, this`drawn
      ensures disk.faults >= old(disk.faults)
      ensures Safe(since) && drawn == old(drawn) + 1
      ensures path == NameFor(prefix, old(drawn)) && Managed(main.directory, path)
      ensures outcome == Exists ==> disk.files == old(disk.files) && path in disk.files
      ensures outcome == Created ==> path !in old(disk.files) && disk.files == old(disk.files)[path := content]
      ensures Kept(old(disk.files), disk.files, {}) && Ours(old(disk.files), disk.files)
      ensures outcome != NotCreated <==> disk.NoFaults()
      ensures outcome != Created && disk.OneFault() ==> disk.files == old(disk.files)
      ensures old(Lucky(until)) && outcome == Created ==> Lucky(until)
      ensures old(Lucky(until)) && old(drawn) < until ==> outcome != Exists
    {
      path := NameFor(prefix, drawn);
      FreshNameIsManaged(prefix, tokens(drawn));
      drawn := drawn + 1;
      ghost var before, from := disk.files, |disk.trace|;
      assert Intact(f, before, main) by { assert disk.trace[from - 1] == before; }
      outcome := disk.CreateExclusive(path, content);
      assert disk.trace[..from] == old(disk.trace);
      StillIntact(disk.trace, since, from, before);
      if old(Lucky(until)) && outcome == Created { StillLucky(before, old(drawn), until, prefix, content); }
    }

    // -------------------------------------------------------------- prepare

    /** Nothing of the original disk is touched, and what is new is ours; that includes `created`. */
    ghost predicate Building(origin: Files, created: seq<Path>)
      reads disk
    {
      && Kept(origin, disk.files, {}) && Ours(origin, disk.files)
      && (forall p :: p in created ==> Managed(main.directory, p) && p !in origin && p in disk.files)
    }

    /** Nothing else is new: the only way to leave a file behind is a fault in removing it after another fault. */
    ghost predicate OnlyNew(origin: Files, created: seq<Path>)
      reads disk
    {
      forall p :: p in disk.files && p !in origin ==> p in created
    }

    /** Removes files that are not part of the original disk. */
    method Discard(paths: seq<Path>, ghost origin: Files, ghost since: nat)
      requires Safe(since) && main in origin && main in disk.files
      requires forall p :: p in paths ==> p !in origin
      requires RefsWithin(disk.files[main], origin.Keys)
      modifies disk
      ensures disk.faults >= old(disk.faults)
      ensures Safe(since)
      ensures forall p :: p in disk.files ==> p in old(disk.files)
      ensures Kept(old(disk.files), disk.files, Elements(paths))
      ensures disk.NoFaults() ==> forall p :: p in paths ==> p !in disk.files
    {
      var i := 0;
      while i < |paths|
        invariant i <= |paths| && Safe(since)
        invariant forall p :: p in disk.files ==> p in old(disk.files)
        invariant Kept(old(disk.files), disk.files, Elements(paths))
        invariant disk.NoFaults() ==> forall p :: p in paths[..i] ==> p !in disk.files
        invariant disk.faults >= old(disk.faults)
      {
        assert paths[i] in paths && paths[i] !in origin;
        Remove(paths[i], since);
        i := i + 1;
      }
    }

    /** A refused update removes what it has created. */
    method GiveUp(paths: seq<Path>, ghost origin: Files, ghost since: nat)
      requires Safe(since) && Kept(origin, disk.files, {}) && Ours(origin, disk.files) && Intact(f, origin, main)
      requires forall p :: p in paths ==> p !in origin
      modifies disk
      ensures disk.faults >= old(disk.faults)
      ensures Safe(since) && Kept(origin, disk.files, {}) && Ours(origin, disk.files)
      ensures old(OnlyNew(origin, paths)) && disk.NoFaults() ==> disk.files == origin
    {
      Discard(paths, origin, since);
      if forall p :: p in disk.files ==> p in origin { assert disk.files == origin; }
    }

    /**
      After an update: beside the files there were, there are only secrets the new configuration names, and of those
      there were, only managed secrets that the old one named and the new one does not are gone.
    */
    ghost predicate Neat(before: Files, after: Files) {
      && main in before && main in after && f.parse(before[main]).Some? && f.parse(after[main]).Some?
      && var named, names := Refs(DocumentOf(f, before[main])), Refs(DocumentOf(f, after[main]));
      && (forall p :: p in after && p !in before ==> p in names)
      && (forall p :: p in before ==> (p in after <==> !(p in named - names && Managed(main.directory, p))))
    }

    ghost predicate RefsWithin(content: Bytes, paths: set<Path>) {
      f.parse(content).Some? ==> Refs(f.parse(content).value) <= paths
    }

    /** The body of the loop over the printers of an update. */
    method PreparePrinter(u: PrinterUpdate, current: AppConfig, oldDoc: Document, created: seq<Path>,
                          ghost origin: Files, ghost until: nat, ghost since: nat)
      returns (item: Result<PrinterDoc, AdminError>, created': seq<Path>)
      requires Safe(since) && Building(origin, created) && PrinterToken(u.id)
      modifies disk, this`drawn
      ensures disk.faults >= old(disk.faults)
      ensures Safe(since) && Building(origin, created') && Kept(old(disk.files), disk.files, {})
      ensures created <= created'
      ensures item.Ok? ==>
        && WrittenPrinter(f, u, current, oldDoc, disk.files, item.value)
        && item.value.accessFile in Refs(oldDoc) + Elements(created')
      ensures item != Err(Conflict)
      ensures !KeepsCode(u, current) && u.accessCode.None? ==> item == Err(Validation)
      ensures item.Ok? ==> Admissible(u, current)
      ensures item.Ok? ==> created' == if u.accessCode.Some? then created + [item.value.accessFile] else created
      ensures old(OnlyNew(origin, created)) && disk.OneFault() ==> OnlyNew(origin, created')
      ensures old(Lucky(until)) && old(drawn) < until && disk.NoFaults() ==> Lucky(until) && drawn <= old(drawn) + 1
      ensures old(Lucky(until)) && old(drawn) < until && disk.NoFaults() && AdmissibleIn(u, current, oldDoc) ==>
                item.Ok?
    {
      created' := created;
      var existing := FindConfig(current.printers, u.id);
      var existingDoc := FindDoc(oldDoc.printers, u.id);
      KeepsCodeIff(u, current);
      CaFileIff(u, current);
      var accessFile;
      if u.accessCode.None? {
        if !(existing.Some? && existing.value.serial == u.serial && existingDoc.Some?) {
          return Err(Validation), created';
        }
        FoundIsMember(oldDoc.printers, u.id);
        accessFile := existingDoc.value.accessFile;
      } else {
        PrefixesAreManaged(u.id);
        var path := PrivateFileExclusive(AccessPrefix(u.id), f.seal(u.accessCode.value), until, since);
        if path.None? { return Err(Persistence), created'; }
        created' := created + [path.value];
        accessFile := path.value;
      }
      var caFile := CaFile(existing, u);
      if caFile.None? { return Err(Validation), created'; }
      item := Ok(PrinterDoc(u.id, u.serial, accessFile, caFile.value, Normalised(u.traits)));
    }

    lemma {:induction false} FoundIsMember(docs: seq<PrinterDoc>, id: string)
      ensures FindDoc(docs, id).Some? ==> FindDoc(docs, id).value in docs
    {
      if docs != [] && docs[0].id != id { FoundIsMember(docs[1..], id); }
    }

    /** The secrets and the document of an update, up to the first refusal. */
    method WriteDocument(update: Update, current: AppConfig, oldDoc: Document, ghost origin: Files,
                         ghost until: nat, ghost since: nat)
      returns (doc: Result<Document, AdminError>, created: seq<Path>)
      requires Safe(since) && Building(origin, [])
      requires forall u :: u in update.printers ==> PrinterToken(u.id)
      modifies disk, this`drawn
      ensures disk.faults >= old(disk.faults)
      ensures Safe(since) && Building(origin, created) && doc != Err(Conflict)
      ensures doc.Ok? ==>
        && WrittenDocument(f, update, current, oldDoc, disk.files, doc.value)
        && Refs(doc.value) <= Refs(oldDoc) + Elements(created) && Elements(created) <= Refs(doc.value)
      ensures old(OnlyNew(origin, [])) && disk.OneFault() ==> OnlyNew(origin, created)
      ensures old(Lucky(until)) && old(drawn) + 1 + |update.printers| <= until && disk.NoFaults() ==>
                AllAdmissible(update, current, oldDoc) ==> doc.Ok?
    {
      var passwordFile;
      passwordFile, created := PasswordFile(update, oldDoc, origin, until, since);
      if passwordFile.None? { return Err(Persistence), created; }
      assert passwordFile.value in Refs(oldDoc) + Elements(created);
      ghost var before := created;
      var items, printersCreated := WritePrinters(update, current, oldDoc, created, origin, until, since);
      created := printersCreated;
      if items.Err? { return Err(items.error), created; }
      var d := Document(current.auditDb, update.web, passwordFile.value, items.value);
      assert passwordFile.value in before ==> passwordFile.value in created by {
        PrefixHas(before, created, passwordFile.value);
      }
      RefsOfParts(d, Refs(oldDoc) + Elements(created));
      doc := Ok(d);
    }

    method PasswordFile(update: Update, oldDoc: Document, ghost origin: Files, ghost until: nat, ghost since: nat)
      returns (passwordFile: Option<Path>, created: seq<Path>)
      requires Safe(since) && Building(origin, [])
      modifies disk, this`drawn
      ensures disk.faults >= old(disk.faults)
      ensures Safe(since) && Building(origin, created)
      ensures passwordFile.Some? ==> match update.password
        case Some(password) =>
          passwordFile.value in created && passwordFile.value in disk.files &&
          disk.files[passwordFile.value] == f.seal(password)
        case None => passwordFile.value == oldDoc.passwordFile
      ensures passwordFile.Some? ==> forall p :: p in created ==> p == passwordFile.value
      ensures old(OnlyNew(origin, [])) && disk.OneFault() ==> OnlyNew(origin, created)
      ensures old(Lucky(until)) && old(drawn) < until && disk.NoFaults() ==>
                passwordFile.Some? && Lucky(until) && drawn <= old(drawn) + 1
    {
      created := [];
      if update.password.None? { return Some(oldDoc.passwordFile), []; }
      PrefixesAreManaged("a");
      passwordFile := PrivateFileExclusive(PASSWORD_PREFIX, f.seal(update.password.value), until, since);
      if passwordFile.Some? { created := [passwordFile.value]; }
    }

    lemma PrefixHas(a: seq<Path>, b: seq<Path>, p: Path)
      requires a <= b
      ensures p in a ==> p in b
    {
      if i :| 0 <= i < |a| && a[i] == p { assert b[i] == p; }
    }

    lemma RefsOfParts(d: Document, paths: set<Path>)
      requires d.passwordFile in paths && AccessWithin(d.printers, paths)
      ensures Refs(d) <= paths
    {
    }

    method WritePrinters(update: Update, current: AppConfig, oldDoc: Document, before: seq<Path>,
                         ghost origin: Files, ghost until: nat, ghost since: nat)
      returns (items: Result<seq<PrinterDoc>, AdminError>, created: seq<Path>)
      requires Safe(since) && Building(origin, before)
      requires forall u :: u in update.printers ==> PrinterToken(u.id)
      modifies disk, this`drawn
      ensures disk.faults >= old(disk.faults)
      ensures Safe(since) && Building(origin, created) && before <= created
      ensures Kept(old(disk.files), disk.files, {})
      ensures items != Err(Conflict)
      ensures items.Ok? ==>
        |items.value| == |update.printers| &&
        Progress(update, current, oldDoc, disk.files, before, created, items.value)
      ensures old(OnlyNew(origin, before)) && disk.OneFault() ==> OnlyNew(origin, created)
      ensures old(Lucky(until)) && old(drawn) + |update.printers| <= until && disk.NoFaults() ==>
                AllAdmissible(update, current, oldDoc) ==> items.Ok?
    {
      var written: seq<PrinterDoc> := [];
      created := before;
      while |written| < |update.printers|
        invariant |written| <= |update.printers| && Safe(since) && Building(origin, created) && before <= created
        invariant Kept(old(disk.files), disk.files, {})
        invariant Progress(update, current, oldDoc, disk.files, before, created, written)
        invariant old(OnlyNew(origin, before)) && disk.OneFault() ==> OnlyNew(origin, created)
        invariant old(Lucky(until)) && old(drawn) + |update.printers| <= until && disk.NoFaults() ==>
                  Lucky(until) && drawn <= old(drawn) + |written|
        invariant disk.faults >= old(disk.faults)
      {
        label Next:
        var u := update.printers[|written|];
        assert u in update.printers;
        var item, grown := PreparePrinter(u, current, oldDoc, created, origin, until, since);
        if item.Err? { return Err(item.error), grown; }
        ProgressStep(update, current, oldDoc, old@Next(disk.files), disk.files, before, created, grown, written,
                     item.value);
        created := grown;
        written := written + [item.value];
      }
      items := Ok(written);
    }

    /** The entries written so far, with the files they use and only those. */
    ghost predicate Progress(update: Update, current: AppConfig, oldDoc: Document, files: Files,
                             before: seq<Path>, created: seq<Path>, items: seq<PrinterDoc>)
    {
      && AllWritten(update, current, oldDoc, files, items)
      && AccessWithin(items, Refs(oldDoc) + Elements(created))
      && Used(created, before, items)
    }

    lemma ProgressStep(update: Update, current: AppConfig, oldDoc: Document, files: Files, after: Files,
                       before: seq<Path>, created: seq<Path>, grown: seq<Path>, items: seq<PrinterDoc>,
                       item: PrinterDoc)
      requires Progress(update, current, oldDoc, files, before, created, items) && Kept(files, after, {})
      requires |items| < |update.printers| && WrittenPrinter(f, update.printers[|items|], current, oldDoc, after, item)
      requires grown == created || grown == created + [item.accessFile]
      requires item.accessFile in Refs(oldDoc) + Elements(grown)
      ensures Progress(update, current, oldDoc, after, before, grown, items + [item])
    {
      WrittenKept(update, current, oldDoc, files, after, items);
      WithinMore(items, oldDoc, created, grown);
      UsedMore(created, grown, before, items, item);
    }

    /** Every file created is one that the document uses. */
    ghost predicate Used(created: seq<Path>, before: seq<Path>, items: seq<PrinterDoc>) {
      forall p :: p in created ==> p in before || exists d :: d in items && d.accessFile == p
    }

    lemma UsedMore(created: seq<Path>, grown: seq<Path>, before: seq<Path>, items: seq<PrinterDoc>, item: PrinterDoc)
      requires Used(created, before, items) && (grown == created || grown == created + [item.accessFile])
      ensures Used(grown, before, items + [item])
    {
      forall p | p in grown && p !in before ensures exists d :: d in items + [item] && d.accessFile == p {
        if p in created {
          var d :| d in items && d.accessFile == p;
          assert d in items + [item];
        } else {
          assert item in items + [item];
        }
      }
    }

    ghost predicate AllAdmissible(update: Update, current: AppConfig, oldDoc: Document) {
      forall u :: u in update.printers ==> AdmissibleIn(u, current, oldDoc)
    }

    ghost predicate AdmissibleIn(u: PrinterUpdate, current: AppConfig, oldDoc: Document) {
      Admissible(u, current) && (u.accessCode.None? ==> FindDoc(oldDoc.printers, u.id).Some?)
    }

    predicate AccessWithin(items: seq<PrinterDoc>, paths: set<Path>) {
      forall d :: d in items ==> d.accessFile in paths
    }

    ghost predicate AllWritten(update: Update, current: AppConfig, oldDoc: Document, files: Files,
                               items: seq<PrinterDoc>)
    {
      && |items| <= |update.printers|
      && forall i :: 0 <= i < |items| ==> WrittenPrinter(f, update.printers[i], current, oldDoc, files, items[i])
    }

    lemma WrittenKept(update: Update, current: AppConfig, oldDoc: Document, before: Files, after: Files,
                      items: seq<PrinterDoc>)
      requires AllWritten(update, current, oldDoc, before, items) && Kept(before, after, {})
      ensures AllWritten(update, current, oldDoc, after, items)
    {
    }

    lemma WithinMore(items: seq<PrinterDoc>, oldDoc: Document, a: seq<Path>, b: seq<Path>)
      requires a <= b && AccessWithin(items, Refs(oldDoc) + Elements(a))
      ensures AccessWithin(items, Refs(oldDoc) + Elements(b))
    {
      forall p | p in a ensures p in b { PrefixHas(a, b, p); }
    }

    /** The configuration on the disk is the one the program runs on. */
    ghost predicate Agreeing(current: AppConfig)
      reads disk
    {
      main in disk.files && |disk.files[main]| <= MAX_CONFIG_BYTES && Load(f, disk.files, main) == Some(current)
    }

    /** Reads the configuration, loads it from a copy, and compares it with the one the program runs on. */
    method AgreesWith(current: AppConfig, ghost until: nat, ghost since: nat)
      returns (agreed: Result<Bytes, AdminError>)
      requires Safe(since) && Intact(f, disk.files, main)
      modifies disk
      ensures disk.faults >= old(disk.faults)
      ensures Safe(since) && Building(old(disk.files), [])
      ensures agreed.Ok? ==>
        agreed.value == old(disk.files)[main] && |agreed.value| <= MAX_CONFIG_BYTES &&
        Load(f, old(disk.files), main) == Some(current)
      ensures disk.NoFaults() ==> disk.files == old(disk.files)
      ensures old(Agreeing(current)) ==> (disk.NoFaults() ==> agreed.Ok?)
      ensures old(Agreeing(current)) && agreed.Err? && disk.OneFault() ==> disk.files == old(disk.files)
      ensures old(Lucky(until)) && agreed.Ok? ==> Lucky(until)
      ensures agreed == Err(Conflict) ==> Load(f, old(disk.files), main) != Some(current)
    {
      ghost var origin := disk.files;
      var content := ReadConfig(since);
      if content.None? { return Err(Persistence); }
      var copy := Stage(content.value, since);
      if copy.None? { return Err(Persistence); }
      ghost var staged := disk.files;
      if Load(f, origin, main).Some? { LoadedKept(f, origin, staged, DocumentOf(f, content.value), {}); }
      var loaded := LoadConfig(copy.value, since);
      Remove(copy.value, since);
      if loaded.None? { return Err(Persistence); }
      LoadedKept(f, staged, origin, DocumentOf(f, content.value), {copy.value});
      agreed := if loaded.value != current then Err(Conflict) else Ok(content.value);
    }

    /** The rest of `prepare`, once the program and the disk agree on the current configuration. */
    method PrepareFrom(update: Update, current: AppConfig, baseline: Bytes, ghost origin: Files,
                       ghost until: nat, ghost since: nat)
      returns (result: Result<PreparedConfigUpdate, AdminError>)
      requires Safe(since) && Faithful(f) && Building(origin, [])
      requires Baseline(origin, baseline) && Load(f, origin, main) == Some(current)
      requires forall u :: u in update.printers ==> PrinterToken(u.id)
      modifies disk, this`drawn
      ensures disk.faults >= old(disk.faults)
      ensures Safe(since) && Kept(origin, disk.files, {}) && Ours(origin, disk.files)
      ensures result.Ok? ==> Prepared(update, current, origin, result.value, since)
      ensures result.Ok? ==> fresh(result.value)
      ensures result.Ok? && old(OnlyNew(origin, [])) && disk.OneFault() ==> result.value.Exact()
      ensures result.Err? && old(OnlyNew(origin, [])) && disk.NoFaults() ==> disk.files == origin
      ensures result != Err(Conflict)
      ensures Promising(update, current, DocumentOf(f, baseline)) && old(Lucky(until)) ==>
                old(drawn) + 1 + |update.printers| <= until ==>
        && (disk.NoFaults() ==> result.Ok?)
        && (result.Err? && old(OnlyNew(origin, [])) && disk.OneFault() ==> disk.files == origin)
    {
      var oldDoc := DocumentOf(f, baseline);
      if Promising(update, current, oldDoc) { AdmissibleThroughout(update, current, oldDoc, origin); }
      var doc, created := WriteDocument(update, current, oldDoc, origin, until, since);
      if doc.Err? {
        GiveUp(created, origin, since);
        result := Err(doc.error);
      } else {
        result := StageDocument(update, current, baseline, doc.value, created, origin, since);
      }
    }

    /** The update keeps the rules, and what it writes can be read back. */
    ghost predicate Promising(update: Update, current: AppConfig, oldDoc: Document) {
      && main.Entry? && Readable(f, update, current, oldDoc, main.directory) && Sealable(f, update)
      && forall u :: u in update.printers ==> Admissible(u, current)
    }

    /** Nothing can go wrong with preparing this update. */
    ghost predicate Favourable(update: Update, current: AppConfig)
      reads this, disk
    {
      && Lucky(drawn + 1 + |update.printers|)
      && Agreeing(current)
      && Promising(update, current, DocumentOf(f, disk.files[main]))
    }

    lemma AdmissibleThroughout(update: Update, current: AppConfig, oldDoc: Document, origin: Files)
      requires Promising(update, current, oldDoc) && Loadable(f, origin, oldDoc) && Loaded(f, origin, oldDoc) == current
      ensures AllAdmissible(update, current, oldDoc)
    {
      forall u | u in update.printers ensures AdmissibleIn(u, current, oldDoc) {
        KeepsCodeIff(u, current);
        FoundTogether(f, origin, oldDoc.printers, current.printers, u.id);
      }
    }

    ghost predicate Baseline(origin: Files, baseline: Bytes) {
      && |baseline| <= MAX_CONFIG_BYTES
      && Intact(f, origin, main) && origin[main] == baseline && SelfFree(f, baseline, main) && f.parse(baseline).Some?
    }

    ghost predicate Prepared(update: Update, current: AppConfig, origin: Files, p: PreparedConfigUpdate, since: nat)
      reads p, p.store.disk, disk
    {
      && p.store == this && p.origin == origin
      && p.Open(since) && Requested(f, update, current, p.config)
      && main in disk.files && disk.files[main] == p.baseline
    }

    method StageDocument(update: Update, current: AppConfig, baseline: Bytes, doc: Document, created: seq<Path>,
                         ghost origin: Files, ghost since: nat)
      returns (result: Result<PreparedConfigUpdate, AdminError>)
      requires Safe(since) && Faithful(f) && Building(origin, created)
      requires Baseline(origin, baseline) && Load(f, origin, main) == Some(current)
      requires WrittenDocument(f, update, current, DocumentOf(f, baseline), disk.files, doc)
      requires Refs(doc) <= Refs(DocumentOf(f, baseline)) + Elements(created) && Elements(created) <= Refs(doc)
      modifies disk
      ensures disk.faults >= old(disk.faults)
      ensures Safe(since) && Kept(origin, disk.files, {}) && Ours(origin, disk.files)
      ensures result.Ok? ==> Prepared(update, current, origin, result.value, since)
      ensures result.Ok? ==> fresh(result.value)
      ensures result.Ok? && old(OnlyNew(origin, created)) ==> result.value.Exact()
      ensures result.Err? && old(OnlyNew(origin, created)) && disk.NoFaults() ==> disk.files == origin
      ensures result != Err(Conflict)
      ensures Promising(update, current, DocumentOf(f, baseline)) ==>
        && (disk.NoFaults() ==> result.Ok?)
        && (result.Err? && old(OnlyNew(origin, created)) && disk.OneFault() ==> disk.files == origin)
    {
      ghost var written := disk.files;
      var oldDoc := DocumentOf(f, baseline);
      if Promising(update, current, oldDoc) { ReadsBack(update, current, oldDoc, origin, written, doc, created); }
      var staged := StageCandidate(doc, created, origin, since);
      if staged.Err? { return Err(staged.error); }
      var (path, candidate) := staged.value;
      WrittenStays(update, current, oldDoc, written, disk.files, doc);
      WrittenIsRequested(f, update, current, oldDoc, origin, disk.files, doc);
      var prepared := HandOver(doc, candidate, path, baseline, created, origin, since);
      result := Ok(prepared);
    }

    /** The secrets the new document no longer names become obsolete; everything else is handed over as it is. */
    method HandOver(doc: Document, candidate: AppConfig, path: Path, baseline: Bytes, created: seq<Path>,
                    ghost origin: Files, ghost since: nat)
      returns (prepared: PreparedConfigUpdate)
      requires Safe(since) && Baseline(origin, baseline) && Kept(origin, disk.files, {}) && Ours(origin, disk.files)
      requires forall p :: p in created ==> Managed(main.directory, p) && p !in origin && p in disk.files
      requires path.Temporary? && path !in origin && path in disk.files && disk.files[path] == f.render(doc)
      requires f.parse(f.render(doc)) == Some(doc) && Load(f, disk.files, path) == Some(candidate)
      requires Refs(doc) <= Refs(DocumentOf(f, baseline)) + Elements(created) && Elements(created) <= Refs(doc)
      ensures fresh(prepared) && prepared.store == this && prepared.origin == origin
      ensures prepared.config == candidate && prepared.baseline == baseline
      ensures prepared.Open(since)
      ensures (forall p :: p in disk.files && p !in origin ==> p in created || p == path) ==> prepared.Exact()
    {
      var oldDoc := DocumentOf(f, baseline);
      var obsolete := set p | p in Refs(oldDoc) && Managed(main.directory, p) && p !in Refs(doc);
      prepared := new PreparedConfigUpdate(this, candidate, path, baseline, created, obsolete, origin, disk.files);
      assert prepared.Plan();
    }

    lemma ReadsBack(update: Update, current: AppConfig, oldDoc: Document, origin: Files, files: Files,
                    doc: Document, created: seq<Path>)
      requires Promising(update, current, oldDoc) && Kept(origin, files, {})
      requires Loadable(f, origin, oldDoc) && Loaded(f, origin, oldDoc) == current
      requires WrittenDocument(f, update, current, oldDoc, files, doc)
      requires Refs(doc) <= Refs(oldDoc) + Elements(created)
      requires forall p :: p in created ==> Managed(main.directory, p)
      ensures f.parse(f.render(doc)) == Some(doc) && Loadable(f, files, doc)
    {
      WrittenLoads(f, update, current, oldDoc, origin, files, doc);
      assert BuiltDocument(update, current, oldDoc, main.directory, doc);
    }

    method StageCandidate(doc: Document, created: seq<Path>, ghost origin: Files, ghost since: nat)
      returns (result: Result<(Path, AppConfig), AdminError>)
      requires Safe(since) && Faithful(f) && Building(origin, created) && Intact(f, origin, main)
      modifies disk
      ensures disk.faults >= old(disk.faults)
      ensures Safe(since) && Kept(origin, disk.files, {}) && Ours(origin, disk.files)
      ensures result.Err? && old(OnlyNew(origin, created)) && disk.NoFaults() ==> disk.files == origin
      ensures result.Ok? ==> var (path, candidate) := result.value;
        && path.Temporary? && path !in old(disk.files) && disk.files == old(disk.files)[path := f.render(doc)]
        && f.parse(f.render(doc)) == Some(doc)
        && Load(f, disk.files, path) == Some(candidate)
      ensures result != Err(Conflict)
      ensures f.parse(f.render(doc)) == Some(doc) && Loadable(f, old(disk.files), doc) ==>
        && (disk.NoFaults() ==> result.Ok?)
        && (result.Err? && old(OnlyNew(origin, created)) && disk.OneFault() ==> disk.files == origin)
    {
      ghost var written := disk.files;
      var staged := Stage(f.render(doc), since);
      if staged.None? {
        GiveUp(created, origin, since);
        return Err(Persistence);
      }
      if Loadable(f, written, doc) { LoadedKept(f, written, disk.files, doc, {}); }
      var candidate := LoadConfig(staged.value, since);
      if candidate.None? {
        GiveUp([staged.value] + created, origin, since);
        return Err(Validation);
      }
      result := Ok((staged.value, candidate.value));
    }

    lemma WrittenStays(update: Update, current: AppConfig, oldDoc: Document, before: Files, after: Files, d: Document)
      requires WrittenDocument(f, update, current, oldDoc, before, d) && Kept(before, after, {})
      ensures WrittenDocument(f, update, current, oldDoc, after, d)
    {
      WrittenKept(update, current, oldDoc, before, after, d.printers);
    }

    /**
      `prepare`.  On success the prepared configuration is exactly the requested one; on refusal the original disk is
      untouched, and exactly restored where no call failed.  Of an update with nothing against it a single fault makes
      no difference to the disk, unless the update is prepared all the same.
    */
    method Prepare(update: Update, current: AppConfig, ghost since: nat)
      returns (result: Result<PreparedConfigUpdate, AdminError>)
      requires Safe(since) && Faithful(f) && main in disk.files && SelfFree(f, disk.files[main], main)
      requires forall u :: u in update.printers ==> PrinterToken(u.id)
      modifies disk, this`drawn
      ensures disk.faults >= old(disk.faults)
      ensures Safe(since) && Kept(old(disk.files), disk.files, {}) && Ours(old(disk.files), disk.files)
      ensures result.Ok? ==>
        && fresh(result.value) && Prepared(update, current, old(disk.files), result.value, since)
        && Load(f, old(disk.files), main) == Some(current)
      ensures result.Err? && disk.NoFaults() ==> disk.files == old(disk.files)
      ensures result.Ok? && disk.NoFaults() ==> result.value.Exact()
      ensures result == Err(Conflict) ==> Load(f, old(disk.files), main) != Some(current)
      ensures old(Favourable(update, current)) && disk.NoFaults() ==> result.Ok?
      ensures old(Favourable(update, current)) && disk.OneFault() && result.Err? ==> disk.files == old(disk.files)
    {
      ghost var origin := disk.files;
      assert Intact(f, origin, main) by { assert disk.trace[|disk.trace| - 1] == origin; }
      ghost var until := drawn + 1 + |update.printers|;
      var agreed := AgreesWith(current, until, since);
      if agreed.Err? { return Err(agreed.error); }
      result := PrepareFrom(update, current, agreed.value, origin, until, since);
    }
  }

  class PreparedConfigUpdate {
    const store: AdminConfigStore
    const config: AppConfig
    const staged: Path
    const baseline: Bytes
    const created: seq<Path>
    const obsolete: set<Path>
    ghost const origin: Files       // the disk when prepare was called
    ghost const base: Files         // the disk when prepare returned
    var backup: Option<Path>
    var committed: bool

    constructor (store: AdminConfigStore, config: AppConfig, staged: Path, baseline: Bytes, created: seq<Path>,
                 obsolete: set<Path>, ghost origin: Files, ghost base: Files)
      ensures this.store == store && this.config == config && this.staged == staged && this.baseline == baseline
      ensures this.created == created && this.obsolete == obsolete && this.origin == origin && this.base == base
      ensures backup == None && !committed
    {
      this.store, this.config, this.staged, this.baseline := store, config, staged, baseline;
      this.created, this.obsolete, this.origin, this.base := created, obsolete, origin, base;
      backup, committed := None, false;
    }

    /** What prepare hands over; nothing in it changes any more. */
    ghost predicate Plan() {
      var f := store.f;
      && store.main in origin && origin[store.main] == baseline
      && Kept(origin, base, {}) && store.Ours(origin, base)
      && f.parse(baseline).Some? && Refs(DocumentOf(f, baseline)) <= origin.Keys
      && store.main !in Refs(DocumentOf(f, baseline))
      && staged.Temporary? && staged in base && staged !in origin
      && (forall p :: p in created ==> Managed(store.main.directory, p) && p !in origin && p in base)
      && f.parse(base[staged]).Some?
      && Elements(created) <= Refs(DocumentOf(f, base[staged])) <= Refs(DocumentOf(f, baseline)) + Elements(created)
      && (forall p :: p in obsolete <==>
            p in Refs(DocumentOf(f, baseline)) && p !in Refs(DocumentOf(f, base[staged])) &&
            Managed(store.main.directory, p))
      && |baseline| <= MAX_CONFIG_BYTES
      && Load(f, base, staged) == Some(config)
    }

    function Own(): set<Path>
      reads this`backup
    {
      {staged} + Elements(created) + if backup.Some? then {backup.value} else {}
    }

    /** Nothing is new on the disk but what the update owns. */
    ghost predicate Exact()
      reads this, store.disk
    {
      OwnedBeyond(store.disk.files, Own())
    }

    /** The original disk is untouched but for what other writers made of the configuration. */
    ghost predicate UnwrittenFiles(files: Files, copy: Option<Path>) {
      && Kept(origin, files, {store.main}) && store.Ours(origin, files)
      && store.main in files && store.RefsWithin(files[store.main], origin.Keys)
      && (copy.Some? ==> copy.value.Temporary? && copy.value !in origin && copy.value != staged)
    }

    /** The new configuration is in place with every secret it names. */
    ghost predicate WrittenFiles(files: Files, copy: Option<Path>) {
      && Kept(base, files, {store.main, staged}) && store.Ours(origin, files)
      && store.main in files && staged in base && files[store.main] == base[staged] && staged !in files
      && (copy.Some? ==>
            copy.value.Temporary? && copy.value !in base && copy.value in files &&
            files[copy.value] == baseline)
    }

    /** Not committed. */
    ghost predicate Unwritten(since: nat)
      reads this, store.disk
    {
      Plan() && store.Safe(since) && !committed && UnwrittenFiles(store.disk.files, backup)
    }

    /** Ready to be committed. */
    ghost predicate Open(since: nat)
      reads this, store.disk
    {
      Unwritten(since) && backup.None? && Kept(base, store.disk.files, {store.main})
    }

    /** Ready to be committed, the backup copy being in place. */
    ghost predicate Copied(since: nat)
      reads this, store.disk
    {
      && Unwritten(since) && Kept(base, store.disk.files, {store.main})
      && backup.Some? && backup.value !in base && backup.value in store.disk.files
      && store.disk.files[backup.value] == baseline
    }

    ghost predicate Written(since: nat)
      reads this, store.disk
    {
      Plan() && store.Safe(since) && committed && WrittenFiles(store.disk.files, backup)
    }

    lemma MovedIsWritten(before: Files, copy: Path)
      requires Plan() && UnwrittenFiles(before, Some(copy)) && Kept(base, before, {store.main})
      requires copy !in base && copy in before && before[copy] == baseline
      ensures WrittenFiles(Moved(before, staged, store.main), Some(copy))
    {
    }

    lemma MovedBackIsUnwritten(before: Files, copy: Path)
      requires Plan() && WrittenFiles(before, Some(copy))
      ensures var after := Moved(before, copy, store.main); UnwrittenFiles(after, None) && after[store.main] == baseline
    {
      OldNamesAreKept(before);
    }

    /**
      `commit`.  The configuration is replaced only if it is still the one prepare read.  A failed commit leaves the
      configuration as it was, unless the call that failed came after the replacement and undoing it failed too;
      then `committed` stays set and the new configuration stands, complete.  So that takes two faults, and two are
      needed to leave a file behind as well.
    */
    method Commit(ghost since: nat) returns (outcome: CommitOutcome)
      requires Open(since)
      modifies this, store.disk
      ensures store.disk.faults >= old(store.disk.faults)
      ensures outcome == Committed ==> Written(since) && backup.Some? && old(store.disk.files[store.main]) == baseline
      ensures outcome == CommitConflict ==>
        Open(since) && store.disk.files == old(store.disk.files) && store.disk.files[store.main] != baseline
      ensures outcome == CommitFailed ==> if committed then Written(since) else Unwritten(since)
      ensures !committed ==> store.disk.files[store.main] == old(store.disk.files[store.main])
      ensures old(Exact()) && store.disk.OneFault() ==> Exact()
      ensures store.disk.OneFault() && outcome == CommitFailed ==> !committed
      ensures store.disk.NoFaults() && old(store.disk.files[store.main]) == baseline ==> outcome == Committed
    {
      var current := store.ReadConfig(since);
      if current.None? { return CommitFailed; }
      if current.value != baseline { return CommitConflict; }
      var copied := StageBackup(since);
      if !copied { return CommitFailed; }
      outcome := Install(since);
    }

    method StageBackup(ghost since: nat) returns (ok: bool)
      requires Open(since)
      modifies this`backup, store.disk
      ensures store.disk.faults >= old(store.disk.faults)
      ensures if ok then Copied(since) else Unwritten(since) && backup.None?
      ensures store.disk.files[store.main] == old(store.disk.files[store.main])
      ensures old(Exact()) && store.disk.OneFault() ==> Exact()
      ensures store.disk.NoFaults() ==> ok
    {
      backup := store.Stage(baseline, since);
      ok := backup.Some?;
    }

    /** How a commit may end once the comparison has succeeded. */
    ghost predicate Concluded(outcome: CommitOutcome, since: nat)
      reads this, store.disk
    {
      match outcome
      case Committed => Written(since) && backup.Some?
      case CommitFailed =>
        if committed then Written(since) else Unwritten(since) && store.disk.files[store.main] == baseline
      case CommitConflict => false
    }

    method Install(ghost since: nat) returns (outcome: CommitOutcome)
      requires Copied(since) && store.disk.files[store.main] == baseline
      modifies this, store.disk
      ensures store.disk.faults >= old(store.disk.faults)
      ensures Concluded(outcome, since)
      ensures old(Exact()) ==> Exact()
      ensures store.disk.NoFaults() ==> outcome == Committed
      ensures store.disk.OneFault() && outcome == CommitFailed ==> !committed
    {
      var ok := PutInPlace(since);
      if !ok { return CommitFailed; }
      outcome := SyncOrUndo(since);
    }

    method PutInPlace(ghost since: nat) returns (ok: bool)
      requires Copied(since)
      modifies this`committed, store.disk
      ensures if ok then Written(since) else Unwritten(since) && store.disk.files == old(store.disk.files)
      ensures old(Exact()) ==> Exact()
      ensures store.disk.Called(ok)
    {
      NamesAreKept();
      ghost var before := store.disk.files;
      ok := store.Replace(staged, base[staged], since);
      if ok {
        MovedIsWritten(before, backup.value);
        committed := true;
      }
    }

    lemma NamesAreKept()
      requires Plan()
      ensures Refs(DocumentOf(store.f, base[staged])) <= base.Keys - {store.main, staged}
    {
    }

    /**
      What follows the replacement in `commit`: errors of opening and syncing the directory are swallowed, so the second
      call, closing it, decides; and the third, which moves the old configuration back, whether a failure is undone.
    */
    method SyncOrUndo(ghost since: nat) returns (outcome: CommitOutcome)
      requires Written(since) && backup.Some?
      modifies this, store.disk
      ensures store.disk.faults >= old(store.disk.faults)
      ensures Concluded(outcome, since)
      ensures old(Exact()) ==> Exact()
      ensures outcome == if store.disk.fails(old(store.disk.calls) + 1) then CommitFailed else Committed
      ensures committed <==>
              !(store.disk.fails(old(store.disk.calls) + 1) && !store.disk.fails(old(store.disk.calls) + 2))
      ensures store.disk.NoFaults() ==> outcome == Committed
      ensures store.disk.OneFault() && outcome == CommitFailed ==> !committed
    {
      var ok := store.Consult(since);
      ok := store.Consult(since);
      if ok { return Committed; }
      ok := Undo(since);
      outcome := CommitFailed;
    }

    method Undo(ghost since: nat) returns (ok: bool)
      requires Written(since) && backup.Some?
      modifies this, store.disk
      ensures store.disk.faults >= old(store.disk.faults)
      ensures if ok then Unwritten(since) && backup.None? && store.disk.files[store.main] == baseline
              else Written(since) && backup.Some?
      ensures old(Exact()) ==> Exact()
      ensures ok <==> !store.disk.fails(old(store.disk.calls))
      ensures !ok ==> store.disk.faults == old(store.disk.faults) + 1
    {
      ghost var before := store.disk.files;
      MovedBackIsUnwritten(before, backup.value);
      if Exact() { MovedBackIsExact(before, backup.value); }
      ok := MoveBack(since);
      if ok { Withdrawn(since); }
    }

    method Withdrawn(ghost since: nat)
      requires Plan() && store.Safe(since) && UnwrittenFiles(store.disk.files, None)
      modifies this, store.disk
      ensures store.disk.faults >= old(store.disk.faults)
      ensures Unwritten(since) && backup.None? && store.disk.files == old(store.disk.files)
    {
      backup := None;
      committed := false;
      var synced := store.Consult(since);
    }

    method MoveBack(ghost since: nat) returns (ok: bool)
      requires Written(since) && backup.Some?
      modifies store.disk
      ensures store.disk.faults >= old(store.disk.faults)
      ensures store.Safe(since)
      ensures store.disk.files == if ok then Moved(old(store.disk.files), backup.value, store.main)
                                  else old(store.disk.files)
      ensures store.disk.Called(ok)
    {
      OldNamesAreKept(store.disk.files);
      ok := store.Replace(backup.value, baseline, since);
    }

    /** Every file is an original one or the update's own. */
    ghost predicate OwnedBeyond(files: Files, own: set<Path>) {
      forall p :: p in files && p !in origin ==> p in own
    }

    lemma MovedBackIsExact(before: Files, copy: Path)
      requires Plan() && WrittenFiles(before, Some(copy))
      requires OwnedBeyond(before, {staged} + Elements(created) + {copy})
      ensures OwnedBeyond(Moved(before, copy, store.main), {staged} + Elements(created))
    {
    }

    lemma OldNamesAreKept(files: Files)
      requires Plan() && Kept(base, files, {store.main, staged})
      ensures Refs(DocumentOf(store.f, baseline)) <= files.Keys
      ensures forall p :: p in origin && p != store.main ==> p in files && files[p] == origin[p]
    {
    }

    /** `rollback`, which ends in abort(); a failed replacement is reported and leaves the commit standing. */
    method Rollback(ghost since: nat) returns (ok: bool)
      requires Unwritten(since) || Written(since)
      modifies this, store.disk
      ensures store.disk.faults >= old(store.disk.faults)
      ensures if committed then Written(since) else Unwritten(since)
      ensures old(committed) && old(backup.Some?) && !committed ==> store.disk.files[store.main] == baseline
      ensures !ok <==> old(committed) && old(backup.Some?) && store.disk.fails(old(store.disk.calls))
      ensures !ok ==> committed
      ensures store.disk.NoFaults() && old(Exact()) && (old(backup.Some?) || !old(committed)) ==>
        ok && !committed && store.disk.files == origin[store.main := store.disk.files[store.main]]
    {
      ok := true;
      if committed && backup.Some? {
        ok := Undo(since);
        if !ok { return; }
      }
      Abort(since);
    }

    /** `abort`: does nothing once committed; otherwise removes what the update owns, and only that. */
    method Abort(ghost since: nat)
      requires Unwritten(since) || Written(since)
      modifies this, store.disk
      ensures store.disk.faults >= old(store.disk.faults)
      ensures committed == old(committed)
      ensures committed ==> Written(since) && store.disk.files == old(store.disk.files)
      ensures !committed ==> Unwritten(since) && store.disk.files[store.main] == old(store.disk.files[store.main])
      ensures !committed && store.disk.NoFaults() && old(Exact()) ==>
        store.disk.files == origin[store.main := store.disk.files[store.main]]
    {
      if committed { return; }
      RemoveOwn(since);
      DropBackup(since);
      if forall p :: p in store.disk.files ==> p in origin { OriginalAgain(store.disk.files); }
    }

    lemma OriginalAgain(files: Files)
      requires UnwrittenFiles(files, None) && store.main in origin && forall p :: p in files ==> p in origin
      ensures files == origin[store.main := files[store.main]]
    {
    }

    method DropBackup(ghost since: nat)
      requires Unwritten(since)
      modifies this`backup, store.disk
      ensures store.disk.faults >= old(store.disk.faults)
      ensures Unwritten(since) && backup.None? && store.disk.files[store.main] == old(store.disk.files[store.main])
      ensures forall p :: p in store.disk.files ==> p in old(store.disk.files)
      ensures store.disk.NoFaults() && old(backup.Some?) ==> old(backup.value) !in store.disk.files
    {
      if backup.Some? {
        store.Remove(backup.value, since);
        backup := None;
      }
    }

    method RemoveOwn(ghost since: nat)
      requires Unwritten(since)
      modifies store.disk
      ensures store.disk.faults >= old(store.disk.faults)
      ensures Unwritten(since) && store.disk.files[store.main] == old(store.disk.files[store.main])
      ensures store.disk.NoFaults() && old(Exact()) ==>
        forall p :: p in store.disk.files && p !in origin ==> backup == Some(p)
    {
      store.Discard([staged] + created, origin, since);
    }

    /** `finalize`, after a commit: the backup and the secrets only the old configuration named are removed. */
    method Finalize(ghost since: nat)
      requires Written(since)
      modifies this, store.disk
      ensures store.disk.faults >= old(store.disk.faults)
      ensures store.Safe(since) && committed && backup.None?
      ensures Kept(base, store.disk.files, {store.main, staged} + obsolete) && store.Ours(origin, store.disk.files)
      ensures Load(store.f, store.disk.files, store.main) == Some(config)
      ensures store.disk.NoFaults() && old(Exact()) ==>
        && store.disk.files.Keys == origin.Keys - obsolete + Elements(created)
        && store.Neat(origin, store.disk.files)
    {
      RemoveBackup(since);
      ghost var before := store.disk.files;
      UnlinkManagedSecrets(since);
      KeptTwice(before, store.disk.files);
      LoadsCandidate(store.disk.files);
      if store.disk.NoFaults() && old(Exact()) { FinalFiles(before, store.disk.files); }
    }

    lemma FinalFiles(before: Files, after: Files)
      requires Plan() && WrittenFiles(before, None) && Kept(before, after, obsolete)
      requires forall p :: p in after ==> p in before
      requires forall p :: p in before && p !in origin ==> p in created
      requires forall p :: p in obsolete ==> p !in after
      ensures after.Keys == origin.Keys - obsolete + Elements(created) && store.Neat(origin, after)
    {
      forall p | p in origin.Keys - obsolete + Elements(created) ensures p in after {
        assert p in base && p != staged;
      }
    }

    method RemoveBackup(ghost since: nat)
      requires Written(since)
      modifies this`backup, store.disk
      ensures store.disk.faults >= old(store.disk.faults)
      ensures Written(since) && backup.None?
      ensures store.disk.NoFaults() && old(Exact()) ==>
        forall p :: p in store.disk.files && p !in origin ==> p in created
    {
      NamesAreKept();
      if backup.Some? {
        store.Remove(backup.value, since);
        backup := None;
      }
    }

    lemma KeptTwice(before: Files, after: Files)
      requires Plan() && WrittenFiles(before, None) && Kept(before, after, obsolete)
      requires forall p :: p in after ==> p in before
      ensures Kept(base, after, {store.main, staged} + obsolete) && store.Ours(origin, after)
      ensures store.main in after && after[store.main] == base[staged]
    {
    }

    /** `_unlink_managed_secrets`, in no particular order. */
    method UnlinkManagedSecrets(ghost since: nat)
      requires Plan() && store.Safe(since) && store.main in store.disk.files
      requires store.disk.files[store.main] == base[staged]
      modifies store.disk
      ensures store.disk.faults >= old(store.disk.faults)
      ensures store.Safe(since)
      ensures Kept(old(store.disk.files), store.disk.files, obsolete)
      ensures forall p :: p in store.disk.files ==> p in old(store.disk.files)
      ensures store.disk.NoFaults() ==> forall p :: p in obsolete ==> p !in store.disk.files
    {
      var ok := store.Consult(since);
      if !ok { return; }
      var rest := obsolete;
      while rest != {}
        invariant rest <= obsolete && store.Safe(since)
        invariant Kept(old(store.disk.files), store.disk.files, obsolete)
        invariant forall p :: p in store.disk.files ==> p in old(store.disk.files)
        invariant store.disk.NoFaults() ==> forall p :: p in obsolete && p !in rest ==> p !in store.disk.files
        invariant store.disk.faults >= old(store.disk.faults)
        decreases rest
      {
        var path :| path in rest;
        rest := rest - {path};
        UnlinkSecret(path, since);
      }
      ok := store.Consult(since);
    }

    method UnlinkSecret(path: Path, ghost since: nat)
      requires Plan() && store.Safe(since) && store.main in store.disk.files && path in obsolete
      requires store.disk.files[store.main] == base[staged]
      modifies store.disk
      ensures store.disk.faults >= old(store.disk.faults)
      ensures store.Safe(since) && Kept(old(store.disk.files), store.disk.files, {path})
      ensures forall p :: p in store.disk.files ==> p in old(store.disk.files)
      ensures store.disk.NoFaults() ==> path !in store.disk.files
    {
      var ok := store.Consult(since);
      if ok && path in store.disk.files { store.Remove(path, since); }
    }

    lemma LoadsCandidate(files: Files)
      requires Plan() && Kept(base, files, {store.main, staged} + obsolete)
      requires store.main in files && files[store.main] == base[staged]
      ensures Load(store.f, files, store.main) == Some(config)
    {
      LoadedKept(store.f, base, files, DocumentOf(store.f, base[staged]), {store.main, staged} + obsolete);
    }
  }
}
